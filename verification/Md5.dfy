/** What the MD5 code should compute, section 3 of RFC 1321: padding, the length in bits, the byte
    order of words, and the fold of the compression step over the blocks. The step itself, the 64
    rounds of MD5Transform, is a parameter: everything here holds for every step function. */
module Md5 {
  import opened Common

  type Word = x: nat | x < 0x1_0000_0000

  datatype State = State(a: Word, b: Word, c: Word, d: Word)

  const INITIAL := State(0x67452301, 0xefcdab89, 0x98badcfe, 0x10325476)

  // ---------- Bytes and words, least significant byte first ----------

  function ByteOf(w: Word, j: nat): Byte
    requires j < 4
  {
    if j == 0 then w % 256
    else if j == 1 then w / 256 % 256
    else if j == 2 then w / 65536 % 256
    else w / 16777216 % 256
  }

  function WordOf(b0: Byte, b1: Byte, b2: Byte, b3: Byte): Word {
    b0 + 256 * b1 + 65536 * b2 + 16777216 * b3
  }

  function Encoded(ws: seq<Word>): (bs: seq<Byte>)
    ensures |bs| == 4 * |ws|
  {
    seq(4 * |ws|, k requires 0 <= k < 4 * |ws| => ByteOf(ws[k / 4], k % 4))
  }

  function Decoded(bs: seq<Byte>): (ws: seq<Word>)
    ensures |ws| == |bs| / 4
  {
    seq(|bs| / 4, i requires 0 <= i < |bs| / 4 => WordOf(bs[4 * i], bs[4 * i + 1], bs[4 * i + 2], bs[4 * i + 3]))
  }

  lemma Split(x: nat)
    ensures x == 256 * (x / 256) + x % 256
  {
  }

  lemma Quarter(w: nat)
    ensures w / 65536 == w / 256 / 256
  {
  }

  lemma BytesAre(w: Word)
    ensures ByteOf(w, 0) == w % 256 && ByteOf(w, 1) == w / 256 % 256
    ensures ByteOf(w, 2) == w / 256 / 256 % 256 && ByteOf(w, 3) == w / 256 / 256 / 256
  {
    Quarter(w);
    Quarter(w / 256);
  }

  lemma Weighted(w: nat, q: nat, r: nat, d: nat, a: nat, b: nat, c: nat)
    requires w == 256 * q + a && q == 256 * r + b && r == 256 * d + c
    ensures a + 256 * b + 65536 * c + 16777216 * d == w
  {
  }

  /** Byte j of a word counts 256 to the power of j. */
  lemma WordOfBytes(w: Word)
    ensures ByteOf(w, 0) + 256 * ByteOf(w, 1) + 65536 * ByteOf(w, 2) + 16777216 * ByteOf(w, 3) == w
    ensures WordOf(ByteOf(w, 0), ByteOf(w, 1), ByteOf(w, 2), ByteOf(w, 3)) == w
  {
    hide ByteOf;
    BytesAre(w);
    var q: nat, r: nat, d: nat := w / 256, w / 256 / 256, w / 256 / 256 / 256;
    Split(w);
    Split(q);
    Split(r);
    Weighted(w, q, r, d, w % 256, q % 256, r % 256);
  }

  lemma BytesOfWord(b0: Byte, b1: Byte, b2: Byte, b3: Byte)
    ensures var w := WordOf(b0, b1, b2, b3);
            ByteOf(w, 0) == b0 && ByteOf(w, 1) == b1 && ByteOf(w, 2) == b2 && ByteOf(w, 3) == b3
  {
    var w := WordOf(b0, b1, b2, b3);
    assert w / 256 == b1 + 256 * b2 + 65536 * b3;
    assert w / 65536 == b2 + 256 * b3;
  }

  lemma EncodedAt(ws: seq<Word>, i: nat, j: nat)
    requires i < |ws| && j < 4
    ensures Encoded(ws)[4 * i + j] == ByteOf(ws[i], j)
  {
    assert (4 * i + j) / 4 == i && (4 * i + j) % 4 == j;
  }

  /** Decode undoes Encode. */
  lemma DecodeEncode(ws: seq<Word>)
    ensures Decoded(Encoded(ws)) == ws
  {
    hide Encoded, WordOf, ByteOf;
    forall i | 0 <= i < |ws| ensures Decoded(Encoded(ws))[i] == ws[i] {
      EncodedAt(ws, i, 0);
      EncodedAt(ws, i, 1);
      EncodedAt(ws, i, 2);
      EncodedAt(ws, i, 3);
      WordOfBytes(ws[i]);
    }
  }

  /** Encode undoes Decode on whole words. */
  lemma EncodeDecode(bs: seq<Byte>)
    requires |bs| % 4 == 0
    ensures Encoded(Decoded(bs)) == bs
  {
    forall k | 0 <= k < |bs| ensures Encoded(Decoded(bs))[k] == bs[k] {
      var i := k / 4;
      assert k == 4 * i + k % 4;
      BytesOfWord(bs[4 * i], bs[4 * i + 1], bs[4 * i + 2], bs[4 * i + 3]);
    }
  }

  // ---------- The fold over blocks ----------

  /** The state after the first k blocks of m. */
  function Fold(f: (State, seq<Word>) -> State, m: seq<Byte>, k: nat): State
    requires 64 * k <= |m|
  {
    if k == 0 then INITIAL else f(Fold(f, m, k - 1), Decoded(m[64 * (k - 1)..64 * k]))
  }

  lemma FoldStep(f: (State, seq<Word>) -> State, m: seq<Byte>, k: nat)
    requires 64 * (k + 1) <= |m|
    ensures Fold(f, m, k + 1) == f(Fold(f, m, k), Decoded(m[64 * k..64 * (k + 1)]))
  {
  }

  lemma {:induction false} FoldPrefix(f: (State, seq<Word>) -> State, m: seq<Byte>, x: seq<Byte>, k: nat)
    requires 64 * k <= |m|
    ensures Fold(f, m + x, k) == Fold(f, m, k)
  {
    if k != 0 {
      FoldPrefix(f, m, x, k - 1);
      assert (m + x)[64 * (k - 1)..64 * k] == m[64 * (k - 1)..64 * k];
    }
  }

  // ---------- Padding ----------

  function BitLength(n: nat): (r: (Word, Word))
  {
    (8 * n % TWO_32, 8 * n / TWO_32 % TWO_32)
  }

  /** How many zero bytes follow the 0x80. */
  function ZeroBytes(n: nat): (z: nat)
    ensures z < 64
  {
    (119 - n % 64) % 64
  }

  predicate Reaches448(n: nat, z: nat) {
    (n + 1 + z) % 64 == 56
  }

  function Padded(m: seq<Byte>): seq<Byte> {
    m + ([0x80] + Zeros(ZeroBytes(|m|))) + Encoded([BitLength(|m|).0, BitLength(|m|).1])
  }

  function Digest(f: (State, seq<Word>) -> State, m: seq<Byte>): seq<Byte>
    requires |Padded(m)| % 64 == 0
  {
    var s := Fold(f, Padded(m), |Padded(m)| / 64);
    Encoded([s.a, s.b, s.c, s.d])
  }

  lemma ZerosAreLeast(n: nat)
    ensures Reaches448(n, ZeroBytes(n))
    ensures forall z: nat :: Reaches448(n, z) ==> ZeroBytes(n) <= z
  {
  }

  lemma Halves(x: nat)
    ensures x % TWO_32 + TWO_32 * (x / TWO_32 % TWO_32) == x % 0x1_0000_0000_0000_0000
  {
    var q := x / TWO_32;
    var r, h := x % TWO_32, q % TWO_32;
    assert x == (q / TWO_32) * 0x1_0000_0000_0000_0000 + (TWO_32 * h + r);
    Division(0x1_0000_0000_0000_0000, x, q / TWO_32, TWO_32 * h + r);
  }

  lemma SplitLength(n: nat)
    ensures BitLength(n).0 + TWO_32 * BitLength(n).1 == 8 * n % 0x1_0000_0000_0000_0000
  {
    Halves(8 * n);
  }

  lemma WholeBlocks(n: nat, z: nat)
    requires Reaches448(n, z)
    ensures (n + 1 + z + 8) % 64 == 0
  {
  }

  lemma LengthAppended(m: seq<Byte>)
    ensures |Padded(m)| == |m| + 1 + ZeroBytes(|m|) + 8
    ensures Decoded(Padded(m)[|Padded(m)| - 8..]) == [BitLength(|m|).0, BitLength(|m|).1]
  {
    hide Encoded, Decoded, ZeroBytes, Zeros, BitLength;
    var words := [BitLength(|m|).0, BitLength(|m|).1];
    assert Padded(m)[|Padded(m)| - 8..] == Encoded(words);
    DecodeEncode(words);
  }

  lemma PaddedStarts(m: seq<Byte>)
    ensures m <= Padded(m) && |Padded(m)| == |m| + 1 + ZeroBytes(|m|) + 8
    ensures Padded(m)[|m|] == 0x80
    ensures forall j :: |m| < j < |Padded(m)| - 8 ==> Padded(m)[j] == 0
  {
    hide Encoded, ZeroBytes, BitLength;
    var pad := [0x80] + Zeros(ZeroBytes(|m|));
    var front := m + pad;
    assert forall j :: |m| < j < |front| ==> front[j] == pad[j - |m|] == Zeros(ZeroBytes(|m|))[j - |m| - 1];
    assert forall j :: 0 <= j < |front| ==> Padded(m)[j] == front[j];
  }

  /** Section 3.1 asks for a single 1 bit behind the message and for the least number of 0 bits that
      leaves the length 448 bits past a multiple of 512; section 3.2 for the length modulo 2^64, low
      word first. */
  lemma PaddedAsTheStandard(m: seq<Byte>)
    ensures |Padded(m)| % 64 == 0 && |Padded(m)| == |m| + 1 + ZeroBytes(|m|) + 8
    ensures m <= Padded(m) && Padded(m)[|m|] == 0x80
    ensures forall j :: |m| < j < |Padded(m)| - 8 ==> Padded(m)[j] == 0
    ensures Reaches448(|m|, ZeroBytes(|m|))
    ensures forall z: nat :: Reaches448(|m|, z) ==> ZeroBytes(|m|) <= z
    ensures var w := Decoded(Padded(m)[|Padded(m)| - 8..]);
            |w| == 2 && w[0] + TWO_32 * w[1] == 8 * |m| % 0x1_0000_0000_0000_0000
  {
    hide Padded, Decoded, ZeroBytes, BitLength, Reaches448;
    PaddedStarts(m);
    LengthAppended(m);
    ZerosAreLeast(|m|);
    SplitLength(|m|);
    WholeBlocks(|m|, ZeroBytes(|m|));
  }

  /** Section 3.3: the initial words, low-order byte first. */
  lemma InitialAsTheStandard()
    ensures INITIAL == State(WordOf(0x01, 0x23, 0x45, 0x67), WordOf(0x89, 0xab, 0xcd, 0xef),
                             WordOf(0xfe, 0xdc, 0xba, 0x98), WordOf(0x76, 0x54, 0x32, 0x10))
  {
  }

  /** Section 3.5: the digest is the four words A, B, C, D of the last state, low-order byte first. */
  lemma DigestAsTheStandard(f: (State, seq<Word>) -> State, m: seq<Byte>)
    requires |Padded(m)| % 64 == 0
    ensures var s, d := Fold(f, Padded(m), |Padded(m)| / 64), Digest(f, m);
            |d| == 16 && Decoded(d) == [s.a, s.b, s.c, s.d]
  {
    hide Encoded, Decoded, Padded, Fold;
    var s := Fold(f, Padded(m), |Padded(m)| / 64);
    DecodeEncode([s.a, s.b, s.c, s.d]);
  }
}
