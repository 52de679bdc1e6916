/** The streaming MD5 of the session library: a context updated in place, proved against the fold
    over the padded message. */
module Md5Context {
  import opened Common
  import opened Md5

  /** MD5Update's block loop runs on 32-bit arithmetic. From a buffer holding index bytes it stops
      behind the last whole block of the input unless its test i + 63 wraps around there. */
  predicate LoopStops(index: nat, len: nat)
    requires index < 64
  {
    len < 64 - index || BlocksEnd(index, len) + 63 < TWO_32
  }

  /** Where the input bytes begin that are left for the buffer. */
  function BlocksEnd(index: nat, len: nat): (i: nat)
    requires index < 64 && len >= 64 - index
    ensures i <= len < i + 64 && (index + i) % 64 == 0 && i >= 64 - index
  {
    len - (index + len) % 64
  }

  /** The condition is exact: at the place where the loop should stop, its wrapped test is false
      if and only if LoopStops holds; otherwise the loop reads on behind the input. */
  lemma LoopStopsIff(index: nat, len: nat)
    requires index < 64 && 64 - index <= len < TWO_32
    ensures LoopStops(index, len) <==> !((BlocksEnd(index, len) + 63) % TWO_32 < len)
  {
  }

  /** The longest input is such a case, behind a buffer that holds one byte. */
  lemma LoopRunsOn()
    ensures !LoopStops(1, TWO_32 - 1) && BlocksEnd(1, TWO_32 - 1) == TWO_32 - 1
  {
  }

  /** Words to bytes, in steps of four bytes. */
  method Encode(output: array<Byte>, input: seq<Word>, len: nat)
    requires len % 4 == 0 && len <= output.Length && len / 4 <= |input|
    modifies output
    ensures output[..len] == Encoded(input[..len / 4])
    ensures forall k :: len <= k < output.Length ==> output[k] == old(output[k])
  {
    hide ByteOf;
    var i, j := 0, 0;
    while j < len
      invariant j == 4 * i && j <= len
      invariant forall k :: 0 <= k < j ==> output[k] == ByteOf(input[k / 4], k % 4)
      invariant forall k :: len <= k < output.Length ==> output[k] == old(output[k])
    {
      BytesOf(input[i]);
      output[j] := input[i] % 256;
      output[j + 1] := input[i] / 256 % 256;
      output[j + 2] := input[i] / 65536 % 256;
      output[j + 3] := input[i] / 16777216 % 256;
      i, j := i + 1, j + 4;
    }
  }

  lemma BytesOf(w: Word)
    ensures ByteOf(w, 0) == w % 256 && ByteOf(w, 1) == w / 256 % 256
    ensures ByteOf(w, 2) == w / 65536 % 256 && ByteOf(w, 3) == w / 16777216 % 256
  {
  }

  /** Bytes to words. */
  method Decode(output: array<Word>, input: seq<Byte>, len: nat)
    requires len % 4 == 0 && len <= |input| && len / 4 <= output.Length
    modifies output
    ensures output[..len / 4] == Decoded(input[..len])
  {
    var i, j := 0, 0;
    while j < len
      invariant j == 4 * i && j <= len
      invariant forall k :: 0 <= k < i ==>
                  output[k] == WordOf(input[4 * k], input[4 * k + 1], input[4 * k + 2], input[4 * k + 3])
    {
      output[i] := WordOf(input[j], input[j + 1], input[j + 2], input[j + 3]);
      i, j := i + 1, j + 4;
    }
  }

  class Context {
    var state: State
    var count0: Word
    var count1: Word
    var buffer: array<Byte>
    const transform: (State, seq<Word>) -> State

    /** Everything that has been hashed so far. */
    ghost var message: seq<Byte>

    /** The two words count the bits modulo 2^64. */
    ghost predicate Counts() reads this {
      (count0, count1) == BitLength(|message|)
    }

    ghost predicate Valid()
      reads this, buffer
    {
      && buffer.Length == 64
      && Counts()
      && state == Fold(transform, message, |message| / 64)
      && buffer[..|message| % 64] == message[|message| / 64 * 64..]
    }

    constructor (transform: (State, seq<Word>) -> State)
      ensures Valid() && message == [] && this.transform == transform && fresh(buffer)
    {
      this.transform := transform;
      count0, count1 := 0, 0;
      state := INITIAL;
      buffer := new Byte[64](_ => 0);
      message := [];
    }

    method Count(inputLen: nat)
      requires Counts() && inputLen < TWO_32
      modifies this`count0, this`count1
      ensures (count0, count1) == BitLength(|message| + inputLen)
    {
      CountSteps(count0, count1, |message|, inputLen);
      hide BitLength;
      var low: Word := 8 * inputLen % TWO_32;
      count0 := (count0 + low) % TWO_32;
      if count0 < low {
        count1 := (count1 + 1) % TWO_32;
      }
      count1 := (count1 + inputLen / 0x2000_0000) % TWO_32;
    }

    /** MD5Transform on one block. */
    method Transform(block: seq<Byte>)
      requires |block| == 64
      modifies this`state
      ensures state == transform(old(state), Decoded(block))
    {
      var x := new Word[16];
      Decode(x, block, 64);
      assert x[..] == x[..16] && block[..64] == block;
      state := transform(state, x[..]);
    }

    /** Complete the buffered block with the head of the input. */
    method FirstBlock(input: seq<Byte>, index: nat)
      requires buffer.Length == 64 && index == |message| % 64 && |input| >= 64 - index
      requires state == Fold(transform, message, |message| / 64)
      requires buffer[..index] == message[|message| / 64 * 64..]
      modifies this`state, buffer
      ensures state == Fold(transform, message + input, |message| / 64 + 1)
    {
      hide Fold, Decoded;
      ghost var before := buffer[..];
      forall k | 0 <= k < 64 - index { buffer[index + k] := input[k]; }
      FilledBlock(message, input, before, buffer[..]);
      FoldPrefix(transform, message, input, |message| / 64);
      FoldStep(transform, message + input, |message| / 64);
      Transform(buffer[..]);
    }

    /** The whole blocks of the input from partLen on; the test wraps around as unsigned int does. */
    method WholeBlocks(input: seq<Byte>, partLen: nat) returns (i: nat)
      requires |input| < TWO_32 && |input| >= partLen == 64 - |message| % 64
      requires LoopStops(|message| % 64, |input|)
      requires state == Fold(transform, message + input, |message| / 64 + 1)
      modifies this`state
      ensures i == BlocksEnd(|message| % 64, |input|)
      ensures state == Fold(transform, message + input, |message + input| / 64)
    {
      hide LoopStops, BlocksEnd, Fold, Decoded;
      i := partLen;
      ghost var q := |message| / 64 + 1;
      BlocksEndFirst(|message| % 64, |input|);
      LoopTest(|message| % 64, |input|, i);
      while (i + 63) % TWO_32 < |input|
        invariant 64 * q == |message| + i && i <= BlocksEnd(|message| % 64, |input|)
        invariant (i + 63) % TWO_32 < |input| <==> i < BlocksEnd(|message| % 64, |input|)
        invariant i < BlocksEnd(|message| % 64, |input|) ==> i + 64 <= BlocksEnd(|message| % 64, |input|)
        invariant state == Fold(transform, message + input, q)
        decreases |input| - i
      {
        LoopBlock(message, input, i, q);
        FoldStep(transform, message + input, q);
        Transform(input[i..i + 64]);
        i, q := i + 64, q + 1;
        LoopTest(|message| % 64, |input|, i);
      }
      assert q == |message + input| / 64;
    }

    /** Keep the rest of the input, from i on, behind the first index bytes of the buffer. */
    method Keep(input: seq<Byte>, i: nat, index: nat)
      requires buffer.Length == 64
      requires i == (if |input| >= 64 - |message| % 64 then BlocksEnd(|message| % 64, |input|) else 0)
      requires index == (if i == 0 then |message| % 64 else 0)
      requires i == 0 ==> buffer[..|message| % 64] == message[|message| / 64 * 64..]
      modifies buffer
      ensures var all := message + input;
              buffer[..|all| % 64] == all[|all| / 64 * 64..]
    {
      ghost var before := buffer[..];
      forall k | 0 <= k < |input| - i { buffer[index + k] := input[i + k]; }
      Remainder(message, input, before, buffer[..], i);
    }

    /** Hash the whole blocks of what is buffered and the input; the input from i on is left. */
    method Blocks(input: seq<Byte>, index: nat) returns (i: nat)
      requires buffer.Length == 64 && index == |message| % 64 && |input| < TWO_32
      requires LoopStops(|message| % 64, |input|)
      requires state == Fold(transform, message, |message| / 64)
      requires buffer[..index] == message[|message| / 64 * 64..]
      modifies this`state, buffer
      ensures i == if |input| >= 64 - index then BlocksEnd(index, |input|) else 0
      ensures state == Fold(transform, message + input, |message + input| / 64)
      ensures i == 0 ==> buffer[..index] == old(buffer[..index])
    {
      hide LoopStops, BlocksEnd, Fold;
      var partLen := 64 - index;
      i := 0;
      if |input| >= partLen {
        FirstBlock(input, index);
        i := WholeBlocks(input, partLen);
      } else {
        FoldPrefix(transform, message, input, |message| / 64);
      }
    }

    method Update(input: seq<Byte>)
      requires Valid() && |input| < TWO_32
      requires LoopStops(|message| % 64, |input|)
      modifies this, buffer
      ensures Valid() && message == old(message) + input && buffer == old(buffer)
    {
      hide BitLength, LoopStops, BlocksEnd, Fold;
      IndexOfCount(|message|);
      var index := count0 / 8 % 64;
      Count(|input|);
      var i := Blocks(input, index);
      Keep(input, i, if i == 0 then index else 0);
      message := message + input;
    }

    /** The two updates of MD5Final: padding, and the length before padding. */
    method Pad()
      requires Valid()
      modifies this, buffer
      ensures Valid() && message == Padded(old(message)) && buffer == old(buffer)
    {
      hide BitLength, LoopStops, Encoded, Fold, Padded;
      ghost var m := message;
      var bits := new Byte[8];
      Encode(bits, [count0, count1], 8);
      WholeSeq(bits[..]);
      WholeSeq([count0, count1]);
      IndexOfCount(|m|);
      var index := count0 / 8 % 64;
      var padLen := if index < 56 then 56 - index else 120 - index;
      PaddedIs(m, padLen);
      ShortStops(index, padLen);
      Update([0x80] + Zeros(padLen - 1));
      ShortStops(|message| % 64, 8);
      Update(bits[..]);
    }

    /** Pad, append the length, write out the state and wipe the context. */
    method Final(digest: array<Byte>)
      requires Valid() && digest.Length == 16 && digest != buffer
      modifies this, buffer, digest
      ensures |Padded(old(message))| % 64 == 0 && digest[..] == Digest(transform, old(message))
      ensures state == State(0, 0, 0, 0) && count0 == count1 == 0
      ensures buffer == old(buffer) && forall k :: 0 <= k < buffer.Length ==> buffer[k] == 0
    {
      hide BitLength, Encoded, Fold, Padded, Digest;
      PaddedAsTheStandard(message);
      DigestIs(transform, message);
      Pad();
      var words := [state.a, state.b, state.c, state.d];
      Encode(digest, words, 16);
      WholeSeq(digest[..]);
      WholeSeq(words);
      state := State(0, 0, 0, 0);
      count0, count1 := 0, 0;
      forall k | 0 <= k < buffer.Length { buffer[k] := 0; }
    }
  }

  lemma WholeSeq<T>(s: seq<T>)
    ensures s[..|s|] == s
  {
  }

  lemma PaddedIs(m: seq<Byte>, padLen: nat)
    requires padLen == if |m| % 64 < 56 then 56 - |m| % 64 else 120 - |m| % 64
    ensures Padded(m) == m + ([0x80] + Zeros(padLen - 1)) + Encoded([BitLength(|m|).0, BitLength(|m|).1])
  {
    PadLength(|m|);
  }

  lemma DigestIs(f: (State, seq<Word>) -> State, m: seq<Byte>)
    requires |Padded(m)| % 64 == 0
    ensures var s := Fold(f, Padded(m), |Padded(m)| / 64);
            Digest(f, m) == Encoded([s.a, s.b, s.c, s.d])
  {
  }

  /** Any message, cut in any way into calls of Update, gives the digest of the whole. */
  method HashPieces(f: (State, seq<Word>) -> State, pieces: seq<seq<Byte>>) returns (digest: array<Byte>)
    requires forall j :: 0 <= j < |pieces| ==>
               |pieces[j]| < TWO_32 && LoopStops(|Joined(pieces, j)| % 64, |pieces[j]|)
    ensures |Padded(Joined(pieces, |pieces|))| % 64 == 0
    ensures digest[..] == Digest(f, Joined(pieces, |pieces|))
  {
    hide LoopStops, Padded, Digest, Fold, BitLength;
    var context := new Context(f);
    for j := 0 to |pieces|
      invariant context.Valid() && fresh(context) && fresh(context.buffer)
      invariant context.message == Joined(pieces, j) && context.transform == f
    {
      context.Update(pieces[j]);
    }
    digest := new Byte[16];
    context.Final(digest);
  }

  function Joined(pieces: seq<seq<Byte>>, j: nat): seq<Byte>
    requires j <= |pieces|
  {
    if j == 0 then [] else Joined(pieces, j - 1) + pieces[j - 1]
  }

  lemma CountAdds(n: nat, k: nat)
    requires k < TWO_32
    ensures var low := 8 * k % TWO_32;
            var c0 := (BitLength(n).0 + low) % TWO_32;
            var carry := if c0 < low then 1 else 0;
            BitLength(n + k) == (c0, (BitLength(n).1 + carry + k / 0x2000_0000) % TWO_32)
  {
    var low, high := 8 * k % TWO_32, k / 0x2000_0000;
    var low0, high0 := 8 * n % TWO_32, 8 * n / TWO_32;
    var carry := if low0 + low >= TWO_32 then 1 else 0;
    Division(TWO_32, 8 * (n + k), high0 + high + carry, low0 + low - TWO_32 * carry);
    Division(TWO_32, low0 + low, carry, low0 + low - TWO_32 * carry);
    ModAdds(high0, high + carry);
  }

  /** The same in the steps of the code. */
  lemma CountSteps(c0: Word, c1: Word, n: nat, k: nat)
    requires (c0, c1) == BitLength(n) && k < TWO_32
    ensures var low := 8 * k % TWO_32;
            var d0 := (c0 + low) % TWO_32;
            var d1 := if d0 < low then (c1 + 1) % TWO_32 else c1;
            BitLength(n + k) == (d0, (d1 + k / 0x2000_0000) % TWO_32)
  {
    CountAdds(n, k);
    hide BitLength;
    ModAdds(c1 + 1, k / 0x2000_0000);
  }

  lemma ShortStops(index: nat, len: nat)
    requires index < 64 && len < 256
    ensures LoopStops(index, len)
  {
  }

  lemma PadLength(n: nat)
    ensures var padLen := if n % 64 < 56 then 56 - n % 64 else 120 - n % 64;
            padLen - 1 == ZeroBytes(n) && (n + padLen + 8) % 64 == 0
  {
  }

  lemma EightTimes(n: nat)
    ensures 8 * n % TWO_32 == 8 * (n % 0x2000_0000)
  {
    Division(TWO_32, 8 * n, n / 0x2000_0000, 8 * (n % 0x2000_0000));
  }

  lemma IndexOfCount(n: nat)
    ensures BitLength(n).0 / 8 % 64 == n % 64
  {
    EightTimes(n);
    var q, r := n / 0x2000_0000, n % 0x2000_0000;
    Division(64, 64 * (0x80_0000 * q) + r, 0x80_0000 * q + r / 64, r % 64);
  }

  /** The buffered bytes and the head of the input make up the next block. */
  lemma FilledBlock(message: seq<Byte>, input: seq<Byte>, before: seq<Byte>, after: seq<Byte>)
    requires |before| == |after| == 64 && |input| >= 64 - |message| % 64
    requires before[..|message| % 64] == message[|message| / 64 * 64..]
    requires forall k :: 0 <= k < |message| % 64 ==> after[k] == before[k]
    requires forall k :: |message| % 64 <= k < 64 ==> after[k] == input[k - |message| % 64]
    ensures var q := |message| / 64;
            after == (message + input)[64 * q..64 * (q + 1)]
  {
    var q, x := |message| / 64, |message| % 64;
    forall k | 0 <= k < 64 ensures after[k] == (message + input)[64 * q..64 * (q + 1)][k] {
      if k < x { assert before[..x][k] == message[64 * q..][k]; }
    }
  }

  lemma LoopBlock(message: seq<Byte>, input: seq<Byte>, i: nat, q: nat)
    requires 64 * q == |message| + i && i + 64 <= |input|
    ensures input[i..i + 64] == (message + input)[64 * q..64 * (q + 1)]
  {
  }

  lemma BlocksEndFirst(index: nat, len: nat)
    requires index < 64 && len >= 64 - index
    ensures 64 - index <= BlocksEnd(index, len)
  {
  }

  /** Under LoopStops the wrapped test is the intended one. */
  lemma LoopTest(index: nat, len: nat, i: nat)
    requires index < 64 && 64 - index <= len < TWO_32 && LoopStops(index, len)
    requires i <= BlocksEnd(index, len) && (index + i) % 64 == 0
    ensures (i + 63) % TWO_32 < len <==> i < BlocksEnd(index, len)
    ensures i < BlocksEnd(index, len) ==> i + 64 <= BlocksEnd(index, len)
  {
  }

  lemma RemainderLength(m: nat, k: nat, i: nat)
    requires i == if k >= 64 - m % 64 then BlocksEnd(m % 64, k) else 0
    ensures var x := if i == 0 then m % 64 else 0;
            (m + k) % 64 == x + k - i && (m + k) / 64 * 64 + x == m + i
  {
  }

  lemma Joins(message: seq<Byte>, input: seq<Byte>, after: seq<Byte>, i: nat, x: nat, start: nat)
    requires i <= |input| && start + x == |message| + i && (i == 0 || x == 0)
    requires x + |input| - i <= |after|
    requires forall k :: 0 <= k < x ==> after[k] == message[start + k]
    requires forall k :: x <= k < x + |input| - i ==> after[k] == input[i + k - x]
    ensures after[..x + |input| - i] == (message + input)[start..]
  {
    var all := message + input;
    forall k | 0 <= k < x + |input| - i ensures after[k] == all[start + k] {
    }
  }

  lemma Buffered(message: seq<Byte>, before: seq<Byte>, x: nat, start: nat)
    requires x <= |before| && start <= |message| && before[..x] == message[start..]
    ensures |message| == start + x && forall k :: 0 <= k < x ==> before[k] == message[start + k]
  {
    assert forall k :: 0 <= k < x ==> before[k] == before[..x][k] == message[start..][k];
  }

  /** What is left of the input goes into the buffer. */
  lemma Remainder(message: seq<Byte>, input: seq<Byte>, before: seq<Byte>, after: seq<Byte>, i: nat)
    requires |before| == |after| == 64
    requires i == (if |input| >= 64 - |message| % 64 then BlocksEnd(|message| % 64, |input|) else 0)
    requires i == 0 ==> before[..|message| % 64] == message[|message| / 64 * 64..]
    requires var x := if i == 0 then |message| % 64 else 0;
             && (forall k :: 0 <= k < x ==> after[k] == before[k])
             && (forall k :: x <= k < x + |input| - i ==> after[k] == input[i + k - x])
    ensures var all := message + input;
            after[..|all| % 64] == all[|all| / 64 * 64..]
  {
    RemainderLength(|message|, |input|, i);
    var x := if i == 0 then |message| % 64 else 0;
    hide BlocksEnd;
    if i == 0 { Buffered(message, before, x, |message| / 64 * 64); }
    Joins(message, input, after, i, x, |message + input| / 64 * 64);
  }
}
