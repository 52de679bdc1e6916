/** What several modules use: optional values, bytes, and division with remainder. */
module Common {

  datatype Option<+T> = None | Some(value: T)

  type Byte = x: nat | x < 256

  const TWO_32: nat := 0x1_0000_0000

  function Min(a: int, b: int): int {
    if a < b then a else b
  }

  function Zeros(n: nat): (z: seq<Byte>)
    ensures |z| == n && forall i :: 0 <= i < n ==> z[i] == 0
  {
    seq(n, i => 0)
  }

  lemma Multiple(d: int, k: int)
    requires d > 0
    ensures k >= 1 ==> d * k >= d
    ensures k <= -1 ==> d * k <= -d
  {
  }

  /** Quotient and remainder are unique. */
  lemma Division(d: int, x: int, q: int, r: int)
    requires d > 0 && x == d * q + r && 0 <= r < d
    ensures x / d == q && x % d == r
  {
    var k := x / d - q;
    assert d * k == d * (x / d) - d * q;
    assert d * k == r - x % d;
    Multiple(d, k);
  }

  /** An addition modulo 2^32 may drop the carries of one side beforehand. */
  lemma ModAdds(a: int, b: int)
    ensures (a % TWO_32 + b) % TWO_32 == (a + b) % TWO_32
  {
    var c := a % TWO_32 + b;
    Division(TWO_32, a + b, a / TWO_32 + c / TWO_32, c % TWO_32);
  }
}
