/** Bytes and the big-endian integer helpers shared by the wire formats. */
module Bytes {

  type byte = b: int | 0 <= b < 256

  /** 256 to the power n: the number of values n bytes can hold. */
  function Pow256(n: nat): (r: nat)
    ensures r > 0
  {
    if n == 0 then 1 else 256 * Pow256(n - 1)
  }

  /** The low n bytes of v, most significant first. */
  function ToBytes(v: nat, n: nat): (bs: seq<byte>)
    ensures |bs| == n
    decreases n, v
  {
    if n == 0 then [] else ToBytes(v / 256, n - 1) + [v % 256]
  }

  /** The value of a byte string read most significant byte first. */
  function FromBytes(bs: seq<byte>): (v: nat)
  {
    if bs == [] then 0 else 256 * FromBytes(bs[..|bs| - 1]) + bs[|bs| - 1]
  }

  /** Reading back n written bytes gives the value truncated to n bytes. */
  lemma {:induction false} ReadWritten(v: nat, n: nat)
    ensures FromBytes(ToBytes(v, n)) == v % Pow256(n)
    decreases n
  {
    if n > 0 {
      ReadWritten(v / 256, n - 1);
      var bs := ToBytes(v, n);
      assert bs[..n - 1] == ToBytes(v / 256, n - 1);
      ModStep(v, Pow256(n - 1));
    }
  }

  /** A value that fits is read back unchanged. */
  lemma ReadWrittenFits(v: nat, n: nat)
    requires v < Pow256(n)
    ensures FromBytes(ToBytes(v, n)) == v
  {
    ReadWritten(v, n);
  }

  lemma ModStep(v: nat, p: nat)
    requires p > 0
    ensures v % (256 * p) == 256 * ((v / 256) % p) + v % 256
  {
    var q := v / 256;
    var k := q / p;
    var r := 256 * (q % p) + v % 256;
    assert q % p <= p - 1;
    assert v == (256 * p) * k + r by {
      assert q == p * k + q % p;
      assert 256 * q == (256 * p) * k + 256 * (q % p);
    }
    ModUnique(v, 256 * p, k, r);
  }

  /** Division with remainder is unique. */
  lemma ModUnique(v: nat, d: nat, k: int, r: nat)
    requires d > 0 && v == d * k + r && r < d
    ensures v % d == r && v / d == k
  {
    var q, s := v / d, v % d;
    Distribute(d, q, k);
    if q > k { AtLeast(d, q - k); }
    if q < k { Distribute(d, k, q); AtLeast(d, k - q); }
  }

  lemma Distribute(d: int, x: int, y: int)
    ensures d * x - d * y == d * (x - y)
  {
  }

  lemma AtLeast(d: int, x: int)
    requires d > 0 && x >= 1
    ensures d * x >= d
  {
  }

  lemma PowValues()
    ensures Pow256(1) == 0x100 && Pow256(2) == 0x1_0000
    ensures Pow256(4) == 0x1_0000_0000 && Pow256(8) == 0x1_0000_0000_0000_0000
  {
    assert Pow256(3) == 0x100_0000;
    assert Pow256(4) == 0x1_0000_0000;
    assert Pow256(6) == 0x1_0000_0000_0000;
  }
}
