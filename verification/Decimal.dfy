/** Unsigned numbers as ASCII decimals: what snprintf writes into fixed-width fields and strtoull reads back. */
module Decimal {
  import opened Bytes

  const ZERO: byte := 48
  const SPACE: byte := 32

  predicate IsDigit(b: byte) {
    48 <= b <= 57
  }

  predicate AllDigits(s: seq<byte>) {
    forall i :: 0 <= i < |s| ==> IsDigit(s[i])
  }

  function Pow10(n: nat): (p: nat)
    ensures p > 0
  {
    if n == 0 then 1 else 10 * Pow10(n - 1)
  }

  /** Decimal digits without leading zeros; one digit for 0. */
  function Digits(v: nat): (s: seq<byte>)
    ensures |s| > 0 && AllDigits(s)
  {
    if v < 10 then [48 + v] else Digits(v / 10) + [48 + v % 10]
  }

  function Value(s: seq<byte>): nat
    requires AllDigits(s)
  {
    if s == [] then 0 else 10 * Value(s[..|s| - 1]) + (s[|s| - 1] - 48)
  }

  function Copies(b: byte, n: nat): (s: seq<byte>)
    ensures |s| == n && forall i :: 0 <= i < n ==> s[i] == b
  {
    seq(n, _ => b)
  }

  /** Zero-filled to a width, and cut to it when longer. */
  function ZeroPadded(v: nat, width: nat): (s: seq<byte>)
    ensures |s| == width && AllDigits(s)
  {
    var d := Digits(v);
    if |d| >= width then d[..width] else Copies(ZERO, width - |d|) + d
  }

  /** Left-justified in spaces, and cut to the width when longer. */
  function SpacePadded(v: nat, width: nat): (s: seq<byte>)
    ensures |s| == width
  {
    var d := Digits(v);
    if |d| >= width then d[..width] else d + Copies(SPACE, width - |d|)
  }

  // ---- strtoull, base 10 ----

  predicate IsSpace(b: byte) {
    b == 32 || 9 <= b <= 13
  }

  function SkipSpace(s: seq<byte>): seq<byte> {
    if s != [] && IsSpace(s[0]) then SkipSpace(s[1..]) else s
  }

  function ReadDigits(s: seq<byte>, acc: nat): nat
    decreases |s|, acc
  {
    if s == [] || !IsDigit(s[0]) then acc else ReadDigits(s[1..], 10 * acc + (s[0] - 48))
  }

  /** White space, an optional sign, digits up to the first other character; a minus sign negates modulo 2^64. */
  function Parse(s: seq<byte>): nat {
    var t := SkipSpace(s);
    if t != [] && t[0] == 45 then (0x1_0000_0000_0000_0000 - ReadDigits(t[1..], 0)) % 0x1_0000_0000_0000_0000
    else if t != [] && t[0] == 43 then ReadDigits(t[1..], 0)
    else ReadDigits(t, 0)
  }

  lemma {:induction false} ValueBound(s: seq<byte>)
    requires AllDigits(s)
    ensures Value(s) < Pow10(|s|)
  {
    if s != [] { ValueBound(s[..|s| - 1]); }
  }

  lemma {:induction false} ValueOfDigits(v: nat)
    ensures Value(Digits(v)) == v
  {
    if v < 10 {
      assert [48 + v][..0] == [];
    } else {
      var d := Digits(v / 10);
      ValueOfDigits(v / 10);
      assert (d + [48 + v % 10])[..|d|] == d;
    }
  }

  /** A number has at most n digits exactly when it is below ten to the n. */
  lemma {:induction false} DigitCount(v: nat, n: nat)
    requires n > 0
    ensures |Digits(v)| <= n <==> v < Pow10(n)
    decreases n
  {
    if v < 10 {
      assert Pow10(n) == 10 * Pow10(n - 1);
    } else if n == 1 {
      assert Pow10(1) == 10 * Pow10(0);
    } else {
      DigitCount(v / 10, n - 1);
    }
  }

  lemma {:induction false} ValueOfZeros(n: nat, d: seq<byte>)
    requires AllDigits(d)
    ensures AllDigits(Copies(ZERO, n) + d) && Value(Copies(ZERO, n) + d) == Value(d)
    decreases n + |d|
  {
    var s := Copies(ZERO, n) + d;
    if d != [] {
      ValueOfZeros(n, d[..|d| - 1]);
      assert s[..|s| - 1] == Copies(ZERO, n) + d[..|d| - 1];
    } else if n > 0 {
      ValueOfZeros(n - 1, []);
      assert s[..n - 1] == Copies(ZERO, n - 1) + [];
    }
  }

  /** Reading accumulates: the digits seen so far, times ten to the number of digits to come. */
  lemma {:induction false} ReadAll(d: seq<byte>, tail: seq<byte>, acc: nat)
    requires AllDigits(d) && (tail == [] || !IsDigit(tail[0]))
    ensures ReadDigits(d + tail, acc) == acc * Pow10(|d|) + Value(d)
    decreases |d|
  {
    hide Pow10, Value;
    if d == [] {
      assert d + tail == tail;
      Empties();
    } else {
      PowStep(|d|);
      var next := 10 * acc + (d[0] - 48);
      assert (d + tail)[1..] == d[1..] + tail;
      ReadAll(d[1..], tail, next);
      ValueHead(d);
      Shift(acc, d[0] - 48, Pow10(|d| - 1), Value(d[1..]));
    }
  }

  lemma Empties()
    ensures Value([]) == 0 && Pow10(0) == 1
  {
  }

  lemma PowStep(n: nat)
    requires n > 0
    ensures Pow10(n) == 10 * Pow10(n - 1)
  {
  }

  lemma Shift(acc: int, digit: int, p: int, v: int)
    ensures (10 * acc + digit) * p + v == acc * (10 * p) + (digit * p + v)
  {
  }

  lemma ValueStep(d: seq<byte>)
    requires AllDigits(d) && d != []
    ensures Value(d) == 10 * Value(d[..|d| - 1]) + (d[|d| - 1] - 48)
  {
  }

  lemma {:induction false} ValueHead(d: seq<byte>)
    requires AllDigits(d) && d != []
    ensures Value(d) == (d[0] - 48) * Pow10(|d| - 1) + Value(d[1..])
    decreases |d|
  {
    hide Value, Pow10;
    Empties();
    ValueStep(d);
    if |d| == 1 {
      assert d[..0] == d[1..] == [];
    } else {
      var init, rest := d[..|d| - 1], d[1..];
      ValueHead(init);
      ValueStep(rest);
      PowStep(|d| - 1);
      assert rest[..|d| - 2] == init[1..];
      assert 10 * ((d[0] - 48) * Pow10(|d| - 2)) == (d[0] - 48) * (10 * Pow10(|d| - 2));
    }
  }

  lemma ParseDigits(d: seq<byte>, tail: seq<byte>)
    requires AllDigits(d) && d != [] && (tail == [] || !IsDigit(tail[0]))
    ensures Parse(d + tail) == Value(d)
  {
    assert SkipSpace(d + tail) == d + tail;
    ReadAll(d, tail, 0);
  }

  lemma ZeroPaddedValue(v: nat, width: nat)
    requires width > 0
    ensures Parse(ZeroPadded(v, width)) == Value(ZeroPadded(v, width))
    ensures v < Pow10(width) ==> Value(ZeroPadded(v, width)) == v
    ensures Value(ZeroPadded(v, width)) < Pow10(width)
  {
    var d, s := Digits(v), ZeroPadded(v, width);
    assert s + [] == s;
    ParseDigits(s, []);
    ValueBound(s);
    DigitCount(v, width);
    ValueOfDigits(v);
    if |d| == width {
      assert d[..width] == d;
    } else if |d| < width {
      ValueOfZeros(width - |d|, d);
    }
  }

  /** A zero-padded field reads back as the number written exactly when it did not need cutting. */
  lemma ZeroPaddedReadsIff(v: nat, width: nat)
    requires width > 0
    ensures Parse(ZeroPadded(v, width)) == v <==> v < Pow10(width)
  {
    ZeroPaddedValue(v, width);
  }

  /** So does a space-padded one. */
  lemma SpacePaddedReadsIff(v: nat, width: nat)
    requires width > 0
    ensures Parse(SpacePadded(v, width)) == v <==> v < Pow10(width)
  {
    var d, s := Digits(v), SpacePadded(v, width);
    DigitCount(v, width);
    ValueOfDigits(v);
    if |d| >= width {
      assert s + [] == s;
      ParseDigits(s, []);
      ValueBound(s);
      if |d| == width { assert d[..width] == d; }
    } else {
      ParseDigits(d, Copies(SPACE, width - |d|));
    }
  }
}
