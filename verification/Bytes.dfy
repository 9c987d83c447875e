/** Bytes and little-endian fixed-width integers, as Go's encoding/binary lays them out. */
module Bytes {

  type byte = n: nat | n < 256
  type bytes = seq<byte>

  type u16 = n: nat | n < 0x1_0000
  type u32 = n: nat | n < 0x1_0000_0000
  type u64 = n: nat | n < 0x1_0000_0000_0000_0000

  datatype Option<+T> = None | Some(value: T)

  function Pow256(n: nat): (p: nat)
    ensures p > 0
  {
    if n == 0 then 1 else 256 * Pow256(n - 1)
  }

  /** The n low bytes of v, least significant first. Higher bytes are dropped, which is
      what a Go conversion such as uint16(len(x)) does before the bytes are written. */
  function LE(v: nat, n: nat): (b: bytes)
    ensures |b| == n
  {
    if n == 0 then [] else [v % 256] + LE(v / 256, n - 1)
  }

  function UnLE(b: bytes): nat
  {
    if b == [] then 0 else b[0] + 256 * UnLE(b[1..])
  }

  lemma {:induction false} MulBound(d: int, m: nat)
    ensures d >= 1 ==> d * m >= m
    ensures d <= -1 ==> d * m + m <= 0
  {
  }

  lemma {:induction false} ModUnique(x: nat, m: nat, q: nat, r: nat)
    requires 0 < m && r < m && x == q * m + r
    ensures x % m == r
  {
    var d := x / m - q;
    assert d * m == (x / m) * m - q * m;
    MulBound(d, m);
  }

  lemma {:induction false} QuotientUnique(x: nat, m: nat, q: nat, r: nat)
    requires r < m && x == q * m + r
    ensures x / m == q
  {
    var d := x / m - q;
    assert d * m == (x / m) * m - q * m;
    MulBound(d, m);
  }

  /** Peeling one byte off v and reducing the rest modulo p is reducing v modulo 256 * p. */
  lemma {:induction false} ModStep(v: nat, p: nat)
    requires p > 0
    ensures v % (256 * p) == v % 256 + 256 * ((v / 256) % p)
  {
    var q, r := v / 256 / p, (v / 256) % p;
    assert v / 256 == q * p + r;
    assert q * (256 * p) == 256 * (q * p);
    ModUnique(v, 256 * p, q, 256 * r + v % 256);
  }

  /** Reading back what was written gives the value modulo the width. */
  lemma {:induction false} LERoundTrip(v: nat, n: nat)
    ensures UnLE(LE(v, n)) == v % Pow256(n)
  {
    if n > 0 {
      LERoundTrip(v / 256, n - 1);
      assert LE(v, n)[1..] == LE(v / 256, n - 1);
      ModStep(v, Pow256(n - 1));
    }
  }

  /** Fewer bytes of the same number are a prefix. */
  lemma {:induction false} LEPrefix(v: nat, n: nat, k: nat)
    requires k <= n
    ensures LE(v, n)[..k] == LE(v, k)
  {
    if k > 0 {
      LEPrefix(v / 256, n - 1, k - 1);
    }
  }

  /** Every byte string is the encoding of the number it reads as. */
  lemma {:induction false} UnLERoundTrip(b: bytes)
    ensures UnLE(b) < Pow256(|b|) && LE(UnLE(b), |b|) == b
  {
    if b != [] {
      UnLERoundTrip(b[1..]);
      assert b == [b[0]] + b[1..];
    }
  }

  lemma {:induction false} Widths()
    ensures Pow256(1) == 0x100
    ensures Pow256(2) == 0x1_0000
    ensures Pow256(4) == 0x1_0000_0000
    ensures Pow256(8) == 0x1_0000_0000_0000_0000
  {
    assert Pow256(0) == 1;
    assert Pow256(1) == 256 * Pow256(0);
    assert Pow256(2) == 256 * Pow256(1);
    assert Pow256(3) == 256 * Pow256(2);
    assert Pow256(4) == 256 * Pow256(3);
    assert Pow256(5) == 256 * Pow256(4);
    assert Pow256(6) == 256 * Pow256(5);
    assert Pow256(7) == 256 * Pow256(6);
    assert Pow256(8) == 256 * Pow256(7);
  }

  function Get16(b: bytes): u16
    requires |b| == 2
  {
    UnLERoundTrip(b); Widths();
    UnLE(b)
  }

  function Get32(b: bytes): u32
    requires |b| == 4
  {
    UnLERoundTrip(b); Widths();
    UnLE(b)
  }

  function Get64(b: bytes): u64
    requires |b| == 8
  {
    UnLERoundTrip(b); Widths();
    UnLE(b)
  }

  lemma {:induction false} Get16LE(v: nat)
    ensures Get16(LE(v, 2)) == v % 0x1_0000
  {
    LERoundTrip(v, 2); Widths();
  }

  lemma {:induction false} Get32LE(v: nat)
    ensures Get32(LE(v, 4)) == v % 0x1_0000_0000
  {
    LERoundTrip(v, 4); Widths();
  }

  /** Exclusive or of the n low bits. */
  function XorBits(a: nat, b: nat, n: nat): nat {
    if n == 0 then 0 else (a + b) % 2 + 2 * XorBits(a / 2, b / 2, n - 1)
  }

  function Pow2(n: nat): (p: nat)
    ensures p > 0
  {
    if n == 0 then 1 else 2 * Pow2(n - 1)
  }

  lemma {:induction false} XorTwice(a: nat, b: nat, n: nat)
    requires a < Pow2(n)
    ensures XorBits(a, b, n) < Pow2(n)
    ensures XorBits(XorBits(a, b, n), b, n) == a
  {
    if n > 0 {
      XorTwice(a / 2, b / 2, n - 1);
      XorStep(a, b, XorBits(a / 2, b / 2, n - 1));
    }
  }

  lemma {:induction false} XorStep(a: nat, b: nat, high: nat)
    ensures var x := (a + b) % 2 + 2 * high;
            x / 2 == high && (x + b) % 2 == a % 2
  {
  }

  lemma {:induction false} EightBits()
    ensures Pow2(8) == 256
  {
    assert Pow2(4) == 16;
    assert Pow2(6) == 64;
  }

  function Xor(a: byte, b: byte): byte {
    EightBits();
    XorTwice(a, b, 8);
    XorBits(a, b, 8)
  }

  lemma {:induction false} HalfMod(n: nat, width: nat)
    requires width > 0
    ensures n % Pow2(width) % 2 == n % 2 && n % Pow2(width) / 2 == n / 2 % Pow2(width - 1)
  {
    var p := Pow2(width - 1);
    var q, r := n / 2 / p, n / 2 % p;
    assert n / 2 == q * p + r;
    assert q * (2 * p) == 2 * (q * p);
    ModUnique(n, 2 * p, q, 2 * r + n % 2);
  }

  lemma {:induction false} XorNothing(a: nat, n: nat)
    requires a < Pow2(n)
    ensures XorBits(a, 0, n) == a
  {
    if n > 0 {
      XorNothing(a / 2, n - 1);
    }
  }

  /** The n low bits. */
  function Low(a: nat, n: nat): (l: nat)
    ensures l <= a
  {
    if n == 0 then 0 else a % 2 + 2 * Low(a / 2, n - 1)
  }

  lemma {:induction false} LowUnfolds(a: nat, n: nat)
    requires n > 0
    ensures Low(a, n) % 2 == a % 2 && Low(a, n) / 2 == Low(a / 2, n - 1) <= a / 2
  {
  }

  lemma {:induction false} HalfFits(a: nat, n: nat)
    requires n > 0 && a < Pow2(n)
    ensures a / 2 < Pow2(n - 1)
  {
  }

  /** A number of n bits leaves everything above them as it was. */
  lemma {:induction false} XorLow(a: nat, b: nat, n: nat, m: nat)
    requires a < Pow2(n + m) && b < Pow2(n)
    ensures XorBits(a, b, n + m) == XorBits(Low(a, n), b, n) + (a - Low(a, n))
  {
    if n == 0 {
      assert Pow2(0) == 1;
      XorNothing(a, m);
    } else {
      HalfFits(a, n + m);
      HalfFits(b, n);
      LowUnfolds(a, n);
      hide XorBits, Pow2, Low;
      XorLow(a / 2, b / 2, n - 1, m);
      XorLowStep(a, b, Low(a, n), Low(a / 2, n - 1), n, m);
    }
  }

  lemma {:induction false} LowIsMod(a: nat, n: nat)
    ensures Low(a, n) == a % Pow2(n)
  {
    if n == 0 {
      assert Pow2(0) == 1;
    } else {
      LowIsMod(a / 2, n - 1);
      HalfMod(a, n);
      var low := a % Pow2(n);
      assert low == low % 2 + 2 * (low / 2);
    }
  }

  lemma {:induction false} XorLowStep(a: nat, b: nat, low: nat, half: nat, n: nat, m: nat)
    requires n > 0 && low % 2 == a % 2 && low / 2 == half && half <= a / 2
    requires XorBits(a / 2, b / 2, n - 1 + m) == XorBits(half, b / 2, n - 1) + (a / 2 - half)
    ensures XorBits(a, b, n + m) == XorBits(low, b, n) + (a - low)
  {
    XorUnfolds(a, b, n + m);
    XorUnfolds(low, b, n);
    ParityOfSum(a, b, low, b);
    hide XorBits;
  }

  lemma {:induction false} ParityOfSum(a: nat, b: nat, c: nat, d: nat)
    requires a % 2 == c % 2 && b % 2 == d % 2
    ensures (a + b) % 2 == (c + d) % 2
  {
  }

  lemma {:induction false} XorUnfolds(a: nat, b: nat, n: nat)
    requires n > 0
    ensures XorBits(a, b, n) == (a + b) % 2 + 2 * XorBits(a / 2, b / 2, n - 1)
  {
  }
}
