/** Numbers as strings of bits: or, and, shifts, and the arithmetic behind them. */
module Bits {
  import opened ByteOrder

  // ------------------------------------------------------------------
  // Bit operations on numbers
  // ------------------------------------------------------------------

  /** `x` with the bit of weight `w` (a power of two) set. */
  function SetBit(x: nat, w: nat): nat
    requires w > 0
  {
    if x / w % 2 == 1 then x else x + w
  }

  /** `x` with the bit of weight `w` cleared. */
  function ClearBit(x: nat, w: nat): (r: nat)
    requires w > 0
  {
    if x / w % 2 == 1 && x >= w then x - w else x
  }

  function BitOr(a: nat, b: nat): nat {
    if a == 0 then b else if b == 0 then a
    else 2 * BitOr(a / 2, b / 2) + (if a % 2 == 1 || b % 2 == 1 then 1 else 0)
  }

  /** Or of numbers without common bits is their sum. */
  lemma {:induction false} OrAbove(a: nat, b: nat, k: nat)
    requires b < Pow(2, k)
    ensures BitOr(a * Pow(2, k), b) == a * Pow(2, k) + b
  {
    if k > 0 {
      var p := Pow(2, k - 1);
      assert Pow(2, k) == 2 * p;
      assert a * Pow(2, k) == 2 * (a * p);
      OrAbove(a, b / 2, k - 1);
      if a * p == 0 {
        assert BitOr(0, b) == b;
      } else if b == 0 {
      } else {
        assert (2 * (a * p)) / 2 == a * p && (2 * (a * p)) % 2 == 0;
      }
    } else {
      assert b == 0;
    }
  }

  function BitAnd(a: nat, b: nat): nat {
    if a == 0 || b == 0 then 0 else (if a % 2 == 1 && b % 2 == 1 then 1 else 0) + 2 * BitAnd(a / 2, b / 2)
  }

  lemma {:induction false} AndOnes(a: nat, e: nat)
    ensures BitAnd(a, Pow(2, e) - 1) == a % Pow(2, e)
  {
    if e > 0 {
      var p := Pow(2, e - 1);
      AndOnes(a / 2, e - 1);
      assert Pow(2, e) == 2 * p;
      AndHalf(a, p);
    }
  }

  lemma AndHalf(a: nat, p: nat)
    requires p > 0 && BitAnd(a / 2, p - 1) == a / 2 % p
    ensures BitAnd(a, 2 * p - 1) == a % (2 * p)
  {
    AndStep(a, p);
    ModHalf(a, p);
  }

  lemma AndStep(a: nat, p: nat)
    requires p > 0
    ensures BitAnd(a, 2 * p - 1) == a % 2 + 2 * BitAnd(a / 2, p - 1)
  {
    assert (2 * p - 1) / 2 == p - 1 && (2 * p - 1) % 2 == 1;
  }

  lemma ModHalf(a: nat, p: nat)
    requires p > 0
    ensures a % (2 * p) == a % 2 + 2 * (a / 2 % p)
  {
    DivMod(a, 2 * p, a / 2 / p, a % 2 + 2 * (a / 2 % p));
  }

  lemma FarApart(d: int, m: int)
    requires m > 0
    ensures d > 0 ==> d * m >= m
    ensures d < 0 ==> d * m <= -m
  {
    if d > 0 { MulAtLeast(1, d, m); }
    if d < 0 {
      MulAtLeast(1, -d, m);
      assert m * -d == -(d * m);
    }
  }

  lemma DivMod(a: nat, m: nat, q: nat, r: nat)
    requires m > 0 && a == q * m + r && r < m
    ensures a / m == q && a % m == r
  {
    var d := a / m - q;
    assert d * m == a / m * m - q * m;
    assert a == a / m * m + a % m;
    FarApart(d, m);
  }

  lemma AndMask(n: nat, p: nat, e: nat)
    requires p == Pow(2, e)
    ensures BitAnd(n, 16 * p - 16) == 16 * (n / 16 % p)
  {
    AndOnes(n / 16, e);
    var m := p - 1;
    assert BitAnd(n, 16 * m) == 2 * BitAnd(n / 2, 8 * m);
    assert BitAnd(n / 2, 8 * m) == 2 * BitAnd(n / 2 / 2, 4 * m);
    assert BitAnd(n / 2 / 2, 4 * m) == 2 * BitAnd(n / 2 / 2 / 2, 2 * m);
    assert BitAnd(n / 2 / 2 / 2, 2 * m) == 2 * BitAnd(n / 2 / 2 / 2 / 2, m);
    assert n / 2 / 2 / 2 / 2 == n / 16;
  }

  /** Shifting left by `e` bits. */
  function Shl(n: nat, e: nat): nat {
    if e == 0 then n else 2 * Shl(n, e - 1)
  }

  lemma {:induction false} ShlMul(n: nat, e: nat)
    ensures Shl(n, e) == n * Pow(2, e)
  {
    if e > 0 { ShlMul(n, e - 1); }
  }

  lemma {:induction false} ShlDouble(n: nat, e: nat)
    ensures Shl(n, e + 1) == Shl(2 * n, e)
  {
    if e > 0 { ShlDouble(n, e - 1); }
  }

  lemma {:induction false} ShlAdd(m: nat, n: nat, e: nat)
    ensures Shl(m, e) + Shl(n, e) == Shl(m + n, e)
  {
    if e > 0 { ShlAdd(m, n, e - 1); }
  }

  lemma Shl16(n: nat, e: nat)
    ensures Shl(n, 4 + e) == 16 * Shl(n, e)
  {
    assert Shl(n, 4 + e) == 2 * Shl(n, 3 + e) == 4 * Shl(n, 2 + e) == 8 * Shl(n, 1 + e);
  }

  // ------------------------------------------------------------------
  // Products and quotients
  // ------------------------------------------------------------------

  lemma MulAtLeast(a: nat, b: nat, c: nat)
    requires a <= b
    ensures a * c <= b * c
  {
  }

  lemma DivDiv(n: nat, a: nat, b: nat)
    requires a > 0 && b > 0
    ensures a * b > 0 && n / a / b == n / (a * b)
  {
    var q, r, r' := n / a / b, n / a % b, n % a;
    Division(n, a);
    Division(n / a, b);
    SplitTwice(n, a, b, q, r, r');
    DivMod(n, a * b, q, a * r + r');
  }

  lemma Division(n: nat, a: nat)
    requires a > 0
    ensures n == a * (n / a) + n % a && n % a < a
  {
  }

  lemma SplitTwice(n: nat, a: nat, b: nat, q: nat, r: nat, r': nat)
    requires n == a * (b * q + r) + r' && r < b && r' < a
    ensures a * b > 0 && n == q * (a * b) + (a * r + r') && a * r + r' < a * b
  {
    assert a * (b * q + r) == q * (a * b) + a * r;
    MulAtLeast(r + 1, b, a);
  }
}
