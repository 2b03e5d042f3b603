/** Index keys of floating-point fields: a sign byte, the 16 bits that hold sign and exponent (and, in the
    64-bit format, the first fraction bits), and the rest of the fraction, arranged so that byte order is the
    order of the numbers. Bit patterns are natural numbers below 2^64, or pairs of such. */
module FloatKeys {
  import opened Bits
  import opened ByteOrder

  const TWO15: nat := 0x8000
  const TWO16: nat := 0x1_0000
  const TWO48: nat := 0x1_0000_0000_0000
  const TWO63: nat := 0x8000_0000_0000_0000
  const TWO64: nat := 0x1_0000_0000_0000_0000

  type Word = n: nat | n < TWO64

  lemma Pow48()
    ensures Pow(2, 48) == TWO48
  {
    assert Pow(2, 4) == 16;
    assert Pow(2, 8) == 2 * 2 * 2 * 2 * Pow(2, 4);
    assert Pow(2, 12) == 2 * 2 * 2 * 2 * Pow(2, 8);
    assert Pow(2, 16) == 2 * 2 * 2 * 2 * Pow(2, 12);
    assert Pow(2, 20) == 2 * 2 * 2 * 2 * Pow(2, 16);
    assert Pow(2, 24) == 2 * 2 * 2 * 2 * Pow(2, 20);
    assert Pow(2, 28) == 2 * 2 * 2 * 2 * Pow(2, 24);
    assert Pow(2, 32) == 2 * 2 * 2 * 2 * Pow(2, 28);
    assert Pow(2, 36) == 2 * 2 * 2 * 2 * Pow(2, 32);
    assert Pow(2, 40) == 2 * 2 * 2 * 2 * Pow(2, 36);
    assert Pow(2, 44) == 2 * 2 * 2 * 2 * Pow(2, 40);
    assert Pow(2, 48) == 2 * 2 * 2 * 2 * Pow(2, 44);
  }

  // ------------------------------------------------------------------
  // 64-bit floats
  // ------------------------------------------------------------------

  /** The three numbers written for a 64-bit float: a sign flag, 16 bits, and 64 bits. */
  datatype Parts64 = Parts64(plus: bool, exp: nat, frac: nat)

  function Split64(v: Word): Parts64 {
    if v / TWO63 != 0 then
      Parts64(false, TWO15 - v / TWO48 % TWO15, TWO48 - v % TWO48)
    else
      Parts64(true, SetBit(v / TWO48, TWO15), SetBit(v % TWO48, TWO48))
  }

  function Encode64(v: Word): Bytes {
    var p := Split64(v);
    [if p.plus then 1 else 0] + BigEndian(2, p.exp) + BigEndian(8, p.frac)
  }

  /** What the reader makes of the three numbers it reads, in 16- and 64-bit arithmetic. */
  function Join64(p: Parts64): nat
    requires p.exp < TWO16 && p.frac < TWO64
  {
    if p.plus then
      BitOr((p.exp % TWO15) * TWO48, ClearBit(p.frac, TWO48))
    else
      BitOr(SetBit((TWO15 + TWO16 - p.exp) % TWO16, TWO15) * TWO48, (TWO48 + TWO64 - p.frac) % TWO64)
  }

  function Decode64(b: Bytes): nat
    requires |b| == 11
  {
    FromBounds(b[1..3], b[3..11]);
    Join64(Parts64(b[0] != 0, FromBigEndian(b[1..3]), FromBigEndian(b[3..11])))
  }

  lemma {:induction false} FromBound(b: Bytes)
    ensures FromBigEndian(b) < Pow(256, |b|)
  {
    if b != [] {
      FromBound(b[..|b| - 1]);
      assert Pow(256, |b|) == 256 * Pow(256, |b| - 1);
    }
  }

  lemma FromBounds(two: Bytes, eight: Bytes)
    requires |two| == 2 && |eight| == 8
    ensures FromBigEndian(two) < TWO16 && FromBigEndian(eight) < TWO64
  {
    PowOf256();
    FromBound(two);
    FromBound(eight);
  }

  lemma SplitRange(v: Word)
    ensures Split64(v).exp < TWO16 && Split64(v).frac < TWO64
    ensures v / TWO63 != 0 <==> v >= TWO63
    ensures v == v / TWO48 * TWO48 + v % TWO48
    ensures v < TWO63 ==> v / TWO48 < TWO15
    ensures v >= TWO63 ==> TWO15 <= v / TWO48 < TWO16 && v / TWO48 % TWO15 == v / TWO48 - TWO15
  {
  }

  lemma JoinSplit64(v: Word)
    ensures Split64(v).exp < TWO16 && Split64(v).frac < TWO64
    ensures Join64(Split64(v)) == v
  {
    SplitRange(v);
    JoinBits(v);
    if v < TWO63 { PlusParts(v / TWO48, v % TWO48); } else { MinusParts(v / TWO48); }
  }

  lemma PlusParts(e: nat, f: nat)
    requires e < TWO15 && f < TWO48
    ensures SetBit(e, TWO15) == e + TWO15 && (e + TWO15) % TWO15 == e
    ensures SetBit(f, TWO48) == f + TWO48 && ClearBit(f + TWO48, TWO48) == f
  {
  }

  lemma MinusParts(e: nat)
    requires TWO15 <= e < TWO16
    ensures (TWO15 + TWO16 - (TWO15 - e % TWO15)) % TWO16 == e - TWO15
    ensures SetBit(e - TWO15, TWO15) == e
  {
  }

  /** The bits from number 48 up and the bits below join to the whole. */
  lemma JoinBits(v: Word)
    ensures BitOr(v / TWO48 * TWO48, v % TWO48) == v
  {
    Pow48();
    OrAbove(v / TWO48, v % TWO48, 48);
  }

  /** Reading a written 64-bit float gives its bit pattern back, NaNs included. */
  lemma RoundTrip64(v: Word)
    ensures |Encode64(v)| == 11 && Decode64(Encode64(v)) == v
  {
    var p, b := Split64(v), Encode64(v);
    JoinSplit64(v);
    PowOf256();
    assert b[1..3] == BigEndian(2, p.exp) && b[3..11] == BigEndian(8, p.frac);
    BigEndianRoundTrip(2, p.exp);
    BigEndianRoundTrip(8, p.frac);
  }

  /** What is written for 0, */
  lemma WrittenZero()
    ensures Encode64(0) == [1, 128, 0, 0, 1, 0, 0, 0, 0, 0, 0]
  {
    assert Split64(0) == Parts64(true, 0x8000, TWO48);
    TwoBytes(0x8000);
    BytesOf48();
  }

  /** and for -1. */
  lemma WrittenMinusOne()
    ensures Encode64(0xbff0_0000_0000_0000) == [0, 64, 16, 0, 1, 0, 0, 0, 0, 0, 0]
  {
    assert Split64(0xbff0_0000_0000_0000) == Parts64(false, 0x4010, TWO48);
    TwoBytes(0x4010);
    BytesOf48();
  }

  lemma TwoBytes(n: nat)
    requires n < TWO16
    ensures BigEndian(2, n) == [n / 256, n % 256]
  {
    assert BigEndian(1, n / 256) == BigEndian(0, n / 256 / 256) + [n / 256];
  }

  lemma BytesOf48()
    ensures BigEndian(8, TWO48) == [0, 1, 0, 0, 0, 0, 0, 0]
  {
    assert BigEndian(2, 1) == [0, 1];
    assert BigEndian(3, 0x100) == [0, 1, 0];
    assert BigEndian(4, 0x1_0000) == [0, 1, 0, 0];
    assert BigEndian(5, 0x100_0000) == [0, 1, 0, 0, 0];
    assert BigEndian(6, 0x1_0000_0000) == [0, 1, 0, 0, 0, 0];
    assert BigEndian(7, 0x100_0000_0000) == [0, 1, 0, 0, 0, 0, 0];
  }

  /** A bit pattern as a signed number, minus zero just below plus zero: the total order of IEEE 754-2008,
      section 5.10. */
  function Signed64(v: Word): int {
    if v >= TWO63 then -1 - (v - TWO63) else v
  }

  /** The order of the parts is the order of the numbers they make up. */
  lemma PartsOrder64(v: Word, w: Word)
    ensures var p, q := Split64(v), Split64(w);
            Signed64(v) < Signed64(w) <==>
            ((!p.plus && q.plus) ||
             (p.plus == q.plus && (p.exp < q.exp || (p.exp == q.exp && p.frac < q.frac))))
  {
    SplitRange(v);
    SplitRange(w);
  }

  /** Byte order of written 64-bit floats is sign-magnitude order. */
  lemma Order64(v: Word, w: Word)
    ensures Less(Encode64(v), Encode64(w)) <==> Signed64(v) < Signed64(w)
  {
    var p, q := Split64(v), Split64(w);
    SplitRange(v);
    SplitRange(w);
    PowOf256();
    var s, t: Bytes := [if p.plus then 1 else 0], [if q.plus then 1 else 0];
    BigEndianOrder(2, p.exp, q.exp);
    BigEndianOrder(8, p.frac, q.frac);
    LessConcat3(s, t, BigEndian(2, p.exp), BigEndian(2, q.exp), BigEndian(8, p.frac), BigEndian(8, q.frac));
    PartsOrder64(v, w);
  }

  // ------------------------------------------------------------------
  // 128-bit floats
  // ------------------------------------------------------------------

  datatype Float128 = Float128(high: Word, low: Word)

  datatype Parts128 = Parts128(plus: bool, exp: nat, high: nat, low: nat)

  const MINUS_HIGH: nat := 0x1_0000_0000_00FE

  function Split128(v: Float128): Parts128 {
    if v.high / TWO63 != 0 then
      Parts128(false, TWO15 - v.high / TWO48 % TWO15, MINUS_HIGH - v.high % TWO48, TWO64 - 1 - v.low)
    else
      Parts128(true, SetBit(v.high / TWO48, TWO15), SetBit(v.high % TWO48, TWO48), v.low)
  }

  function Encode128(v: Float128): Bytes {
    var p := Split128(v);
    [if p.plus then 1 else 0] + BigEndian(2, p.exp) + (BigEndian(8, p.high) + BigEndian(8, p.low))
  }

  function Join128(p: Parts128): (nat, nat)
    requires p.exp < TWO16 && p.high < TWO64 && p.low < TWO64
  {
    if p.plus then
      (BitOr((p.exp % TWO15) * TWO48, ClearBit(p.high, TWO48)), p.low)
    else
      (BitOr(SetBit((TWO15 + TWO16 - p.exp) % TWO16, TWO15) * TWO48, (MINUS_HIGH + TWO64 - p.high) % TWO64),
       TWO64 - 1 - p.low)
  }

  function Decode128(b: Bytes): (nat, nat)
    requires |b| == 19
  {
    FromBounds(b[1..3], b[3..11]);
    FromBounds(b[1..3], b[11..19]);
    Join128(Parts128(b[0] != 0, FromBigEndian(b[1..3]), FromBigEndian(b[3..11]), FromBigEndian(b[11..19])))
  }

  lemma JoinSplit128(v: Float128)
    ensures Split128(v).exp < TWO16 && Split128(v).high < TWO64 && Split128(v).low < TWO64
    ensures Join128(Split128(v)) == (v.high, v.low)
  {
    SplitRange(v.high);
    JoinBits(v.high);
    if v.high < TWO63 { PlusParts(v.high / TWO48, v.high % TWO48); } else { MinusParts(v.high / TWO48); }
  }

  /** Reading a written 128-bit float gives its bit pattern back. */
  lemma RoundTrip128(v: Float128)
    ensures |Encode128(v)| == 19 && Decode128(Encode128(v)) == (v.high, v.low)
  {
    var p, b := Split128(v), Encode128(v);
    JoinSplit128(v);
    PowOf256();
    assert b[1..3] == BigEndian(2, p.exp) && b[3..11] == BigEndian(8, p.high) && b[11..19] == BigEndian(8, p.low);
    BigEndianRoundTrip(2, p.exp);
    BigEndianRoundTrip(8, p.high);
    BigEndianRoundTrip(8, p.low);
  }

  function Signed128(v: Float128): int {
    if v.high >= TWO63 then -1 - ((v.high - TWO63) * TWO64 + v.low) else v.high * TWO64 + v.low
  }

  /** Byte order of written 128-bit floats is sign-magnitude order. */
  lemma Order128(v: Float128, w: Float128)
    ensures Less(Encode128(v), Encode128(w)) <==> Signed128(v) < Signed128(w)
  {
    var p, q := Split128(v), Split128(w);
    SplitRange(v.high);
    SplitRange(w.high);
    PowOf256();
    var s, t: Bytes := [if p.plus then 1 else 0], [if q.plus then 1 else 0];
    BigEndianOrder(2, p.exp, q.exp);
    BigEndianOrder(8, p.high, q.high);
    BigEndianOrder(8, p.low, q.low);
    LessConcat(BigEndian(8, p.high), BigEndian(8, q.high), BigEndian(8, p.low), BigEndian(8, q.low));
    LessConcat3(s, t, BigEndian(2, p.exp), BigEndian(2, q.exp),
                BigEndian(8, p.high) + BigEndian(8, p.low), BigEndian(8, q.high) + BigEndian(8, q.low));
    PartsOrder(v, w);
  }

  /** The order of the parts is the order of the numbers they make up. */
  lemma PartsOrder(v: Float128, w: Float128)
    ensures var p, q := Split128(v), Split128(w);
            Signed128(v) < Signed128(w) <==>
            ((!p.plus && q.plus) ||
             (p.plus == q.plus && (p.exp < q.exp ||
              (p.exp == q.exp && (p.high < q.high || (p.high == q.high && p.low < q.low))))))
  {
    SplitRange(v.high);
    SplitRange(w.high);
  }

  // ------------------------------------------------------------------
  // Numeric order
  // ------------------------------------------------------------------

  lemma {:induction false} PowGrows(a: nat, b: nat)
    requires a <= b
    ensures Pow(2, a) <= Pow(2, b)
    decreases b
  {
    if a < b { PowGrows(a, b - 1); }
  }

  /** Fraction `f` with the hidden bit `p`, at exponent `e`; at exponent 0 there is no hidden bit. */
  function Scaled(p: nat, e: nat, f: nat): nat {
    if e == 0 then f else (p + f) * Pow(2, e - 1)
  }

  /** The magnitude of a binary float with `fb` fraction bits, given its bits without the sign, in units of
      its least positive value; infinity counts as the power of two just beyond the largest finite number. */
  function Magnitude(fb: nat, bits: nat): nat {
    Scaled(Pow(2, fb), bits / Pow(2, fb), bits % Pow(2, fb))
  }

  /** Numbers without the hidden bit are multiples of the least positive value, up to the first number that has it. */
  lemma SubnormalsMeetNormals(fb: nat, bits: nat)
    requires bits <= Pow(2, fb)
    ensures Magnitude(fb, bits) == bits
  {
    UpToOnce(bits, Pow(2, fb));
    assert Pow(2, 0) == 1;
  }

  lemma UpToOnce(bits: nat, p: nat)
    requires bits <= p && p > 0
    ensures if bits == p then bits / p == 1 && bits % p == 0 else bits / p == 0 && bits % p == bits
  {
  }

  /** From there on the distance between neighbours doubles with every exponent. */
  lemma NeighboursDouble(fb: nat, e: nat, f: nat)
    requires e > 0
    ensures Scaled(Pow(2, fb), e, f + 1) - Scaled(Pow(2, fb), e, f) == Pow(2, e - 1)
  {
    var p, q := Pow(2, fb), Pow(2, e - 1);
    assert (p + (f + 1)) * q == (p + f) * q + q;
  }

  /** Magnitudes grow with their bits. */
  lemma MagnitudeGrows(fb: nat, m: nat, n: nat)
    requires m < n
    ensures Magnitude(fb, m) < Magnitude(fb, n)
  {
    var p := Pow(2, fb);
    DivisionGrows(m, n, p);
    ScaledGrows(p, m / p, m % p, n / p, n % p);
  }

  lemma ScaledGrows(p: nat, e: nat, f: nat, d: nat, g: nat)
    requires f < p && g < p && (e < d || (e == d && f < g))
    ensures Scaled(p, e, f) < Scaled(p, d, g)
  {
    if e == d {
      if e > 0 { MulLess(p + f, p + g, Pow(2, e - 1)); }
    } else if e == 0 {
      MulAtLeast(1, Pow(2, d - 1), p + g);
    } else {
      PowGrows(e, d - 1);
      NextExponent(p, f, g, Pow(2, e - 1), Pow(2, d - 1));
    }
  }

  /** A larger number has a larger quotient, or the same quotient and a larger remainder. */
  lemma DivisionGrows(m: nat, n: nat, p: nat)
    requires m < n && p > 0
    ensures m / p < n / p || (m / p == n / p && m % p < n % p)
    ensures m % p < p && n % p < p
  {
    var e, f, d, g := m / p, m % p, n / p, n % p;
    assert m == e * p + f && n == d * p + g;
    MulAtLeast(d + 1, if e > d then e else d + 1, p);
  }

  /** Doubling the unit outweighs any fraction. */
  lemma NextExponent(p: nat, f: nat, g: nat, x: nat, k: nat)
    requires f < p && x > 0 && 2 * x <= k
    ensures (p + f) * x < (p + g) * k
  {
    MulLess(p + f, 2 * p, x);
    assert 2 * p * x == p * (2 * x);
    MulAtLeast(2 * x, k, p);
    MulAtLeast(p, p + g, k);
  }

  lemma MulLess(a: nat, b: nat, c: nat)
    requires a < b && c > 0
    ensures a * c < b * c
  {
  }

  /** Infinities have these magnitude bits; larger magnitudes are NaNs. */
  const INFINITY64: nat := 0x7FF0_0000_0000_0000
  const INFINITY128: nat := 0x7FFF_0000_0000_0000 * TWO64

  function Bits64(v: Word): nat {
    if v >= TWO63 then v - TWO63 else v
  }

  /** The value of a 64-bit float, in units of its least positive value. */
  function Value64(v: Word): int {
    var m: int := Magnitude(52, Bits64(v));
    if v >= TWO63 then -m else m
  }

  /** Byte order of written 64-bit floats other than NaNs is numeric order, with -0 before +0. */
  lemma Numeric64(v: Word, w: Word)
    requires Bits64(v) <= INFINITY64 && Bits64(w) <= INFINITY64
    ensures Less(Encode64(v), Encode64(w)) <==> Value64(v) < Value64(w) || (v == TWO63 && w == 0)
  {
    Order64(v, w);
    SignedMagnitudes(52, v >= TWO63, Bits64(v), w >= TWO63, Bits64(w));
  }

  /** Signed magnitudes are ordered like their bits, except that the two zeros are equal. */
  lemma SignedMagnitudes(fb: nat, s: bool, m: nat, t: bool, n: nat)
    ensures var a: int, b: int := Magnitude(fb, m), Magnitude(fb, n);
            ((if s then -1 - m else m) < (if t then -1 - n else n)) <==>
            ((if s then -a else a) < (if t then -b else b) || (s && !t && m == 0 && n == 0))
  {
    MagnitudeOrder(fb, m, n);
    MagnitudeOrder(fb, n, m);
    MagnitudeOrder(fb, 0, m);
    MagnitudeOrder(fb, 0, n);
    MagnitudeOfZero(fb);
  }

  lemma MagnitudeOfZero(fb: nat)
    ensures Magnitude(fb, 0) == 0
  {
    assert 0 / Pow(2, fb) == 0 && 0 % Pow(2, fb) == 0;
  }

  lemma MagnitudeOrder(fb: nat, m: nat, n: nat)
    ensures m < n <==> Magnitude(fb, m) < Magnitude(fb, n)
  {
    if m < n { MagnitudeGrows(fb, m, n); }
    if n < m { MagnitudeGrows(fb, n, m); }
  }

  function Bits128(v: Float128): nat {
    (if v.high >= TWO63 then v.high - TWO63 else v.high) * TWO64 + v.low
  }

  function Value128(v: Float128): int {
    var m: int := Magnitude(112, Bits128(v));
    if v.high >= TWO63 then -m else m
  }

  /** Byte order of written 128-bit floats other than NaNs is numeric order, with -0 before +0. */
  lemma Numeric128(v: Float128, w: Float128)
    requires Bits128(v) <= INFINITY128 && Bits128(w) <= INFINITY128
    ensures Less(Encode128(v), Encode128(w)) <==>
            Value128(v) < Value128(w) || (v == Float128(TWO63, 0) && w == Float128(0, 0))
  {
    Order128(v, w);
    SignedMagnitudes(112, v.high >= TWO63, Bits128(v), w.high >= TWO63, Bits128(w));
  }
}
