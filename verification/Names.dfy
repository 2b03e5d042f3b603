/** Account names: up to thirteen characters packed into a 64-bit number, five bits each and four for the last. */
module Names {
  import opened Bits
  import opened ByteOrder
  import opened Options

  const TWO64: nat := 0x1_0000_0000_0000_0000
  const DOT: Byte := 46

  // ------------------------------------------------------------------
  // Characters and digits
  // ------------------------------------------------------------------

  /** The value of a character; every character outside the alphabet counts as a dot. */
  function SymbolOf(c: Byte): (d: nat)
    ensures d < 32
  {
    if 97 <= c <= 122 then c - 97 + 6
    else if 49 <= c <= 53 then c - 49 + 1
    else 0
  }

  /** The alphabet: a dot, the digits 1 to 5 and the letters a to z. */
  function CharOf(d: nat): (c: Byte)
    requires d < 32
    ensures SymbolOf(c) == d && (c == DOT <==> d == 0)
  {
    if d == 0 then DOT else if d <= 5 then 48 + d else 91 + d
  }

  lemma CharsIncrease(d: nat, e: nat)
    requires d < 32 && e < 32
    ensures d < e <==> CharOf(d) < CharOf(e)
  {
  }

  const ALPHABET := ".12345abcdefghijklmnopqrstuvwxyz"

  lemma AlphabetMeans(d: nat)
    requires d < 32
    ensures |ALPHABET| == 32 && CharOf(d) == ALPHABET[d] as int
  {
  }

  type Digit = d: nat | d < 32

  function Chars(ds: seq<Digit>): (s: Bytes)
    ensures |s| == |ds|
    ensures forall i :: 0 <= i < |s| ==> s[i] == CharOf(ds[i])
  {
    seq(|ds|, i requires 0 <= i < |ds| => CharOf(ds[i]))
  }

  /** The text without the dots at its end. */
  function Trim(s: Bytes): (r: Bytes)
    ensures |r| <= |s| && r == s[..|r|]
    ensures r != [] ==> r[|r| - 1] != DOT
    ensures forall i :: |r| <= i < |s| ==> s[i] == DOT
  {
    if s != [] && s[|s| - 1] == DOT then Trim(s[..|s| - 1]) else s
  }

  /** The thirteen digits of a name; missing characters count as dots. */
  function DigitsOf(s: Bytes): (ds: seq<Digit>)
    ensures |ds| == 13
    ensures forall i :: 0 <= i < 13 ==> ds[i] == if i < |s| then SymbolOf(s[i]) else 0
  {
    seq(13, i requires 0 <= i < 13 => if i < |s| then SymbolOf(s[i]) else 0)
  }

  lemma DigitsOfTrimmed(ds: seq<Digit>)
    requires |ds| == 13
    ensures DigitsOf(Trim(Chars(ds))) == ds
  {
    var s, t := Chars(ds), Trim(Chars(ds));
    forall i | 0 <= i < 13 ensures DigitsOf(t)[i] == ds[i] {
      if i < |t| { assert t[i] == s[i]; } else { assert s[i] == DOT; }
    }
  }

  /** A name in its shortest form: characters of the alphabet, no dot at the end, and a thirteenth character
      among the first sixteen. */
  predicate Canonical(s: Bytes) {
    && |s| <= 13
    && (forall i :: 0 <= i < |s| ==> s[i] == DOT || SymbolOf(s[i]) != 0)
    && (s != [] ==> s[|s| - 1] != DOT)
    && (|s| == 13 ==> SymbolOf(s[12]) < 16)
  }

  /** A text is its digits written out and trimmed exactly when it is canonical. */
  lemma TrimmedDigits(s: Bytes, ds: seq<Digit>)
    requires |s| <= 13 && ds == DigitsOf(s)[..12] + [DigitsOf(s)[12] % 16]
    ensures Trim(Chars(ds)) == s <==> Canonical(s)
  {
    var t := Trim(Chars(ds));
    if Canonical(s) {
      assert DigitsOf(s)[12] % 16 == DigitsOf(s)[12];
      forall i | 0 <= i < |s| ensures Chars(ds)[i] == s[i] { CharOfSymbol(s[i]); }
      TrimPadded(Chars(ds), s);
    }
    if t == s {
      forall i | 0 <= i < |s| ensures s[i] == DOT || SymbolOf(s[i]) != 0 { assert t[i] == Chars(ds)[i]; }
      assert |s| == 13 ==> s[12] == CharOf(ds[12]);
    }
  }

  lemma CharOfSymbol(c: Byte)
    requires c == DOT || SymbolOf(c) != 0
    ensures CharOf(SymbolOf(c)) == c
  {
  }

  lemma {:induction false} TrimPadded(padded: Bytes, s: Bytes)
    requires |s| <= |padded| && padded[..|s|] == s && (s != [] ==> s[|s| - 1] != DOT)
    requires forall i :: |s| <= i < |padded| ==> padded[i] == DOT
    ensures Trim(padded) == s
    decreases |padded|
  {
    if |padded| > |s| { TrimPadded(padded[..|padded| - 1], s); }
  }

  // ------------------------------------------------------------------
  // Numbers in base 32
  // ------------------------------------------------------------------

  function Base32(ds: seq<Digit>): nat {
    if ds == [] then 0 else Base32(ds[..|ds| - 1]) * 32 + ds[|ds| - 1]
  }

  function ToBase32(w: nat, n: nat): (ds: seq<Digit>)
    ensures |ds| == w
  {
    if w == 0 then [] else ToBase32(w - 1, n / 32) + [n % 32]
  }

  lemma {:induction false} ToBase32RoundTrip(w: nat, n: nat)
    requires n < Pow(32, w)
    ensures Base32(ToBase32(w, n)) == n
  {
    if w > 0 {
      ToBase32RoundTrip(w - 1, n / 32);
      assert ToBase32(w, n)[..w - 1] == ToBase32(w - 1, n / 32);
    }
  }

  lemma {:induction false} Base32RoundTrip(ds: seq<Digit>)
    ensures Base32(ds) < Pow(32, |ds|) && ToBase32(|ds|, Base32(ds)) == ds
    decreases |ds|
  {
    if ds != [] {
      Base32RoundTrip(ds[..|ds| - 1]);
      assert ds == ds[..|ds| - 1] + [ds[|ds| - 1]];
    }
  }

  lemma {:induction false} Base32Concat(a: seq<Digit>, b: seq<Digit>)
    ensures Base32(a + b) == Base32(a) * Pow(32, |b|) + Base32(b)
    decreases |b|
  {
    if b == [] {
      assert a + b == a;
    } else {
      var c, d := b[..|b| - 1], b[|b| - 1];
      Base32Concat(a, c);
      assert (a + b)[..|a + b| - 1] == a + c;
      MulPow(Base32(a), |c|);
    }
  }

  lemma MulPow(x: nat, e: nat)
    ensures x * Pow(32, e + 1) == (x * Pow(32, e)) * 32
  {
  }

  /** Numbers of equally many digits are ordered as their characters are. */
  lemma {:induction false} Base32Order(a: seq<Digit>, b: seq<Digit>)
    requires |a| == |b|
    ensures Base32(a) < Base32(b) <==> Less(Chars(a), Chars(b))
    decreases |a|
  {
    if a != [] {
      var n := |a| - 1;
      Base32Order(a[..n], b[..n]);
      Base32Equal(a[..n], b[..n]);
      SnocOrder(a[..n], a[n], b[..n], b[n]);
      TwoDigits(Base32(a[..n]), a[n], Base32(b[..n]), b[n]);
      assert a == a[..n] + [a[n]] && b == b[..n] + [b[n]];
    }
  }

  lemma Base32Equal(a: seq<Digit>, b: seq<Digit>)
    requires |a| == |b|
    ensures Base32(a) == Base32(b) <==> a == b
  {
    Base32RoundTrip(a);
    Base32RoundTrip(b);
  }

  lemma TwoDigits(x: nat, d: Digit, y: nat, e: Digit)
    ensures x * 32 + d < y * 32 + e <==> x < y || (x == y && d < e)
  {
  }

  lemma SnocOrder(a: seq<Digit>, d: Digit, b: seq<Digit>, e: Digit)
    requires |a| == |b|
    ensures Less(Chars(a + [d]), Chars(b + [e])) <==> Less(Chars(a), Chars(b)) || (a == b && d < e)
  {
    assert Chars(a + [d]) == Chars(a) + [CharOf(d)] && Chars(b + [e]) == Chars(b) + [CharOf(e)];
    LessConcat(Chars(a), Chars(b), [CharOf(d)], [CharOf(e)]);
    CharsIncrease(d, e);
    if Chars(a) == Chars(b) {
      forall i | 0 <= i < |a| ensures a[i] == b[i] { assert SymbolOf(Chars(a)[i]) == a[i]; }
    }
  }

  // ------------------------------------------------------------------
  // Names as numbers
  // ------------------------------------------------------------------

  /** The number of a name: twelve digits in base 32, then a last one in base 16. */
  function Value(ds: seq<Digit>): nat
    requires |ds| == 13
  {
    Base32(ds[..12]) * 16 + ds[12] % 16
  }

  /** The digits of a number. */
  function Digits(v: nat): (ds: seq<Digit>)
    ensures |ds| == 13
  {
    ToBase32(12, v / 16) + [v % 16]
  }

  function Text(v: nat): Bytes {
    Trim(Chars(Digits(v)))
  }

  lemma PowOf32()
    ensures Pow(32, 12) * 16 == TWO64
  {
    assert Pow(32, 2) == 32 * Pow(32, 1);
    assert Pow(32, 4) == 32 * Pow(32, 3);
    assert Pow(32, 6) == 32 * Pow(32, 5);
    assert Pow(32, 8) == 32 * Pow(32, 7);
    assert Pow(32, 10) == 32 * Pow(32, 9);
  }

  lemma ValueOfDigits(v: nat)
    requires v < TWO64
    ensures Value(Digits(v)) == v
  {
    PowOf32();
    ToBase32RoundTrip(12, v / 16);
    assert Digits(v)[..12] == ToBase32(12, v / 16);
  }

  lemma DigitsOfValue(ds: seq<Digit>)
    requires |ds| == 13
    ensures Value(ds) < TWO64 && Digits(Value(ds)) == ds[..12] + [ds[12] % 16]
  {
    PowOf32();
    Base32RoundTrip(ds[..12]);
    LastDigit(Base32(ds[..12]), ds[12] % 16);
  }

  lemma LastDigit(high: nat, low: nat)
    requires low < 16
    ensures (high * 16 + low) / 16 == high && (high * 16 + low) % 16 == low
  {
  }

  lemma NextDigit(ds: seq<Digit>, k: nat, n: nat)
    requires k < |ds| && Base32(ds[..k]) == n
    ensures Base32(ds[..k + 1]) == n * 32 + ds[k]
  {
    assert ds[..k + 1][..k] == ds[..k];
  }

  lemma FourDigits(ds: seq<Digit>, k: nat, n: nat)
    requires k + 4 <= |ds| && Base32(ds[..k]) == n
    ensures Base32(ds[..k + 4]) == (((n * 32 + ds[k]) * 32 + ds[k + 1]) * 32 + ds[k + 2]) * 32 + ds[k + 3]
  {
    NextDigit(ds, k, n);
    NextDigit(ds, k + 1, n * 32 + ds[k]);
    NextDigit(ds, k + 2, (n * 32 + ds[k]) * 32 + ds[k + 1]);
    NextDigit(ds, k + 3, ((n * 32 + ds[k]) * 32 + ds[k + 1]) * 32 + ds[k + 2]);
  }

  /** The name "eosio.system". */
  lemma SystemName(s: Bytes)
    requires s == [101, 111, 115, 105, 111, 46, 115, 121, 115, 116, 101, 109]
    ensures Value(DigitsOf(s)) == 6138663591228101920
  {
    var ds := DigitsOf(s);
    FourDigits(ds, 0, 0);
    FourDigits(ds, 4, 348942);
    FourDigits(ds, 8, 365892862750);
  }

  /** Every 64-bit number is the number of its text, and the text is canonical. */
  lemma NumberOfText(v: nat)
    requires v < TWO64
    ensures |Text(v)| <= 13 && Value(DigitsOf(Text(v))) == v && Canonical(Text(v))
  {
    ValueOfDigits(v);
    DigitsOfTrimmed(Digits(v));
    TrimmedDigits(Text(v), Digits(v));
  }

  /** A text is the text of its number exactly when it is canonical. */
  lemma TextOfNumber(s: Bytes)
    requires |s| <= 13
    ensures Text(Value(DigitsOf(s))) == s <==> Canonical(s)
  {
    DigitsOfValue(DigitsOf(s));
    TrimmedDigits(s, Digits(Value(DigitsOf(s))));
  }

  /** Numbers are ordered as their texts are. */
  lemma TextOrder(u: nat, v: nat)
    requires u < TWO64 && v < TWO64
    ensures u < v <==> Less(Text(u), Text(v))
  {
    var a, b := Digits(u), Digits(v);
    PowOf32();
    ToBase32RoundTrip(12, u / 16);
    ToBase32RoundTrip(12, v / 16);
    Base32Order(ToBase32(12, u / 16), ToBase32(12, v / 16));
    SnocOrder(ToBase32(12, u / 16), u % 16, ToBase32(12, v / 16), v % 16);
    assert u < v <==> Less(Chars(a), Chars(b));
    CharsAboveDot(a);
    CharsAboveDot(b);
    TrimOrder(Chars(a), Chars(b));
  }

  lemma CharsAboveDot(ds: seq<Digit>)
    ensures forall i :: 0 <= i < |Chars(ds)| ==> Chars(ds)[i] >= DOT
  {
  }

  /** Since no character is below a dot, dropping the dots at the end does not change the order. */
  lemma {:induction false} TrimOrder(a: Bytes, b: Bytes)
    requires |a| == |b|
    requires forall i :: 0 <= i < |a| ==> a[i] >= DOT && b[i] >= DOT
    ensures Less(Trim(a), Trim(b)) <==> Less(a, b)
    decreases |a|
  {
    if a != [] {
      TrimOrder(a[1..], b[1..]);
      TrimHead(a);
      TrimHead(b);
    }
  }

  /** Trimming from the other end. */
  lemma {:induction false} TrimHead(s: Bytes)
    requires s != []
    ensures if Trim(s[1..]) == [] && s[0] == DOT then Trim(s) == [] else Trim(s) == [s[0]] + Trim(s[1..])
  {
    var r := Trim(s[1..]);
    if r == [] && s[0] == DOT {
      TrimPadded(s, []);
    } else {
      TrimPadded(s, [s[0]] + r);
    }
  }

  /** Two canonical names are ordered as their numbers are. */
  lemma NameOrder(s: Bytes, t: Bytes)
    requires Canonical(s) && Canonical(t)
    ensures Less(s, t) <==> Value(DigitsOf(s)) < Value(DigitsOf(t))
  {
    TextOfNumber(s);
    TextOfNumber(t);
    DigitsOfValue(DigitsOf(s));
    DigitsOfValue(DigitsOf(t));
    TextOrder(Value(DigitsOf(s)), Value(DigitsOf(t)));
  }

  lemma {:induction false} PowBits(w: nat)
    ensures Pow(2, 4 + 5 * w) == 16 * Pow(32, w)
  {
    var e := 4 + 5 * w;
    if w == 0 {
      assert Pow(2, 4) == 16;
    } else {
      PowBits(w - 1);
      assert Pow(2, e) == 2 * Pow(2, e - 1) == 4 * Pow(2, e - 2) == 8 * Pow(2, e - 3) == 16 * Pow(2, e - 4) == 32 * Pow(2, e - 5);
    }
  }

  // ------------------------------------------------------------------
  // Parsing, printing and suffixes
  // ------------------------------------------------------------------

  /** The number of a name; a text of more than thirteen characters is refused. */
  method N(s: Bytes) returns (r: Option<nat>)
    ensures r == if |s| <= 13 then Some(Value(DigitsOf(s))) else None
  {
    if |s| > 13 { return None; }
    ghost var ds := DigitsOf(s);
    var val, i := 0, 0;
    ShlMul(0, 64);
    while i <= 12
      invariant 0 <= i <= 13
      invariant val == Placed(ds, i)
    {
      var c := 0;
      if i < |s| {
        c := SymbolOf(s[i]);
      }
      if i < 12 {
        c := Shl(c % 32, 64 - 5 * (i + 1));
      } else {
        c := c % 16;
      }
      PlaceDigit(ds, i);
      val := BitOr(val, c);
      i := i + 1;
    }
    return Some(val);
  }

  /** The first `i` digits in their places. */
  function Placed(ds: seq<Digit>, i: nat): nat
    requires |ds| == 13 && i <= 13
  {
    if i <= 12 then Shl(Base32(ds[..i]), 64 - 5 * i) else Value(ds)
  }

  /** Adding digit `i` below the digits already placed. */
  lemma PlaceDigit(ds: seq<Digit>, i: nat)
    requires |ds| == 13 && i <= 12
    ensures Placed(ds, i + 1) == BitOr(Placed(ds, i), if i < 12 then Shl(ds[i] % 32, 64 - 5 * (i + 1)) else ds[i] % 16)
  {
    if i < 12 {
      assert ds[..i + 1][..i] == ds[..i] && ds[i] % 32 == ds[i];
      OrShl(Base32(ds[..i]), ds[i], 64 - 5 * (i + 1));
    } else {
      OrLast(Base32(ds[..12]), ds[12] % 16);
    }
  }

  lemma OrLast(high: nat, d: nat)
    requires d < 16
    ensures BitOr(Shl(high, 4), d) == high * 16 + d
  {
    ShlMul(high, 4);
    assert Pow(2, 4) == 16;
    OrAbove(high, d, 4);
  }

  lemma {:induction false} OrShl(high: nat, d: Digit, e: nat)
    ensures BitOr(Shl(high, e + 5), Shl(d, e)) == Shl(high * 32 + d, e)
  {
    if e == 0 {
      ShlMul(high, 5);
      OrAbove(high, d, 5);
    } else {
      OrShl(high, d, e - 1);
    }
  }

  lemma {:induction false} ToBase32At(w: nat, n: nat, i: nat)
    requires i < w
    ensures ToBase32(w, n)[i] == n / Pow(32, w - 1 - i) % 32
  {
    if i < w - 1 {
      ToBase32At(w - 1, n / 32, i);
      DivDiv(n, 32, Pow(32, w - 2 - i));
    }
  }

  /** Digit `i` of a number, by shifting. */
  lemma DigitAt(v: nat, i: nat)
    requires i < 12
    ensures Digits(v)[i] == v / Pow(2, 59 - 5 * i) % 32
  {
    PowBits(11 - i);
    assert 4 + 5 * (11 - i) == 59 - 5 * i;
    DivDiv(v, 16, Pow(32, 11 - i));
    ToBase32At(12, v / 16, i);
  }

  /** A number without its last `i` digits. */
  function Shifted(v: nat, i: nat): nat {
    if i == 0 then v else v / 16 / Pow(32, i - 1)
  }

  lemma ShiftStep(v: nat, i: nat)
    requires i <= 12
    ensures var bit := if i == 0 then 16 else 32;
            Digits(v)[12 - i] == Shifted(v, i) % bit && Shifted(v, i + 1) == Shifted(v, i) / bit
  {
    if i > 0 {
      ToBase32At(12, v / 16, 12 - i);
      ShiftNext(v, i);
    }
  }

  lemma ShiftNext(v: nat, i: nat)
    requires i > 0
    ensures Shifted(v, i + 1) == Shifted(v, i) / 32
  {
    DivDiv(v / 16, Pow(32, i - 1), 32);
    assert Pow(32, i) == Pow(32, i - 1) * 32;
  }

  /** The text of a number. */
  method S(v: nat) returns (s: Bytes)
    requires v < TWO64
    ensures s == Text(v)
  {
    var a := new Byte[13](_ => DOT);
    var tmp, i := v, 0;
    while i <= 12
      invariant 0 <= i <= 13
      invariant tmp == Shifted(v, i)
      invariant forall j :: 13 - i <= j < 13 ==> a[j] == CharOf(Digits(v)[j])
    {
      var bit := if i == 0 then 16 else 32;
      ShiftStep(v, i);
      a[12 - i] := CharOf(tmp % bit);
      tmp := tmp / bit;
      i := i + 1;
    }
    assert a[..] == Chars(Digits(v));
    return Trim(a[..]);
  }

  /** The position of the last dot, or -1. */
  function LastDot(s: Bytes): (k: int)
    ensures -1 <= k < |s| && (k >= 0 ==> s[k] == DOT)
    ensures forall i :: k < i < |s| ==> s[i] != DOT
  {
    if s == [] then -1 else if s[|s| - 1] == DOT then |s| - 1 else LastDot(s[..|s| - 1])
  }

  /** What follows the last dot of a name: all of it if there is none. */
  function AfterLastDot(s: Bytes): Bytes {
    s[LastDot(s) + 1..]
  }

  /** The number of bits behind character `k` of a name. */
  function BitsBehind(k: int): nat
    requires -1 <= k <= 11
  {
    if k == -1 then 0 else (59 - 5 * k) as nat
  }

  /** The number of what follows the last dot of a name. */
  method NameSuffix(n: nat) returns (r: nat)
    requires n < TWO64
    ensures r == Value(DigitsOf(AfterLastDot(Text(n))))
  {
    var behindLastDot := BitsBehindLastDot(n);
    ghost var k := LastDot(Text(n));
    if behindLastDot == 0 {
      NumberOfText(n);
      assert AfterLastDot(Text(n)) == Text(n);
      return n;
    }
    SplitText(n);
    r := BitsToFront(n, behindLastDot, Text(n), Digits(n), k);
  }

  lemma SplitText(n: nat)
    requires n < TWO64
    ensures DigitsOf(Text(n)) == Digits(n) && n / 16 == Base32(Digits(n)[..12]) && n % 16 == Digits(n)[12]
  {
    DigitsOfTrimmed(Digits(n));
    ValueOfDigits(n);
  }

  /** Moves the last `bits` bits to the front, the last four of them aligned to five. */
  method BitsToFront(n: nat, bits: nat, ghost s: Bytes, ghost ds: seq<Digit>, ghost k: nat) returns (r: nat)
    requires k <= 11 && k < |s| <= 13 && DigitsOf(s) == ds && n / 16 == Base32(ds[..12]) && n % 16 == ds[12]
    requires bits == 59 - 5 * k
    ensures r == Value(DigitsOf(s[k + 1..]))
  {
    SuffixValue(n, s, ds, k);
    var mask := Shl(1, bits) - 16;
    var shift := 64 - bits;
    return Shl(BitAnd(n, mask), shift) + Shl(n % 16, shift - 1);
  }

  /** Scans a name from the left for its last dot that is followed by another character. */
  method BitsBehindLastDot(n: nat) returns (behindLastDot: nat)
    requires n < TWO64
    ensures LastDot(Text(n)) <= 11 && behindLastDot == BitsBehind(LastDot(Text(n)))
  {
    ghost var ds := Digits(n);
    var tmp := 0;
    behindLastDot := 0;
    var remainingBits: int := 59;
    ghost var i := 0;
    assert ds[..0] == [];
    while remainingBits >= 4
      invariant 0 <= i <= 12 && remainingBits == 59 - 5 * i
      invariant Scanned(ds, i, tmp, behindLastDot)
      decreases remainingBits
    {
      var c := n / Pow(2, remainingBits) % 32;
      DigitAt(n, i);
      ScanDigit(ds, i, tmp, behindLastDot);
      if c == 0 {
        tmp := remainingBits;
      } else {
        behindLastDot := tmp;
      }
      remainingBits := remainingBits - 5;
      i := i + 1;
    }
    ScanLast(ds, tmp, behindLastDot);
    var thirteenth := n % 16;
    if thirteenth != 0 {
      behindLastDot := tmp;
    }
  }

  /** After `i` characters: the bits behind the last dot so far, and behind the last dot that another character follows. */
  ghost predicate Scanned(ds: seq<Digit>, i: nat, tmp: nat, behind: nat)
    requires i <= |ds|
  {
    var dot, inner := LastDot(Chars(ds[..i])), LastDot(Trim(Chars(ds[..i])));
    dot <= 11 && tmp == BitsBehind(dot) && inner <= 11 && behind == BitsBehind(inner)
  }

  lemma ScanDigit(ds: seq<Digit>, i: nat, tmp: nat, behind: nat)
    requires i < 12 < |ds| && Scanned(ds, i, tmp, behind)
    ensures if ds[i] == 0 then Scanned(ds, i + 1, 59 - 5 * i, behind) else Scanned(ds, i + 1, tmp, tmp)
  {
    DotsSnoc(ds, i);
  }

  lemma ScanLast(ds: seq<Digit>, tmp: nat, behind: nat)
    requires |ds| == 13 && Scanned(ds, 12, tmp, behind)
    ensures var inner := LastDot(Trim(Chars(ds)));
            inner <= 11 && BitsBehind(inner) == if ds[12] == 0 then behind else tmp
  {
    DotsSnoc(ds, 12);
    assert ds[..13] == ds;
  }

  /** How the last dot moves when a character is added. */
  lemma DotsSnoc(ds: seq<Digit>, i: nat)
    requires i < |ds|
    ensures LastDot(Chars(ds[..i + 1])) == if ds[i] == 0 then i else LastDot(Chars(ds[..i]))
    ensures LastDot(Trim(Chars(ds[..i + 1]))) == if ds[i] == 0 then LastDot(Trim(Chars(ds[..i]))) else LastDot(Chars(ds[..i]))
  {
    var s := Chars(ds[..i + 1]);
    assert s[..i] == Chars(ds[..i]);
  }

  function ZeroDigits(n: nat): seq<Digit> {
    seq(n, _ => 0)
  }

  /** The digits behind position `k` move to the front. */
  lemma SuffixDigits(s: Bytes, k: nat, ds: seq<Digit>)
    requires k <= 11 && k < |s| <= 13 && DigitsOf(s) == ds
    ensures DigitsOf(s[k + 1..])[..12] == ds[k + 1..12] + [ds[12]] + ZeroDigits(k)
    ensures DigitsOf(s[k + 1..])[12] == 0
  {
    var fs := DigitsOf(s[k + 1..]);
    forall j | 0 <= j < 13 ensures fs[j] == if k + 1 + j < 13 then ds[k + 1 + j] else 0 {
      if k + 1 + j < 13 { assert DigitsOf(s)[k + 1 + j] == ds[k + 1 + j]; }
    }
  }

  /** Masking and shifting computes the number of the suffix behind position `k`. */
  lemma SuffixValue(n: nat, s: Bytes, ds: seq<Digit>, k: nat)
    requires k <= 11 && k < |s| <= 13 && DigitsOf(s) == ds && n / 16 == Base32(ds[..12]) && n % 16 == ds[12]
    ensures Shl(1, 59 - 5 * k) >= 16
    ensures Shl(BitAnd(n, Shl(1, 59 - 5 * k) - 16), 5 + 5 * k) + Shl(n % 16, 4 + 5 * k) == Value(DigitsOf(s[k + 1..]))
  {
    MaskBehind(n, ds, k);
    SuffixDigits(s, k, ds);
    SuffixNumber(ds, k);
    ShiftedSuffix(Base32(ds[k + 1..12]), n % 16, k);
  }

  lemma ShiftedSuffix(behind: nat, last: nat, k: nat)
    ensures Shl(16 * behind, 5 + 5 * k) + Shl(last, 4 + 5 * k) == 16 * Shl(behind * 32 + last, 5 * k)
  {
    ShlDouble(16 * behind, 4 + 5 * k);
    ShlAdd(32 * behind, last, 4 + 5 * k);
    Shl16(behind * 32 + last, 5 * k);
  }

  lemma {:induction false} ZerosBehind(a: seq<Digit>, k: nat)
    ensures Base32(a + ZeroDigits(k)) == Shl(Base32(a), 5 * k)
  {
    var b := a + ZeroDigits(k);
    if k == 0 {
      assert b == a;
    } else {
      assert b[..|b| - 1] == a + ZeroDigits(k - 1) && b[|b| - 1] == 0;
      ZerosBehind(a, k - 1);
      Shl16(Base32(a), 5 * k - 4);
    }
  }

  lemma SuffixNumber(ds: seq<Digit>, k: nat)
    requires |ds| == 13 && k <= 11
    ensures Base32(ds[k + 1..12] + [ds[12]] + ZeroDigits(k)) == Shl(Base32(ds[k + 1..12]) * 32 + ds[12], 5 * k)
  {
    ZerosBehind(ds[k + 1..12] + [ds[12]], k);
    assert (ds[k + 1..12] + [ds[12]])[..11 - k] == ds[k + 1..12];
  }

  lemma LowDigits(a: seq<Digit>, low: seq<Digit>)
    ensures Base32(a + low) % Pow(32, |low|) == Base32(low)
  {
    Base32Concat(a, low);
    Base32RoundTrip(low);
    DivMod(Base32(a + low), Pow(32, |low|), Base32(a), Base32(low));
  }

  lemma MaskBehind(n: nat, ds: seq<Digit>, k: nat)
    requires |ds| == 13 && k <= 11 && n / 16 == Base32(ds[..12])
    ensures Shl(1, 59 - 5 * k) >= 16
    ensures BitAnd(n, Shl(1, 59 - 5 * k) - 16) == 16 * Base32(ds[k + 1..12])
  {
    assert ds[..k + 1] + ds[k + 1..12] == ds[..12];
    LowDigits(ds[..k + 1], ds[k + 1..12]);
    MaskDigits(n, 11 - k, 59 - 5 * k);
  }

  lemma MaskDigits(n: nat, w: nat, bits: nat)
    requires bits == 4 + 5 * w
    ensures Shl(1, bits) >= 16 && BitAnd(n, Shl(1, bits) - 16) == 16 * (n / 16 % Pow(32, w))
  {
    ShlMul(1, bits);
    PowBits(w);
    PowShort(w);
    AndMask(n, Pow(32, w), 5 * w);
  }

  lemma {:induction false} PowShort(w: nat)
    ensures Pow(2, 5 * w) == Pow(32, w)
  {
    PowBits(w);
    var e := 5 * w;
    assert Pow(2, e + 4) == 2 * Pow(2, e + 3) == 4 * Pow(2, e + 2) == 8 * Pow(2, e + 1) == 16 * Pow(2, e);
  }
}
