/** Asset amounts such as "-0.0500 EOS": printing and the two parsers. */
module Assets {
  const TWO63: int := 0x8000_0000_0000_0000
  const TWO64: int := 0x1_0000_0000_0000_0000
  const MAX_AMOUNT: int := 0x3fff_ffff_ffff_ffff
  const MAX_PRECISION: nat := 18
  const MAX_INT64_TEXT: string := "9223372036854775807"

  datatype Error = AssetType | SymbolType | ParseError | Overflow | Underflow | Format | IndexOutOfRange

  datatype Result<+T> = Ok(value: T) | Err(error: Error)

  /** An amount in units of the last decimal; a precision is an unsigned byte. */
  datatype Asset = Asset(amount: int, precision: nat, symbol: string)

  // ------------------------------------------------------------------
  // Text
  // ------------------------------------------------------------------

  /** The first position of a character, or -1. */
  function Index(s: string, c: char): (r: int)
    ensures -1 <= r < |s|
    ensures r == -1 ==> c !in s
    ensures r >= 0 ==> s[r] == c && c !in s[..r]
  {
    if s == [] then -1
    else if s[0] == c then 0
    else
      var r := Index(s[1..], c);
      if r == -1 then -1 else
        assert s[..r + 1] == [s[0]] + s[1..][..r];
        r + 1
  }

  lemma {:induction false} IndexIs(a: string, c: char, b: string)
    requires c !in a
    ensures Index(a + [c] + b, c) == |a|
    decreases |a|
  {
    if a != [] {
      assert (a + [c] + b)[1..] == a[1..] + [c] + b;
      IndexIs(a[1..], c, b);
    }
  }

  predicate IsDigit(c: char) {
    '0' <= c <= '9'
  }

  predicate IsDigits(s: string) {
    forall i :: 0 <= i < |s| ==> IsDigit(s[i])
  }

  predicate IsCapitals(s: string) {
    forall i :: 0 <= i < |s| ==> 'A' <= s[i] <= 'Z'
  }

  function DigitOf(c: char): (d: nat)
    ensures d < 10
  {
    if IsDigit(c) then c as int - '0' as int else 0
  }

  function DigitChar(d: nat): (c: char)
    requires d < 10
    ensures IsDigit(c) && DigitOf(c) == d
  {
    (d + '0' as int) as char
  }

  /** The number a text of digits stands for. */
  function Number(s: string): nat {
    if s == [] then 0 else Number(s[..|s| - 1]) * 10 + DigitOf(s[|s| - 1])
  }

  function Decimal(n: nat): (s: string)
    ensures |s| > 0 && IsDigits(s) && Number(s) == n
  {
    if n < 10 then [DigitChar(n)]
    else
      var s := Decimal(n / 10);
      assert (s + [DigitChar(n % 10)])[..|s|] == s;
      s + [DigitChar(n % 10)]
  }

  function Power10(e: nat): (p: nat)
    ensures p > 0
  {
    if e == 0 then 1 else 10 * Power10(e - 1)
  }

  lemma {:induction false} NumberConcat(a: string, b: string)
    ensures Number(a + b) == Number(a) * Power10(|b|) + Number(b)
    decreases |b|
  {
    if b == [] {
      assert a + b == a;
    } else {
      var n := |b| - 1;
      NumberConcat(a, b[..n]);
      assert (a + b)[..|a| + n] == a + b[..n];
      TimesTen(Number(a), Power10(n), Number(b[..n]));
    }
  }

  lemma TimesTen(x: nat, p: nat, y: nat)
    ensures (x * p + y) * 10 == x * (10 * p) + y * 10
  {
  }

  lemma {:induction false} NumberBelow(s: string)
    ensures Number(s) < Power10(|s|)
    decreases |s|
  {
    if s != [] { NumberBelow(s[..|s| - 1]); }
  }

  lemma {:induction false} DecimalLength(n: nat, k: nat)
    requires n < Power10(k) && k > 0
    ensures |Decimal(n)| <= k
  {
    if n >= 10 { DecimalLength(n / 10, k - 1); }
  }

  lemma {:induction false} ZerosAreZero(n: nat)
    ensures IsDigits(Zeros(n)) && Number(Zeros(n)) == 0
  {
    if n > 0 {
      ZerosAreZero(n - 1);
      assert Zeros(n)[..n - 1] == Zeros(n - 1);
    }
  }

  function Zeros(n: nat): (s: string)
    ensures |s| == n
  {
    seq(n, _ => '0')
  }

  /** The order of texts. */
  predicate AtMost(a: string, b: string)
    decreases |a|
  {
    a == [] || (b != [] && (a[0] < b[0] || (a[0] == b[0] && AtMost(a[1..], b[1..]))))
  }

  /** Equally long texts of digits are ordered as their numbers are. */
  lemma {:induction false} NumbersAtMost(a: string, b: string)
    requires IsDigits(a) && IsDigits(b) && |a| == |b| && Number(a) <= Number(b)
    ensures AtMost(a, b)
    decreases |a|
  {
    if a != [] {
      NumberHead(a);
      NumberHead(b);
      NumberBelow(b[1..]);
      Leading(DigitOf(a[0]), Number(a[1..]), DigitOf(b[0]), Number(b[1..]), Power10(|a| - 1));
      if a[0] == b[0] { NumbersAtMost(a[1..], b[1..]); }
    }
  }

  lemma NumberHead(s: string)
    requires s != []
    ensures Number(s) == DigitOf(s[0]) * Power10(|s| - 1) + Number(s[1..])
  {
    var head := [s[0]];
    assert s == head + s[1..];
    assert Number(head) == DigitOf(s[0]) by { assert head[..0] == []; }
    NumberConcat(head, s[1..]);
  }

  lemma Leading(d: nat, x: nat, e: nat, y: nat, p: nat)
    requires d * p + x <= e * p + y && y < p
    ensures d <= e && (d == e ==> x <= y)
  {
    if d > e { OneMore(e, d, p); }
  }

  lemma OneMore(e: nat, d: nat, p: nat)
    requires e < d
    ensures e * p + p <= d * p
  {
    assert d * p == (e + 1) * p + (d - e - 1) * p;
  }

  // ------------------------------------------------------------------
  // Printing
  // ------------------------------------------------------------------

  /** A number in signed 64-bit arithmetic. */
  function Wrap(n: int): (r: int)
    ensures -TWO63 <= n < TWO63 ==> r == n
  {
    (n + TWO63) % TWO64 - TWO63
  }

  function DecimalInt(n: int): string {
    if n < 0 then "-" + Decimal(-n) else Decimal(n)
  }

  /** The digits of an amount, with zeros in front so that one of them is left of the point. */
  function Padded(digits: string, precision: nat): (s: string)
    ensures |s| >= |digits|
  {
    var width := (precision + 1) % 256;
    if |digits| < width then Zeros(width - |digits|) + digits else digits
  }

  function WithPoint(digits: string, precision: nat): string
    requires precision <= |digits|
  {
    if precision == 0 then digits
    else digits[..|digits| - precision] + "." + digits[|digits| - precision..]
  }

  /** The text of an asset. A precision of 255 would make the width wrap around and the slicing fail. */
  function String(a: Asset): string
    requires a.precision < 255
  {
    var negative := a.amount < 0;
    var digits := Padded(DecimalInt(if negative then Wrap(-a.amount) else a.amount), a.precision);
    (if negative then "-" else "") + WithPoint(digits, a.precision) + " " + a.symbol
  }

  // ------------------------------------------------------------------
  // Parsing
  // ------------------------------------------------------------------

  /** A number read from text: on failure the value is 0 or the nearest 64-bit number. */
  datatype Parsed = Parsed(value: int, ok: bool)

  /** A text without its minus sign. */
  function Unsigned(s: string): string {
    if s != [] && s[0] == '-' then s[1..] else s
  }

  function ParseInt(s: string): Parsed {
    var body := if s != [] && s[0] == '+' then s[1..] else Unsigned(s);
    if body == [] || !IsDigits(body) then Parsed(0, false) else InRange(Number(body), s[0] == '-')
  }

  function InRange(n: int, negative: bool): Parsed {
    if negative then (if n > TWO63 then Parsed(-TWO63, false) else Parsed(-n, true))
    else if n >= TWO63 then Parsed(TWO63 - 1, false) else Parsed(n, true)
  }

  /** A text of digits is at most the largest 64-bit number, compared as text. */
  predicate FitsInt64(body: string) {
    |body| < |MAX_INT64_TEXT| || (|body| == |MAX_INT64_TEXT| && AtMost(body, MAX_INT64_TEXT))
  }

  /** The check before a whole part is read. */
  function CheckParseInt64(s: string): Result<()> {
    if s == [] then Err(IndexOutOfRange) else if FitsInt64(Unsigned(s)) then Ok(()) else Err(ParseError)
  }

  function SymbolOf(precision: string, name: string): Result<(nat, string)> {
    if !IsCapitals(name) then Err(SymbolType)
    else
      var p := ParseInt(precision).value % 256;
      if p > MAX_PRECISION then Err(SymbolType) else Ok((p, name))
  }

  /** The precision and name of a symbol written as "4,EOS". */
  function SymbolFromString(s: string): Result<(nat, string)> {
    var comma := Index(s, ',');
    if comma == -1 then Err(SymbolType) else SymbolOf(s[..comma], s[comma + 1..])
  }

  predicate ValidAsset(a: Asset) {
    -MAX_AMOUNT <= a.amount <= MAX_AMOUNT && a.precision <= MAX_PRECISION && a.symbol != [] && IsCapitals(a.symbol)
  }

  function Checked(a: Asset): Result<Asset> {
    if ValidAsset(a) then Ok(a) else Err(AssetType)
  }

  /** The whole part and the fraction of an amount, both with its sign. */
  function Parts(amount: string, dot: int): Result<(int, int)>
    requires -1 <= dot < |amount|
  {
    var text := if dot == -1 then amount else amount[..dot];
    var check := CheckParseInt64(text);
    if check.Err? then Err(check.error)
    else
      var whole := ParseInt(text).value;
      if dot == -1 then Ok((whole, 0))
      else
        var fraction := ParseInt(amount[dot + 1..]).value;
        Ok((whole, if amount[0] == '-' then Wrap(-fraction) else fraction))
  }

  /** `scaled` times ten, `n` times, with the source's check for overflow against `whole`. */
  function Scale(whole: int, scaled: int, n: nat): Result<int>
    decreases n
  {
    if n == 0 then Ok(scaled)
    else
      var next := Wrap(scaled * 10);
      if whole >= 0 && whole > next then Err(Overflow)
      else if whole < 0 && whole < next then Err(Underflow)
      else Scale(whole, next, n - 1)
  }

  function AddFraction(scaled: int, fraction: int): Result<int> {
    var amount := Wrap(scaled + fraction);
    if fraction > 0 && fraction > amount then Err(Overflow)
    else if fraction < 0 && fraction < amount then Err(Underflow)
    else Ok(amount)
  }

  /** The amount made of a whole part, scaled `precision` times, and a fraction. */
  function Combine(parts: (int, int), precision: nat): Result<int> {
    var scaled := Scale(parts.0, parts.0, precision);
    if scaled.Err? then Err(scaled.error) else AddFraction(scaled.value, parts.1)
  }

  /** The asset with the given amount, point and symbol, according to FromString. */
  function ParseAmount(amount: string, dot: int, symbol: (nat, string)): Result<Asset>
    requires -1 <= dot < |amount|
  {
    var parts := Parts(amount, dot);
    if parts.Err? then Err(parts.error)
    else
      var total := Combine(parts.value, symbol.0);
      if total.Err? then Err(total.error) else Checked(Asset(total.value, symbol.0, symbol.1))
  }

  function SymbolText(amount: string, dot: int, name: string): string
    requires -1 <= dot < |amount|
  {
    (if dot == -1 then "0" else Decimal(|amount| - dot - 1)) + [','] + name
  }

  function ParseAt(amount: string, dot: int, name: string): Result<Asset>
    requires -1 <= dot < |amount|
  {
    if dot != -1 && dot == |amount| - 1 then Err(AssetType)
    else
      var symbol := SymbolFromString(SymbolText(amount, dot, name));
      if symbol.Err? then Err(symbol.error) else ParseAmount(amount, dot, symbol.value)
  }

  function ParseSplit(amount: string, name: string): Result<Asset> {
    ParseAt(amount, Index(amount, '.'), name)
  }

  /** The asset a text stands for, according to FromString. */
  function Parse(s: string): Result<Asset> {
    var space := Index(s, ' ');
    if space == -1 then Err(AssetType) else ParseSplit(s[..space], s[space + 1..])
  }

  function NewAssetAt(amount: string, dot: int, name: string): Result<Asset>
    requires -1 <= dot < |amount|
  {
    var value := ParseInt(if dot == -1 then amount else amount[..dot] + amount[dot + 1..]);
    if !value.ok then Err(Format)
    else Checked(Asset(value.value, if dot == -1 then 0 else (|amount| - dot - 1) % 256, name))
  }

  /** The asset a text stands for, according to NewAsset. */
  function NewAsset(s: string): Result<Asset> {
    var space := Index(s, ' ');
    if space == -1 || |s| - space - 1 > 7 then Err(Format)
    else NewAssetAt(s[..space], Index(s[..space], '.'), s[space + 1..])
  }

  // ------------------------------------------------------------------
  // Parsing what was printed
  // ------------------------------------------------------------------

  /** The digits printed for an amount: enough of them, and they stand for the amount. */
  lemma PaddedNumber(d: string, p: nat)
    requires p < 255
    ensures Number(Padded(d, p)) == Number(d)
  {
    if |d| <= p { ZerosInFront(p + 1 - |d|, d); }
  }

  lemma PaddedDigits(d: string, p: nat)
    requires IsDigits(d) && p < 255
    ensures IsDigits(Padded(d, p)) && |Padded(d, p)| == if |d| > p then |d| else p + 1
  {
  }

  lemma ZerosInFront(k: nat, d: string)
    ensures Number(Zeros(k) + d) == Number(d)
  {
    ZerosAreZero(k);
    NumberConcat(Zeros(k), d);
  }

  /** The digits left and right of the point. */
  lemma Halves(d: string, p: nat)
    requires IsDigits(d) && |d| > p
    ensures var whole, fraction := d[..|d| - p], d[|d| - p..];
            && IsDigits(whole) && IsDigits(fraction) && whole != [] && |fraction| == p
            && Number(d) == Number(whole) * Power10(p) + Number(fraction) && Number(fraction) < Power10(p)
  {
    var whole, fraction := d[..|d| - p], d[|d| - p..];
    assert d == whole + fraction;
    NumberConcat(whole, fraction);
    NumberBelow(fraction);
  }

  lemma PowersOf10()
    ensures Power10(18) == 1_000_000_000_000_000_000 && Power10(19) == 10_000_000_000_000_000_000
  {
    assert Power10(3) == 1000;
    assert Power10(6) == 1000 * Power10(3);
    assert Power10(9) == 1000 * Power10(6);
    assert Power10(12) == 1000 * Power10(9);
    assert Power10(15) == 1000 * Power10(12);
  }

  lemma {:induction false} Power10Grows(p: nat, q: nat)
    requires p <= q
    ensures Power10(p) <= Power10(q)
    decreases q
  {
    if p < q { Power10Grows(p, q - 1); }
  }

  lemma MaxInt64()
    ensures |MAX_INT64_TEXT| == 19 && IsDigits(MAX_INT64_TEXT) && Number(MAX_INT64_TEXT) >= MAX_AMOUNT
  {
    var s := MAX_INT64_TEXT;
    PowersOf10();
    assert |s| == 19 && s[0] == '9';
    NumberHead(s);
  }

  /** The digits of an amount fit into 64 bits. */
  lemma DigitsFit(digits: string)
    requires IsDigits(digits) && |digits| <= 19 && Number(digits) <= MAX_AMOUNT
    ensures FitsInt64(digits)
  {
    MaxInt64();
    if |digits| == 19 { NumbersAtMost(digits, MAX_INT64_TEXT); }
  }

  lemma SignDropped(digits: string, negative: bool)
    requires IsDigits(digits) && digits != []
    ensures var s := Sign(negative) + digits; s != [] && s[0] != '+' && (s[0] == '-' <==> negative) && Unsigned(s) == digits
  {
    var s := Sign(negative) + digits;
    if negative { assert s[1..] == digits; } else { assert s == digits && IsDigit(s[0]); }
  }

  /** A printed number is read back. */
  lemma ParseSigned(digits: string, negative: bool)
    requires IsDigits(digits) && 0 < |digits| && Number(digits) < TWO63
    ensures ParseInt(Sign(negative) + digits) == Parsed(Signed(Number(digits), negative), true)
  {
    SignDropped(digits, negative);
  }

  /** A printed amount passes the check for 64-bit numbers. */
  lemma CheckSigned(digits: string, negative: bool)
    requires IsDigits(digits) && 0 < |digits| <= 19 && Number(digits) <= MAX_AMOUNT
    ensures CheckParseInt64(Sign(negative) + digits) == Ok(())
  {
    SignDropped(digits, negative);
    DigitsFit(digits);
  }

  function Sign(negative: bool): string {
    if negative then "-" else ""
  }

  function Signed(n: nat, negative: bool): int {
    if negative then -(n as int) else n
  }

  lemma WholeIsShort(n: nat, p: nat)
    requires n <= MAX_AMOUNT && p <= MAX_PRECISION
    ensures IsDigits(Padded(Decimal(n), p)) && Number(Padded(Decimal(n), p)) == n && p < |Padded(Decimal(n), p)| <= p + 19
  {
    PaddedNumber(Decimal(n), p);
    PaddedDigits(Decimal(n), p);
    PowersOf10();
    DecimalLength(n, 19);
  }

  lemma SymbolInverts(p: nat, symbol: string)
    requires p <= MAX_PRECISION && IsCapitals(symbol)
    ensures SymbolFromString(Decimal(p) + [','] + symbol) == Ok((p, symbol))
  {
    var s := Decimal(p) + [','] + symbol;
    IndexIs(Decimal(p), ',', symbol);
    assert s[..|Decimal(p)|] == Decimal(p) && s[|Decimal(p)| + 1..] == symbol;
    PrecisionInverts(p);
  }

  lemma PrecisionInverts(p: nat)
    requires p <= MAX_PRECISION
    ensures ParseInt(Decimal(p)) == Parsed(p, true)
  {
    ParseSigned(Decimal(p), false);
    assert Sign(false) + Decimal(p) == Decimal(p);
  }

  /** Scaling by ten is exact, and its check silent, as long as the result fits. */
  lemma {:induction false} ScaleExact(whole: int, scaled: int, n: nat)
    requires -TWO63 < scaled * Power10(n) < TWO63
    requires (whole >= 0 && scaled >= whole) || (whole < 0 && scaled <= whole)
    ensures Scale(whole, scaled, n) == Ok(scaled * Power10(n))
    decreases n
  {
    if n > 0 {
      var next, p := scaled * 10, Power10(n - 1);
      assert next * p == scaled * Power10(n);
      NoLarger(next, p);
      ScaleExact(whole, next, n - 1);
    }
  }

  lemma NoLarger(x: int, p: nat)
    requires p > 0 && -TWO63 < x * p < TWO63
    ensures -TWO63 < x < TWO63
  {
    if x > 0 { assert x * p >= x; }
    if x < 0 { assert x * p <= x; }
  }

  /** The text of an amount with the given digits left and right of the point. */
  function AmountText(negative: bool, whole: string, fraction: string): string {
    if fraction == [] then Sign(negative) + whole else Sign(negative) + whole + ['.'] + fraction
  }

  /** Text `text` with its point at `dot` is an amount printed with the given digits. */
  predicate Cut(text: string, dot: int, negative: bool, whole: string, fraction: string)
  {
    && -1 <= dot < |text| && (dot == -1 <==> fraction == [])
    && if dot == -1 then text == Sign(negative) + whole
       else dot == |text| - 1 - |fraction| && text[..dot] == Sign(negative) + whole && text[dot + 1..] == fraction
  }

  lemma AmountCut(negative: bool, whole: string, fraction: string)
    requires IsDigits(whole) && IsDigits(fraction) && whole != []
    ensures var text := AmountText(negative, whole, fraction);
            ' ' !in text && Cut(text, Index(text, '.'), negative, whole, fraction)
  {
    var text := AmountText(negative, whole, fraction);
    if fraction == [] {
      assert '.' !in text;
    } else {
      IndexIs(Sign(negative) + whole, '.', fraction);
    }
  }

  /** The two parts read back from a printed amount. */
  lemma PartsInvert(text: string, dot: int, negative: bool, whole: string, fraction: string)
    requires Cut(text, dot, negative, whole, fraction)
    requires IsDigits(whole) && 0 < |whole| <= 19 && Number(whole) <= MAX_AMOUNT && IsDigits(fraction) && |fraction| <= 18
    ensures Parts(text, dot) == Ok((Signed(Number(whole), negative), Signed(Number(fraction), negative)))
  {
    ParseSigned(whole, negative);
    CheckSigned(whole, negative);
    if dot != -1 {
      FractionInverts(fraction);
      FirstIsSign(text, dot, negative, whole, fraction);
      PartsAre(text, dot, negative, Signed(Number(whole), negative), Number(fraction));
    }
  }

  lemma FirstIsSign(text: string, dot: int, negative: bool, whole: string, fraction: string)
    requires Cut(text, dot, negative, whole, fraction) && dot != -1 && IsDigits(whole) && whole != []
    ensures text[0] == '-' <==> negative
  {
    SignDropped(whole, negative);
    assert text[0] == text[..dot][0];
  }

  lemma PartsAre(text: string, dot: int, negative: bool, whole: int, fraction: nat)
    requires 0 <= dot < |text| && CheckParseInt64(text[..dot]) == Ok(()) && ParseInt(text[..dot]) == Parsed(whole, true)
    requires ParseInt(text[dot + 1..]) == Parsed(fraction, true) && fraction < TWO63 && (text[0] == '-' <==> negative)
    ensures Parts(text, dot) == Ok((whole, Signed(fraction, negative)))
  {
  }

  lemma FractionInverts(fraction: string)
    requires IsDigits(fraction) && 0 < |fraction| <= 18
    ensures ParseInt(fraction) == Parsed(Number(fraction), true) && Number(fraction) < TWO63
  {
    NumberBelow(fraction);
    Power10Grows(|fraction|, 18);
    PowersOf10();
    ParseSigned(fraction, false);
    assert Sign(false) + fraction == fraction;
  }

  /** Scaling the whole part and adding the fraction gives the amount back. */
  lemma AmountInverts(whole: nat, p: nat, fraction: nat, negative: bool)
    requires whole * Power10(p) + fraction <= MAX_AMOUNT
    ensures Combine((Signed(whole, negative), Signed(fraction, negative)), p)
            == Ok(Signed(whole * Power10(p) + fraction, negative))
    ensures whole <= MAX_AMOUNT
  {
    var w := Signed(whole, negative);
    SignedProduct(whole, Power10(p), negative);
    ScaleExact(w, w, p);
  }

  lemma SignedProduct(whole: nat, p: nat, negative: bool)
    requires p > 0
    ensures Signed(whole, negative) * p == Signed(whole * p, negative) && whole <= whole * p
  {
  }

  function Magnitude(a: Asset): nat {
    if a.amount < 0 then -a.amount else a.amount
  }

  /** The digits printed for the amount of a valid asset. */
  function AmountDigits(a: Asset): string
    requires a.precision < 255
  {
    Padded(Decimal(Magnitude(a)), a.precision)
  }

  /** The digits left and right of the point stand for the amount. */
  ghost predicate Shown(a: Asset, whole: string, fraction: string) {
    && IsDigits(whole) && 0 < |whole| <= 19 && IsDigits(fraction) && |fraction| == a.precision
    && Number(whole) * Power10(a.precision) + Number(fraction) == Magnitude(a)
  }

  lemma ShowsDigits(a: Asset) returns (whole: string, fraction: string)
    requires ValidAsset(a)
    ensures Shown(a, whole, fraction)
    ensures String(a) == AmountText(a.amount < 0, whole, fraction) + [' '] + a.symbol
  {
    var d, p := AmountDigits(a), a.precision;
    WholeIsShort(Magnitude(a), p);
    whole, fraction := d[..|d| - p], d[|d| - p..];
    Halves(d, p);
    PointText(d, p, a.amount < 0);
    StringIs(a);
  }

  lemma StringIs(a: Asset)
    requires ValidAsset(a) && a.precision <= |AmountDigits(a)|
    ensures String(a) == Sign(a.amount < 0) + WithPoint(AmountDigits(a), a.precision) + [' '] + a.symbol
  {
  }

  lemma PointText(d: string, p: nat, negative: bool)
    requires p <= |d|
    ensures Sign(negative) + WithPoint(d, p) == AmountText(negative, d[..|d| - p], d[|d| - p..])
  {
    if p == 0 { assert d[..|d|] == d; }
  }

  /** A printed asset is cut into its amount and its symbol. */
  lemma CutAtSpace(text: string, symbol: string)
    requires ' ' !in text
    ensures var s := text + [' '] + symbol; Index(s, ' ') == |text| && s[..|text|] == text && s[|text| + 1..] == symbol
  {
    IndexIs(text, ' ', symbol);
  }

  /** FromString undoes String, for every valid asset. */
  lemma ParseInvertsString(a: Asset)
    requires ValidAsset(a)
    ensures Parse(String(a)) == Ok(a)
  {
    var whole, fraction := ShowsDigits(a);
    var text := AmountText(a.amount < 0, whole, fraction);
    AmountCut(a.amount < 0, whole, fraction);
    CutAtSpace(text, a.symbol);
    ParseAtInverts(a, text, Index(text, '.'), whole, fraction);
  }

  lemma ParseAtInverts(a: Asset, text: string, dot: int, whole: string, fraction: string)
    requires ValidAsset(a) && Shown(a, whole, fraction) && Cut(text, dot, a.amount < 0, whole, fraction)
    ensures ParseAt(text, dot, a.symbol) == Ok(a)
  {
    SymbolTextInverts(text, dot, a.precision, a.symbol);
    ParseAmountInverts(a, text, dot, whole, fraction);
  }

  lemma SymbolTextInverts(text: string, dot: int, p: nat, symbol: string)
    requires p <= MAX_PRECISION && IsCapitals(symbol) && -1 <= dot < |text|
    requires if p == 0 then dot == -1 else 0 <= dot == |text| - 1 - p
    ensures SymbolFromString(SymbolText(text, dot, symbol)) == Ok((p, symbol))
  {
    SymbolInverts(p, symbol);
    assert Decimal(0) == "0";
    assert SymbolText(text, dot, symbol) == Decimal(p) + [','] + symbol;
  }

  lemma ParseAmountInverts(a: Asset, text: string, dot: int, whole: string, fraction: string)
    requires ValidAsset(a) && Shown(a, whole, fraction) && Cut(text, dot, a.amount < 0, whole, fraction)
    ensures ParseAmount(text, dot, (a.precision, a.symbol)) == Ok(a)
  {
    ShownCombines(a, whole, fraction);
    PartsInvert(text, dot, a.amount < 0, whole, fraction);
    AmountIs(text, dot, a, (Signed(Number(whole), a.amount < 0), Signed(Number(fraction), a.amount < 0)));
  }

  lemma ShownCombines(a: Asset, whole: string, fraction: string)
    requires ValidAsset(a) && Shown(a, whole, fraction)
    ensures Combine((Signed(Number(whole), a.amount < 0), Signed(Number(fraction), a.amount < 0)), a.precision) == Ok(a.amount)
    ensures Number(whole) <= MAX_AMOUNT
  {
    AmountInverts(Number(whole), a.precision, Number(fraction), a.amount < 0);
  }

  lemma AmountIs(text: string, dot: int, a: Asset, parts: (int, int))
    requires ValidAsset(a) && -1 <= dot < |text| && Parts(text, dot) == Ok(parts) && Combine(parts, a.precision) == Ok(a.amount)
    ensures ParseAmount(text, dot, (a.precision, a.symbol)) == Ok(a)
  {
  }

  /** NewAsset undoes String, for every valid asset whose symbol has at most seven letters and for no other. */
  lemma NewAssetInvertsString(a: Asset)
    requires ValidAsset(a)
    ensures NewAsset(String(a)) == Ok(a) <==> |a.symbol| <= 7
  {
    var whole, fraction := ShowsDigits(a);
    var text := AmountText(a.amount < 0, whole, fraction);
    AmountCut(a.amount < 0, whole, fraction);
    CutAtSpace(text, a.symbol);
    NewAssetAtInverts(a, text, Index(text, '.'), whole, fraction);
  }

  lemma NewAssetAtInverts(a: Asset, text: string, dot: int, whole: string, fraction: string)
    requires ValidAsset(a) && Shown(a, whole, fraction) && Cut(text, dot, a.amount < 0, whole, fraction)
    ensures NewAssetAt(text, dot, a.symbol) == Ok(a)
  {
    WithoutPoint(text, dot, a.amount < 0, whole, fraction);
    AllDigitsInvert(a, whole, fraction);
    NewAssetIs(text, dot, a);
  }

  lemma NewAssetIs(text: string, dot: int, a: Asset)
    requires ValidAsset(a) && -1 <= dot < |text| && a.precision == if dot == -1 then 0 else |text| - 1 - dot
    requires ParseInt(if dot == -1 then text else text[..dot] + text[dot + 1..]) == Parsed(a.amount, true)
    ensures NewAssetAt(text, dot, a.symbol) == Ok(a)
  {
  }

  lemma AllDigitsInvert(a: Asset, whole: string, fraction: string)
    requires ValidAsset(a) && Shown(a, whole, fraction)
    ensures ParseInt(Sign(a.amount < 0) + (whole + fraction)) == Parsed(a.amount, true)
  {
    NumberConcat(whole, fraction);
    DigitsConcat(whole, fraction);
    ParseSigned(whole + fraction, a.amount < 0);
  }

  lemma DigitsConcat(a: string, b: string)
    requires IsDigits(a) && IsDigits(b)
    ensures IsDigits(a + b)
  {
  }

  lemma WithoutPoint(text: string, dot: int, negative: bool, whole: string, fraction: string)
    requires Cut(text, dot, negative, whole, fraction)
    ensures (if dot == -1 then text else text[..dot] + text[dot + 1..]) == Sign(negative) + (whole + fraction)
  {
    if dot == -1 { assert whole + fraction == whole; }
  }

  /** Parses an asset. */
  method FromString(s: string) returns (r: Result<Asset>)
    ensures r == Parse(s)
    ensures ' ' !in s ==> r == Err(AssetType)
    ensures r.Ok? ==> var a := r.value;
                      && -0x3fff_ffff_ffff_ffff <= a.amount <= 0x3fff_ffff_ffff_ffff && a.precision <= 18
                      && a.symbol != [] && (forall i :: 0 <= i < |a.symbol| ==> 'A' <= a.symbol[i] <= 'Z')
  {
    var space := Index(s, ' ');
    if space == -1 { return Err(AssetType); }
    r := FromParts(s[..space], s[space + 1..]);
  }

  method FromParts(amount: string, name: string) returns (r: Result<Asset>)
    ensures r == ParseSplit(amount, name) && (r.Ok? ==> ValidAsset(r.value))
  {
    var dot := Index(amount, '.');
    if dot != -1 && dot == |amount| - 1 { return Err(AssetType); }
    var symbol := SymbolFromString(SymbolText(amount, dot, name));
    if symbol.Err? { return Err(symbol.error); }
    var parts := Parts(amount, dot);
    if parts.Err? { return Err(parts.error); }
    var total := ScaledAmount(parts.value.0, parts.value.1, symbol.value.0);
    if total.Err? { return Err(total.error); }
    return Checked(Asset(total.value, symbol.value.0, symbol.value.1));
  }

  /** Scales the whole part in a loop that checks for overflow, then adds the fraction. */
  method ScaledAmount(whole: int, fraction: int, precision: nat) returns (r: Result<int>)
    ensures r == Combine((whole, fraction), precision)
  {
    var amount, i := whole, 0;
    while i < precision
      invariant 0 <= i <= precision
      invariant Scale(whole, amount, precision - i) == Scale(whole, whole, precision)
    {
      amount := Wrap(amount * 10);
      if whole >= 0 && whole > amount { return Err(Overflow); }
      if whole < 0 && whole < amount { return Err(Underflow); }
      i := i + 1;
    }
    return AddFraction(amount, fraction);
  }
}
