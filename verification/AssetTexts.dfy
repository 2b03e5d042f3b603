/** Which texts the two asset parsers take, and for what. */
module AssetTexts {
  import opened Assets

  /** An asset within the bounds every parser checks. */
  lemma TakenIsValid(amount: string, name: string, a: Asset)
    requires ParseSplit(amount, name) == Ok(a)
    ensures -0x3fff_ffff_ffff_ffff <= a.amount <= 0x3fff_ffff_ffff_ffff && a.precision <= 18
    ensures a.symbol != [] && forall i :: 0 <= i < |a.symbol| ==> 'A' <= a.symbol[i] <= 'Z'
  {
    var dot := Index(amount, '.');
    var symbol := SymbolFromString(SymbolText(amount, dot, name)).value;
    var total := Combine(Parts(amount, dot).value, symbol.0).value;
    assert Checked(Asset(total, symbol.0, symbol.1)) == Ok(a);
  }

  // ------------------------------------------------------------------
  // FromString
  // ------------------------------------------------------------------

  /** The text of a decimal number in front of a symbol. */
  function DecimalText(negative: bool, whole: string, fraction: string, name: string): string {
    (if negative then "-" else "") + whole + (if fraction == [] then "" else "." + fraction) + " " + name
  }

  lemma DecimalTextIs(negative: bool, whole: string, fraction: string, name: string)
    ensures DecimalText(negative, whole, fraction, name) == AmountText(negative, whole, fraction) + [' '] + name
  {
    if fraction == [] {
      assert Sign(negative) + whole + "" == Sign(negative) + whole;
    } else {
      assert Sign(negative) + whole + ("." + fraction) == Sign(negative) + whole + ['.'] + fraction;
    }
  }

  /** A whole part longer than nineteen digits is refused, whatever its value. */
  lemma LongWholeRefused(text: string, dot: int, negative: bool, whole: string, fraction: string)
    requires Cut(text, dot, negative, whole, fraction) && IsDigits(whole) && |whole| > 19
    ensures Parts(text, dot) == Err(ParseError)
  {
    SignDropped(whole, negative);
  }

  lemma DecimalParts(text: string, dot: int, negative: bool, whole: string, fraction: string, name: string, v: nat)
    requires Cut(text, dot, negative, whole, fraction) && IsDigits(whole) && 0 < |whole| <= 19
    requires IsDigits(fraction) && |fraction| <= 18 && name != [] && IsCapitals(name)
    requires v == Number(whole) * Power10(|fraction|) + Number(fraction) && v <= MAX_AMOUNT
    ensures ParseAmount(text, dot, (|fraction|, name)) == Ok(Asset(Signed(v, negative), |fraction|, name))
  {
    DecimalCombines(Number(whole), |fraction|, Number(fraction), negative, v);
    PartsInvert(text, dot, negative, whole, fraction);
    var parts := (Signed(Number(whole), negative), Signed(Number(fraction), negative));
    AmountIs(text, dot, Asset(Signed(v, negative), |fraction|, name), parts);
  }

  lemma DecimalCombines(whole: nat, p: nat, fraction: nat, negative: bool, v: nat)
    requires v == whole * Power10(p) + fraction && v <= MAX_AMOUNT
    ensures Combine((Signed(whole, negative), Signed(fraction, negative)), p) == Ok(Signed(v, negative)) && whole <= MAX_AMOUNT
  {
    AmountInverts(whole, p, fraction, negative);
  }

  lemma DecimalParse(negative: bool, whole: string, fraction: string, name: string)
    requires IsDigits(whole) && whole != [] && IsDigits(fraction) && |fraction| <= 18 && name != [] && IsCapitals(name)
    ensures var text := AmountText(negative, whole, fraction);
            var dot := Index(text, '.');
            && Cut(text, dot, negative, whole, fraction)
            && Parse(DecimalText(negative, whole, fraction, name)) == ParseAmount(text, dot, (|fraction|, name))
  {
    var text := AmountText(negative, whole, fraction);
    DecimalTextIs(negative, whole, fraction, name);
    AmountCut(negative, whole, fraction);
    CutAtSpace(text, name);
    SymbolTextInverts(text, Index(text, '.'), |fraction|, name);
  }

  /** FromString reads a decimal number with up to eighteen decimals as that number, if and only if its magnitude is at
      most 2^62 - 1 and its whole part has at most nineteen digits. */
  lemma DecimalRead(negative: bool, whole: string, fraction: string, name: string, v: nat)
    requires IsDigits(whole) && whole != [] && IsDigits(fraction) && |fraction| <= 18 && name != [] && IsCapitals(name)
    requires v == Number(whole) * Power10(|fraction|) + Number(fraction)
    ensures Parse(DecimalText(negative, whole, fraction, name)) == Ok(Asset(if negative then 0 - v else v, |fraction|, name)) <==>
            v <= 0x3fff_ffff_ffff_ffff && |whole| <= 19
  {
    var text := AmountText(negative, whole, fraction);
    var dot := Index(text, '.');
    DecimalParse(negative, whole, fraction, name);
    if |whole| > 19 {
      LongWholeRefused(text, dot, negative, whole, fraction);
    } else if v <= MAX_AMOUNT {
      DecimalParts(text, dot, negative, whole, fraction, name, v);
    } else if ParseAmount(text, dot, (|fraction|, name)).Ok? {
      AmountIsValid(text, dot, (|fraction|, name));
    }
  }

  lemma AmountIsValid(text: string, dot: int, symbol: (nat, string))
    requires -1 <= dot < |text| && ParseAmount(text, dot, symbol).Ok?
    ensures -MAX_AMOUNT <= ParseAmount(text, dot, symbol).value.amount <= MAX_AMOUNT
  {
  }

  /** The overflow check of the scaling compares with the whole part only, and 64-bit numbers wrap: some numbers that are
      too large are not refused but read as others. */
  lemma OverflowMissed(whole: string, fraction: string, name: string)
    requires IsDigits(whole) && 0 < |whole| <= 19 && Number(whole) == 2_100_000_000_000_000_000
    requires IsDigits(fraction) && |fraction| == 1 && Number(fraction) == 0 && name != [] && IsCapitals(name)
    ensures Parse(DecimalText(false, whole, fraction, name)) == Ok(Asset(2_553_255_926_290_448_384, 1, name))
  {
    var text := AmountText(false, whole, fraction);
    DecimalParse(false, whole, fraction, name);
    PartsInvert(text, Index(text, '.'), false, whole, fraction);
    MissedScale(Number(whole));
    AmountIs(text, Index(text, '.'), Asset(2_553_255_926_290_448_384, 1, name), (Number(whole), 0));
  }

  lemma MissedScale(n: int)
    requires n == 2_100_000_000_000_000_000
    ensures Combine((n, 0), 1) == Ok(2_553_255_926_290_448_384)
  {
    assert Wrap(n * 10) == 2_553_255_926_290_448_384;
    assert Scale(n, n * 10 - TWO64, 0) == Ok(n * 10 - TWO64);
  }

  /** A short amount that is no number at all is read as zero: the error of reading it is dropped. */
  lemma NoNumberIsZero(text: string, name: string)
    requires text != [] && |text| < 19 && !IsDigits(text) && text[0] != '+' && text[0] != '-'
    requires ' ' !in text && '.' !in text && name != [] && IsCapitals(name)
    ensures Parse(text + " " + name) == Ok(Asset(0, 0, name))
  {
    CutAtSpace(text, name);
    assert text + " " + name == text + [' '] + name;
    SymbolTextInverts(text, -1, 0, name);
    assert Combine((0, 0), 0) == Ok(0);
    AmountIs(text, -1, Asset(0, 0, name), (0, 0));
  }

  // ------------------------------------------------------------------
  // The checks on the way
  // ------------------------------------------------------------------

  lemma NextDigit(s: string, k: nat, n: nat)
    requires k < |s| && Number(s[..k]) == n
    ensures Number(s[..k + 1]) == n * 10 + DigitOf(s[k])
  {
    assert s[..k + 1][..k] == s[..k];
  }

  lemma FourDigits(s: string, k: nat, n: nat)
    requires k + 4 <= |s| && Number(s[..k]) == n
    ensures Number(s[..k + 4]) == n * 10000 + DigitOf(s[k]) * 1000 + DigitOf(s[k + 1]) * 100 + DigitOf(s[k + 2]) * 10 + DigitOf(s[k + 3])
  {
    NextDigit(s, k, n);
    NextDigit(s, k + 1, n * 10 + DigitOf(s[k]));
    NextDigit(s, k + 2, (n * 10 + DigitOf(s[k])) * 10 + DigitOf(s[k + 1]));
    NextDigit(s, k + 3, ((n * 10 + DigitOf(s[k])) * 10 + DigitOf(s[k + 1])) * 10 + DigitOf(s[k + 2]));
  }

  lemma FirstEleven(s: string)
    requires s == MAX_INT64_TEXT
    ensures Number(s[..11]) == 92233720368
  {
    assert s[..0] == "";
    NextDigit(s, 0, 0);
    NextDigit(s, 1, 9);
    NextDigit(s, 2, 92);
    FourDigits(s, 3, 922);
    FourDigits(s, 7, 9223372);
  }

  lemma GreatestInt64()
    ensures |MAX_INT64_TEXT| == 19 && IsDigits(MAX_INT64_TEXT) && Number(MAX_INT64_TEXT) == TWO63 - 1
  {
    var s := MAX_INT64_TEXT;
    FirstEleven(s);
    FourDigits(s, 11, 92233720368);
    FourDigits(s, 15, 922337203685477);
    assert s[..19] == s;
  }

  lemma {:induction false} AtMostBoth(a: string, b: string)
    requires |a| == |b| && AtMost(a, b) && AtMost(b, a)
    ensures a == b
    decreases |a|
  {
    if a != [] {
      AtMostBoth(a[1..], b[1..]);
      assert a == [a[0]] + a[1..] && b == [b[0]] + b[1..];
    }
  }

  /** The textual check is that of the range of 64-bit numbers, for texts of at most 19 digits. */
  lemma CheckMeans(digits: string, negative: bool)
    requires IsDigits(digits) && digits != []
    ensures CheckParseInt64((if negative then "-" else "") + digits) ==
            if |digits| <= 19 && Number(digits) < TWO63 then Ok(()) else Err(ParseError)
  {
    SignDropped(digits, negative);
    GreatestInt64();
    if |digits| < 19 {
      NumberBelow(digits);
      PowersOf10();
      Power10Grows(|digits|, 18);
    } else if |digits| == 19 {
      if Number(digits) < TWO63 {
        NumbersAtMost(digits, MAX_INT64_TEXT);
      } else if AtMost(digits, MAX_INT64_TEXT) {
        NumbersAtMost(MAX_INT64_TEXT, digits);
        AtMostBoth(digits, MAX_INT64_TEXT);
      }
    }
  }

  /** The fraction is added with an exact overflow check. */
  lemma FractionAdded(scaled: int, fraction: int)
    requires (0 <= scaled < TWO63 && 0 < fraction < TWO63) || (-TWO63 <= scaled <= 0 && -TWO63 <= fraction < 0)
    ensures AddFraction(scaled, fraction) ==
            if -TWO63 <= scaled + fraction < TWO63 then Ok(scaled + fraction) else if fraction > 0 then Err(Overflow) else Err(Underflow)
  {
  }

  /** One digit behind the point: the scaling notices a product that wraps to the other sign. */
  lemma ScaleCaught(n: int)
    requires TWO63 <= 10 * n < TWO64
    ensures Scale(n, n, 1) == Err(Overflow) && Scale(-n, -n, 1) == Err(Underflow)
  {
    assert Wrap(n * 10) == n * 10 - TWO64 && Wrap(-n * 10) == TWO64 - n * 10;
  }

  /** The precision is kept in eight bits. */
  lemma PrecisionWraps(n: nat, name: string)
    requires n < TWO63 && IsCapitals(name)
    ensures SymbolOf(Decimal(n), name) == if n % 256 <= 18 then Ok((n % 256, name)) else Err(SymbolType)
  {
    SignedRead("", Decimal(n));
    assert "" + Decimal(n) == Decimal(n);
  }

  /** A point with nothing behind it is refused. */
  lemma TrailingPoint(text: string, name: string)
    requires ' ' !in text && '.' !in text
    ensures Parse(text + "." + " " + name) == Err(AssetType)
  {
    var amount := text + ".";
    CutAtSpace(amount, name);
    assert amount + " " + name == amount + [' '] + name;
    IndexIs(text, '.', "");
    assert text + ['.'] + "" == amount;
  }

  // ------------------------------------------------------------------
  // NewAsset
  // ------------------------------------------------------------------

  /** Text `s` is the digits with an optional sign, a point put in at position `i` (nowhere if -1), a space and the symbol
      of `a`; the amount of `a` is the number the digits spell, its precision the number of characters behind the point. */
  predicate Spells(s: string, a: Asset, sign: string, digits: string, i: int) {
    && (sign == "" || sign == "+" || sign == "-") && digits != [] && IsDigits(digits)
    && var t := sign + digits;
       && -1 <= i <= |t|
       && s == (if i == -1 then t else t[..i] + "." + t[i..]) + " " + a.symbol
       && a.amount == (if sign == "-" then 0 - Number(digits) else Number(digits))
       && a.precision == if i == -1 then 0 else (|t| - i) % 256
  }

  /** The bounds of an asset, and a symbol of at most seven letters. */
  predicate Bounded(a: Asset) {
    && -0x3fff_ffff_ffff_ffff <= a.amount <= 0x3fff_ffff_ffff_ffff && a.precision <= 18
    && 0 < |a.symbol| <= 7 && forall i :: 0 <= i < |a.symbol| ==> 'A' <= a.symbol[i] <= 'Z'
  }

  /** Signed digits are read as the number they spell, as long as it fits. */
  lemma SignedRead(sign: string, digits: string)
    requires (sign == "" || sign == "+" || sign == "-") && digits != [] && IsDigits(digits) && Number(digits) < TWO63
    ensures ParseInt(sign + digits) == Parsed(if sign == "-" then 0 - Number(digits) else Number(digits), true)
  {
    if sign == "+" {
      assert (sign + digits)[1..] == digits;
    } else {
      ParseSigned(digits, sign == "-");
    }
  }

  /** What is read as a number is signed digits. */
  lemma ReadIsSigned(t: string) returns (sign: string, digits: string)
    requires ParseInt(t).ok
    ensures (sign == "" || sign == "+" || sign == "-") && digits != [] && IsDigits(digits) && t == sign + digits
    ensures ParseInt(t).value == if sign == "-" then 0 - Number(digits) else Number(digits)
  {
    if t[0] == '+' || t[0] == '-' {
      sign, digits := t[..1], t[1..];
    } else {
      sign, digits := "", t;
    }
  }

  lemma PointAt(t: string, i: int)
    requires -1 <= i <= |t| && '.' !in t
    ensures var text := if i == -1 then t else t[..i] + "." + t[i..];
            && Index(text, '.') == i
            && (if i == -1 then text else text[..i] + text[i + 1..]) == t
            && (i != -1 ==> |text| - i - 1 == |t| - i)
  {
    if i != -1 {
      var text := t[..i] + "." + t[i..];
      assert '.' !in t[..i];
      assert text == t[..i] + ['.'] + t[i..];
      IndexIs(t[..i], '.', t[i..]);
      assert text[..i] == t[..i] && text[i + 1..] == t[i..];
    }
  }

  lemma NewAssetOn(text: string, name: string)
    requires ' ' !in text && |name| <= 7
    ensures NewAsset(text + " " + name) == NewAssetAt(text, Index(text, '.'), name)
  {
    CutAtSpace(text, name);
    assert text + " " + name == text + [' '] + name;
  }

  lemma TextOf(t: string, i: int, sign: string, digits: string)
    requires (sign == "" || sign == "+" || sign == "-") && IsDigits(digits) && t == sign + digits && -1 <= i <= |t|
    ensures '.' !in t && ' ' !in if i == -1 then t else t[..i] + "." + t[i..]
  {
  }

  lemma SpelledIsTaken(s: string, a: Asset, sign: string, digits: string, i: int)
    requires Spells(s, a, sign, digits, i) && Bounded(a)
    ensures NewAsset(s) == Ok(a)
  {
    var t := sign + digits;
    var text := if i == -1 then t else t[..i] + "." + t[i..];
    TextOf(t, i, sign, digits);
    NewAssetOn(text, a.symbol);
    PointAt(t, i);
    SignedRead(sign, digits);
    NewAssetReads(text, i, t, a);
  }

  lemma NewAssetReads(text: string, i: int, t: string, a: Asset)
    requires -1 <= i < |text| && (if i == -1 then text else text[..i] + text[i + 1..]) == t
    requires ParseInt(t) == Parsed(a.amount, true) && a.precision == (if i == -1 then 0 else (|text| - i - 1) % 256) && Bounded(a)
    ensures NewAssetAt(text, i, a.symbol) == Ok(a)
  {
  }

  lemma ReadsBack(text: string, i: int, t: string, name: string, a: Asset)
    requires -1 <= i < |text| && (if i == -1 then text else text[..i] + text[i + 1..]) == t
    requires NewAssetAt(text, i, name) == Ok(a) && |name| <= 7
    ensures ParseInt(t) == Parsed(a.amount, true) && a.precision == (if i == -1 then 0 else (|text| - i - 1) % 256)
    ensures a.symbol == name && Bounded(a)
  {
  }

  lemma Rejoined(text: string, i: int, t: string)
    requires -1 <= i < |text| && (i >= 0 ==> text[i] == '.') && (if i == -1 then text else text[..i] + text[i + 1..]) == t
    ensures -1 <= i <= |t| && text == if i == -1 then t else t[..i] + "." + t[i..]
    ensures i >= 0 ==> |text| - i - 1 == |t| - i
  {
    if i != -1 {
      assert t[..i] == text[..i] && t[i..] == text[i + 1..];
    }
  }

  lemma SpelledAt(s: string, text: string, i: int, t: string, name: string, a: Asset) returns (sign: string, digits: string)
    requires -1 <= i < |text| && (i >= 0 ==> text[i] == '.') && (if i == -1 then text else text[..i] + text[i + 1..]) == t
    requires NewAssetAt(text, i, name) == Ok(a) && |name| <= 7 && s == text + " " + name
    ensures Spells(s, a, sign, digits, i) && Bounded(a)
  {
    ReadsBack(text, i, t, name, a);
    sign, digits := ReadIsSigned(t);
    Rejoined(text, i, t);
    Assembled(s, a, sign, digits, i, text);
  }

  lemma TakenIsSpelled(s: string, a: Asset) returns (sign: string, digits: string, i: int)
    requires NewAsset(s) == Ok(a)
    ensures Spells(s, a, sign, digits, i) && Bounded(a)
  {
    var space := Index(s, ' ');
    var text, name := s[..space], s[space + 1..];
    i := Index(text, '.');
    SpaceSplit(s);
    sign, digits := SpelledAt(s, text, i, if i == -1 then text else text[..i] + text[i + 1..], name, a);
  }

  lemma SpaceSplit(s: string)
    requires Index(s, ' ') >= 0
    ensures var space := Index(s, ' '); s == s[..space] + " " + s[space + 1..]
  {
  }

  lemma Assembled(s: string, a: Asset, sign: string, digits: string, i: int, text: string)
    requires (sign == "" || sign == "+" || sign == "-") && digits != [] && IsDigits(digits) && -1 <= i <= |sign + digits|
    requires text == (if i == -1 then sign + digits else (sign + digits)[..i] + "." + (sign + digits)[i..])
    requires s == text + " " + a.symbol && a.amount == (if sign == "-" then 0 - Number(digits) else Number(digits))
    requires a.precision == if i == -1 then 0 else (|sign + digits| - i) % 256
    ensures Spells(s, a, sign, digits, i)
  {
  }

  /** NewAsset takes exactly the texts that spell an asset within bounds, and for that asset. */
  lemma NewAssetMeans(s: string, a: Asset)
    ensures NewAsset(s) == Ok(a) <==> Bounded(a) && exists sign, digits, i :: Spells(s, a, sign, digits, i)
  {
    if NewAsset(s) == Ok(a) {
      var sign, digits, i := TakenIsSpelled(s, a);
    }
    if Bounded(a) && exists sign, digits, i :: Spells(s, a, sign, digits, i) {
      var sign, digits, i :| Spells(s, a, sign, digits, i);
      SpelledIsTaken(s, a, sign, digits, i);
    }
  }
}
