/** Prices: a 64-bit count of ten-thousandths, written with four decimals. */
module Price {
  import opened Wire

  function TruncDiv(a: int, b: int): int
    requires b > 0
  {
    if a >= 0 then a / b else -((-a) / b)
  }

  function TruncMod(a: int, b: int): int
    requires b > 0
  {
    a - b * TruncDiv(a, b)
  }

  function PadLeft(s: string, width: nat): string
    decreases width - |s|
  {
    if |s| < width then PadLeft("0" + s, width) else s
  }

  function PadRight(s: string, width: nat): string
    decreases width - |s|
  {
    if |s| < width then PadRight(s + "0", width) else s
  }

  /** Width four, zero filled, the sign counting towards the width. */
  function Format04(n: int): string {
    if n < 0 then "-" + PadLeft(FormatNat(-n), 3) else PadLeft(FormatNat(n), 4)
  }

  function FormatPrice(price: int): string {
    FormatInt(TruncDiv(price, 10_000)) + "." + Format04(TruncMod(price, 10_000))
  }

  /** The fraction as parsed: at most four characters, filled up with zeros. */
  function FracDigits(s: string): string {
    PadRight(if |s| > 4 then s[..4] else s, 4)
  }

  /** The padding loop of the price parsers. */
  method PadFraction(s: string) returns (frac: string)
    ensures frac == FracDigits(s)
  {
    frac := s;
    if |frac| > 4 {
      frac := frac[..4];
    }
    while |frac| < 4
      invariant PadRight(frac, 4) == FracDigits(s)
      decreases 4 - |frac|
    {
      frac := frac + "0";
    }
  }

  datatype PriceResult = Price(value: int) | BadPrice

  /** The platform's parser: any malformed part is an error. */
  function ParsePrice(s: string): PriceResult {
    IndexBound(s, '.');
    var i := Index(s, '.');
    if i == |s| then
      var n := ParseInt(s);
      if n.Parsed? then PriceResult.Price(Wrap64(n.value * 10_000)) else BadPrice
    else
      var n, f := ParseInt(s[..i]), ParseInt(FracDigits(s[i+1..]));
      if n.Parsed? && f.Parsed? then PriceResult.Price(Wrap64(n.value * 10_000 + f.value)) else BadPrice
  }

  /** The contestant's parser: errors are ignored. */
  function ParsePriceLenient(s: string): int {
    IndexBound(s, '.');
    var i := Index(s, '.');
    if i == |s| then Wrap64(ParseInt(s).Value() * 10_000)
    else Wrap64(ParseInt(s[..i]).Value() * 10_000 + ParseInt(FracDigits(s[i+1..])).Value())
  }

  /** Where the strict parser succeeds the lenient one agrees. */
  lemma LenientAgrees(s: string)
    ensures ParsePrice(s).Price? ==> ParsePriceLenient(s) == ParsePrice(s).value
  {
  }

  // ----- padding

  lemma {:induction false} PadLeftKeeps(s: string, width: nat)
    requires AllDigits(s)
    ensures AllDigits(PadLeft(s, width)) && Value(PadLeft(s, width)) == Value(s)
    ensures |PadLeft(s, width)| == if |s| < width then width else |s|
    decreases width - |s|
  {
    if |s| < width {
      ValueLeadingZero(s);
      assert AllDigits("0" + s);
      PadLeftKeeps("0" + s, width);
    }
  }

  lemma {:induction false} ValueLeadingZero(s: string)
    ensures Value("0" + s) == Value(s)
  {
    if s == [] {
      assert ("0" + s)[..0] == [];
    } else {
      assert ("0" + s)[..|s|] == "0" + s[..|s| - 1];
      ValueLeadingZero(s[..|s| - 1]);
    }
  }

  lemma {:induction false} PadRightScales(s: string, width: nat)
    requires AllDigits(s) && |s| <= width
    ensures AllDigits(PadRight(s, width)) && |PadRight(s, width)| == width
    ensures Value(PadRight(s, width)) == Value(s) * Pow10(width - |s|)
    decreases width - |s|
  {
    if |s| < width {
      var t := s + "0";
      assert t[..|s|] == s;
      assert AllDigits(t);
      PadRightScales(t, width);
      assert Pow10(width - |s|) == 10 * Pow10(width - |t|);
      assert Value(s) * 10 * Pow10(width - |t|) == Value(s) * (10 * Pow10(width - |t|));
    }
  }

  lemma SmallPow10()
    ensures Pow10(1) == 10 && Pow10(3) == 1000 && Pow10(4) == 10_000
  {
    assert Pow10(1) == 10 * Pow10(0);
    assert Pow10(2) == 10 * Pow10(1);
    assert Pow10(3) == 10 * Pow10(2);
  }

  /** Digits read as their value, and as its opposite behind a minus sign, when the value is an int64. */
  lemma ParseDigits(s: string)
    requires AllDigits(s) && s != [] && Value(s) <= MAX_INT64
    ensures ParseInt(s) == Parsed(Value(s)) && ParseInt("-" + s) == Parsed(-Value(s))
  {
    ScanIsValue(s);
    assert IsDigit(s[0]);
    assert ("-" + s)[1..] == s;
  }

  /** Digits read as their value exactly when that is an int64. */
  lemma DigitsFit(s: string)
    requires AllDigits(s) && s != []
    ensures ParseInt(s) == Parsed(Value(s)) <==> Value(s) <= MAX_INT64
    ensures ParseInt(s).Parsed? <==> Value(s) <= MAX_INT64
  {
    ValueBound(s);
    assert IsDigit(s[0]);
    hide Value, Pow10, Scan;
    if Value(s) <= MAX_UINT64 {
      ScanIsValue(s);
    } else {
      ScanOverflows(s);
    }
  }

  /** A price is written as two parts around the first point. */
  lemma ParseParts(a: string, f: string)
    requires forall i :: 0 <= i < |a| ==> a[i] != '.'
    ensures ParsePrice(a + "." + f) ==
      if ParseInt(a).Parsed? && ParseInt(FracDigits(f)).Parsed? then
        PriceResult.Price(Wrap64(ParseInt(a).value * 10_000 + ParseInt(FracDigits(f)).value))
      else BadPrice
  {
    var s := a + ("." + f);
    assert s == a + "." + f;
    IndexSkips(a, "." + f, '.');
    assert s[..|a|] == a && s[|a|+1..] == f;
  }

  /** Without a point the whole string is the whole part: both parsers, any string. */
  lemma WholeReads(s: string)
    requires forall i :: 0 <= i < |s| ==> s[i] != '.'
    ensures ParsePrice(s) ==
      if ParseInt(s).Parsed? then PriceResult.Price(Wrap64(ParseInt(s).value * 10_000)) else BadPrice
    ensures ParsePriceLenient(s) == Wrap64(ParseInt(s).Value() * 10_000)
  {
    IndexSkips(s, "", '.');
    assert s + "" == s;
  }

  /** Digits without a point: ten thousand times the number, in 64-bit arithmetic, or an error. */
  lemma WholeDigitsRead(a: string)
    requires AllDigits(a) && a != []
    ensures ParsePrice(a) ==
      if Value(a) <= MAX_INT64 then PriceResult.Price(Wrap64(Value(a) * 10_000)) else BadPrice
    ensures ParsePrice(a) == PriceResult.Price(Value(a) * 10_000) <==> Value(a) * 10_000 <= MAX_INT64
  {
    ValueBound(a);
    WrapFits(Value(a), 0);
    assert forall i :: 0 <= i < |a| ==> IsDigit(a[i]);
    hide Value, Pow10, ParseInt, ParsePrice, Wrap64;
    WholeReads(a);
    DigitsFit(a);
  }

  lemma FracDigitsAre(f: string)
    ensures |FracDigits(f)| == 4 && forall i :: 0 <= i < 4 ==> FracDigits(f)[i] == if i < |f| then f[i] else '0'
  {
    PadRightIs(if |f| > 4 then f[..4] else f, 4);
  }

  lemma {:induction false} PadRightIs(s: string, width: nat)
    requires |s| <= width
    ensures |PadRight(s, width)| == width
    ensures forall i :: 0 <= i < width ==> PadRight(s, width)[i] == if i < |s| then s[i] else '0'
    decreases width - |s|
  {
    if |s| < width {
      PadRightIs(s + "0", width);
    }
  }

  /** The lenient parser on any string with a point: what does not parse counts as its clamped value or 0. */
  lemma LenientParts(a: string, f: string)
    requires forall i :: 0 <= i < |a| ==> a[i] != '.'
    ensures ParsePriceLenient(a + "." + f) ==
      Wrap64(ParseInt(a).Value() * 10_000 + ParseInt(FracDigits(f)).Value())
  {
    var s := a + ("." + f);
    assert s == a + "." + f;
    IndexSkips(a, "." + f, '.');
    assert s[..|a|] == a && s[|a|+1..] == f;
  }

  // ----- round trip

  /** A remainder of up to four digits, filled up to four, reads as itself. */
  lemma Format04Reads(r: int)
    requires 0 <= r < 10_000
    ensures FracDigits(Format04(r)) == Format04(r) && ParseInt(Format04(r)) == Parsed(r)
    ensures AllDigits(Format04(r)) && |Format04(r)| == 4
  {
    SmallPow10();
    FormatNatIs(r);
    PadLeftKeeps(FormatNat(r), 4);
    hide FormatNat, PadLeft, Value, ParseInt, Pow10;
    ParseDigits(Format04(r));
  }

  lemma WholePartReads(a: int)
    requires Int64(a)
    ensures ParseInt(FormatInt(a)) == Parsed(a)
    ensures forall i :: 0 <= i < |FormatInt(a)| ==> FormatInt(a)[i] != '.'
  {
    IntRoundTrip(a);
    FormatNatIs(if a < 0 then -a else a);
    var d := FormatNat(if a < 0 then -a else a);
    assert forall i :: 0 <= i < |d| ==> IsDigit(d[i]);
  }

  /** The text of a price: its whole part without leading zeros, a point and exactly four digits. */
  lemma PriceText(p: int)
    requires p >= 0
    ensures var t, n := FormatPrice(p), |FormatPrice(p)| - 5;
      && n > 0 && t[n] == '.' && AllDigits(t[..n]) && AllDigits(t[n+1..])
      && Value(t[..n]) == p / 10_000 && Value(t[n+1..]) == p % 10_000 && (p >= 10_000 ==> t[0] != '0')
  {
    var w, f := FormatInt(p / 10_000), Format04(p % 10_000);
    SmallPow10();
    FormatNatIs(p / 10_000);
    FormatNatIs(p % 10_000);
    PadLeftKeeps(FormatNat(p % 10_000), 4);
    hide FormatNat, PadLeft, Value, Pow10;
    assert FormatPrice(p) == w + "." + f;
    assert (w + "." + f)[..|w|] == w && (w + "." + f)[|w|+1..] == f;
  }

  lemma NonNegativeRoundTrip(p: int)
    requires 0 <= p && Int64(p)
    ensures ParsePrice(FormatPrice(p)) == PriceResult.Price(p)
  {
    var a, r := p / 10_000, p % 10_000;
    WholePartReads(a);
    Format04Reads(r);
    hide FormatInt, Format04, ParseInt, FracDigits, ParsePrice;
    ParseParts(FormatInt(a), Format04(r));
  }

  /** How a negative fraction reads back: its last digit is lost once it has four. */
  lemma NegativeFraction(r: int)
    requires 0 < r < 10_000
    ensures ParseInt(FracDigits(Format04(-r))) == Parsed(-(if r < 1000 then r else r / 10))
  {
    if r < 1000 {
      ShortFraction(r);
    } else {
      LongFraction(r);
    }
  }

  lemma ShortFraction(r: int)
    requires 0 < r < 1000
    ensures ParseInt(FracDigits(Format04(-r))) == Parsed(-r)
  {
    SmallPow10();
    FormatNatIs(r);
    PadLeftKeeps(FormatNat(r), 3);
    var f := PadLeft(FormatNat(r), 3);
    hide FormatNat, PadLeft, Value, ParseInt, Pow10;
    assert FracDigits("-" + f) == "-" + f;
    ParseDigits(f);
  }

  lemma LongFraction(r: int)
    requires 1000 <= r < 10_000
    ensures ParseInt(FracDigits(Format04(-r))) == Parsed(-(r / 10))
  {
    FormatNatIs(r / 10);
    FourDigits(r);
    var q := FormatNat(r / 10);
    assert FormatNat(r) == q + [Digit(r % 10)];
    hide FormatNat, Value, ParseInt;
    assert Format04(-r) == "-" + (q + [Digit(r % 10)]);
    assert ("-" + (q + [Digit(r % 10)]))[..4] == "-" + q;
    ParseDigits(q);
  }

  lemma FourDigits(r: int)
    requires 1000 <= r < 10_000
    ensures |FormatNat(r)| == 4 && |FormatNat(r / 10)| == 3
  {
    TwoDigits(r / 100);
    assert r / 10 / 10 == r / 100;
  }

  lemma TwoDigits(n: int)
    requires 10 <= n < 100
    ensures |FormatNat(n)| == 2
  {
  }

  /** A price that splits into these parts reads back as their sum. */
  lemma PartsRead(p: int, whole: int, rest: int, read: int)
    requires TruncDiv(p, 10_000) == whole && TruncMod(p, 10_000) == rest && Int64(whole)
    requires ParseInt(FracDigits(Format04(rest))) == Parsed(read)
    ensures ParsePrice(FormatPrice(p)) == PriceResult.Price(Wrap64(whole * 10_000 + read))
  {
    WholePartReads(whole);
    hide FormatInt, Format04, ParseInt, FracDigits, ParsePrice, TruncDiv, TruncMod, Wrap64;
    ParseParts(FormatInt(whole), Format04(rest));
  }

  lemma NegativeParts(p: int, a: int, r: int)
    requires p < 0 && Int64(p) && a == (-p) / 10_000 && r == (-p) % 10_000
    ensures TruncDiv(p, 10_000) == -a && TruncMod(p, 10_000) == -r && Int64(-a)
    ensures 0 <= r < 10_000 && p == -a * 10_000 - r
  {
  }

  lemma WrapBetween(p: int, n: int)
    requires Int64(p) && p <= n <= 0
    ensures Wrap64(n) == n
  {
  }

  lemma ReadBack(p: int, a: int, r: int)
    requires p == -a * 10_000 - r && 0 <= r < 10_000
    ensures r < 1000 ==> -a * 10_000 - r == p
    ensures r >= 1000 ==> -a * 10_000 - r / 10 == p + r - r / 10
    ensures r == 0 ==> r / 10 == 0
  {
  }

  lemma NegativeReads(p: int)
    requires p < 0 && Int64(p)
    ensures var r := (-p) % 10_000;
      ParsePrice(FormatPrice(p)) == PriceResult.Price(p + (if r < 1000 then 0 else r - r / 10))
  {
    var a, r := (-p) / 10_000, (-p) % 10_000;
    NegativeParts(p, a, r);
    ReadBack(p, a, r);
    var read := if r < 1000 then r else r / 10;
    NegativeRead(p, a, r, read);
  }

  lemma NegativeRead(p: int, a: int, r: int, read: int)
    requires p < 0 && Int64(p) && TruncDiv(p, 10_000) == -a && TruncMod(p, 10_000) == -r && Int64(-a)
    requires 0 <= r < 10_000 && p == -a * 10_000 - r && read == (if r < 1000 then r else r / 10)
    ensures ParsePrice(FormatPrice(p)) == PriceResult.Price(-a * 10_000 - read)
  {
    hide Format04, ParseInt, FracDigits, ParsePrice, FormatPrice, TruncDiv, TruncMod, Wrap64, Int64;
    if r == 0 {
      Format04Reads(0);
    } else {
      NegativeFraction(r);
    }
    PartsRead(p, -a, -r, -read);
    WrapBetween(p, -a * 10_000 - read);
  }

  /** Formatting and parsing give the price back exactly when it is not negative or the
      ten-thousandths of its absolute value stay below 1000. */
  lemma PriceRoundTripIff(p: int)
    requires Int64(p)
    ensures ParsePrice(FormatPrice(p)) == PriceResult.Price(p) <==> p >= 0 || (-p) % 10_000 < 1000
  {
    if p >= 0 {
      NonNegativeRoundTrip(p);
    } else {
      NegativeReads(p);
    }
  }

  // ----- any decimal string

  lemma {:induction false} ValueConcat(a: string, b: string)
    ensures Value(a + b) == Value(a) * Pow10(|b|) + Value(b)
  {
    if b == [] {
      assert a + b == a;
    } else {
      var c := b[..|b| - 1];
      assert (a + b)[..|a + b| - 1] == a + c;
      ValueConcat(a, c);
      assert Value(a) * (10 * Pow10(|c|)) == 10 * (Value(a) * Pow10(|c|));
    }
  }

  lemma {:induction false} Pow10Adds(a: nat, b: nat)
    ensures Pow10(a + b) == Pow10(a) * Pow10(b) && Pow10(a) > 0
  {
    if a > 0 {
      Pow10Adds(a - 1, b);
      assert 10 * (Pow10(a - 1) * Pow10(b)) == (10 * Pow10(a - 1)) * Pow10(b);
    }
  }

  lemma MulLess(a: int, b: int, d: int)
    requires d > 0 && a * d < b * d
    ensures a < b
  {
    assert a >= b ==> (a - b) * d >= 0;
    assert (a - b) * d == a * d - b * d;
  }

  lemma DivIs(n: int, d: int, q: int)
    requires d > 0 && q * d <= n < q * d + d
    ensures n / d == q
  {
    var e := n / d;
    assert n == d * e + n % d;
    assert (q + 1) * d == q * d + d && (e + 1) * d == d * e + d;
    MulLess(e, q + 1, d);
    MulLess(q, e + 1, d);
  }

  lemma ExactScaling(v: int, p: int, s: int)
    requires p > 0 && p * s == 10_000
    ensures v * 10_000 / p == v * s
  {
    assert v * (p * s) == (v * s) * p;
    DivIs(v * 10_000, p, v * s);
  }

  lemma CutScaling(va: int, vb: int, p: int)
    requires 0 <= vb < p
    ensures (va * p + vb) * 10_000 / (10_000 * p) == va
  {
    assert va * (10_000 * p) == 10_000 * (va * p);
    DivIs((va * p + vb) * 10_000, 10_000 * p, va);
  }

  lemma ShortIsFloor(f: string)
    requires AllDigits(f) && |f| <= 4
    ensures AllDigits(FracDigits(f)) && |FracDigits(f)| == 4
    ensures Pow10(|f|) > 0 && Value(FracDigits(f)) == Value(f) * 10_000 / Pow10(|f|)
  {
    SmallPow10();
    Pow10Adds(|f|, 4 - |f|);
    PadRightScales(f, 4);
    ExactScaling(Value(f), Pow10(|f|), Pow10(4 - |f|));
  }

  lemma LongIsFloor(f: string)
    requires AllDigits(f) && |f| > 4
    ensures AllDigits(FracDigits(f)) && |FracDigits(f)| == 4
    ensures Pow10(|f|) > 0 && Value(FracDigits(f)) == Value(f) * 10_000 / Pow10(|f|)
  {
    var a, b := f[..4], f[4..];
    assert f == a + b;
    SmallPow10();
    ValueConcat(a, b);
    ValueBound(b);
    Pow10Adds(4, |b|);
    CutScaling(Value(a), Value(b), Pow10(|b|));
    assert FracDigits(f) == a;
  }

  /** Four characters of the fraction are its ten-thousandths, rounded down. */
  lemma FractionIsFloor(f: string)
    requires AllDigits(f)
    ensures AllDigits(FracDigits(f)) && |FracDigits(f)| == 4
    ensures Pow10(|f|) > 0 && Value(FracDigits(f)) == Value(f) * 10_000 / Pow10(|f|)
  {
    if |f| <= 4 {
      ShortIsFloor(f);
    } else {
      LongIsFloor(f);
    }
  }

  lemma DecimalReads(a: string, f: string)
    requires AllDigits(a) && a != []
    requires AllDigits(FracDigits(f)) && |FracDigits(f)| == 4
    ensures ParsePrice(a + "." + f) ==
      if Value(a) <= MAX_INT64 then PriceResult.Price(Wrap64(Value(a) * 10_000 + Value(FracDigits(f)))) else BadPrice
  {
    SmallPow10();
    ValueBound(FracDigits(f));
    hide Value, Pow10, FracDigits, ParseInt, ParsePrice, Wrap64;
    DigitsFit(a);
    ParseDigits(FracDigits(f));
    assert forall i :: 0 <= i < |a| ==> IsDigit(a[i]);
    ParseParts(a, f);
  }

  lemma WrapFits(v: int, x: int)
    requires v >= 0 && 0 <= x < 10_000
    ensures v <= MAX_INT64 && Wrap64(v * 10_000 + x) == v * 10_000 + x <==> v * 10_000 + x <= MAX_INT64
  {
  }

  /** Digits, a point and any digits: a whole part beyond int64 is an error, and otherwise the result is the
      floor of ten thousand times the number written, in 64-bit arithmetic. */
  lemma DecimalIsFloor(a: string, f: string)
    requires AllDigits(a) && a != [] && AllDigits(f)
    ensures Pow10(|f|) > 0
    ensures ParsePrice(a + "." + f) ==
      if Value(a) <= MAX_INT64 then PriceResult.Price(Wrap64(Value(a) * 10_000 + Value(f) * 10_000 / Pow10(|f|)))
      else BadPrice
  {
    hide ParsePrice, Value, Pow10, FracDigits, Wrap64;
    FractionIsFloor(f);
    DecimalReads(a, f);
  }

  lemma DecimalFits(a: string, f: string, n: int)
    requires AllDigits(a) && a != [] && AllDigits(FracDigits(f)) && |FracDigits(f)| == 4
    requires n == Value(a) * 10_000 + Value(FracDigits(f))
    ensures ParsePrice(a + "." + f) == PriceResult.Price(n) <==> n <= MAX_INT64
  {
    SmallPow10();
    ValueBound(a);
    ValueBound(FracDigits(f));
    WrapFits(Value(a), Value(FracDigits(f)));
    hide ParsePrice, Value, Pow10, FracDigits, Wrap64;
    DecimalReads(a, f);
  }

  /** So the result is that floor itself if and only if the floor is an int64. */
  lemma DecimalExactIff(a: string, f: string, floor: int)
    requires AllDigits(a) && a != [] && AllDigits(f)
    requires Pow10(|f|) > 0 && floor == Value(a) * 10_000 + Value(f) * 10_000 / Pow10(|f|)
    ensures ParsePrice(a + "." + f) == PriceResult.Price(floor) <==> floor <= MAX_INT64
  {
    hide ParsePrice, Value, Pow10, FracDigits;
    FractionIsFloor(f);
    DecimalFits(a, f, floor);
  }

  lemma PriceIsWord(p: int)
    requires p >= 0
    ensures Word(FormatPrice(p))
  {
    FormatNatIs(p / 10_000);
    FormatNatIs(p % 10_000);
    PadLeftKeeps(FormatNat(p % 10_000), 4);
  }
}
