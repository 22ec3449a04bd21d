/**
 * The worked examples of serving-size scaling, computed from the model:
 * "1.5 cups flour" doubled, "to taste" left alone, "0.125 tsp" rounded to
 * hundredths, "0.75 cup" doubled to "1.50 cup", and nutrition facts halved.
 */
module RecipeExamples {
  import opened Wrappers
  import opened Text
  import opened JsNumber
  import opened RecipeUtils

  /** A quantity made of a numeral, one space and a trimmed rest scales to the printed amount, one space and the same rest. */
  lemma ScaleSpacedQuantity(q: string, numeral: string, rest: string, d: Decimal, ratio: real, printed: string)
    requires q == numeral + " " + rest
    requires NumeralShape(numeral) && NoLineTerminator(rest)
    requires |rest| > 0 && !IsWhite(rest[0]) && !IsWhite(rest[|rest| - 1])
    requires ParseFloat(numeral) == Some(d) && ScaledText(d, ratio) == printed
    ensures ScaleQuantity(q, ratio) == printed + " " + rest
  {
    SpacedIsTrimmed(q, numeral, rest);
    MatchNumeralSpaceRest(q, numeral, rest);
    ScaleQuantityJoined(q, ratio, QuantityMatch(numeral, rest), d);
  }

  /** Such a quantity has nothing to trim. */
  lemma SpacedIsTrimmed(q: string, numeral: string, rest: string)
    requires q == numeral + " " + rest
    requires NumeralShape(numeral)
    requires |rest| > 0 && !IsWhite(rest[|rest| - 1])
    ensures Trim(q) == q
  {
    assert q[0] == numeral[0];
    assert IsDigit(q[0]) || q[0] == '.';
    assert q[|q| - 1] == rest[|rest| - 1];
    TrimmedIsFixed(q);
  }

  /** The scaled amount printed, once its hundredths are known. */
  lemma Printed(d: Decimal, ratio: real, k: int, printed: string)
    requires d.Value() * ratio * 100.0 - 0.5 < k as real <= d.Value() * ratio * 100.0 + 0.5
    requires FormatCents(k) == printed
    ensures ScaledText(d, ratio) == printed
  {
    var c := Cents(d.Value() * ratio);
    assert c == k;
    ScaledTextReadsBack(d, ratio, k);
  }

  lemma ParseOneAndAHalf(n: string)
    requires n == "1.5"
    ensures ParseFloat(n) == Some(Decimal(15, 1))
  {
    DigitsSnoc("1", '5');
    assert "1" + ['5'] == "1" + "5";
    ParsePointed(n, "1", "5", 15);
  }

  lemma ParseEighth(n: string)
    requires n == "0.125"
    ensures ParseFloat(n) == Some(Decimal(125, 3))
  {
    EighthDigits("0" + "125");
    ParsePointed(n, "0", "125", 125);
  }

  /** Digits, a point and digits read back as the digits' value over a power of ten. */
  lemma ParsePointed(n: string, w: string, f: string, v: int)
    requires |w| > 0 && AllDigits(w) && AllDigits(f) && n == w + "." + f
    requires DigitsValue(w + f) == v
    ensures ParseFloat(n) == Some(Decimal(v, |f|))
  {
    PointedUnsigned(n, w, f);
    ParseFloatUnsigned(n);
  }

  lemma PointedUnsigned(n: string, w: string, f: string)
    requires |w| > 0 && AllDigits(w) && AllDigits(f) && n == w + "." + f
    ensures |n| > 0 && IsDigit(n[0])
    ensures UnsignedDecimal(n) == Some(Decimal(DigitsValue(w + f), |f|))
  {
    assert n == w + ("." + f + []);
    UnsignedPoint(n, w, f, []);
    assert n[0] == w[0];
  }

  lemma EighthDigits(s: string)
    requires s == "0125"
    ensures DigitsValue(s) == 125
  {
    DigitsSnoc("0", '1');
    assert DigitsValue("01") == 1 by { assert "0" + ['1'] == "01"; }
    DigitsSnoc("01", '2');
    assert DigitsValue("012") == 12 by { assert "01" + ['2'] == "012"; }
    DigitsSnoc("012", '5');
    assert "012" + ['5'] == s;
  }

  /** One more digit on the right: ten times the value plus that digit. */
  lemma DigitsSnoc(s: string, c: char)
    requires AllDigits(s) && IsDigit(c)
    ensures AllDigits(s + [c]) && DigitsValue(s + [c]) == 10 * DigitsValue(s) + DigitValue(c)
  {
    assert (s + [c])[..|s|] == s;
  }

  /** "1.5 cups flour" for twice the servings is "3 cups flour". */
  lemma DoubleFlour(q: string, ratio: real)
    requires q == "1.5 cups flour" && ratio == 2.0
    ensures ScaleQuantity(q, ratio) == "3 cups flour"
  {
    assert "3" + " " + "cups flour" == "3 cups flour";
    DoubleFlourParts(q, "1.5", "cups flour", Decimal(15, 1), "3", ratio);
  }

  lemma DoubleFlourParts(q: string, n: string, r: string, d: Decimal, p: string, ratio: real)
    requires q == "1.5 cups flour" && n == "1.5" && r == "cups flour" && d == Decimal(15, 1) && p == "3" && ratio == 2.0
    ensures ScaleQuantity(q, ratio) == p + " " + r
  {
    ParseOneAndAHalf(n);
    DoubledOneAndAHalf(d, p, ratio);
    FlourParts(q, n, r);
    ScaleSpacedQuantity(q, n, r, d, ratio, p);
  }

  lemma DoubledOneAndAHalf(d: Decimal, p: string, ratio: real)
    requires d == Decimal(15, 1) && p == "3" && ratio == 2.0
    ensures ScaledText(d, ratio) == p
  {
    assert Pow10(1) == 10;
    assert d.Value() * ratio * 100.0 == 300.0;
    assert FormatCents(300) == "3";
    Printed(d, ratio, 300, p);
  }

  lemma FlourParts(q: string, n: string, r: string)
    requires q == "1.5 cups flour" && n == "1.5" && r == "cups flour"
    ensures q == n + " " + r
    ensures NumeralShape(n) && NoLineTerminator(r)
    ensures |r| > 0 && !IsWhite(r[0]) && !IsWhite(r[|r| - 1])
  {
  }

  /** "to taste" has no leading numeral and is left as it is. */
  lemma ToTasteUnchanged(q: string, ratio: real)
    requires q == "to taste"
    ensures ScaleQuantity(q, ratio) == q
  {
    TrimmedIsFixed(q);
    assert NumeralPrefix(q) == [];
  }

  /** "0.125 tsp" at the same servings is "0.13 tsp": rounding to hundredths loses the third decimal. */
  lemma EighthRounded(q: string, ratio: real)
    requires q == "0.125 tsp" && ratio == 1.0
    ensures ScaleQuantity(q, ratio) == "0.13 tsp"
  {
    assert "0.13" + " " + "tsp" == "0.13 tsp";
    EighthRoundedParts(q, "0.125", "tsp", Decimal(125, 3), "0.13", ratio);
  }

  lemma EighthRoundedParts(q: string, n: string, r: string, d: Decimal, p: string, ratio: real)
    requires q == "0.125 tsp" && n == "0.125" && r == "tsp" && d == Decimal(125, 3) && p == "0.13" && ratio == 1.0
    ensures ScaleQuantity(q, ratio) == p + " " + r
  {
    ParseEighth(n);
    EighthPrinted(d, p, ratio);
    EighthParts(q, n, r);
    ScaleSpacedQuantity(q, n, r, d, ratio, p);
  }

  lemma EighthPrinted(d: Decimal, p: string, ratio: real)
    requires d == Decimal(125, 3) && p == "0.13" && ratio == 1.0
    ensures ScaledText(d, ratio) == p
  {
    assert Pow10(3) == 1000;
    assert d.Value() * ratio * 100.0 == 12.5;
    assert NatToString(0) == "0";
    assert FormatCents(13) == "0.13";
    Printed(d, ratio, 13, p);
  }

  lemma EighthParts(q: string, n: string, r: string)
    requires q == "0.125 tsp" && n == "0.125" && r == "tsp"
    ensures q == n + " " + r
    ensures NumeralShape(n) && NoLineTerminator(r)
    ensures |r| > 0 && !IsWhite(r[0]) && !IsWhite(r[|r| - 1])
  {
  }

  lemma ParseThreeQuarters(n: string)
    requires n == "0.75"
    ensures ParseFloat(n) == Some(Decimal(75, 2))
  {
    DigitsSnoc("0", '7');
    assert DigitsValue("07") == 7 by { assert "0" + ['7'] == "07"; }
    DigitsSnoc("07", '5');
    assert "07" + ['5'] == "0" + "75";
    ParsePointed(n, "0", "75", 75);
  }

  /** "0.75 cup" for twice the servings is "1.50 cup": a result that is not whole keeps two decimals. */
  lemma DoubledThreeQuarters(q: string, ratio: real)
    requires q == "0.75 cup" && ratio == 2.0
    ensures ScaleQuantity(q, ratio) == "1.50 cup"
  {
    assert "1.50" + " " + "cup" == "1.50 cup";
    DoubledThreeQuartersParts(q, "0.75", "cup", Decimal(75, 2), "1.50", ratio);
  }

  lemma DoubledThreeQuartersParts(q: string, n: string, r: string, d: Decimal, p: string, ratio: real)
    requires q == "0.75 cup" && n == "0.75" && r == "cup" && d == Decimal(75, 2) && p == "1.50" && ratio == 2.0
    ensures ScaleQuantity(q, ratio) == p + " " + r
  {
    ParseThreeQuarters(n);
    ThreeHalvesPrinted(d, p, ratio);
    CupParts(q, n, r);
    ScaleSpacedQuantity(q, n, r, d, ratio, p);
  }

  lemma ThreeHalvesPrinted(d: Decimal, p: string, ratio: real)
    requires d == Decimal(75, 2) && p == "1.50" && ratio == 2.0
    ensures ScaledText(d, ratio) == p
  {
    assert Pow10(2) == 100;
    assert d.Value() * ratio * 100.0 == 150.0;
    assert NatToString(1) == "1";
    assert FormatCents(150) == "1.50";
    Printed(d, ratio, 150, p);
  }

  lemma CupParts(q: string, n: string, r: string)
    requires q == "0.75 cup" && n == "0.75" && r == "cup"
    ensures q == n + " " + r
    ensures NumeralShape(n) && NoLineTerminator(r)
    ensures |r| > 0 && !IsWhite(r[0]) && !IsWhite(r[|r| - 1])
  {
  }

  /** Nutrition facts "200" calories and "10g" protein for 4 servings are "100" and "5" for 2: the unit after the number is dropped. */
  lemma HalvedNutrition(n: RecipeNutrition, baseServings: real, selectedServings: real)
    requires n == RecipeNutrition("200", "10g") && baseServings == 4.0 && selectedServings == 2.0
    ensures ScaleNutrition(n, baseServings, selectedServings) == RecipeNutrition("100", "5")
  {
    var ratio := selectedServings / baseServings;
    assert ratio == 0.5;
    TwoHundredText(n.calories);
    HalvedCalories(n.calories, ratio, "100");
    HalvedProtein(n.protein, ratio, "5");
  }

  lemma TwoHundredText(v: string)
    requires v == "200"
    ensures v == NatToString(200)
  {
    assert NatToString(2) == "2";
    assert NatToString(20) == NatToString(2) + ['0'];
    assert NatToString(200) == NatToString(20) + ['0'];
  }

  lemma HalvedCalories(v: string, ratio: real, out: string)
    requires v == NatToString(200) && ratio == 0.5 && out == "100"
    ensures ScaleNumericValue(v, ratio) == out
  {
    ParseWhole(v, 200);
    HalvedTwoHundred(Decimal(200, 0), ratio, out);
  }

  lemma HalvedTwoHundred(d: Decimal, ratio: real, out: string)
    requires d == Decimal(200, 0) && ratio == 0.5 && out == "100"
    ensures ScaledText(d, ratio) == out
  {
    assert d.Value() * ratio * 100.0 == 10000.0;
    HundredPrinted(10000, out);
    Printed(d, ratio, 10000, out);
  }

  lemma HundredPrinted(k: int, out: string)
    requires k == 10000 && out == "100"
    ensures FormatCents(k) == out
  {
    assert NatToString(1) == "1";
    assert NatToString(10) == NatToString(1) + ['0'];
    assert NatToString(100) == NatToString(10) + ['0'];
  }

  lemma HalvedProtein(v: string, ratio: real, out: string)
    requires v == "10g" && ratio == 0.5 && out == "5"
    ensures ScaleNumericValue(v, ratio) == out
  {
    ParseTenGrams(v);
    HalvedTen(Decimal(10, 0), ratio, out);
  }

  lemma HalvedTen(d: Decimal, ratio: real, out: string)
    requires d == Decimal(10, 0) && ratio == 0.5 && out == "5"
    ensures ScaledText(d, ratio) == out
  {
    assert d.Value() * ratio * 100.0 == 500.0;
    assert FormatCents(500) == out;
    Printed(d, ratio, 500, out);
  }

  /** A whole number printed without leading zeros reads back as itself. */
  lemma ParseWhole(v: string, n: nat)
    requires v == NatToString(n)
    ensures ParseFloat(v) == Some(Decimal(n, 0))
  {
    UnsignedWhole(v, v, []);
    ParseFloatUnsigned(v);
  }

  lemma ParseTenGrams(v: string)
    requires v == "10g"
    ensures ParseFloat(v) == Some(Decimal(10, 0))
  {
    var w := NatToString(10);
    assert NatToString(1) == "1";
    assert w == "10";
    assert v == w + "g";
    UnsignedWhole(v, w, "g");
    ParseFloatUnsigned(v);
  }
}
