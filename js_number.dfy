/**
 * JavaScript numbers as the scaling and rating code uses them, over exact
 * rationals: reading a decimal prefix (`parseFloat`, `parseInt`), rounding
 * half up (`Math.round`), and printing (`toString` for whole values,
 * `toFixed(2)` otherwise).
 */
module JsNumber {
  import opened Wrappers
  import opened Text

  function DigitValue(c: char): (d: nat)
    requires IsDigit(c)
    ensures d < 10
  {
    c as int - '0' as int
  }

  function DigitChar(d: nat): (c: char)
    requires d < 10
    ensures IsDigit(c) && DigitValue(c) == d
  {
    ('0' as int + d) as char
  }

  /** The value of a string of decimal digits (0 for the empty string). */
  function DigitsValue(s: string): nat
    requires AllDigits(s)
  {
    if s == [] then 0 else 10 * DigitsValue(s[..|s| - 1]) + DigitValue(s[|s| - 1])
  }

  function Pow10(n: nat): (p: nat)
    ensures p >= 1
  {
    if n == 0 then 1 else 10 * Pow10(n - 1)
  }

  /** The exact number `units / 10^places`: what a decimal literal denotes. */
  datatype Decimal = Decimal(units: int, places: nat) {
    function Value(): real {
      units as real / Pow10(places) as real
    }
  }

  /** Decimal text of a natural number, without leading zeros. */
  function NatToString(n: nat): (s: string)
    ensures |s| >= 1 && AllDigits(s)
    ensures DigitsValue(s) == n
    ensures s[0] == '0' ==> n == 0
  {
    if n < 10 then [DigitChar(n)]
    else
      var s := NatToString(n / 10) + [DigitChar(n % 10)];
      assert s[..|s| - 1] == NatToString(n / 10);
      s
  }

  /** `Number.prototype.toString` of an integer. */
  function IntToString(i: int): (s: string)
    ensures |s| >= 1
    ensures i >= 0 ==> s == NatToString(i)
    ensures i < 0 ==> s == "-" + NatToString(-i)
  {
    if i < 0 then "-" + NatToString(-i) else NatToString(i)
  }

  /** The longest decimal literal `digits`, `digits.digits?` or `.digits` at the start of `u`. */
  function UnsignedDecimal(u: string): (r: Option<Decimal>)
    ensures r.Some? ==> r.value.units >= 0 && HasDigit(u)
  {
    var whole := DigitPrefix(u);
    var after := u[|whole|..];
    var frac := if |after| > 0 && after[0] == '.' then DigitPrefix(after[1..]) else [];
    assert whole != [] ==> IsDigit(u[0]);
    assert whole == [] && frac != [] ==> IsDigit(u[1]);
    if whole == [] && frac == [] then None
    else Some(Decimal(DigitsValue(whole + frac), |frac|))
  }

  function Negate(v: Option<Decimal>): Option<Decimal> {
    match v
    case None => None
    case Some(d) => Some(Decimal(-d.units, d.places))
  }

  /**
   * `parseFloat` on decimal literals: white space is skipped, then an optional
   * sign, then the longest decimal literal; anything after it is ignored.
   * No digits at all gives NaN (None).
   */
  function ParseFloat(s: string): (r: Option<Decimal>)
    ensures r.Some? ==> HasDigit(s)
    ensures r.Some? && r.value.units < 0 ==> TrimStart(s)[0] == '-'
  {
    var t := TrimStart(s);
    HasDigitSuffix(s, |s| - |t|);
    if |t| > 0 && t[0] == '-' then HasDigitSuffix(s, |s| - |t| + 1); Negate(UnsignedDecimal(t[1..]))
    else if |t| > 0 && t[0] == '+' then HasDigitSuffix(s, |s| - |t| + 1); UnsignedDecimal(t[1..])
    else UnsignedDecimal(t)
  }

  /**
   * `parseInt` with no radix on decimal text: white space is skipped, then an
   * optional sign, then the longest digit prefix; no digits gives NaN (None).
   */
  function ParseInt(s: string): (r: Option<int>)
    ensures r.Some? ==> HasDigit(s)
    ensures r.Some? && r.value < 0 ==> TrimStart(s)[0] == '-'
  {
    var t := TrimStart(s);
    var signed := |t| > 0 && (t[0] == '-' || t[0] == '+');
    var u := if signed then t[1..] else t;
    var whole := DigitPrefix(u);
    assert whole != [] ==> IsDigit(u[0]);
    HasDigitSuffix(s, |s| - |u|);
    if whole == [] then None
    else if signed && t[0] == '-' then Some(-(DigitsValue(whole) as int))
    else Some(DigitsValue(whole))
  }

  /** `Math.round`: the nearest integer, halves rounded up. */
  function RoundHalfUp(x: real): (n: int)
    ensures x - 0.5 < n as real <= x + 0.5
  {
    (x + 0.5).Floor
  }

  /** `Math.round(x * 100)`: `x` in hundredths, rounded half up. */
  function Cents(x: real): (k: int)
    ensures x * 100.0 - 0.5 < k as real <= x * 100.0 + 0.5
  {
    RoundHalfUp(x * 100.0)
  }

  /** `a / 100` printed with exactly two decimals, as `toFixed(2)` does for a non-negative value. */
  function TwoDecimalText(a: nat): string {
    NatToString(a / 100) + "." + [DigitChar(a / 10 % 10), DigitChar(a % 10)]
  }

  /**
   * How JavaScript prints the number `k / 100`: `toString()` when it is whole
   * (`"3"`), `toFixed(2)` otherwise (`"1.50"`, `"-0.05"`).
   */
  function FormatCents(k: int): (f: string)
    ensures |f| > 0 && (f[0] == '-' <==> k < 0)
  {
    if k % 100 == 0 then IntToString(k / 100)
    else if k < 0 then "-" + TwoDecimalText(-k)
    else TwoDecimalText(k)
  }

  // ---------------------------------------------------------------------------
  // Reading back what was printed

  /** The longest digit prefix of digits followed by a non-digit is those digits. */
  lemma {:induction false} DigitPrefixOf(p: string, rest: string)
    requires AllDigits(p)
    requires rest == [] || !IsDigit(rest[0])
    ensures DigitPrefix(p + rest) == p
  {
    if p != [] {
      assert (p + rest)[1..] == p[1..] + rest;
      DigitPrefixOf(p[1..], rest);
    } else {
      assert p + rest == rest;
    }
  }

  /** A string that does not start with white space is its own `TrimStart`. */
  lemma TrimStartFixed(s: string)
    requires s == [] || !IsWhite(s[0])
    ensures TrimStart(s) == s
  {
  }

  /** The decimal literal at the start of `u`, when its digits `w` are not followed by a point. */
  lemma UnsignedNoPoint(u: string, w: string, rest: string)
    requires DigitPrefix(u) == w && u[|w|..] == rest
    requires rest == [] || rest[0] != '.'
    ensures UnsignedDecimal(u) == if w == [] then None else Some(Decimal(DigitsValue(w), 0))
  {
    assert w + [] == w;
  }

  /** The decimal literal `w` followed by something that is neither a digit nor a point. */
  lemma UnsignedWhole(u: string, w: string, rest: string)
    requires |w| > 0 && AllDigits(w)
    requires rest == [] || (!IsDigit(rest[0]) && rest[0] != '.')
    requires u == w + rest
    ensures UnsignedDecimal(u) == Some(Decimal(DigitsValue(w), 0))
  {
    DigitPrefixOf(w, rest);
    assert u[|w|..] == rest;
    UnsignedNoPoint(u, w, rest);
  }

  /** After a point, the digits `f` followed by a non-digit are the fraction's digits. */
  lemma DigitPrefixAfterPoint(f: string, rest: string)
    requires AllDigits(f)
    requires rest == [] || !IsDigit(rest[0])
    ensures DigitPrefix(("." + f + rest)[1..]) == f
  {
    assert ("." + f + rest)[1..] == f + rest;
    DigitPrefixOf(f, rest);
  }

  /** The decimal literal `w.f` followed by something that is not a digit. */
  lemma UnsignedPoint(u: string, w: string, f: string, rest: string)
    requires AllDigits(w) && AllDigits(f) && |w| + |f| > 0
    requires rest == [] || !IsDigit(rest[0])
    requires u == w + ("." + f + rest)
    ensures UnsignedDecimal(u) == Some(Decimal(DigitsValue(w + f), |f|))
  {
    var tail := "." + f + rest;
    DigitPrefixOf(w, tail);
    DigitPrefixAfterPoint(f, rest);
    assert u[|w|..] == tail;
  }

  /** `parseFloat` of text that starts with a digit or a point reads it unsigned. */
  lemma ParseFloatUnsigned(s: string)
    requires |s| > 0 && (IsDigit(s[0]) || s[0] == '.')
    ensures ParseFloat(s) == UnsignedDecimal(s)
  {
    var c := s[0];
    assert !IsWhite(c);
    TrimStartFixed(s);
    assert TrimStart(s)[0] == c;
  }

  /** `parseFloat` of a minus sign and text that starts with a digit. */
  lemma ParseFloatMinus(s: string)
    requires |s| > 0 && IsDigit(s[0])
    ensures ParseFloat("-" + s) == Negate(UnsignedDecimal(s))
  {
    var m := "-" + s;
    assert m[0] == '-' && !IsWhite(m[0]);
    TrimStartFixed(m);
    assert TrimStart(m)[0] == '-';
    assert m[1..] == s;
  }

  /** A number split into its hundreds and its last two digits. */
  lemma CentsDigits(a: nat)
    ensures a == 100 * (a / 100) + 10 * (a / 10 % 10) + a % 10
  {
    var q, r := a / 100, a % 100;
    assert a == 100 * q + r;
    assert a / 10 == 10 * q + r / 10;
    assert (a / 10) % 10 == r / 10;
    assert a % 10 == r % 10;
  }

  /** The digits printed for `a` hundredths, read without their point, are worth `a`. */
  lemma TwoDecimals(a: nat)
    ensures var f := [DigitChar(a / 10 % 10), DigitChar(a % 10)];
      AllDigits(NatToString(a / 100) + f) && DigitsValue(NatToString(a / 100) + f) == a
  {
    var w := NatToString(a / 100);
    var f := [DigitChar(a / 10 % 10), DigitChar(a % 10)];
    var s := w + f;
    assert s[..|s| - 1] == w + [f[0]];
    assert (w + [f[0]])[..|w|] == w;
    CentsDigits(a);
  }

  /** A whole number printed by `FormatCents` reads back as itself. */
  lemma FormatWholeParses(k: int)
    requires k % 100 == 0
    ensures ParseFloat(FormatCents(k)) == Some(Decimal(k / 100, 0))
  {
    var q := k / 100;
    if q < 0 {
      var w := NatToString(-q);
      assert FormatCents(k) == "-" + w;
      NatParses(w);
      ParseFloatMinus(w);
    } else {
      var w := NatToString(q);
      assert FormatCents(k) == w;
      NatParses(w);
      ParseFloatUnsigned(w);
    }
  }

  /** Digits alone are read as a whole decimal literal. */
  lemma NatParses(w: string)
    requires |w| >= 1 && AllDigits(w)
    ensures IsDigit(w[0])
    ensures UnsignedDecimal(w) == Some(Decimal(DigitsValue(w), 0))
  {
    UnsignedWhole(w, w, []);
  }

  /** Two-decimal text reads back as that many hundredths. */
  lemma TwoDecimalTextParses(a: nat)
    ensures UnsignedDecimal(TwoDecimalText(a)) == Some(Decimal(a, 2))
  {
    var w := NatToString(a / 100);
    var f := [DigitChar(a / 10 % 10), DigitChar(a % 10)];
    var body := w + ("." + f + []);
    assert TwoDecimalText(a) == body;
    TwoDecimals(a);
    UnsignedPoint(body, w, f, []);
  }

  /** A number with hundredths printed by `FormatCents` reads back as itself. */
  lemma FormatFractionParses(k: int)
    requires k % 100 != 0
    ensures ParseFloat(FormatCents(k)) == Some(Decimal(k, 2))
  {
    if k < 0 {
      assert FormatCents(k) == "-" + TwoDecimalText(-k);
      TwoDecimalTextParses(-k);
      TwoDecimalTextStart(-k);
      MinusHundredthsParses(k, -k, TwoDecimalText(-k));
    } else {
      assert FormatCents(k) == TwoDecimalText(k);
      TwoDecimalTextParses(k);
      TwoDecimalTextStart(k);
      ParseFloatUnsigned(TwoDecimalText(k));
    }
  }

  /** A minus sign in front of digits read as `a` hundredths is read as `-a` hundredths. */
  lemma MinusHundredthsParses(k: int, a: int, body: string)
    requires a == -k && |body| > 0 && IsDigit(body[0]) && UnsignedDecimal(body) == Some(Decimal(a, 2))
    ensures ParseFloat("-" + body) == Some(Decimal(k, 2))
  {
    ParseFloatMinus(body);
    NegateHundredths(a, k);
  }

  lemma NegateHundredths(a: int, k: int)
    requires k == -a
    ensures Negate(Some(Decimal(a, 2))) == Some(Decimal(k, 2))
  {
  }

  lemma TwoDecimalTextStart(a: nat)
    ensures |TwoDecimalText(a)| > 0 && IsDigit(TwoDecimalText(a)[0])
  {
    var w := NatToString(a / 100);
    assert TwoDecimalText(a)[0] == w[0];
  }

  lemma WholeHundredthsValue(k: int)
    requires k % 100 == 0
    ensures Decimal(k / 100, 0).Value() == k as real / 100.0
  {
    assert k == 100 * (k / 100);
  }

  lemma HundredthsValue(k: int)
    ensures Decimal(k, 2).Value() == k as real / 100.0
  {
    assert Pow10(2) == 100;
  }

  /** What `FormatCents` prints for `k`, `parseFloat` reads back as exactly `k / 100`. */
  lemma FormatCentsParses(k: int)
    ensures ParseFloat(FormatCents(k)).Some?
    ensures ParseFloat(FormatCents(k)).value.Value() == k as real / 100.0
  {
    if k % 100 == 0 {
      FormatWholeParses(k);
      WholeHundredthsValue(k);
    } else {
      FormatFractionParses(k);
      HundredthsValue(k);
    }
  }

  /** `parseInt` reads the decimal text of a natural number back as that number. */
  lemma ParseIntOfNat(n: nat)
    ensures ParseInt(NatToString(n)) == Some(n)
  {
    var s := NatToString(n);
    var c := s[0];
    assert IsDigit(c) && !IsWhite(c);
    TrimStartFixed(s);
    assert TrimStart(s)[0] == c && c != '-' && c != '+';
    DigitPrefixOf(s, []);
    assert s + [] == s;
    assert DigitPrefix(s) == s;
  }

  /** `s` ends in a point and exactly two digits, and has no other point. */
  predicate EndsInTwoDecimals(s: string) {
    |s| >= 4 && s[|s| - 3] == '.' && IsDigit(s[|s| - 2]) && IsDigit(s[|s| - 1])
    && '.' !in s[..|s| - 3]
  }

  /**
   * The shape of what `FormatCents` prints: a whole number has no point, and
   * any other number ends in a point and exactly two digits.
   */
  lemma FormatCentsShape(k: int)
    ensures k % 100 == 0 ==> '.' !in FormatCents(k)
    ensures k % 100 != 0 ==> EndsInTwoDecimals(FormatCents(k))
  {
    if k % 100 == 0 {
      WholeHasNoPoint(k);
    } else {
      FractionShape(k);
    }
  }

  lemma DigitsHaveNoPoint(w: string)
    requires AllDigits(w)
    ensures '.' !in w
  {
    forall i | 0 <= i < |w| ensures w[i] != '.' {
      assert IsDigit(w[i]);
    }
  }

  lemma WholeHasNoPoint(k: int)
    requires k % 100 == 0
    ensures '.' !in FormatCents(k)
  {
    var q := k / 100;
    var w := NatToString(if q < 0 then -q else q);
    DigitsHaveNoPoint(w);
    if q < 0 {
      assert FormatCents(k) == "-" + w;
    } else {
      assert FormatCents(k) == w;
    }
  }

  lemma TwoDecimalTextShape(a: nat)
    ensures EndsInTwoDecimals(TwoDecimalText(a))
  {
    var w := NatToString(a / 100);
    var t := TwoDecimalText(a);
    DigitsHaveNoPoint(w);
    assert t[..|t| - 3] == w;
  }

  lemma MinusKeepsShape(t: string)
    requires EndsInTwoDecimals(t)
    ensures EndsInTwoDecimals("-" + t)
  {
    var s := "-" + t;
    assert s[..|s| - 3] == "-" + t[..|t| - 3];
  }

  lemma FractionShape(k: int)
    requires k % 100 != 0
    ensures EndsInTwoDecimals(FormatCents(k))
  {
    if k < 0 {
      assert FormatCents(k) == "-" + TwoDecimalText(-k);
      TwoDecimalTextShape(-k);
      MinusKeepsShape(TwoDecimalText(-k));
    } else {
      assert FormatCents(k) == TwoDecimalText(k);
      TwoDecimalTextShape(k);
    }
  }

  /** Reading back a printed rounded number and rounding again changes nothing. */
  lemma CentsOfCents(k: int)
    ensures Cents(k as real / 100.0) == k
  {
  }
}
