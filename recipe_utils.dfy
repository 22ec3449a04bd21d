/**
 * Serving-size scaling of a recipe's ingredient quantities and nutrition
 * facts. A quantity such as "1.5 cups flour" is split by the pattern
 * `^(\d*\.?\d+)\s*(.*)$` into a numeral and the rest; the numeral is
 * multiplied by `selected / base`, rounded to hundredths, printed bare when
 * whole and with two decimals otherwise, and the rest is put back after it.
 * Text with no leading numeral ("to taste") is left alone.
 */
module RecipeUtils {
  import opened Wrappers
  import opened Text
  import opened JsNumber

  datatype RecipeIngredient = RecipeIngredient(name: string, quantity: string)

  datatype RecipeNutrition = RecipeNutrition(calories: string, protein: string)

  // ---------------------------------------------------------------------------
  // The pattern ^(\d*\.?\d+)\s*(.*)$

  /** Text matched by `\d*\.?\d+`: digits and at most one point, ending in a digit. */
  predicate NumeralShape(n: string) {
    && |n| > 0 && IsDigit(n[|n| - 1])
    && (forall i | 0 <= i < |n| :: IsDigit(n[i]) || n[i] == '.')
    && (forall i, j | 0 <= i < j < |n| :: n[i] == '.' ==> n[j] != '.')
  }

  /**
   * The pattern matches all of `t` with group 1 = `n`, `\s*` = `w` and group 2 = `r`
   * (`.` matches anything but a line terminator, `$` is the end of the text).
   */
  predicate PatternSplit(t: string, n: string, w: string, r: string) {
    t == n + w + r && NumeralShape(n) && AllWhite(w) && NoLineTerminator(r)
  }

  /** The two groups the pattern captures. */
  datatype QuantityMatch = QuantityMatch(numeral: string, rest: string)

  /** The numeral the greedy `\d*\.?\d+` takes at the start of `t` (empty when there is none). */
  function NumeralPrefix(t: string): (n: string)
    ensures n <= t
  {
    var d := DigitPrefix(t);
    var after := t[|d|..];
    if |after| >= 2 && after[0] == '.' && IsDigit(after[1]) then
      t[..|d| + 1 + |DigitPrefix(after[1..])|]
    else d
  }

  /**
   * `t.match(/^(\d*\.?\d+)\s*(.*)$/)` as the regular-expression engine finds it:
   * the longest numeral, then the longest run of white space, then the rest.
   */
  function MatchQuantity(t: string): Option<QuantityMatch> {
    var numeral := NumeralPrefix(t);
    if numeral == [] then None
    else
      var rest := RestAfterNumeral(t);
      if NoLineTerminator(rest) then Some(QuantityMatch(numeral, rest)) else None
  }

  /** What is left of `t` after the greedy numeral and the greedy run of white space after it. */
  function RestAfterNumeral(t: string): (rest: string)
    ensures |NumeralPrefix(t)| + |rest| <= |t| && rest == t[|t| - |rest|..]
  {
    var tail := t[|NumeralPrefix(t)|..];
    tail[|WhitePrefix(tail)|..]
  }

  /** A non-empty greedy numeral has the numeral shape. */
  lemma NumeralPrefixShape(t: string)
    requires NumeralPrefix(t) != []
    ensures NumeralShape(NumeralPrefix(t))
  {
    var d := DigitPrefix(t);
    var after := t[|d|..];
    if |after| >= 2 && after[0] == '.' && IsDigit(after[1]) {
      var e := DigitPrefix(after[1..]);
      var n := NumeralPrefix(t);
      assert |n| == |d| + 1 + |e|;
      forall k | 0 <= k < |n| ensures (k == |d| && n[k] == '.') || (k != |d| && IsDigit(n[k])) {
        if k > |d| {
          assert n[k] == after[1..][k - |d| - 1] == e[k - |d| - 1];
        }
      }
    }
  }

  /** Any numeral-shaped prefix of `t` is at most as long as the greedy numeral. */
  lemma NumeralPrefixLongest(t: string, p: string)
    requires p <= t && NumeralShape(p)
    ensures |p| <= |NumeralPrefix(t)|
  {
    if AllDigits(p) {
      DigitPrefixIsLongest(t, p);
    } else {
      var i :| 0 <= i < |p| && p[i] == '.';
      PointedNumeralParts(p, i);
      var a, b := p[..i], p[i + 1..];
      assert a <= t && t[i] == '.' && b <= t[i + 1..];
      DigitsBeforePoint(t, a, i);
      DigitsAfterPoint(t, b, i);
    }
  }

  /** A numeral with a point has digits before it and at least one digit after it. */
  lemma PointedNumeralParts(p: string, i: int)
    requires NumeralShape(p) && 0 <= i < |p| && p[i] == '.'
    ensures i + 1 < |p| && AllDigits(p[..i]) && AllDigits(p[i + 1..]) && |p[i + 1..]| > 0
  {
    assert i != |p| - 1;
    var a, b := p[..i], p[i + 1..];
    forall j | 0 <= j < |a| ensures IsDigit(a[j]) {
      assert a[j] == p[j];
    }
    forall j | 0 <= j < |b| ensures IsDigit(b[j]) {
      assert b[j] == p[i + 1 + j];
    }
  }

  /** Digits followed by a point in `t` are exactly its longest digit prefix. */
  lemma DigitsBeforePoint(t: string, a: string, i: int)
    requires a <= t && AllDigits(a) && |a| == i && i < |t| && t[i] == '.'
    ensures |DigitPrefix(t)| == i
  {
    var d := DigitPrefix(t);
    DigitPrefixIsLongest(t, a);
    if |d| > i {
      assert false;
    }
  }

  /** Digits after the point that ends the longest digit prefix of `t` are all inside its numeral. */
  lemma DigitsAfterPoint(t: string, b: string, i: int)
    requires |DigitPrefix(t)| == i && i < |t| && t[i] == '.'
    requires |b| > 0 && AllDigits(b) && b <= t[i + 1..]
    ensures i + 1 + |b| <= |NumeralPrefix(t)|
  {
    var after := t[i..];
    assert after[1..] == t[i + 1..];
    assert after[0] == '.' && after[1] == b[0];
    DigitPrefixIsLongest(after[1..], b);
  }

  /** The character after a numeral-shaped prefix shorter than the greedy one is a digit or a point. */
  lemma ShorterNumeralFollowedByNumeral(t: string, p: string)
    requires p <= t && NumeralShape(p) && |p| < |NumeralPrefix(t)|
    ensures IsDigit(t[|p|]) || t[|p|] == '.'
  {
    var n := NumeralPrefix(t);
    NumeralPrefixShape(t);
    assert t[|p|] == n[|p|];
  }

  /** What the matcher captures: a numeral-shaped prefix, then a rest that is a suffix of `t`, starts after all the white space and holds no line terminator. */
  lemma MatchQuantityParts(t: string)
    requires MatchQuantity(t).Some?
    ensures var m := MatchQuantity(t).value;
      && NumeralShape(m.numeral) && m.numeral <= t
      && |m.numeral| + |m.rest| <= |t| && m.rest == t[|t| - |m.rest|..]
      && AllWhite(t[|m.numeral|..|t| - |m.rest|])
      && (m.rest == [] || !IsWhite(m.rest[0]))
      && NoLineTerminator(m.rest)
  {
    NumeralPrefixShape(t);
    RestStartsDark(t);
    WhiteBeforeRest(t);
  }

  /** Between the numeral and the rest there is only white space. */
  lemma WhiteBeforeRest(t: string)
    ensures AllWhite(t[|NumeralPrefix(t)|..|t| - |RestAfterNumeral(t)|])
  {
    var tail := t[|NumeralPrefix(t)|..];
    assert t[|NumeralPrefix(t)|..|t| - |RestAfterNumeral(t)|] == WhitePrefix(tail);
  }

  /** Whatever the matcher captures, the pattern accepts with those two groups. */
  lemma MatchQuantitySound(t: string)
    requires MatchQuantity(t).Some?
    ensures var m := MatchQuantity(t).value;
      PatternSplit(t, m.numeral, t[|m.numeral|..|t| - |m.rest|], m.rest)
  {
    MatchQuantityParts(t);
    var m := MatchQuantity(t).value;
    ThreeWaySplit(t, m.numeral, t[|m.numeral|..|t| - |m.rest|], m.rest);
  }

  /** A prefix, the middle and a suffix that do not overlap make up the whole text. */
  lemma ThreeWaySplit(t: string, n: string, w: string, r: string)
    requires n <= t && |n| + |r| <= |t| && r == t[|t| - |r|..] && w == t[|n|..|t| - |r|]
    ensures t == n + w + r
  {
    assert t == t[..|n|] + t[|n|..|t| - |r|] + t[|t| - |r|..];
  }

  /** When the pattern splits off a numeral shorter than the greedy one, no white space follows it. */
  lemma ShorterNumeralNoWhite(t: string, n: string, w: string, r: string)
    requires PatternSplit(t, n, w, r) && |n| < |NumeralPrefix(t)|
    ensures w == []
  {
    assert n <= t;
    ShorterNumeralFollowedByNumeral(t, n);
    NoWhiteBeforeNumeral(t, n, w, r);
  }

  /** No white space sits between `n` and a following digit or point. */
  lemma NoWhiteBeforeNumeral(t: string, n: string, w: string, r: string)
    requires t == n + w + r && AllWhite(w) && |n| < |t| && (IsDigit(t[|n|]) || t[|n|] == '.')
    ensures w == []
  {
    var c := t[|n|];
    assert !IsWhite(c);
    assert t[|n|..] == w + r;
  }

  /** A suffix of a text without line terminators has none either. */
  lemma SuffixNoLineTerminator(r: string, k: nat)
    requires NoLineTerminator(r) && k <= |r|
    ensures NoLineTerminator(r[k..])
  {
    forall i | 0 <= i < |r| - k ensures !IsLineTerminator(r[k..][i]) {
      assert r[k..][i] == r[k + i];
    }
  }

  /** Below a numeral shorter than the greedy one, the matcher's rest is a suffix of the pattern's rest. */
  lemma RestSuffixShorter(t: string, n: string, w: string, r: string)
    requires PatternSplit(t, n, w, r) && |n| < |NumeralPrefix(t)|
    ensures |RestAfterNumeral(t)| <= |r| && RestAfterNumeral(t) == r[|r| - |RestAfterNumeral(t)|..]
  {
    ShorterNumeralNoWhite(t, n, w, r);
    RestWithin(t, n, r);
  }

  /** The matcher's rest is a suffix of whatever follows a numeral no longer than the greedy one. */
  lemma RestWithin(t: string, n: string, r: string)
    requires t == n + [] + r && |n| <= |NumeralPrefix(t)|
    ensures |RestAfterNumeral(t)| <= |r| && RestAfterNumeral(t) == r[|r| - |RestAfterNumeral(t)|..]
  {
    SuffixWithin(t, n, r, RestAfterNumeral(t));
  }

  /** A suffix of `n + r` no longer than `r` is a suffix of `r`. */
  lemma SuffixWithin(t: string, n: string, r: string, rest: string)
    requires t == n + [] + r && |n| + |rest| <= |t| && rest == t[|t| - |rest|..]
    ensures |rest| <= |r| && rest == r[|r| - |rest|..]
  {
    var u := r[|r| - |rest|..];
    forall i | 0 <= i < |rest| ensures rest[i] == u[i] {
      assert rest[i] == t[|t| - |rest| + i];
      assert u[i] == r[|r| - |rest| + i];
      assert t[|n| + |r| - |rest| + i] == r[|r| - |rest| + i];
    }
  }

  /** With the greedy numeral, the matcher's rest is a suffix of the pattern's rest, since its white run is the longest. */
  lemma RestSuffixSame(t: string, n: string, w: string, r: string)
    requires PatternSplit(t, n, w, r) && n == NumeralPrefix(t)
    ensures |RestAfterNumeral(t)| <= |r| && RestAfterNumeral(t) == r[|r| - |RestAfterNumeral(t)|..]
  {
    GreedyWhiteWithin(t, n, w, r);
  }

  /** After the greedy numeral, the longest white run covers any white run, so the rest is a suffix of what follows it. */
  lemma GreedyWhiteWithin(t: string, n: string, w: string, r: string)
    requires t == n + w + r && n == NumeralPrefix(t) && AllWhite(w)
    ensures |RestAfterNumeral(t)| <= |r| && RestAfterNumeral(t) == r[|r| - |RestAfterNumeral(t)|..]
  {
    var tail := t[|n|..];
    assert tail == w + r;
    WhitePrefixIsLongest(tail, w);
    assert RestAfterNumeral(t) == r[|WhitePrefix(tail)| - |w|..];
  }

  /**
   * If the pattern can match `t` in any way, the matcher finds a match, and its
   * groups are the ones the regular-expression engine reports: the numeral is
   * the longest possible and, for that numeral, the white space is the longest.
   */
  lemma MatchQuantityComplete(t: string, n: string, w: string, r: string)
    requires PatternSplit(t, n, w, r)
    ensures MatchQuantity(t).Some?
    ensures |n| <= |MatchQuantity(t).value.numeral|
    ensures n == MatchQuantity(t).value.numeral ==> |MatchQuantity(t).value.rest| <= |r|
  {
    assert n <= t;
    NumeralPrefixLongest(t, n);
    var rest := RestAfterNumeral(t);
    if |n| < |NumeralPrefix(t)| {
      RestSuffixShorter(t, n, w, r);
    } else {
      assert n == NumeralPrefix(t);
      RestSuffixSame(t, n, w, r);
    }
    SuffixNoLineTerminator(r, |r| - |rest|);
  }

  /** A numeral, then one space and a rest that does not start with white space, is matched as exactly those parts. */
  lemma MatchNumeralSpaceRest(t: string, n: string, rest: string)
    requires NumeralShape(n) && NoLineTerminator(rest) && |rest| > 0 && !IsWhite(rest[0])
    requires t == n + " " + rest
    ensures MatchQuantity(t) == Some(QuantityMatch(n, rest))
  {
    assert n <= t;
    NumeralPrefixLongest(t, n);
    if |n| < |NumeralPrefix(t)| {
      ShorterNumeralFollowedByNumeral(t, n);
      assert false;
    }
    assert NumeralPrefix(t) == n;
    var tail := t[|n|..];
    assert tail == " " + rest;
    assert tail[1..] == rest;
    assert WhitePrefix(tail) == " ";
  }

  /** A bare numeral is matched as that numeral and an empty rest. */
  lemma MatchBareNumeral(n: string)
    requires NumeralShape(n)
    ensures MatchQuantity(n) == Some(QuantityMatch(n, []))
  {
    NumeralPrefixLongest(n, n);
    assert NumeralPrefix(n) == n;
  }

  /** A numeral always has a value: the `isNaN` branch after the match is never taken. */
  lemma NumeralParses(n: string)
    requires NumeralShape(n)
    ensures ParseFloat(n).Some? && ParseFloat(n).value.units >= 0
  {
    ParseFloatUnsigned(n);
    if DigitPrefix(n) == [] {
      assert n[0] == '.' && |n| >= 2 && IsDigit(n[1]);
      assert DigitPrefix(n[1..]) != [];
    }
  }

  /** A non-negative printed amount is a numeral. */
  lemma FormatCentsNumeral(k: int)
    requires k >= 0
    ensures NumeralShape(FormatCents(k))
  {
    var s := FormatCents(k);
    if k % 100 != 0 {
      var w := NatToString(k / 100);
      assert s == w + "." + [DigitChar(k / 10 % 10), DigitChar(k % 10)];
      forall i, j | 0 <= i < j < |s| && s[i] == '.' ensures s[j] != '.' {
        assert i == |w|;
      }
    }
  }

  /** `s` starts with a digit or a minus sign and ends in a digit. */
  predicate PrintedAmount(s: string) {
    |s| > 0 && (IsDigit(s[0]) || s[0] == '-') && IsDigit(s[|s| - 1])
  }

  /** Printed amounts start with a digit or a minus sign and end in a digit. */
  lemma FormatCentsEnds(k: int)
    ensures PrintedAmount(FormatCents(k))
  {
  }

  // ---------------------------------------------------------------------------
  // Scaling

  /**
   * `Math.round(x * 100) / 100` printed with `toString()` when whole and with
   * `toFixed(2)` otherwise: the printed text reads back as `x` rounded to the
   * nearest hundredth.
   */
  function FormatScaled(x: real): (s: string)
    ensures ParseFloat(s).Some?
    ensures ParseFloat(s).value.Value() == Cents(x) as real / 100.0
    ensures x - 0.005 < ParseFloat(s).value.Value() <= x + 0.005
    ensures PrintedAmount(s)
  {
    FormatCentsParses(Cents(x));
    FormatCentsEnds(Cents(x));
    FormatCents(Cents(x))
  }

  /** The template `${formatted} ${rest}` after `.trim()`, for a rest that is already trimmed. */
  function Join(formatted: string, rest: string): string {
    if rest == [] then formatted else formatted + " " + rest
  }

  /** `scaleQuantity(quantity, ratio)`. */
  function ScaleQuantity(quantity: string, ratio: real): (r: string)
    ensures r == quantity || Trimmed(r)
  {
    match MatchQuantity(Trim(quantity))
    case None => quantity
    case Some(m) =>
      match ParseFloat(m.numeral)
      case None => quantity
      case Some(d) => Trim(ScaledText(d, ratio) + " " + m.rest)
  }

  /** The amount `d` scaled by `ratio`, printed. */
  function ScaledText(d: Decimal, ratio: real): (s: string)
    ensures PrintedAmount(s)
  {
    FormatScaled(d.Value() * ratio)
  }

  /** `scaleNumericValue(value, ratio)`. */
  function ScaleNumericValue(value: string, ratio: real): (r: string)
    ensures r == value || PrintedAmount(r)
  {
    match ParseFloat(value)
    case None => value
    case Some(d) => ScaledText(d, ratio)
  }

  /** `scaleIngredients(ingredients, baseServings, selectedServings)`. */
  function ScaleIngredients(ingredients: seq<RecipeIngredient>, baseServings: real, selectedServings: real): (r: seq<RecipeIngredient>)
    ensures |r| == |ingredients|
    ensures forall i | 0 <= i < |r| :: r[i].name == ingredients[i].name
    ensures baseServings <= 0.0 || selectedServings <= 0.0 ==> r == ingredients
  {
    if baseServings <= 0.0 || selectedServings <= 0.0 then ingredients
    else
      var ratio := selectedServings / baseServings;
      seq(|ingredients|, i requires 0 <= i < |ingredients| =>
        ingredients[i].(quantity := ScaleQuantity(ingredients[i].quantity, ratio)))
  }

  /** `scaleNutrition(nutrition, baseServings, selectedServings)`. */
  function ScaleNutrition(nutrition: RecipeNutrition, baseServings: real, selectedServings: real): (r: RecipeNutrition)
    ensures r.calories == nutrition.calories || PrintedAmount(r.calories)
    ensures r.protein == nutrition.protein || PrintedAmount(r.protein)
  {
    if baseServings <= 0.0 || selectedServings <= 0.0 then nutrition
    else
      var ratio := selectedServings / baseServings;
      RecipeNutrition(ScaleNumericValue(nutrition.calories, ratio), ScaleNumericValue(nutrition.protein, ratio))
  }

  /**
   * Each ingredient's quantity is scaled on its own by `selected / base`, and
   * an ingredient whose quantity has no leading numeral comes back as it was.
   */
  lemma ScaleIngredientsEach(ingredients: seq<RecipeIngredient>, baseServings: real, selectedServings: real, i: int)
    requires baseServings > 0.0 && selectedServings > 0.0 && 0 <= i < |ingredients|
    ensures ScaleIngredients(ingredients, baseServings, selectedServings)[i].quantity
      == ScaleQuantity(ingredients[i].quantity, selectedServings / baseServings)
    ensures MatchQuantity(Trim(ingredients[i].quantity)).None? ==>
      ScaleIngredients(ingredients, baseServings, selectedServings)[i] == ingredients[i]
  {
    ScaleQuantityResult(ingredients[i].quantity, selectedServings / baseServings);
  }

  /**
   * Calories and protein are scaled independently: changing one never changes
   * the other's result, a value without a leading number comes back as it was,
   * and non-positive servings leave both alone.
   */
  lemma ScaleNutritionFields(nutrition: RecipeNutrition, baseServings: real, selectedServings: real, other: string)
    ensures baseServings <= 0.0 || selectedServings <= 0.0 ==> ScaleNutrition(nutrition, baseServings, selectedServings) == nutrition
    ensures ScaleNutrition(nutrition.(protein := other), baseServings, selectedServings).calories
      == ScaleNutrition(nutrition, baseServings, selectedServings).calories
    ensures ScaleNutrition(nutrition.(calories := other), baseServings, selectedServings).protein
      == ScaleNutrition(nutrition, baseServings, selectedServings).protein
    ensures ParseFloat(nutrition.calories).None? ==> ScaleNutrition(nutrition, baseServings, selectedServings).calories == nutrition.calories
    ensures ParseFloat(nutrition.protein).None? ==> ScaleNutrition(nutrition, baseServings, selectedServings).protein == nutrition.protein
  {
  }

  /** A numeral without a sign, scaled by a ratio that is not negative, prints as a numeral again. */
  lemma ScaledTextNumeral(d: Decimal, ratio: real)
    requires d.units >= 0 && ratio >= 0.0
    ensures NumeralShape(ScaledText(d, ratio))
  {
    var x := d.Value() * ratio;
    assert x >= 0.0;
    assert ScaledText(d, ratio) == FormatCents(Cents(x));
    FormatCentsNumeral(Cents(x));
  }

  /** A printed amount has no white space at either end. */
  lemma PrintedAmountTrimmed(f: string)
    requires PrintedAmount(f)
    ensures Trimmed(f)
  {
    var c, e := f[0], f[|f| - 1];
    assert !IsWhite(c) && !IsWhite(e);
  }

  /** A printed amount followed by one space and a trimmed rest is already trimmed, but for a lone trailing space. */
  lemma JoinTrimmed(x: string, formatted: string, rest: string)
    requires PrintedAmount(formatted) && Trimmed(rest)
    requires x == Trim(formatted + " " + rest)
    ensures x == Join(formatted, rest)
  {
    PrintedAmountTrimmed(formatted);
    if rest == [] {
      SpaceTrimmed(formatted, formatted + " " + rest);
    } else {
      JoinedTrimmed(formatted, rest, formatted + " " + rest);
      TrimmedIsFixed(formatted + " " + rest);
    }
  }

  /** Trimming drops a lone trailing space after trimmed text. */
  lemma SpaceTrimmed(f: string, y: string)
    requires Trimmed(f) && y == f + " " + []
    ensures Trim(y) == f
  {
    assert y[..|y| - 1] == f;
    var c := y[|y| - 1];
    assert c == ' ' && IsWhite(c);
    assert TrimEnd(y) == TrimEnd(f);
    TrimmedIsFixed(f);
    assert Trim(y) == Trim(f);
  }

  /** Trimmed text, a space and non-empty trimmed text make trimmed text. */
  lemma JoinedTrimmed(f: string, rest: string, y: string)
    requires Trimmed(f) && f != [] && Trimmed(rest) && rest != [] && y == f + " " + rest
    ensures Trimmed(y)
  {
    assert y[0] == f[0];
    assert y[|y| - 1] == rest[|rest| - 1];
  }

  /**
   * What `scaleQuantity` returns: text with no leading numeral comes back
   * unchanged; otherwise the numeral always has a value (the `isNaN` branch is
   * dead), and the result is the scaled, rounded amount followed by one space
   * and the rest, or the amount alone when there is no rest.
   */
  lemma ScaleQuantityResult(quantity: string, ratio: real)
    ensures MatchQuantity(Trim(quantity)).None? ==> ScaleQuantity(quantity, ratio) == quantity
    ensures MatchQuantity(Trim(quantity)).Some? ==>
      var m := MatchQuantity(Trim(quantity)).value;
      && ParseFloat(m.numeral).Some?
      && ScaleQuantity(quantity, ratio) == Join(ScaledText(ParseFloat(m.numeral).value, ratio), m.rest)
  {
    var t := Trim(quantity);
    if MatchQuantity(t).Some? {
      var m := MatchQuantity(t).value;
      MatchedGroups(t, m);
      ScaleQuantityJoined(quantity, ratio, m, ParseFloat(m.numeral).value);
    }
  }

  /** The groups the matcher captures from trimmed text: a numeral that has a value, and a trimmed rest. */
  lemma MatchedGroups(t: string, m: QuantityMatch)
    requires Trimmed(t) && MatchQuantity(t) == Some(m)
    ensures ParseFloat(m.numeral).Some? && ParseFloat(m.numeral).value.units >= 0
    ensures Trimmed(m.rest) && NoLineTerminator(m.rest)
  {
    MatchQuantityParts(t);
    NumeralParses(m.numeral);
    RestOfTrimmed(t);
  }

  /** The matched branch of `scaleQuantity` once trimming is accounted for. */
  lemma ScaleQuantityJoined(quantity: string, ratio: real, m: QuantityMatch, d: Decimal)
    requires MatchQuantity(Trim(quantity)) == Some(m) && ParseFloat(m.numeral) == Some(d)
    requires Trimmed(m.rest)
    ensures ScaleQuantity(quantity, ratio) == Join(ScaledText(d, ratio), m.rest)
  {
    ScaleQuantityMatched(quantity, ratio, m, d);
    JoinTrimmed(ScaleQuantity(quantity, ratio), ScaledText(d, ratio), m.rest);
  }

  /** The matched branch of `scaleQuantity`, given the captured groups and the numeral's value. */
  lemma ScaleQuantityMatched(quantity: string, ratio: real, m: QuantityMatch, d: Decimal)
    requires MatchQuantity(Trim(quantity)) == Some(m) && ParseFloat(m.numeral) == Some(d)
    ensures ScaleQuantity(quantity, ratio) == Trim(ScaledText(d, ratio) + " " + m.rest)
  {
  }

  /** What follows the numeral and the white space in trimmed text is itself trimmed. */
  lemma RestOfTrimmed(t: string)
    requires Trimmed(t)
    ensures Trimmed(RestAfterNumeral(t))
  {
    RestStartsDark(t);
    TrimmedSuffix(t, RestAfterNumeral(t));
  }

  /** What follows the numeral and the white space does not start with white space. */
  lemma RestStartsDark(t: string)
    ensures var r := RestAfterNumeral(t); r == [] || !IsWhite(r[0])
  {
    var tail := t[|NumeralPrefix(t)|..];
    var p := WhitePrefix(tail);
    assert RestAfterNumeral(t) == tail[|p|..];
  }

  /** A suffix of trimmed text that does not start with white space is trimmed. */
  lemma TrimmedSuffix(t: string, r: string)
    requires Trimmed(t) && |r| <= |t| && r == t[|t| - |r|..] && (r == [] || !IsWhite(r[0]))
    ensures Trimmed(r)
  {
    if r != [] {
      assert r[|r| - 1] == t[|t| - 1];
    }
  }

  /** A numeral, alone or followed by a space and a trimmed rest, is matched back as those parts. */
  lemma JoinMatches(x: string, formatted: string, rest: string)
    requires NumeralShape(formatted) && NoLineTerminator(rest)
    requires rest == [] || !IsWhite(rest[0])
    requires x == Join(formatted, rest)
    ensures MatchQuantity(x) == Some(QuantityMatch(formatted, rest))
  {
    if rest == [] {
      MatchBareNumeral(formatted);
    } else {
      MatchNumeralSpaceRest(x, formatted, rest);
    }
  }

  /** A printed amount, alone or followed by a space and a trimmed rest, is already trimmed. */
  lemma JoinIsTrimmed(x: string, formatted: string, rest: string)
    requires PrintedAmount(formatted)
    requires Trimmed(rest)
    requires x == Join(formatted, rest)
    ensures Trim(x) == x
  {
    assert x[0] == formatted[0];
    if rest != [] {
      assert x[|x| - 1] == rest[|rest| - 1];
    }
    TrimmedIsFixed(x);
  }

  /**
   * A scaled quantity is matched again as the printed amount and the same rest,
   * when the ratio is not negative; it is also already trimmed.
   */
  lemma ScaleQuantityReparses(quantity: string, ratio: real)
    requires ratio >= 0.0 && MatchQuantity(Trim(quantity)).Some?
    ensures var m := MatchQuantity(Trim(quantity)).value;
      && ParseFloat(m.numeral).Some?
      && MatchQuantity(ScaleQuantity(quantity, ratio)) == Some(QuantityMatch(ScaledText(ParseFloat(m.numeral).value, ratio), m.rest))
      && Trim(ScaleQuantity(quantity, ratio)) == ScaleQuantity(quantity, ratio)
  {
    var t := Trim(quantity);
    var m := MatchQuantity(t).value;
    MatchedGroups(t, m);
    var d := ParseFloat(m.numeral).value;
    ScaleQuantityResult(quantity, ratio);
    ScaledTextNumeral(d, ratio);
    ReassembledMatches(ScaleQuantity(quantity, ratio), ScaledText(d, ratio), m.rest);
  }

  /** `JoinMatches` and `JoinIsTrimmed` together, for a printed numeral. */
  lemma ReassembledMatches(x: string, formatted: string, rest: string)
    requires NumeralShape(formatted) && PrintedAmount(formatted)
    requires NoLineTerminator(rest)
    requires Trimmed(rest)
    requires x == Join(formatted, rest)
    ensures MatchQuantity(x) == Some(QuantityMatch(formatted, rest))
    ensures Trim(x) == x
  {
    JoinMatches(x, formatted, rest);
    JoinIsTrimmed(x, formatted, rest);
  }

  /** The printed amount reads back as `Math.round(x * 100) / 100`, and it is the printed form of that many hundredths. */
  lemma ScaledTextReadsBack(d: Decimal, ratio: real, k: int)
    requires k == Cents(d.Value() * ratio)
    ensures ScaledText(d, ratio) == FormatCents(k)
    ensures ParseFloat(ScaledText(d, ratio)).Some?
    ensures ParseFloat(ScaledText(d, ratio)).value.Value() == k as real / 100.0
  {
    var x := d.Value() * ratio;
    assert ScaledText(d, ratio) == FormatCents(Cents(x));
    FormatCentsParses(k);
  }

  /** Scaling a printed amount by 1 prints it again unchanged. */
  lemma ScaledTextFixed(d: Decimal, ratio: real)
    ensures ParseFloat(ScaledText(d, ratio)).Some?
    ensures ScaledText(ParseFloat(ScaledText(d, ratio)).value, 1.0) == ScaledText(d, ratio)
  {
    var k := Cents(d.Value() * ratio);
    ScaledTextReadsBack(d, ratio, k);
    ScaledTextOfHundredths(ParseFloat(ScaledText(d, ratio)).value, k);
  }

  /** A value that is an exact number of hundredths, scaled by 1, prints as those hundredths. */
  lemma ScaledTextOfHundredths(e: Decimal, k: int)
    requires e.Value() == k as real / 100.0
    ensures ScaledText(e, 1.0) == FormatCents(k)
  {
    FormatScaledAt(e.Value() * 1.0, k);
  }

  lemma TimesOne(x: real, one: real)
    requires one == 1.0
    ensures x * one == x
  {
  }

  /** An exact number of hundredths is printed as those hundredths. */
  lemma FormatScaledAt(x: real, k: int)
    requires x == k as real / 100.0
    ensures FormatScaled(x) == FormatCents(k)
  {
    CentsOfCents(k);
    assert Cents(x) == k;
  }

  /**
   * Scaling is stable: scaling a quantity that was already scaled (by a ratio
   * that is not negative) by 1 gives back the same text. This holds for every
   * quantity, with or without a leading numeral.
   */
  lemma ScaleQuantityIdempotent(quantity: string, ratio: real)
    requires ratio >= 0.0
    ensures ScaleQuantity(ScaleQuantity(quantity, ratio), 1.0) == ScaleQuantity(quantity, ratio)
  {
    ScaleQuantityResult(quantity, ratio);
    var t := Trim(quantity);
    if MatchQuantity(t).Some? {
      var m := MatchQuantity(t).value;
      var d := ParseFloat(m.numeral).value;
      var x := ScaleQuantity(quantity, ratio);
      ScaleQuantityReparses(quantity, ratio);
      ScaleQuantityResult(x, 1.0);
      ScaledTextFixed(d, ratio);
    }
  }

  /** A numeral with at most two decimals is an exact number of hundredths, so rounding to hundredths keeps it. */
  lemma CentsOfShortDecimal(d: Decimal, one: real, k: int)
    requires d.places <= 2 && one == 1.0 && k == Cents(d.Value() * one)
    ensures k as real / 100.0 == d.Value()
  {
    var c := d.units * Pow10(2 - d.places);
    assert d.Value() * 100.0 == c as real by {
      if d.places == 0 {
        assert Pow10(2) == 100;
      } else if d.places == 1 {
        assert Pow10(1) == 10;
      } else {
        assert Pow10(2) == 100;
      }
    }
    TimesOne(d.Value(), one);
    assert k == c;
  }

  /**
   * Scaling by 1 keeps the amount of a quantity whose numeral has at most two
   * decimals: the result is matched as a numeral with the same value and the
   * same rest (the text of the numeral may change, "1.0" becoming "1").
   */
  lemma ScaleQuantityByOne(quantity: string)
    requires MatchQuantity(Trim(quantity)).Some?
    requires ParseFloat(MatchQuantity(Trim(quantity)).value.numeral).Some?
    requires ParseFloat(MatchQuantity(Trim(quantity)).value.numeral).value.places <= 2
    ensures var m := MatchQuantity(Trim(quantity)).value;
      var after := MatchQuantity(ScaleQuantity(quantity, 1.0));
      && after.Some? && after.value.rest == m.rest
      && ParseFloat(after.value.numeral).Some?
      && ParseFloat(after.value.numeral).value.Value() == ParseFloat(m.numeral).value.Value()
  {
    var m := MatchQuantity(Trim(quantity)).value;
    ScaleQuantityReparses(quantity, 1.0);
    ScaledTextByOne(ParseFloat(m.numeral).value);
  }

  /** A numeral with at most two decimals, scaled by 1, reads back as the same number. */
  lemma ScaledTextByOne(d: Decimal)
    requires d.places <= 2
    ensures ParseFloat(ScaledText(d, 1.0)).Some?
    ensures ParseFloat(ScaledText(d, 1.0)).value.Value() == d.Value()
  {
    ScaledTextByRatioOne(d, 1.0);
  }

  /** `ScaledTextByOne`, with the ratio 1 given as a value. */
  lemma ScaledTextByRatioOne(d: Decimal, one: real)
    requires d.places <= 2 && one == 1.0
    ensures ParseFloat(ScaledText(d, one)).Some?
    ensures ParseFloat(ScaledText(d, one)).value.Value() == d.Value()
  {
    var k := Cents(d.Value() * one);
    ScaledTextReadsBack(d, one, k);
    CentsOfShortDecimal(d, one, k);
  }

  /**
   * What `scaleNumericValue` returns: text without a leading number comes back
   * unchanged; otherwise the result is a printed number that reads back as the
   * scaled value rounded to the nearest hundredth.
   */
  lemma ScaleNumericValueResult(value: string, ratio: real)
    ensures ParseFloat(value).None? ==> ScaleNumericValue(value, ratio) == value
    ensures ParseFloat(value).Some? ==>
      var x := ParseFloat(value).value.Value() * ratio;
      var r := ParseFloat(ScaleNumericValue(value, ratio));
      && r.Some? && r.value.Value() == Cents(x) as real / 100.0
      && x - 0.005 < r.value.Value() <= x + 0.005
  {
    if ParseFloat(value).Some? {
      var d := ParseFloat(value).value;
      ScaledTextReadsBack(d, ratio, Cents(d.Value() * ratio));
    }
  }

  /** Scaling a nutrition value that was already scaled by 1 gives back the same text. */
  lemma ScaleNumericValueIdempotent(value: string, ratio: real)
    ensures ScaleNumericValue(ScaleNumericValue(value, ratio), 1.0) == ScaleNumericValue(value, ratio)
  {
    if ParseFloat(value).Some? {
      var d := ParseFloat(value).value;
      ScaledTextFixed(d, ratio);
    }
  }

  /**
   * Re-scaling a scaled ingredient list to the same number of servings changes
   * nothing: the quantities the page shows are stable.
   */
  lemma ScaleIngredientsIdempotent(ingredients: seq<RecipeIngredient>, baseServings: real, selectedServings: real, servings: real)
    requires baseServings > 0.0 && selectedServings > 0.0 && servings > 0.0
    ensures var once := ScaleIngredients(ingredients, baseServings, selectedServings);
      ScaleIngredients(once, servings, servings) == once
  {
    var once := ScaleIngredients(ingredients, baseServings, selectedServings);
    var twice := ScaleIngredients(once, servings, servings);
    var ratio := selectedServings / baseServings;
    PositiveRatio(selectedServings, baseServings);
    SameServingsRatio(servings);
    forall i | 0 <= i < |once| ensures twice[i] == once[i] {
      ScaleQuantityIdempotent(ingredients[i].quantity, ratio);
    }
  }

  lemma PositiveRatio(selectedServings: real, baseServings: real)
    requires baseServings > 0.0 && selectedServings > 0.0
    ensures selectedServings / baseServings > 0.0
  {
  }

  lemma SameServingsRatio(servings: real)
    requires servings > 0.0
    ensures servings / servings == 1.0
  {
  }

  /** Re-scaling scaled nutrition facts to the same number of servings changes nothing. */
  lemma ScaleNutritionIdempotent(nutrition: RecipeNutrition, baseServings: real, selectedServings: real, servings: real)
    requires baseServings > 0.0 && selectedServings > 0.0 && servings > 0.0
    ensures var once := ScaleNutrition(nutrition, baseServings, selectedServings);
      ScaleNutrition(once, servings, servings) == once
  {
    var ratio := selectedServings / baseServings;
    var once := ScaleNutrition(nutrition, baseServings, selectedServings);
    assert once == RecipeNutrition(ScaleNumericValue(nutrition.calories, ratio), ScaleNumericValue(nutrition.protein, ratio));
    ScaleNumericValueIdempotent(nutrition.calories, ratio);
    ScaleNumericValueIdempotent(nutrition.protein, ratio);
    ScaleNutritionSame(once, servings);
  }

  /** Scaling nutrition facts to the same number of servings is scaling both values by 1. */
  lemma ScaleNutritionSame(nutrition: RecipeNutrition, servings: real)
    requires servings > 0.0
    ensures ScaleNutrition(nutrition, servings, servings)
      == RecipeNutrition(ScaleNumericValue(nutrition.calories, 1.0), ScaleNumericValue(nutrition.protein, 1.0))
  {
    SameServingsRatio(servings);
  }
}
