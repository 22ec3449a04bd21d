/**
 * Recipe suggestions for a signed-in user. The cuisines and difficulties of
 * the user's saved recipes are gathered into two insertion-ordered sets; every
 * catalog recipe is then scored by an additive point rule (own rating, derived
 * preferences, explicit preferences, a penalty for recipes already saved),
 * recipes with a positive score are kept, sorted by descending score with ties
 * in catalog order, and the first ten are returned.
 *
 * The rows the route fetches (ratings, preferences, saved ids, saved AI
 * recipes, the catalog and the id-to-recipe lookup) are inputs.
 */
module Suggestions {
  import opened Wrappers
  import opened Seqs

  /** A row of the user's ratings: which recipe, which kind (`"normal"` or `"ai"`), and the stars given. */
  datatype RatingRow = RatingRow(recipeId: int, kind: string, rating: real)

  /** A catalog recipe as the route selects it. */
  datatype CatalogRecipe = CatalogRecipe(id: int, title: string, cuisine: string, difficulty: string, imageUrl: string)

  /** The two fields of a saved recipe that feed the derived preferences. */
  datatype Facets = Facets(cuisine: string, difficulty: string)

  /** The user's explicit preferences record; either list may be absent. */
  datatype Preferences = Preferences(preferredCuisines: Option<seq<string>>, preferredDifficulties: Option<seq<string>>)

  /** A catalog recipe with its recommendation score. */
  datatype Scored = Scored(recipe: CatalogRecipe, score: real)

  /** Everything a score depends on besides the recipe. */
  datatype ScoreContext = ScoreContext(
    ratings: seq<RatingRow>,
    cuisines: seq<string>,
    difficulties: seq<string>,
    preferences: Option<Preferences>,
    savedNormal: Option<seq<int>>)

  /** What the route answers. */
  datatype Response =
    | Unauthorized
    | ServerError(message: string)
    | Suggested(recommendations: seq<Scored>, cuisines: seq<string>, difficulties: seq<string>, explicit: Option<Preferences>)

  // ---------------------------------------------------------------------------
  // Preferences derived from saved recipes

  /** The facets the saved catalog recipes contribute: ids the lookup does not find contribute nothing. */
  function NormalFacets(ids: seq<int>, lookup: map<int, Facets>): seq<Facets> {
    if ids == [] then []
    else
      var last := ids[|ids| - 1];
      NormalFacets(ids[..|ids| - 1], lookup) + (if last in lookup then [lookup[last]] else [])
  }

  /** The contributing facets are exactly those the lookup finds for some saved id. */
  lemma {:induction false} NormalFacetsMembers(ids: seq<int>, lookup: map<int, Facets>, f: Facets)
    ensures f in NormalFacets(ids, lookup) <==> exists i | 0 <= i < |ids| :: ids[i] in lookup && lookup[ids[i]] == f
  {
    if ids != [] {
      var init := ids[..|ids| - 1];
      NormalFacetsMembers(init, lookup, f);
      assert forall i | 0 <= i < |init| :: init[i] == ids[i];
    }
  }

  /** The facets the saved AI recipes contribute: records that fail to parse contribute nothing. */
  function AiFacets(records: seq<Option<Facets>>): seq<Facets> {
    if records == [] then []
    else
      var last := records[|records| - 1];
      AiFacets(records[..|records| - 1]) + (if last.Some? then [last.value] else [])
  }

  /** The contributing facets are exactly those of the records that parsed. */
  lemma {:induction false} AiFacetsMembers(records: seq<Option<Facets>>, f: Facets)
    ensures f in AiFacets(records) <==> Some(f) in records
  {
    if records != [] {
      var init := records[..|records| - 1];
      AiFacetsMembers(init, f);
      assert records == init + [records[|records| - 1]];
    }
  }

  /** All contributing facets, saved catalog recipes first; a failed fetch (`None`) contributes nothing. */
  function SavedFacets(savedNormal: Option<seq<int>>, lookup: map<int, Facets>, savedAi: Option<seq<Option<Facets>>>): seq<Facets> {
    (if savedNormal.Some? then NormalFacets(savedNormal.value, lookup) else [])
      + (if savedAi.Some? then AiFacets(savedAi.value) else [])
  }

  function CuisinesOf(fs: seq<Facets>): (cs: seq<string>)
    ensures |cs| == |fs| && forall i | 0 <= i < |fs| :: cs[i] == fs[i].cuisine
  {
    seq(|fs|, i requires 0 <= i < |fs| => fs[i].cuisine)
  }

  function DifficultiesOf(fs: seq<Facets>): (ds: seq<string>)
    ensures |ds| == |fs| && forall i | 0 <= i < |fs| :: ds[i] == fs[i].difficulty
  {
    seq(|fs|, i requires 0 <= i < |fs| => fs[i].difficulty)
  }

  /**
   * The fold that fills `preferredCuisines` and `preferredDifficulties`: first
   * over the saved catalog ids, looking each one up, then over the saved AI
   * records. The results are the two sets in insertion order.
   */
  method DerivePreferences(savedNormal: Option<seq<int>>, lookup: map<int, Facets>, savedAi: Option<seq<Option<Facets>>>)
    returns (cuisines: seq<string>, difficulties: seq<string>)
    ensures cuisines == Distinct(CuisinesOf(SavedFacets(savedNormal, lookup, savedAi)))
    ensures difficulties == Distinct(DifficultiesOf(SavedFacets(savedNormal, lookup, savedAi)))
  {
    cuisines, difficulties := [], [];
    var ids := if savedNormal.Some? then savedNormal.value else [];
    var records := if savedAi.Some? then savedAi.value else [];
    ghost var fs: seq<Facets> := [];
    for i := 0 to |ids|
      invariant fs == NormalFacets(ids[..i], lookup)
      invariant cuisines == Distinct(CuisinesOf(fs)) && difficulties == Distinct(DifficultiesOf(fs))
    {
      NormalFacetsSnoc(ids, i, lookup);
      if ids[i] in lookup {
        var f := lookup[ids[i]];
        FoldStep(fs, f);
        cuisines := AddNew(cuisines, f.cuisine);
        difficulties := AddNew(difficulties, f.difficulty);
        fs := fs + [f];
      } else {
        assert fs + [] == fs;
      }
    }
    assert ids[..|ids|] == ids;
    ghost var before := fs;
    for j := 0 to |records|
      invariant fs == before + AiFacets(records[..j])
      invariant cuisines == Distinct(CuisinesOf(fs)) && difficulties == Distinct(DifficultiesOf(fs))
    {
      AiFacetsSnoc(before, records, j);
      if records[j].Some? {
        var f := records[j].value;
        FoldStep(fs, f);
        cuisines := AddNew(cuisines, f.cuisine);
        difficulties := AddNew(difficulties, f.difficulty);
        fs := fs + [f];
      } else {
        assert fs + [] == fs;
      }
    }
    assert records[..|records|] == records;
    SavedFacetsOf(savedNormal, lookup, savedAi, ids, records);
  }

  /** The contributing facets: those of the saved ids, or none, then those of the AI records, or none. */
  lemma SavedFacetsOf(savedNormal: Option<seq<int>>, lookup: map<int, Facets>, savedAi: Option<seq<Option<Facets>>>,
                      ids: seq<int>, records: seq<Option<Facets>>)
    requires ids == (if savedNormal.Some? then savedNormal.value else [])
    requires records == (if savedAi.Some? then savedAi.value else [])
    ensures SavedFacets(savedNormal, lookup, savedAi) == NormalFacets(ids, lookup) + AiFacets(records)
  {
  }

  /** The facets of one more saved catalog id. */
  lemma NormalFacetsSnoc(ids: seq<int>, i: nat, lookup: map<int, Facets>)
    requires i < |ids|
    ensures NormalFacets(ids[..i + 1], lookup)
      == NormalFacets(ids[..i], lookup) + (if ids[i] in lookup then [lookup[ids[i]]] else [])
  {
    assert ids[..i + 1][..i] == ids[..i];
  }

  /** The facets of one more saved AI record, after those of the catalog ids. */
  lemma AiFacetsSnoc(before: seq<Facets>, records: seq<Option<Facets>>, j: nat)
    requires j < |records|
    ensures before + AiFacets(records[..j + 1])
      == (before + AiFacets(records[..j])) + (if records[j].Some? then [records[j].value] else [])
  {
    assert records[..j + 1][..j] == records[..j];
  }

  /** One step of the fold: one more contributing recipe adds its cuisine and difficulty to the sets. */
  lemma FoldStep(fs: seq<Facets>, f: Facets)
    ensures Distinct(CuisinesOf(fs + [f])) == AddNew(Distinct(CuisinesOf(fs)), f.cuisine)
    ensures Distinct(DifficultiesOf(fs + [f])) == AddNew(Distinct(DifficultiesOf(fs)), f.difficulty)
  {
    assert CuisinesOf(fs + [f]) == CuisinesOf(fs) + [f.cuisine];
    assert DifficultiesOf(fs + [f]) == DifficultiesOf(fs) + [f.difficulty];
    DistinctSnoc(CuisinesOf(fs), f.cuisine);
    DistinctSnoc(DifficultiesOf(fs), f.difficulty);
  }

  /**
   * A cuisine is preferred exactly when some saved catalog recipe found by the
   * lookup, or some saved AI recipe that parsed, has it; the set holds each
   * such cuisine once.
   */
  lemma DerivedCuisines(savedNormal: Option<seq<int>>, lookup: map<int, Facets>, savedAi: Option<seq<Option<Facets>>>, c: string)
    ensures var cs := Distinct(CuisinesOf(SavedFacets(savedNormal, lookup, savedAi)));
      NoDup(cs)
      && (c in cs <==>
           (savedNormal.Some? && exists i | 0 <= i < |savedNormal.value| :: savedNormal.value[i] in lookup && lookup[savedNormal.value[i]].cuisine == c)
           || (savedAi.Some? && exists k | 0 <= k < |savedAi.value| :: savedAi.value[k].Some? && savedAi.value[k].value.cuisine == c))
  {
    var fs := SavedFacets(savedNormal, lookup, savedAi);
    var cs := CuisinesOf(fs);
    if c in cs {
      var n :| 0 <= n < |cs| && cs[n] == c;
      var f := fs[n];
      assert f in fs;
      if savedNormal.Some? && f in NormalFacets(savedNormal.value, lookup) {
        NormalFacetsMembers(savedNormal.value, lookup, f);
      } else {
        assert savedAi.Some? && f in AiFacets(savedAi.value);
        AiFacetsMembers(savedAi.value, f);
        var k :| 0 <= k < |savedAi.value| && savedAi.value[k] == Some(f);
      }
    }
    if savedNormal.Some? && exists i | 0 <= i < |savedNormal.value| :: savedNormal.value[i] in lookup && lookup[savedNormal.value[i]].cuisine == c {
      var i :| 0 <= i < |savedNormal.value| && savedNormal.value[i] in lookup && lookup[savedNormal.value[i]].cuisine == c;
      var f := lookup[savedNormal.value[i]];
      NormalFacetsMembers(savedNormal.value, lookup, f);
      FacetCuisineListed(fs, f);
    }
    if savedAi.Some? && exists k | 0 <= k < |savedAi.value| :: savedAi.value[k].Some? && savedAi.value[k].value.cuisine == c {
      var k :| 0 <= k < |savedAi.value| && savedAi.value[k].Some? && savedAi.value[k].value.cuisine == c;
      var f := savedAi.value[k].value;
      AiFacetsMembers(savedAi.value, f);
      FacetCuisineListed(fs, f);
    }
  }

  /**
   * A difficulty is preferred exactly when some saved catalog recipe found by
   * the lookup, or some saved AI recipe that parsed, has it; the set holds each
   * such difficulty once.
   */
  lemma DerivedDifficulties(savedNormal: Option<seq<int>>, lookup: map<int, Facets>, savedAi: Option<seq<Option<Facets>>>, d: string)
    ensures var ds := Distinct(DifficultiesOf(SavedFacets(savedNormal, lookup, savedAi)));
      NoDup(ds)
      && (d in ds <==>
           (savedNormal.Some? && exists i | 0 <= i < |savedNormal.value| :: savedNormal.value[i] in lookup && lookup[savedNormal.value[i]].difficulty == d)
           || (savedAi.Some? && exists k | 0 <= k < |savedAi.value| :: savedAi.value[k].Some? && savedAi.value[k].value.difficulty == d))
  {
    var fs := SavedFacets(savedNormal, lookup, savedAi);
    var ds := DifficultiesOf(fs);
    if d in ds {
      var n :| 0 <= n < |ds| && ds[n] == d;
      var f := fs[n];
      assert f in fs;
      if savedNormal.Some? && f in NormalFacets(savedNormal.value, lookup) {
        NormalFacetsMembers(savedNormal.value, lookup, f);
      } else {
        assert savedAi.Some? && f in AiFacets(savedAi.value);
        AiFacetsMembers(savedAi.value, f);
        var k :| 0 <= k < |savedAi.value| && savedAi.value[k] == Some(f);
      }
    }
    if savedNormal.Some? && exists i | 0 <= i < |savedNormal.value| :: savedNormal.value[i] in lookup && lookup[savedNormal.value[i]].difficulty == d {
      var i :| 0 <= i < |savedNormal.value| && savedNormal.value[i] in lookup && lookup[savedNormal.value[i]].difficulty == d;
      var f := lookup[savedNormal.value[i]];
      NormalFacetsMembers(savedNormal.value, lookup, f);
      FacetDifficultyListed(fs, f);
    }
    if savedAi.Some? && exists k | 0 <= k < |savedAi.value| :: savedAi.value[k].Some? && savedAi.value[k].value.difficulty == d {
      var k :| 0 <= k < |savedAi.value| && savedAi.value[k].Some? && savedAi.value[k].value.difficulty == d;
      var f := savedAi.value[k].value;
      AiFacetsMembers(savedAi.value, f);
      FacetDifficultyListed(fs, f);
    }
  }

  /** The difficulty of a contributing recipe is in the list of difficulties. */
  lemma FacetDifficultyListed(fs: seq<Facets>, f: Facets)
    requires f in fs
    ensures f.difficulty in DifficultiesOf(fs)
  {
    var n :| 0 <= n < |fs| && fs[n] == f;
    assert DifficultiesOf(fs)[n] == f.difficulty;
  }

  /** The cuisine of a contributing recipe is in the list of cuisines. */
  lemma FacetCuisineListed(fs: seq<Facets>, f: Facets)
    requires f in fs
    ensures f.cuisine in CuisinesOf(fs)
  {
    var n :| 0 <= n < |fs| && fs[n] == f;
    assert CuisinesOf(fs)[n] == f.cuisine;
  }

  // ---------------------------------------------------------------------------
  // Scoring

  /** `userRatings.find(r => r.recipe_id === id && r.type === 'normal')`, as the stars of that row. */
  function FirstNormalRating(ratings: seq<RatingRow>, id: int): (r: Option<real>)
    ensures r.Some? ==> RatingRow(id, "normal", r.value) in ratings
    ensures r.None? ==> forall row | row in ratings :: !(row.recipeId == id && row.kind == "normal")
  {
    if ratings == [] then None
    else if ratings[0].recipeId == id && ratings[0].kind == "normal" then Some(ratings[0].rating)
    else
      assert ratings == [ratings[0]] + ratings[1..];
      FirstNormalRating(ratings[1..], id)
  }

  /** `list?.includes(x)`: false when the list is absent. */
  predicate Includes(list: Option<seq<string>>, x: string) {
    list.Some? && x in list.value
  }

  /** The recommendation score of one catalog recipe. */
  function Score(r: CatalogRecipe, ctx: ScoreContext): (v: real)
    ensures -10.0 <= v - 2.0 * FirstNormalRating(ctx.ratings, r.id).GetOr(0.0) <= 9.0
  {
    var rated := match FirstNormalRating(ctx.ratings, r.id)
      case Some(stars) => stars * 2.0
      case None => 0.0;
    var derived := (if r.cuisine in ctx.cuisines then 3.0 else 0.0) + (if r.difficulty in ctx.difficulties then 2.0 else 0.0);
    var explicit := match ctx.preferences
      case Some(p) =>
        (if Includes(p.preferredCuisines, r.cuisine) then 2.0 else 0.0)
          + (if Includes(p.preferredDifficulties, r.difficulty) then 2.0 else 0.0)
      case None => 0.0;
    var saved := ctx.savedNormal.Some? && r.id in ctx.savedNormal.value;
    rated + derived + explicit - (if saved then 10.0 else 0.0)
  }

  /** Every catalog recipe with its score, in catalog order. */
  function ScoreAll(catalog: seq<CatalogRecipe>, ctx: ScoreContext): (s: seq<Scored>)
    ensures |s| == |catalog|
    ensures forall i | 0 <= i < |catalog| :: s[i].recipe == catalog[i]
    ensures forall i | 0 <= i < |catalog| :: s[i].score == Score(catalog[i], ctx)
  {
    seq(|catalog|, i requires 0 <= i < |catalog| => Scored(catalog[i], Score(catalog[i], ctx)))
  }

  function IsPositive(x: Scored): bool {
    x.score > 0.0
  }

  /** `s` is ordered by non-increasing score. */
  predicate SortedByScore(s: seq<Scored>) {
    forall i, j | 0 <= i < j < |s| :: s[i].score >= s[j].score
  }

  /** Insert `x` into a list, before the first entry whose score is not higher. */
  function InsertByScore(x: Scored, s: seq<Scored>): (r: seq<Scored>)
    ensures multiset(r) == multiset(s) + multiset{x}
  {
    if s == [] || s[0].score <= x.score then [x] + s
    else
      assert s == [s[0]] + s[1..];
      [s[0]] + InsertByScore(x, s[1..])
  }

  /** Inserting into a sorted list keeps it sorted. */
  lemma {:induction false} InsertSorted(x: Scored, s: seq<Scored>)
    requires SortedByScore(s)
    ensures SortedByScore(InsertByScore(x, s))
  {
    if s != [] && s[0].score > x.score {
      var rest := InsertByScore(x, s[1..]);
      InsertSorted(x, s[1..]);
      assert s == [s[0]] + s[1..];
      forall y | y in rest ensures s[0].score >= y.score {
        assert y in multiset(rest);
        if y != x {
          assert y in multiset(s[1..]);
        }
      }
    }
  }

  /**
   * The stable sort by descending score that
   * `sort((a, b) => b.recommendationScore - a.recommendationScore)` performs.
   */
  function SortByScore(s: seq<Scored>): (r: seq<Scored>)
    ensures multiset(r) == multiset(s)
    ensures SortedByScore(r)
  {
    if s == [] then []
    else
      assert s == [s[0]] + s[1..];
      InsertSorted(s[0], SortByScore(s[1..]));
      InsertByScore(s[0], SortByScore(s[1..]))
  }

  /** Entries with score `v`, in order. */
  function WithScore(s: seq<Scored>, v: real): seq<Scored> {
    Filter(s, HasScore(v))
  }

  function HasScore(v: real): Scored -> bool {
    (x: Scored) => x.score == v
  }

  /** The entries with score `v` of a non-empty list: its head when it has that score, then those of its tail. */
  lemma WithScoreCons(s: seq<Scored>, v: real)
    requires s != []
    ensures WithScore(s, v) == if s[0].score == v then [s[0]] + WithScore(s[1..], v) else WithScore(s[1..], v)
  {
  }

  /** Inserting `x` puts it before every entry of the same score. */
  lemma {:induction false} InsertKeepsTies(x: Scored, s: seq<Scored>, v: real)
    ensures WithScore(InsertByScore(x, s), v) == if x.score == v then [x] + WithScore(s, v) else WithScore(s, v)
  {
    if s == [] || s[0].score <= x.score {
      assert ([x] + s)[1..] == s;
      WithScoreCons([x] + s, v);
    } else {
      var rest := InsertByScore(x, s[1..]);
      InsertKeepsTies(x, s[1..], v);
      assert ([s[0]] + rest)[1..] == rest;
      WithScoreCons([s[0]] + rest, v);
      WithScoreCons(s, v);
    }
  }

  /** The sort is stable: recipes with equal scores keep their catalog order. */
  lemma {:induction false} SortIsStable(s: seq<Scored>, v: real)
    ensures WithScore(SortByScore(s), v) == WithScore(s, v)
  {
    if s != [] {
      SortIsStable(s[1..], v);
      InsertKeepsTies(s[0], SortByScore(s[1..]), v);
      WithScoreCons(s, v);
    }
  }

  /** The first ten entries, or all of them when there are fewer. */
  function TopTen(s: seq<Scored>): (r: seq<Scored>)
    ensures |r| <= 10 && r <= s
    ensures |s| <= 10 ==> r == s
  {
    if |s| <= 10 then s else s[..10]
  }

  /** The recipes with a positive score, in catalog order. */
  function Positive(catalog: seq<CatalogRecipe>, ctx: ScoreContext): seq<Scored> {
    Filter(ScoreAll(catalog, ctx), IsPositive)
  }

  /** The scoring pipeline: score, keep positive, sort descending, take ten. */
  function Recommend(catalog: seq<CatalogRecipe>, ctx: ScoreContext): (r: seq<Scored>)
    ensures |r| <= 10
    ensures SortedByScore(r)
    ensures forall x | x in r :: x.score > 0.0 && x.recipe in catalog && x.score == Score(x.recipe, ctx)
  {
    var sorted := SortByScore(Positive(catalog, ctx));
    var r := TopTen(sorted);
    forall x | x in r ensures x.score > 0.0 && x.recipe in catalog && x.score == Score(x.recipe, ctx) {
      assert x in multiset(sorted);
      assert x in Positive(catalog, ctx);
      var i :| 0 <= i < |catalog| && ScoreAll(catalog, ctx)[i] == x;
    }
    r
  }

  /**
   * Every positive recipe left out of the ten scores at most as high as every
   * recipe kept, and when fewer than ten are kept, no positive recipe is left out.
   */
  lemma RecommendKeepsBest(catalog: seq<CatalogRecipe>, ctx: ScoreContext)
    ensures var r := Recommend(catalog, ctx);
      forall y, x | y in multiset(Positive(catalog, ctx)) - multiset(r) && x in r :: x.score >= y.score
    ensures |Recommend(catalog, ctx)| < 10 ==> multiset(Recommend(catalog, ctx)) == multiset(Positive(catalog, ctx))
  {
    var sorted := SortByScore(Positive(catalog, ctx));
    assert Recommend(catalog, ctx) == TopTen(sorted);
    TopTenKeepsBest(sorted);
  }

  /** Of a sorted list, the first ten score at least as high as the rest, and fewer than ten are the whole list. */
  lemma TopTenKeepsBest(sorted: seq<Scored>)
    requires SortedByScore(sorted)
    ensures var r := TopTen(sorted);
      forall y, x | y in multiset(sorted) - multiset(r) && x in r :: x.score >= y.score
    ensures |TopTen(sorted)| < 10 ==> TopTen(sorted) == sorted
  {
    var r := TopTen(sorted);
    var k := |r|;
    assert sorted == r + sorted[k..];
    assert multiset(sorted) - multiset(r) == multiset(sorted[k..]);
    PrefixBeatsRest(sorted, k);
  }

  /** In a sorted list every entry of a prefix scores at least as high as every entry after it. */
  lemma PrefixBeatsRest(s: seq<Scored>, k: nat)
    requires SortedByScore(s) && k <= |s|
    ensures forall y, x | y in multiset(s[k..]) && x in s[..k] :: x.score >= y.score
  {
    forall y, x | y in multiset(s[k..]) && x in s[..k] ensures x.score >= y.score {
      var j :| 0 <= j < |s| - k && s[k..][j] == y;
      var i :| 0 <= i < k && s[..k][i] == x;
      assert s[i] == x && s[k + j] == y;
    }
  }

  /** Among the ten, recipes with equal scores are in catalog order. */
  lemma RecommendTiesInCatalogOrder(catalog: seq<CatalogRecipe>, ctx: ScoreContext, v: real)
    ensures WithScore(Recommend(catalog, ctx), v) <= WithScore(Positive(catalog, ctx), v)
  {
    var sorted := SortByScore(Positive(catalog, ctx));
    assert Recommend(catalog, ctx) == TopTen(sorted);
    SortIsStable(Positive(catalog, ctx), v);
    TopTenTies(sorted, v);
  }

  /** The entries of the first ten with score `v` come first among those of the whole list. */
  lemma TopTenTies(sorted: seq<Scored>, v: real)
    ensures WithScore(TopTen(sorted), v) <= WithScore(sorted, v)
  {
    var r := TopTen(sorted);
    assert sorted == r + sorted[|r|..];
    FilterAppend(r, sorted[|r|..], HasScore(v));
  }

  /** Ratings of AI recipes never change a score: only the normal rows count. */
  lemma {:induction false} AiRatingsIgnored(ratings: seq<RatingRow>, id: int)
    ensures FirstNormalRating(ratings, id) == FirstNormalRating(Filter(ratings, (row: RatingRow) => row.kind == "normal"), id)
  {
    if ratings != [] {
      AiRatingsIgnored(ratings[1..], id);
    }
  }

  /** A recipe among the saved normal favourites scores exactly 10 less than it would unsaved. */
  lemma SavedPenalty(r: CatalogRecipe, ctx: ScoreContext)
    requires ctx.savedNormal.Some? && r.id in ctx.savedNormal.value
    ensures Score(r, ctx) == Score(r, ctx.(savedNormal := None)) - 10.0
  {
  }

  /** The user's own normal rating of a recipe adds twice its stars; without one, ratings add nothing. */
  lemma OwnRatingBonus(r: CatalogRecipe, ctx: ScoreContext)
    ensures FirstNormalRating(ctx.ratings, r.id).Some? ==>
      Score(r, ctx) == Score(r, ctx.(ratings := [])) + 2.0 * FirstNormalRating(ctx.ratings, r.id).value
    ensures FirstNormalRating(ctx.ratings, r.id).None? ==> Score(r, ctx) == Score(r, ctx.(ratings := []))
  {
  }

  /** A derived cuisine adds 3 and a derived difficulty adds 2, each on its own. */
  lemma DerivedBonus(r: CatalogRecipe, ctx: ScoreContext)
    ensures r.cuisine in ctx.cuisines ==> Score(r, ctx) == Score(r, ctx.(cuisines := [])) + 3.0
    ensures r.difficulty in ctx.difficulties ==> Score(r, ctx) == Score(r, ctx.(difficulties := [])) + 2.0
    ensures r.cuisine !in ctx.cuisines ==> Score(r, ctx) == Score(r, ctx.(cuisines := []))
    ensures r.difficulty !in ctx.difficulties ==> Score(r, ctx) == Score(r, ctx.(difficulties := []))
  {
  }

  /**
   * An explicit preferences record adds 2 for a listed cuisine and 2 for a
   * listed difficulty, so between 0 and 4, and nothing when there is no record.
   */
  lemma ExplicitBonus(r: CatalogRecipe, ctx: ScoreContext, p: Preferences)
    ensures Score(r, ctx.(preferences := Some(p))) == Score(r, ctx.(preferences := None))
      + (if Includes(p.preferredCuisines, r.cuisine) then 2.0 else 0.0)
      + (if Includes(p.preferredDifficulties, r.difficulty) then 2.0 else 0.0)
    ensures Score(r, ctx.(preferences := None)) <= Score(r, ctx.(preferences := Some(p))) <= Score(r, ctx.(preferences := None)) + 4.0
  {
  }

  /** With no ratings, no derived and no explicit preferences, nothing is recommended. */
  lemma ColdStart(catalog: seq<CatalogRecipe>, ctx: ScoreContext)
    requires ctx.ratings == [] && ctx.cuisines == [] && ctx.difficulties == [] && ctx.preferences.None?
    ensures Recommend(catalog, ctx) == []
  {
    FilterNoneKept(ScoreAll(catalog, ctx), IsPositive);
  }

  // ---------------------------------------------------------------------------
  // The route

  /**
   * `GET /api/suggestions` once the rows are fetched. No user: 401. A failed
   * ratings fetch or a failed catalog fetch: 500. A failed preferences or
   * saved-list fetch is only logged; it arrives here as an absent record or list
   * and scoring goes on.
   */
  method Suggest(
    user: Option<string>,
    ratings: Result<seq<RatingRow>, string>,
    preferences: Option<Preferences>,
    savedNormal: Option<seq<int>>,
    savedAi: Option<seq<Option<Facets>>>,
    lookup: map<int, Facets>,
    catalog: Result<seq<CatalogRecipe>, string>)
    returns (response: Response)
    ensures user.None? ==> response == Unauthorized
    ensures user.Some? && ratings.Failure? ==> response == ServerError("Failed to fetch ratings")
    ensures user.Some? && ratings.Success? && catalog.Failure? ==> response == ServerError("Failed to fetch recipes")
    ensures user.Some? && ratings.Success? && catalog.Success? ==>
      var fs := SavedFacets(savedNormal, lookup, savedAi);
      var cuisines := Distinct(CuisinesOf(fs));
      var difficulties := Distinct(DifficultiesOf(fs));
      response == Suggested(
        Recommend(catalog.value, ScoreContext(ratings.value, cuisines, difficulties, preferences, savedNormal)),
        cuisines, difficulties, preferences)
  {
    if user.None? {
      return Unauthorized;
    }
    if ratings.Failure? {
      return ServerError("Failed to fetch ratings");
    }
    var cuisines, difficulties := DerivePreferences(savedNormal, lookup, savedAi);
    if catalog.Failure? {
      return ServerError("Failed to fetch recipes");
    }
    var ctx := ScoreContext(ratings.value, cuisines, difficulties, preferences, savedNormal);
    response := Suggested(Recommend(catalog.value, ctx), cuisines, difficulties, preferences);
  }
}
