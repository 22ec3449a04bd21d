/**
 * The `rate-recipe` route: `POST` checks a rating and upserts it into the
 * ratings table, keyed by user, recipe and recipe type; `GET` returns the
 * caller's own rating and the average of everyone's, rounded to one decimal.
 *
 * The table is held in memory as a list of rows. The signed-in user (None when
 * authentication failed) and the outcome of the upsert are parameters.
 */
module RateRecipe {
  import opened Wrappers
  import opened Seqs
  import opened JsNumber

  /** One row of `recipe_ratings`. */
  datatype Rating = Rating(user: string, recipeId: int, kind: string, rating: real)

  /** The table's conflict key: `user_id,recipe_id,type`. */
  datatype Key = Key(user: string, recipeId: int, kind: string)

  function KeyOf(r: Rating): Key {
    Key(r.user, r.recipeId, r.kind)
  }

  datatype PostResponse = Saved | PostUnauthorized | InvalidData | UpsertFailed(message: string)

  datatype GetResponse = Rated(userRating: real, averageRating: real) | GetUnauthorized | MissingParameters

  /** No two rows share a key. */
  predicate UniqueKeys(rows: seq<Rating>) {
    forall i, j | 0 <= i < j < |rows| :: KeyOf(rows[i]) != KeyOf(rows[j])
  }

  /** Every stored rating passed the `POST` check. */
  predicate AllInRange(rows: seq<Rating>) {
    forall i | 0 <= i < |rows| :: 1.0 <= rows[i].rating <= 5.0
  }

  // ---------------------------------------------------------------------------
  // POST

  /**
   * The `POST` check: a falsy `recipeId` (absent or 0), a falsy `type` (absent
   * or empty), or a rating outside 1 to 5 is refused.
   */
  predicate Invalid(recipeId: Option<int>, kind: Option<string>, rating: real) {
    recipeId.None? || recipeId.value == 0 || kind.None? || kind.value == [] || rating < 1.0 || rating > 5.0
  }

  /** The upsert: the row holding `r`'s key is replaced by `r`, or `r` is added at the end. */
  function Upserted(rows: seq<Rating>, r: Rating): (u: seq<Rating>)
    ensures r in u
    ensures forall x | x in u :: x == r || x in rows
    ensures forall x | KeyOf(x) != KeyOf(r) :: x in u <==> x in rows
    ensures UniqueKeys(rows) ==> UniqueKeys(u)
    ensures UniqueKeys(rows) ==> forall x | x in u && KeyOf(x) == KeyOf(r) :: x == r
  {
    if rows == [] then [r]
    else if KeyOf(rows[0]) == KeyOf(r) then
      assert rows == [rows[0]] + rows[1..];
      assert UniqueKeys(rows) ==> forall x | x in rows[1..] :: KeyOf(x) != KeyOf(r);
      [r] + rows[1..]
    else
      var rest := Upserted(rows[1..], r);
      assert rows == [rows[0]] + rows[1..];
      assert UniqueKeys(rows) ==> UniqueKeys(rows[1..]);
      [rows[0]] + rest
  }

  /** Upserting a rating between 1 and 5 keeps every stored rating between 1 and 5. */
  lemma UpsertedInRange(rows: seq<Rating>, r: Rating)
    requires AllInRange(rows) && 1.0 <= r.rating <= 5.0
    ensures AllInRange(Upserted(rows, r))
  {
    var u := Upserted(rows, r);
    forall i | 0 <= i < |u| ensures 1.0 <= u[i].rating <= 5.0 {
      if u[i] != r {
        assert u[i] in rows;
      }
    }
  }

  /** Upserting the same rating twice is upserting it once. */
  lemma {:induction false} UpsertedTwice(rows: seq<Rating>, r: Rating)
    ensures Upserted(Upserted(rows, r), r) == Upserted(rows, r)
  {
    if rows != [] && KeyOf(rows[0]) != KeyOf(r) {
      UpsertedTwice(rows[1..], r);
    }
  }

  // ---------------------------------------------------------------------------
  // GET

  /**
   * A row is selected by the query parameters: its recipe id, printed in
   * decimal, is the `recipeId` text, and its type is the `type` text.
   */
  predicate Selects(r: Rating, recipeId: string, kind: string) {
    IntToString(r.recipeId) == recipeId && r.kind == kind
  }

  /** The caller's stored rating for the recipe and type, when there is one. */
  function OwnRating(rows: seq<Rating>, user: string, recipeId: string, kind: string): (v: Option<real>)
    ensures v.Some? ==> exists i | 0 <= i < |rows| :: rows[i].user == user && Selects(rows[i], recipeId, kind) && rows[i].rating == v.value
    ensures v.None? ==> forall i | 0 <= i < |rows| :: !(rows[i].user == user && Selects(rows[i], recipeId, kind))
  {
    if rows == [] then None
    else if rows[0].user == user && Selects(rows[0], recipeId, kind) then Some(rows[0].rating)
    else
      var v := OwnRating(rows[1..], user, recipeId, kind);
      assert forall i | 1 <= i < |rows| :: rows[i] == rows[1..][i - 1];
      v
  }

  /** The ratings of every user for the recipe and type. */
  function RatingsFor(rows: seq<Rating>, recipeId: string, kind: string): seq<real> {
    var selected := Filter(rows, (r: Rating) => Selects(r, recipeId, kind));
    seq(|selected|, i requires 0 <= i < |selected| => selected[i].rating)
  }

  function Sum(s: seq<real>): real {
    if s == [] then 0.0 else Sum(s[..|s| - 1]) + s[|s| - 1]
  }

  /** The mean of `s`, or 0 when it is empty. */
  function Average(s: seq<real>): real {
    if s == [] then 0.0 else Sum(s) / |s| as real
  }

  /** `Math.round(x * 10) / 10`. */
  function RoundTenths(x: real): (r: real)
    ensures x - 0.05 < r <= x + 0.05
  {
    RoundHalfUp(x * 10.0) as real / 10.0
  }

  /** A sum of `n` values between `lo` and `hi` lies between `n * lo` and `n * hi`. */
  lemma {:induction false} SumBounds(s: seq<real>, lo: real, hi: real)
    requires forall i | 0 <= i < |s| :: lo <= s[i] <= hi
    ensures |s| as real * lo <= Sum(s) <= |s| as real * hi
  {
    if s != [] {
      var n := |s| - 1;
      SumBounds(s[..n], lo, hi);
      assert |s| as real * lo == n as real * lo + lo;
      assert |s| as real * hi == n as real * hi + hi;
    }
  }

  /** The mean of values between `lo` and `hi` lies between them. */
  lemma AverageBounds(s: seq<real>, lo: real, hi: real)
    requires s != []
    requires forall i | 0 <= i < |s| :: lo <= s[i] <= hi
    ensures lo <= Average(s) <= hi
  {
    SumBounds(s, lo, hi);
    var n := |s| as real;
    assert Sum(s) / n >= lo by {
      assert Sum(s) >= n * lo;
    }
    assert Sum(s) / n <= hi by {
      assert Sum(s) <= n * hi;
    }
  }

  /** Rounding a value between 1 and 5 to tenths stays between 1 and 5. */
  lemma RoundTenthsInRange(x: real)
    requires 1.0 <= x <= 5.0
    ensures 1.0 <= RoundTenths(x) <= 5.0
  {
    var k := RoundHalfUp(x * 10.0);
    assert 10 <= k <= 50;
  }

  /** The ratings selected from rows that all passed the check lie between 1 and 5. */
  lemma RatingsForInRange(rows: seq<Rating>, recipeId: string, kind: string)
    requires AllInRange(rows)
    ensures forall i | 0 <= i < |RatingsFor(rows, recipeId, kind)| :: 1.0 <= RatingsFor(rows, recipeId, kind)[i] <= 5.0
  {
    var selected := Filter(rows, (r: Rating) => Selects(r, recipeId, kind));
    forall i | 0 <= i < |selected| ensures 1.0 <= selected[i].rating <= 5.0 {
      assert selected[i] in rows;
    }
  }

  /** The rounded average of a recipe's stored ratings lies between 1 and 5. */
  lemma AverageRatingInRange(rows: seq<Rating>, recipeId: string, kind: string)
    requires AllInRange(rows)
    requires RatingsFor(rows, recipeId, kind) != []
    ensures 1.0 <= RoundTenths(Average(RatingsFor(rows, recipeId, kind))) <= 5.0
  {
    var s := RatingsFor(rows, recipeId, kind);
    RatingsForInRange(rows, recipeId, kind);
    AverageBounds(s, 1.0, 5.0);
    RoundTenthsInRange(Average(s));
  }

  // ---------------------------------------------------------------------------
  // The table

  class RatingsTable {
    var rows: seq<Rating>

    /** One row per key, and every rating between 1 and 5, as `POST` only ever stores. */
    ghost predicate Valid()
      reads this
    {
      UniqueKeys(rows) && AllInRange(rows)
    }

    constructor()
      ensures Valid() && rows == []
    {
      rows := [];
    }

    /**
     * `POST`: 401 without a user, 400 for a request that fails the check, 500
     * when the upsert fails; otherwise the rating is upserted under the user's key.
     */
    method Post(user: Option<string>, recipeId: Option<int>, kind: Option<string>, rating: real, upsertError: Option<string>)
      returns (response: PostResponse)
      requires Valid()
      modifies this
      ensures Valid()
      ensures user.None? ==> response == PostUnauthorized && rows == old(rows)
      ensures user.Some? && Invalid(recipeId, kind, rating) ==> response == InvalidData && rows == old(rows)
      ensures user.Some? && !Invalid(recipeId, kind, rating) && upsertError.Some? ==>
        response == UpsertFailed("Upsert error: " + upsertError.value) && rows == old(rows)
      ensures user.Some? && !Invalid(recipeId, kind, rating) && upsertError.None? ==>
        response == Saved && rows == Upserted(old(rows), Rating(user.value, recipeId.value, kind.value, rating))
    {
      if user.None? {
        return PostUnauthorized;
      }
      if Invalid(recipeId, kind, rating) {
        return InvalidData;
      }
      if upsertError.Some? {
        return UpsertFailed("Upsert error: " + upsertError.value);
      }
      var r := Rating(user.value, recipeId.value, kind.value, rating);
      UpsertedInRange(rows, r);
      rows := Upserted(rows, r);
      response := Saved;
    }

    /**
     * `GET`: 401 without a user, 400 without a `recipeId` or `type`; otherwise
     * the caller's rating (0 when there is none) and everyone's average rounded
     * to one decimal (0 when there are no ratings).
     */
    method Get(user: Option<string>, recipeId: Option<string>, kind: Option<string>) returns (response: GetResponse)
      requires Valid()
      ensures user.None? ==> response == GetUnauthorized
      ensures user.Some? && (recipeId.None? || recipeId.value == [] || kind.None? || kind.value == []) ==>
        response == MissingParameters
      ensures user.Some? && recipeId.Some? && recipeId.value != [] && kind.Some? && kind.value != [] ==> response.Rated?
      ensures response.Rated? ==>
        response == Rated(OwnRating(rows, user.value, recipeId.value, kind.value).GetOr(0.0),
                          RoundTenths(Average(RatingsFor(rows, recipeId.value, kind.value))))
      ensures response.Rated? && RatingsFor(rows, recipeId.value, kind.value) == [] ==> response.averageRating == 0.0
      ensures response.Rated? && RatingsFor(rows, recipeId.value, kind.value) != [] ==> 1.0 <= response.averageRating <= 5.0
    {
      if user.None? {
        return GetUnauthorized;
      }
      if recipeId.None? || recipeId.value == [] || kind.None? || kind.value == [] {
        return MissingParameters;
      }
      var own := OwnRating(rows, user.value, recipeId.value, kind.value);
      var all := RatingsFor(rows, recipeId.value, kind.value);
      var average := 0.0;
      if |all| > 0 {
        average := Sum(all) / |all| as real;
        AverageRatingInRange(rows, recipeId.value, kind.value);
      }
      response := Rated(own.GetOr(0.0), RoundTenths(average));
    }
  }
}
