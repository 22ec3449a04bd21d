/**
 * The two `get-all-ingredients` routes: every ingredient name of every recipe
 * row is added to a `Set`, and the set is returned as a sorted array.
 *
 * The database query is a parameter: its result is either the rows' values of
 * the `ingredients` column or the database's error message. `JSON.parse` is a
 * parameter too, returning None where the text is not a JSON list of
 * ingredients.
 */
module IngredientCatalogue {
  import opened Wrappers
  import opened Seqs
  import opened StringOrder

  datatype Ingredient = Ingredient(name: string, quantity: string)

  /** The `ingredients` column of one recipe row: JSON text, a list already decoded, or null. */
  datatype Column = Text(raw: string) | Items(items: seq<Ingredient>) | Missing

  /** `{ ingredients }`, or `{ error }` with status 500. */
  datatype Response = Ingredients(names: seq<string>) | ServerError(message: string)

  // ---------------------------------------------------------------------------
  // Reading a column

  /** `raw.replace(/""/g, '"')`: each doubled quote, scanning left to right, becomes one. */
  function CollapseQuotes(s: string): (r: string)
    ensures |r| <= |s|
  {
    if |s| >= 2 && s[0] == '"' && s[1] == '"' then ['"'] + CollapseQuotes(s[2..])
    else if s == [] then []
    else [s[0]] + CollapseQuotes(s[1..])
  }

  /** Text with every quote written twice, as a CSV export stores a JSON value. */
  function DoubleQuotes(s: string): (r: string)
    ensures |r| >= |s|
  {
    if s == [] then []
    else (if s[0] == '"' then "\"\"" else [s[0]]) + DoubleQuotes(s[1..])
  }

  /** Collapsing undoes doubling. */
  lemma {:induction false} CollapseDoubled(s: string)
    ensures CollapseQuotes(DoubleQuotes(s)) == s
  {
    if s != [] {
      var rest := DoubleQuotes(s[1..]);
      CollapseDoubled(s[1..]);
      if s[0] == '"' {
        assert ("\"\"" + rest)[2..] == rest;
      } else {
        assert ([s[0]] + rest)[1..] == rest;
      }
      assert s == [s[0]] + s[1..];
    }
  }

  /** Text with no doubled quote is left as it is. */
  lemma {:induction false} CollapseWithoutPairs(s: string)
    requires forall i | 0 <= i < |s| - 1 :: !(s[i] == '"' && s[i + 1] == '"')
    ensures CollapseQuotes(s) == s
  {
    if s != [] {
      CollapseWithoutPairs(s[1..]);
      assert s == [s[0]] + s[1..];
    }
  }

  /**
   * What the first route reads from one row: text is parsed after collapsing
   * doubled quotes, and a parse failure or a null column gives no ingredients.
   */
  function ReadColumn(c: Column, parse: string -> Option<seq<Ingredient>>): seq<Ingredient> {
    match c
    case Text(raw) => parse(CollapseQuotes(raw)).GetOr([])
    case Items(items) => items
    case Missing => []
  }

  function ReadAll(cols: seq<Column>, parse: string -> Option<seq<Ingredient>>): seq<seq<Ingredient>> {
    seq(|cols|, i requires 0 <= i < |cols| => ReadColumn(cols[i], parse))
  }

  /** What the second route reads from one row: `ingredients || []`. */
  function ItemsOrEmpty(c: Column): seq<Ingredient> {
    if c.Items? then c.items else []
  }

  function ItemsAll(cols: seq<Column>): seq<seq<Ingredient>> {
    seq(|cols|, i requires 0 <= i < |cols| => ItemsOrEmpty(cols[i]))
  }

  /** A non-empty string is truthy and has no `forEach`: the second route throws on it. */
  predicate NotAList(c: Column) {
    c.Text? && c.raw != []
  }

  /** The message of the `TypeError` raised by calling `forEach` on a string. */
  const NotAListMessage := "ingredients.forEach is not a function"

  // ---------------------------------------------------------------------------
  // The names, in the order the loops visit them

  function NamesOf(items: seq<Ingredient>): seq<string> {
    seq(|items|, j requires 0 <= j < |items| => items[j].name)
  }

  function Names(lists: seq<seq<Ingredient>>): seq<string> {
    if lists == [] then [] else Names(lists[..|lists| - 1]) + NamesOf(lists[|lists| - 1])
  }

  /** Some ingredient of some row carries the name `x`. */
  predicate Carries(lists: seq<seq<Ingredient>>, x: string) {
    exists i, j | 0 <= i < |lists| && 0 <= j < |lists[i]| :: lists[i][j].name == x
  }

  /** A name is visited exactly when some ingredient of some row carries it. */
  lemma {:induction false} NamesMembers(lists: seq<seq<Ingredient>>, x: string)
    ensures x in Names(lists) <==> Carries(lists, x)
  {
    if lists != [] {
      var n := |lists| - 1;
      NamesMembers(lists[..n], x);
      NamesOfMembers(lists[n], x);
      CarriesSnoc(lists, n, x);
    }
  }

  /** A name is among one row's names exactly when one of its ingredients carries it. */
  lemma NamesOfMembers(items: seq<Ingredient>, x: string)
    ensures x in NamesOf(items) <==> exists j | 0 <= j < |items| :: items[j].name == x
  {
    if x in NamesOf(items) {
      var j :| 0 <= j < |items| && NamesOf(items)[j] == x;
    }
    if exists j | 0 <= j < |items| :: items[j].name == x {
      var j :| 0 <= j < |items| && items[j].name == x;
      assert NamesOf(items)[j] == x;
    }
  }

  /** A name is carried by the rows exactly when the rows before the last or the last one carries it. */
  lemma CarriesSnoc(lists: seq<seq<Ingredient>>, n: nat, x: string)
    requires n == |lists| - 1
    ensures Carries(lists, x) <==> Carries(lists[..n], x) || exists j | 0 <= j < |lists[n]| :: lists[n][j].name == x
  {
    var front: seq<seq<Ingredient>> := lists[..n];
    if Carries(lists, x) {
      var i, j :| 0 <= i < |lists| && 0 <= j < |lists[i]| && lists[i][j].name == x;
      if i < n {
        assert front[i][j].name == x;
      }
    }
    if Carries(front, x) {
      var i, j :| 0 <= i < |front| && 0 <= j < |front[i]| && front[i][j].name == x;
      assert lists[i][j].name == x;
    }
  }

  lemma {:induction false} NamesAppend(a: seq<seq<Ingredient>>, b: seq<seq<Ingredient>>)
    ensures Names(a + b) == Names(a) + Names(b)
    decreases |b|
  {
    if b == [] {
      assert a + b == a;
    } else {
      var n := |b| - 1;
      var ab := a + b;
      assert ab[..|ab| - 1] == a + b[..n];
      assert ab[|ab| - 1] == b[n];
      assert Names(ab) == Names(a + b[..n]) + NamesOf(b[n]);
      NamesAppend(a, b[..n]);
      assert Names(b) == Names(b[..n]) + NamesOf(b[n]);
    }
  }

  /** The names of the rows read so far, extended by the next row. */
  lemma NamesSnoc(lists: seq<seq<Ingredient>>, items: seq<Ingredient>)
    ensures Names(lists + [items]) == Names(lists) + NamesOf(items)
  {
    assert (lists + [items])[..|lists|] == lists;
  }

  /** The names of an ingredient list's first `j + 1` entries. */
  lemma NamesOfSnoc(items: seq<Ingredient>, j: nat)
    requires j < |items|
    ensures NamesOf(items[..j + 1]) == NamesOf(items[..j]) + [items[j].name]
  {
  }

  // ---------------------------------------------------------------------------
  // The catalogue

  /** What the first route returns for the rows it read. */
  function Catalogue(cols: seq<Column>, parse: string -> Option<seq<Ingredient>>): seq<string> {
    Sort(Distinct(Names(ReadAll(cols, parse))))
  }

  /** What the second route returns for rows that all hold lists or nothing. */
  function CatalogueDirect(cols: seq<Column>): seq<string> {
    Sort(Distinct(Names(ItemsAll(cols))))
  }

  /** The inner `forEach`: each name of one row's ingredients is added to the set. */
  method AddNames(all: seq<string>, ghost seen: seq<string>, ingredients: seq<Ingredient>) returns (r: seq<string>)
    requires all == Distinct(seen)
    ensures r == Distinct(seen + NamesOf(ingredients))
  {
    r := all;
    ghost var now := seen;
    for j := 0 to |ingredients|
      invariant now == seen + NamesOf(ingredients[..j])
      invariant r == Distinct(now)
    {
      DistinctSnoc(now, ingredients[j].name);
      NamesOfSnoc(ingredients, j);
      r := AddNew(r, ingredients[j].name);
      now := now + [ingredients[j].name];
    }
    assert ingredients[..|ingredients|] == ingredients;
  }

  lemma ReadAllSnoc(cols: seq<Column>, i: nat, parse: string -> Option<seq<Ingredient>>)
    requires i < |cols|
    ensures ReadAll(cols[..i + 1], parse) == ReadAll(cols[..i], parse) + [ReadColumn(cols[i], parse)]
  {
  }

  lemma ItemsAllSnoc(cols: seq<Column>, i: nat)
    requires i < |cols|
    ensures ItemsAll(cols[..i + 1]) == ItemsAll(cols[..i]) + [ItemsOrEmpty(cols[i])]
  {
  }

  /**
   * `GET` of `src/app/api/get-all-ingredients/route.ts`: a database error is
   * reported; otherwise every row's ingredients are read (a row that cannot be
   * read gives none) and their names added to a set, which is returned sorted.
   */
  method GetAllIngredients(fetched: Result<seq<Column>, string>, parse: string -> Option<seq<Ingredient>>)
    returns (response: Response)
    ensures fetched.Failure? ==> response == ServerError("Database Error: " + fetched.error)
    ensures fetched.Success? ==> response == Ingredients(Catalogue(fetched.value, parse))
  {
    if fetched.Failure? {
      return ServerError("Database Error: " + fetched.error);
    }
    var recipes := fetched.value;
    var all: seq<string> := [];
    ghost var seen: seq<string> := [];
    for i := 0 to |recipes|
      invariant seen == Names(ReadAll(recipes[..i], parse))
      invariant all == Distinct(seen)
    {
      var ingredients := ReadColumn(recipes[i], parse);
      all := AddNames(all, seen, ingredients);
      ReadAllSnoc(recipes, i, parse);
      NamesSnoc(ReadAll(recipes[..i], parse), ingredients);
      seen := seen + NamesOf(ingredients);
    }
    assert recipes[..|recipes|] == recipes;
    response := Ingredients(Sort(all));
  }

  /**
   * `GET` of `src/app/api/recognize-ingredients/get-all-ingredients/route.ts`:
   * the same set and sort, with a null column read as an empty list and no
   * parsing, so that a row holding JSON text makes the route fail.
   */
  method GetAllIngredientsDirect(fetched: Result<seq<Column>, string>) returns (response: Response)
    ensures fetched.Failure? ==> response == ServerError("Database Error: " + fetched.error)
    ensures fetched.Success? && (exists k | 0 <= k < |fetched.value| :: NotAList(fetched.value[k])) ==>
      response == ServerError(NotAListMessage)
    ensures fetched.Success? && (forall k | 0 <= k < |fetched.value| :: !NotAList(fetched.value[k])) ==>
      response == Ingredients(CatalogueDirect(fetched.value))
  {
    if fetched.Failure? {
      return ServerError("Database Error: " + fetched.error);
    }
    var recipes := fetched.value;
    var all: seq<string> := [];
    ghost var seen: seq<string> := [];
    for i := 0 to |recipes|
      invariant seen == Names(ItemsAll(recipes[..i]))
      invariant all == Distinct(seen)
      invariant forall k | 0 <= k < i :: !NotAList(recipes[k])
    {
      if NotAList(recipes[i]) {
        return ServerError(NotAListMessage);
      }
      var ingredients := ItemsOrEmpty(recipes[i]);
      all := AddNames(all, seen, ingredients);
      ItemsAllSnoc(recipes, i);
      NamesSnoc(ItemsAll(recipes[..i]), ingredients);
      seen := seen + NamesOf(ingredients);
    }
    assert recipes[..|recipes|] == recipes;
    response := Ingredients(Sort(all));
  }

  // ---------------------------------------------------------------------------
  // What the catalogue holds

  /** A set filled from `s` and sorted: ascending, duplicate-free, and holding exactly the elements of `s`. */
  lemma SortedDistinct(s: seq<string>, x: string)
    ensures Ascending(Sort(Distinct(s))) && NoDup(Sort(Distinct(s)))
    ensures x in Sort(Distinct(s)) <==> x in s
  {
    var d := Distinct(s);
    assert x in Sort(d) <==> x in multiset(Sort(d));
  }

  /**
   * The first route's list is sorted, has no duplicates, and holds exactly the
   * names of the ingredients read from some row.
   */
  lemma CatalogueContents(cols: seq<Column>, parse: string -> Option<seq<Ingredient>>, x: string)
    ensures Ascending(Catalogue(cols, parse)) && NoDup(Catalogue(cols, parse))
    ensures x in Catalogue(cols, parse) <==> Carries(ReadAll(cols, parse), x)
  {
    SortedDistinct(Names(ReadAll(cols, parse)), x);
    NamesMembers(ReadAll(cols, parse), x);
  }

  /**
   * The second route's list, when it has one, is sorted, has no duplicates, and
   * holds exactly the names of the ingredients of rows holding a list.
   */
  lemma CatalogueDirectContents(cols: seq<Column>, x: string)
    ensures Ascending(CatalogueDirect(cols)) && NoDup(CatalogueDirect(cols))
    ensures x in CatalogueDirect(cols) <==> Carries(ItemsAll(cols), x)
  {
    SortedDistinct(Names(ItemsAll(cols)), x);
    NamesMembers(ItemsAll(cols), x);
  }

  /** A row whose text does not parse adds nothing: the list is the one read without that row. */
  lemma CatalogueSkipsUnreadable(cols: seq<Column>, parse: string -> Option<seq<Ingredient>>, k: nat)
    requires k < |cols| && cols[k].Text? && parse(CollapseQuotes(cols[k].raw)).None?
    ensures Catalogue(cols, parse) == Catalogue(cols[..k] + cols[k + 1..], parse)
  {
    var a, b := cols[..k], cols[k + 1..];
    assert cols == a + [cols[k]] + b;
    ReadAllAppend(a + [cols[k]], b, parse);
    ReadAllAppend(a, [cols[k]], parse);
    ReadAllAppend(a, b, parse);
    assert ReadAll([cols[k]], parse) == [[]];
    NamesSkipEmpty(ReadAll(a, parse), ReadAll(b, parse));
  }

  /** Reading two runs of rows one after the other reads each run. */
  lemma ReadAllAppend(a: seq<Column>, b: seq<Column>, parse: string -> Option<seq<Ingredient>>)
    ensures ReadAll(a + b, parse) == ReadAll(a, parse) + ReadAll(b, parse)
  {
  }

  /** A row without ingredients contributes no names. */
  lemma NamesSkipEmpty(front: seq<seq<Ingredient>>, back: seq<seq<Ingredient>>)
    ensures Names(front + [[]] + back) == Names(front + back)
  {
    NamesAppend(front + [[]], back);
    NamesAppend(front, [[]]);
    NamesAppend(front, back);
    assert Names([[]]) == Names([]) + NamesOf([]);
  }

  /** Where no row holds text, both routes give the same list. */
  lemma RoutesAgree(cols: seq<Column>, parse: string -> Option<seq<Ingredient>>)
    requires forall k | 0 <= k < |cols| :: !cols[k].Text?
    ensures Catalogue(cols, parse) == CatalogueDirect(cols)
  {
    assert ReadAll(cols, parse) == ItemsAll(cols);
  }

  /** Whatever order the rows come in, the catalogue is the one sorted list of their names. */
  lemma CatalogueIgnoresRowOrder(cols: seq<Column>, other: seq<Column>, parse: string -> Option<seq<Ingredient>>)
    requires multiset(cols) == multiset(other)
    ensures Catalogue(cols, parse) == Catalogue(other, parse)
  {
    forall x ensures x in Catalogue(cols, parse) <==> x in Catalogue(other, parse) {
      CatalogueContents(cols, parse, x);
      CatalogueContents(other, parse, x);
      CarriesPermuted(cols, other, parse, x);
      CarriesPermuted(other, cols, parse, x);
    }
    CatalogueContents(cols, parse, "");
    CatalogueContents(other, parse, "");
    AscendingUnique(Catalogue(cols, parse), Catalogue(other, parse));
  }

  /** A name carried by some row is carried by the same rows in another order. */
  lemma CarriesPermuted(cols: seq<Column>, other: seq<Column>, parse: string -> Option<seq<Ingredient>>, x: string)
    requires multiset(cols) == multiset(other)
    ensures Carries(ReadAll(cols, parse), x) ==> Carries(ReadAll(other, parse), x)
  {
    var lists: seq<seq<Ingredient>>, others: seq<seq<Ingredient>> := ReadAll(cols, parse), ReadAll(other, parse);
    if Carries(lists, x) {
      var i, j :| 0 <= i < |lists| && 0 <= j < |lists[i]| && lists[i][j].name == x;
      assert cols[i] in multiset(other);
      var i' :| 0 <= i' < |other| && other[i'] == cols[i];
      assert others[i'][j].name == x;
    }
  }
}
