/**
 * The `RecipeFinder` component's state and handlers: the list of selected
 * ingredients (toggled from the master list, typed in, or recognised from a
 * photo), the search form, and the switch between the input form and the
 * results.
 *
 * Each request is split in two: the handler up to its `fetch` (which may
 * refuse to send anything), and the arrival of the response or error, which
 * is a parameter. Rendering is not modelled.
 */
module RecipeFinder {
  import opened Wrappers
  import opened Seqs
  import opened Text
  import opened JsNumber

  /** A recipe returned by a search, as far as this component looks at it. */
  datatype Recipe = Recipe(id: int, title: string)

  datatype View = Input | Results

  /** The JSON body sent to `/api/get-recipes` or `/api/generate-ai-recipes`. */
  datatype SearchRequest = SearchRequest(ingredients: seq<string>, dietary: string, maxTime: Option<int>, difficulty: Option<string>)

  // ---------------------------------------------------------------------------
  // The selection

  /**
   * `handleIngredientToggle`: a selected ingredient is removed (every copy of
   * it, the others kept in order); an unselected one is appended.
   */
  function Toggled(selected: seq<string>, ingredient: string): (r: seq<string>)
    ensures ingredient in selected ==> ingredient !in r && SubsequenceOf(r, selected)
    ensures ingredient in selected ==> forall x | x != ingredient :: multiset(r)[x] == multiset(selected)[x]
    ensures ingredient !in selected ==> r == selected + [ingredient]
  {
    if ingredient in selected then Filter(selected, (x: string) => x != ingredient)
    else selected + [ingredient]
  }

  /** Toggling an unselected ingredient twice gives back the selection. */
  lemma ToggledTwice(selected: seq<string>, ingredient: string)
    requires ingredient !in selected
    ensures Toggled(Toggled(selected, ingredient), ingredient) == selected
  {
    var p := (x: string) => x != ingredient;
    FilterAppend(selected, [ingredient], p);
    FilterAllKept(selected, p);
    FilterNoneKept([ingredient], p);
    assert selected + [] == selected;
  }

  /** Toggling never makes a duplicate-free selection hold an ingredient twice. */
  lemma ToggledNoDup(selected: seq<string>, ingredient: string)
    requires NoDup(selected)
    ensures NoDup(Toggled(selected, ingredient))
  {
    if ingredient in selected {
      SubsequenceNoDup(Toggled(selected, ingredient), selected);
    }
  }

  /** The typed text, trimmed, if it is non-empty and not yet selected. */
  function TypedIngredient(selected: seq<string>, text: string): (r: Option<string>)
    ensures r.Some? ==> r.value == Trim(text) && r.value != [] && r.value !in selected
    ensures r.None? ==> Trim(text) == [] || Trim(text) in selected
  {
    var t := Trim(text);
    if t != [] && t !in selected then Some(t) else None
  }

  /**
   * `filteredMasterList`: the master entries that contain the typed text,
   * ignoring ASCII case, in master-list order.
   */
  function MatchingIngredients(master: seq<string>, text: string): (r: seq<string>)
    ensures SubsequenceOf(r, master)
    ensures forall x :: x in r <==> x in master && Contains(Lower(x), Lower(text))
  {
    var needle := Lower(text);
    Filter(master, (ing: string) => Contains(Lower(ing), needle))
  }

  /** With nothing typed, the whole master list is shown. */
  lemma MatchingEmptyText(master: seq<string>)
    ensures MatchingIngredients(master, "") == master
  {
    var needle := Lower("");
    forall i | 0 <= i < |master| ensures Contains(Lower(master[i]), needle) {
      ContainsEmpty(Lower(master[i]));
    }
    FilterAllKept(master, (ing: string) => Contains(Lower(ing), needle));
  }

  /** Lower-casing twice is lower-casing once. */
  lemma LowerIdempotent(s: string)
    ensures Lower(Lower(s)) == Lower(s)
  {
    assert forall i | 0 <= i < |s| :: Lower(Lower(s))[i] == Lower(s)[i];
  }

  /** Typing the text in lower case shows the same entries. */
  lemma MatchingIgnoresCase(master: seq<string>, text: string)
    ensures MatchingIngredients(master, Lower(text)) == MatchingIngredients(master, text)
  {
    LowerIdempotent(text);
  }

  // ---------------------------------------------------------------------------
  // The search request

  /** `maxTime ? parseInt(maxTime) : null`; `JSON.stringify` sends NaN as null too. */
  function NormalisedMaxTime(maxTime: string): (r: Option<int>)
    ensures maxTime == [] ==> r.None?
  {
    if maxTime == [] then None else ParseInt(maxTime)
  }

  /** A time typed as a plain number is sent as that number. */
  lemma MaxTimeOfNumber(n: nat)
    ensures NormalisedMaxTime(NatToString(n)) == Some(n)
  {
    ParseIntOfNat(n);
  }

  /** `difficulty !== 'any' ? difficulty : null`. */
  function NormalisedDifficulty(difficulty: string): (r: Option<string>)
    ensures r.None? <==> difficulty == "any"
    ensures r.Some? ==> r.value == difficulty
  {
    if difficulty == "any" then None else Some(difficulty)
  }

  const NothingSelected := "Please select some ingredients first."

  class Finder {
    var master: seq<string>
    var selected: seq<string>
    var textInput: string
    var dietary: string
    var maxTime: string
    var difficulty: string
    var findLoading: bool
    var aiLoading: bool
    var error: Option<string>
    var recipes: seq<Recipe>
    var view: View

    constructor()
      ensures master == [] && selected == [] && textInput == [] && dietary == "any" && maxTime == []
      ensures difficulty == "any" && !findLoading && !aiLoading && error.None? && recipes == [] && view == Input
    {
      master, selected, textInput := [], [], [];
      dietary, maxTime, difficulty := "any", [], "any";
      findLoading, aiLoading := false, false;
      error, recipes, view := None, [], Input;
    }

    /** The ingredient catalogue arrived: it becomes the master list, or an error is shown. */
    method MasterListLoaded(outcome: Result<seq<string>, string>)
      modifies this
      ensures outcome.Success? ==> master == outcome.value && error == old(error)
      ensures outcome.Failure? ==> master == old(master) && error == Some("Could not load ingredient list.")
      ensures selected == old(selected) && textInput == old(textInput) && view == old(view)
      ensures dietary == old(dietary) && maxTime == old(maxTime) && difficulty == old(difficulty)
      ensures findLoading == old(findLoading) && aiLoading == old(aiLoading) && recipes == old(recipes)
    {
      if outcome.Success? {
        master := outcome.value;
      } else {
        error := Some("Could not load ingredient list.");
      }
    }

    method ToggleIngredient(ingredient: string)
      modifies this
      ensures selected == Toggled(old(selected), ingredient)
      ensures NoDup(old(selected)) ==> NoDup(selected)
      ensures textInput == old(textInput) && error == old(error) && view == old(view) && master == old(master)
      ensures dietary == old(dietary) && maxTime == old(maxTime) && difficulty == old(difficulty)
      ensures findLoading == old(findLoading) && aiLoading == old(aiLoading) && recipes == old(recipes)
    {
      if NoDup(selected) {
        ToggledNoDup(selected, ingredient);
      }
      selected := Toggled(selected, ingredient);
    }

    /**
     * `handleAddTextIngredient`: the trimmed text is appended and the box
     * cleared when it is non-empty and not yet selected; otherwise nothing
     * changes.
     */
    method AddTextIngredient()
      modifies this
      ensures TypedIngredient(old(selected), old(textInput)).Some? ==>
        selected == old(selected) + [Trim(old(textInput))] && textInput == []
      ensures TypedIngredient(old(selected), old(textInput)).None? ==>
        selected == old(selected) && textInput == old(textInput)
      ensures NoDup(old(selected)) ==> NoDup(selected)
      ensures error == old(error) && view == old(view) && master == old(master)
      ensures dietary == old(dietary) && maxTime == old(maxTime) && difficulty == old(difficulty)
      ensures findLoading == old(findLoading) && aiLoading == old(aiLoading) && recipes == old(recipes)
    {
      var typed := TypedIngredient(selected, textInput);
      if typed.Some? {
        selected := selected + [typed.value];
        textInput := [];
      }
    }

    /**
     * `handleRecognizeIngredients` up to its request: without a photo an error
     * is shown and nothing is sent; otherwise loading starts.
     */
    method StartRecognize(hasFile: bool) returns (sent: bool)
      modifies this
      ensures sent == hasFile
      ensures !hasFile ==> error == Some("Please select a file first.") && findLoading == old(findLoading)
      ensures hasFile ==> error.None? && findLoading
      ensures selected == old(selected) && view == old(view) && recipes == old(recipes)
      ensures master == old(master) && textInput == old(textInput) && aiLoading == old(aiLoading)
      ensures dietary == old(dietary) && maxTime == old(maxTime) && difficulty == old(difficulty)
    {
      if !hasFile {
        error := Some("Please select a file first.");
        return false;
      }
      findLoading := true;
      error := None;
      sent := true;
    }

    /** The recognised ingredients (absent: none) replace the selection, or the error is shown. */
    method RecognizeAnswered(outcome: Result<Option<seq<string>>, string>)
      modifies this
      ensures outcome.Success? ==> selected == outcome.value.GetOr([]) && error == old(error)
      ensures outcome.Failure? ==> selected == old(selected) && error == Some(outcome.error)
      ensures !findLoading && view == old(view) && recipes == old(recipes)
      ensures master == old(master) && textInput == old(textInput) && aiLoading == old(aiLoading)
      ensures dietary == old(dietary) && maxTime == old(maxTime) && difficulty == old(difficulty)
    {
      if outcome.Success? {
        selected := outcome.value.GetOr([]);
      } else {
        error := Some(outcome.error);
      }
      findLoading := false;
    }

    /**
     * `handleFindRecipes` (`ai` false) and `handleGenerateAIRecipes` (`ai`
     * true) up to their request: with nothing selected an error is shown and
     * nothing is sent; otherwise loading starts, old results are cleared, and
     * the normalised request is sent.
     */
    method StartSearch(ai: bool) returns (request: Option<SearchRequest>)
      modifies this
      ensures old(selected) == [] ==>
        request.None? && error == Some(NothingSelected) && recipes == old(recipes)
        && findLoading == old(findLoading) && aiLoading == old(aiLoading)
      ensures old(selected) != [] ==>
        request == Some(SearchRequest(selected, dietary, NormalisedMaxTime(maxTime), NormalisedDifficulty(difficulty)))
        && error.None? && recipes == []
        && (if ai then aiLoading && findLoading == old(findLoading) else findLoading && aiLoading == old(aiLoading))
      ensures selected == old(selected) && textInput == old(textInput) && view == old(view) && master == old(master)
      ensures dietary == old(dietary) && maxTime == old(maxTime) && difficulty == old(difficulty)
    {
      if selected == [] {
        error := Some(NothingSelected);
        return None;
      }
      if ai {
        aiLoading := true;
      } else {
        findLoading := true;
      }
      error := None;
      recipes := [];
      request := Some(SearchRequest(selected, dietary, NormalisedMaxTime(maxTime), NormalisedDifficulty(difficulty)));
    }

    /** The search answered: its recipes are shown as results, or its error on the form; loading ends either way. */
    method SearchAnswered(ai: bool, outcome: Result<seq<Recipe>, string>)
      modifies this
      ensures outcome.Success? ==> recipes == outcome.value && view == Results && error == old(error)
      ensures outcome.Failure? ==> recipes == old(recipes) && view == old(view) && error == Some(outcome.error)
      ensures if ai then !aiLoading && findLoading == old(findLoading) else !findLoading && aiLoading == old(aiLoading)
      ensures selected == old(selected) && textInput == old(textInput) && master == old(master)
      ensures dietary == old(dietary) && maxTime == old(maxTime) && difficulty == old(difficulty)
    {
      if outcome.Success? {
        recipes := outcome.value;
        view := Results;
      } else {
        error := Some(outcome.error);
      }
      if ai {
        aiLoading := false;
      } else {
        findLoading := false;
      }
    }

    /** The results list's back button returns to the form. */
    method BackToInput()
      modifies this
      ensures view == Input
      ensures selected == old(selected) && recipes == old(recipes) && textInput == old(textInput)
      ensures master == old(master) && error == old(error) && findLoading == old(findLoading) && aiLoading == old(aiLoading)
      ensures dietary == old(dietary) && maxTime == old(maxTime) && difficulty == old(difficulty)
    {
      view := Input;
    }
  }
}
