/**
 * The `ImageUploader` component's state and handlers: a photo is recognised
 * into a list of ingredients, the list is edited, and recipes are found for
 * it. The component shows one of three views: the uploader, the ingredient
 * editor, and the results.
 *
 * As in `RecipeFinder`, each request is split into the handler up to its
 * `fetch` and the arrival of its response, a parameter. A handler that only a
 * button of one view can call requires that view (and, where the button is
 * disabled while loading, that nothing is loading).
 */
module ImageUploader {
  import opened Wrappers
  import opened Seqs
  import opened Text
  import RecipeFinder

  datatype View = Uploader | Editor | Results

  /**
   * `ingredients.filter((_, index) => index !== i)`: the list without position
   * `i`, or the list itself when no position is `i`.
   */
  function RemovedAt(s: seq<string>, i: int): (r: seq<string>)
    ensures 0 <= i < |s| ==> |r| == |s| - 1
    ensures 0 <= i < |s| ==> forall k | 0 <= k < |r| :: r[k] == (if k < i then s[k] else s[k + 1])
    ensures !(0 <= i < |s|) ==> r == s
  {
    if 0 <= i < |s| then s[..i] + s[i + 1..] else s
  }

  /** Putting the removed entry back at its position restores the list. */
  lemma RemovedAtRestored(s: seq<string>, i: int)
    requires 0 <= i < |s|
    ensures RemovedAt(s, i)[..i] + [s[i]] + RemovedAt(s, i)[i..] == s
  {
    var r := RemovedAt(s, i);
    var t := r[..i] + [s[i]] + r[i..];
    assert |t| == |s|;
    forall k | 0 <= k < |s| ensures t[k] == s[k] {
      if k < i {
        assert t[k] == r[k];
      } else if k > i {
        assert t[k] == r[k - 1];
      }
    }
  }

  /** Removing an entry takes out exactly one copy of it. */
  lemma RemovedAtCounts(s: seq<string>, i: int)
    requires 0 <= i < |s|
    ensures multiset(RemovedAt(s, i)) + multiset{s[i]} == multiset(s)
  {
    RemovedAtRestored(s, i);
    var r := RemovedAt(s, i);
    assert r == r[..i] + r[i..];
  }

  /** Removing keeps a duplicate-free list duplicate-free. */
  lemma RemovedAtNoDup(s: seq<string>, i: int)
    requires NoDup(s)
    ensures NoDup(RemovedAt(s, i))
  {
  }

  class Uploader {
    var ingredients: seq<string>
    var newIngredient: string
    var loading: bool
    var error: Option<string>
    var recipes: seq<RecipeFinder.Recipe>
    var view: View

    constructor()
      ensures ingredients == [] && newIngredient == [] && !loading && error.None? && recipes == [] && view == Uploader
    {
      ingredients, newIngredient, loading := [], [], false;
      error, recipes, view := None, [], Uploader;
    }

    /**
     * `handleRecognizeIngredients` up to its request: without a photo an error
     * is shown and nothing else changes; otherwise loading starts and the old
     * ingredients are cleared.
     */
    method StartRecognize(hasFile: bool) returns (sent: bool)
      requires view == Uploader && !loading
      modifies this
      ensures sent == hasFile
      ensures !hasFile ==> error == Some("Please select a file first.") && ingredients == old(ingredients) && !loading
      ensures hasFile ==> loading && error.None? && ingredients == []
      ensures view == old(view) && recipes == old(recipes) && newIngredient == old(newIngredient)
    {
      if !hasFile {
        error := Some("Please select a file first.");
        return false;
      }
      loading := true;
      error := None;
      ingredients := [];
      sent := true;
    }

    /** The recognition answered: its ingredients (absent: none) go to the editor, or its error is shown. */
    method RecognizeAnswered(outcome: Result<Option<seq<string>>, string>)
      modifies this
      ensures outcome.Success? ==> ingredients == outcome.value.GetOr([]) && view == Editor && error == old(error)
      ensures outcome.Failure? ==> ingredients == old(ingredients) && view == old(view) && error == Some(outcome.error)
      ensures !loading && recipes == old(recipes) && newIngredient == old(newIngredient)
    {
      if outcome.Success? {
        ingredients := outcome.value.GetOr([]);
        view := Editor;
      } else {
        error := Some(outcome.error);
      }
      loading := false;
    }

    method RemoveIngredient(i: int)
      modifies this
      ensures ingredients == RemovedAt(old(ingredients), i)
      ensures newIngredient == old(newIngredient) && view == old(view) && error == old(error) && loading == old(loading)
      ensures recipes == old(recipes)
    {
      ingredients := RemovedAt(ingredients, i);
    }

    /**
     * `handleAddIngredient`: the trimmed text is appended and the box cleared
     * when it is non-empty and not yet listed; otherwise nothing changes.
     */
    method AddIngredient()
      modifies this
      ensures RecipeFinder.TypedIngredient(old(ingredients), old(newIngredient)).Some? ==>
        ingredients == old(ingredients) + [Trim(old(newIngredient))] && newIngredient == []
      ensures RecipeFinder.TypedIngredient(old(ingredients), old(newIngredient)).None? ==>
        ingredients == old(ingredients) && newIngredient == old(newIngredient)
      ensures NoDup(old(ingredients)) ==> NoDup(ingredients)
      ensures view == old(view) && error == old(error) && loading == old(loading) && recipes == old(recipes)
    {
      var typed := RecipeFinder.TypedIngredient(ingredients, newIngredient);
      if typed.Some? {
        ingredients := ingredients + [typed.value];
        newIngredient := [];
      }
    }

    /**
     * `handleFindRecipes` up to its request: loading starts, old results are
     * cleared, and the ingredients are sent as they are, even when there are
     * none.
     */
    method StartFind() returns (request: seq<string>)
      requires view == Editor && !loading
      modifies this
      ensures request == ingredients
      ensures loading && error.None? && recipes == []
      ensures ingredients == old(ingredients) && view == old(view) && newIngredient == old(newIngredient)
    {
      loading := true;
      error := None;
      recipes := [];
      request := ingredients;
    }

    /** The search answered: the results are shown, or its error in the editor. */
    method FindAnswered(outcome: Result<seq<RecipeFinder.Recipe>, string>)
      modifies this
      ensures outcome.Success? ==> recipes == outcome.value && view == Results && error == old(error)
      ensures outcome.Failure? ==> recipes == old(recipes) && view == old(view) && error == Some(outcome.error)
      ensures !loading && ingredients == old(ingredients) && newIngredient == old(newIngredient)
    {
      if outcome.Success? {
        recipes := outcome.value;
        view := Results;
      } else {
        error := Some(outcome.error);
      }
      loading := false;
    }

    /** The results list's back button returns to the editor, with the ingredients as they were. */
    method BackFromResults()
      requires view == Results
      modifies this
      ensures view == Editor && ingredients == old(ingredients) && recipes == old(recipes)
      ensures newIngredient == old(newIngredient) && loading == old(loading) && error == old(error)
    {
      view := Editor;
    }

    /** The editor's "Upload a different image" link returns to the uploader. */
    method BackToUploader()
      requires view == Editor
      modifies this
      ensures view == Uploader && ingredients == old(ingredients) && recipes == old(recipes)
      ensures newIngredient == old(newIngredient) && loading == old(loading) && error == old(error)
    {
      view := Uploader;
    }
  }
}
