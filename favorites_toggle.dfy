/**
 * The `favorites/toggle` route: a signed-in user saves a recipe to, or removes
 * it from, their favourites. Catalogue recipes live in `favorite_recipes` as
 * (user, recipe id) pairs; AI-generated recipes live in `saved_ai_recipes` as
 * (user, recipe data) rows, matched on the id inside the data.
 *
 * Both tables are held in memory as sets. The signed-in user (None when
 * authentication failed) and the errors the database reports are parameters.
 */
module FavoritesToggle {
  import opened Wrappers

  /** A row of `favorite_recipes`. */
  datatype Favorite = Favorite(user: string, recipeId: int)

  /** The JSON `recipeData` of an AI recipe, of which only its `id` is looked at. */
  datatype AiRecipe = AiRecipe(id: string, data: string)

  /** A row of `saved_ai_recipes`. */
  datatype SavedAi = SavedAi(user: string, recipe: AiRecipe)

  datatype Response =
    | Toggled(saved: bool)
    | Unauthorized
    | BadRequest(message: string)
    | ServerError(message: string)

  /** Saving a saved recipe removes it; saving an unsaved one adds it. */
  function ToggledNormal(saved: set<Favorite>, f: Favorite): (r: set<Favorite>)
    ensures f in r <==> f !in saved
    ensures forall g | g != f :: g in r <==> g in saved
  {
    if f in saved then saved - {f} else saved + {f}
  }

  /** `user` has a saved AI recipe whose data carries `id`. */
  predicate HasSavedAi(saved: set<SavedAi>, user: string, id: string) {
    exists x | x in saved :: x.user == user && x.recipe.id == id
  }

  /**
   * The AI toggle: when `user` has rows whose data carries the recipe's id, all
   * of them are deleted; otherwise one row holding the whole recipe is added.
   */
  function ToggledAi(saved: set<SavedAi>, user: string, recipe: AiRecipe): (r: set<SavedAi>)
    ensures HasSavedAi(r, user, recipe.id) <==> !HasSavedAi(saved, user, recipe.id)
    ensures !HasSavedAi(saved, user, recipe.id) ==> SavedAi(user, recipe) in r
    ensures forall x: SavedAi | !(x.user == user && x.recipe.id == recipe.id) :: x in r <==> x in saved
  {
    if HasSavedAi(saved, user, recipe.id) then
      set x | x in saved && !(x.user == user && x.recipe.id == recipe.id)
    else
      var r := saved + {SavedAi(user, recipe)};
      assert SavedAi(user, recipe) in r;
      r
  }

  /** Toggling a catalogue recipe twice restores the favourites exactly. */
  lemma ToggledNormalTwice(saved: set<Favorite>, f: Favorite)
    ensures ToggledNormal(ToggledNormal(saved, f), f) == saved
  {
  }

  /** Toggling an AI recipe twice restores whether it is saved. */
  lemma ToggledAiTwice(saved: set<SavedAi>, user: string, recipe: AiRecipe)
    ensures HasSavedAi(ToggledAi(ToggledAi(saved, user, recipe), user, recipe), user, recipe.id)
        == HasSavedAi(saved, user, recipe.id)
  {
  }

  /** Saving an AI recipe that was not saved and removing it again restores the rows exactly. */
  lemma ToggledAiTwiceUnsaved(saved: set<SavedAi>, user: string, recipe: AiRecipe)
    requires !HasSavedAi(saved, user, recipe.id)
    ensures ToggledAi(ToggledAi(saved, user, recipe), user, recipe) == saved
  {
    var once := ToggledAi(saved, user, recipe);
    var twice := ToggledAi(once, user, recipe);
    forall x ensures x in twice <==> x in saved {
      if x.user == user && x.recipe.id == recipe.id {
        assert !HasSavedAi(twice, user, recipe.id);
        assert x !in saved;
      }
    }
  }

  class Favorites {
    var normal: set<Favorite>
    var ai: set<SavedAi>

    constructor()
      ensures normal == {} && ai == {}
    {
      normal := {};
      ai := {};
    }

    /**
     * `POST`: 401 without a user; 400 for a catalogue recipe without a
     * (truthy) `recipeId`, an AI recipe without `recipeData`, or any other
     * type; 500 with the database's message when the lookup or the write
     * fails, changing nothing; otherwise the recipe's saved state is flipped
     * and the new state returned.
     */
    method Post(user: Option<string>, kind: string, recipeId: Option<int>, recipeData: Option<AiRecipe>,
                checkError: Option<string>, writeError: Option<string>)
      returns (response: Response)
      modifies this
      ensures response.Toggled? || (normal == old(normal) && ai == old(ai))
      ensures user.None? ==> response == Unauthorized
      ensures user.Some? && kind == "normal" && (recipeId.None? || recipeId.value == 0) ==>
        response == BadRequest("recipeId required for normal recipes")
      ensures user.Some? && kind == "ai" && recipeData.None? ==>
        response == BadRequest("recipeData required for AI recipes")
      ensures user.Some? && kind != "normal" && kind != "ai" ==> response == BadRequest("Invalid type")
      // a catalogue recipe
      ensures user.Some? && kind == "normal" && recipeId.Some? && recipeId.value != 0 ==>
        var f := Favorite(user.value, recipeId.value);
        && (checkError.Some? ==> response == ServerError("Check error: " + checkError.value))
        && (checkError.None? && writeError.Some? ==>
              response == ServerError((if f in old(normal) then "Delete error: " else "Insert error: ") + writeError.value))
        && (checkError.None? && writeError.None? ==>
              response == Toggled(f !in old(normal)) && normal == ToggledNormal(old(normal), f) && ai == old(ai))
      // an AI recipe
      ensures user.Some? && kind == "ai" && recipeData.Some? ==>
        var had := HasSavedAi(old(ai), user.value, recipeData.value.id);
        && (checkError.Some? ==> response == ServerError("AI check error: " + checkError.value))
        && (checkError.None? && writeError.Some? ==>
              response == ServerError((if had then "AI delete error: " else "AI insert error: ") + writeError.value))
        && (checkError.None? && writeError.None? ==>
              response == Toggled(!had) && ai == ToggledAi(old(ai), user.value, recipeData.value) && normal == old(normal))
      // the flag returned is whether the recipe is saved now
      ensures response.Toggled? && kind == "normal" ==>
        (response.saved <==> Favorite(user.value, recipeId.value) in normal)
      ensures response.Toggled? && kind == "ai" ==>
        (response.saved <==> HasSavedAi(ai, user.value, recipeData.value.id))
      // nobody else's favourites are touched
      ensures user.Some? ==> forall g: Favorite | g.user != user.value :: g in normal <==> g in old(normal)
      ensures user.Some? ==> forall x: SavedAi | x.user != user.value :: x in ai <==> x in old(ai)
    {
      if user.None? {
        return Unauthorized;
      }
      var u := user.value;
      if kind == "normal" {
        if recipeId.None? || recipeId.value == 0 {
          return BadRequest("recipeId required for normal recipes");
        }
        if checkError.Some? {
          return ServerError("Check error: " + checkError.value);
        }
        var f := Favorite(u, recipeId.value);
        var existing := f in normal;
        if writeError.Some? {
          return ServerError((if existing then "Delete error: " else "Insert error: ") + writeError.value);
        }
        if existing {
          normal := normal - {f};
        } else {
          normal := normal + {f};
        }
        response := Toggled(!existing);
      } else if kind == "ai" {
        if recipeData.None? {
          return BadRequest("recipeData required for AI recipes");
        }
        if checkError.Some? {
          return ServerError("AI check error: " + checkError.value);
        }
        var recipe := recipeData.value;
        var existing := HasSavedAi(ai, u, recipe.id);
        if writeError.Some? {
          return ServerError((if existing then "AI delete error: " else "AI insert error: ") + writeError.value);
        }
        ai := ToggledAi(ai, u, recipe);
        response := Toggled(!existing);
      } else {
        response := BadRequest("Invalid type");
      }
    }
  }
}
