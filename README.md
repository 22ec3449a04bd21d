# Smart recipe generator: a verified model of its own rules

Smart recipe generator is a Next.js web application. A user finds recipes for
the ingredients they have, typed in, picked from a catalogue or recognised from
a photo. Users can rate and save recipes and receive personal suggestions.
Most of the application is glue around a hosted database, an image recogniser
and a language model. This project models the rules the application states
itself, and proves what they guarantee:

- **Serving-size scaling** (`RecipeUtils`, with `JsNumber` and `Text`):
  - a quantity such as "1.5 cups flour" is split by `^(\d*\.?\d+)\s*(.*)$`;
  - the numeral is multiplied by `selected / base` and rounded to hundredths;
  - it is printed bare when whole and with two decimals otherwise, and the rest is put back;
  - nutrition values keep only the printed number.
  
  Numbers are exact decimals. Rounding is `floor(x * 100 + 1/2)`, as `Math.round` does.
- **Recommendations** (`Suggestions`):
  - the cuisines and difficulties of the user's saved recipes are folded into two insertion-ordered sets;
  - every catalogue recipe is scored by an additive point rule;
  - recipes scoring above 0 are sorted by descending score, with ties in catalogue order, and the first ten are returned.
- **The ingredient catalogue** (`IngredientCatalogue`, with `StringOrder`):
  - both `get-all-ingredients` routes collect every ingredient name into a set and return it sorted in JavaScript's default order;
  - the first route parses JSON text after collapsing doubled quotes and skips rows that do not parse;
  - the second route fails on such rows.
- **Ratings** (`RateRecipe`):
  - POST validates the request and upserts into a table keyed by (user, recipe, type);
  - GET returns the caller's own rating, or 0, and the average of all ratings, or 0, rounded to one decimal.
- **Favourites** (`FavoritesToggle`):
  - save and unsave toggles over the catalogue-recipe and AI-recipe favourites of one user;
  - argument checks depend on the type.
- **Photo labels** (`RecognizeIngredients`): a label is kept when its score is above 0.80, it is not generic, and it has a description; the order of the labels is kept.
- **The two search components** (`RecipeFinder`, `ImageUploader`):
  - the selected ingredient list: toggle, add-if-new, remove-at-index;
  - the case-insensitive catalogue filter;
  - request normalisation;
  - the view state machine, with each request split into its start and its answer.

The database, the authentication service, the storage bucket, the image
recogniser and `JSON.parse` are not modelled. Their results are parameters,
and a table is an in-memory `seq` or `set` held by a class.

Where the written description of the system and the code disagree, the model
follows the code:

- `scaleNutrition` of protein "10g" at half the servings gives "5", not "5g". `scaleNumericValue` returns only the printed number (`RecipeExamples.HalvedNutrition`).
- A result that is not whole is printed with exactly two decimals: "0.75" doubled is "1.50", not "1.5" (`RecipeExamples.DoubledThreeQuarters`).
- Rounding is `Math.round`, which rounds halves up (towards positive infinity), not away from zero. This matters only for negative values, which only `scaleNumericValue` can see.

## Model

| member | source | states |
|---|---|---|
| RecipeUtils.MatchQuantitySound | src/utils/recipeUtils.ts:69 | whatever the greedy matcher captures is a split the pattern accepts: numeral shape, white space, a rest without line terminators |
| RecipeUtils.MatchQuantityComplete | src/utils/recipeUtils.ts:69 | if the pattern can match a text in any way, the matcher matches it, with the longest numeral and, for that numeral, the longest white run, as the regular-expression engine does |
| RecipeUtils.NumeralPrefixLongest | src/utils/recipeUtils.ts:69 | no numeral-shaped prefix is longer than the one the matcher takes |
| RecipeUtils.NumeralParses | src/utils/recipeUtils.ts:75-80 | a matched numeral always parses to a non-negative number, so the `isNaN` branch is unreachable |
| RecipeUtils.FormatScaled | src/utils/recipeUtils.ts:82-85 | the printed text parses back to `Math.round(x*100)/100`, which is within 0.005 of `x`; it starts with a digit or minus and ends in a digit |
| JsNumber.ParseFloat | src/utils/recipeUtils.ts:75 | `parseFloat`: a number needs a digit in the text, and a negative one a leading minus after the white space; `FormatCentsParses` reads printed amounts back |
| JsNumber.ParseInt | src/components/RecipeFinder.tsx:126 | `parseInt`: a number needs a digit in the text, and a negative one a leading minus after the white space; `ParseIntOfNat` reads a printed natural number back |
| JsNumber.FormatCents | src/utils/recipeUtils.ts:85 | `toString()`/`toFixed(2)` of k hundredths: a minus sign is printed exactly for negative amounts; `FormatCentsShape` and `FormatCentsParses` give the digits |
| JsNumber.FormatCentsShape | src/utils/recipeUtils.ts:85 | a whole amount prints with no point; any other prints with a single point followed by exactly two digits |
| JsNumber.FormatCentsParses | src/utils/recipeUtils.ts:84-85 | the printed form of k hundredths parses back to exactly k/100 |
| JsNumber.RoundHalfUp | src/utils/recipeUtils.ts:84 | `Math.round`: the result is within one half of `x`, halves going up |
| JsNumber.Cents | src/utils/recipeUtils.ts:84 | the number of hundredths is within one half of `x * 100` |
| JsNumber.CentsOfCents | src/utils/recipeUtils.ts:84 | rounding an exact number of hundredths gives that number back |
| RecipeUtils.ScaledTextNumeral | src/utils/recipeUtils.ts:82-85 | an unsigned numeral scaled by a non-negative ratio prints as a numeral again |
| RecipeUtils.ScaleQuantity | src/utils/recipeUtils.ts:67-88 | the quantity comes back as given or trimmed; `ScaleQuantityResult`, `ScaleQuantityReparses` and `ScaleQuantityIdempotent` give its exact value |
| RecipeUtils.ScaleQuantityResult | src/utils/recipeUtils.ts:67-88 | text without a leading numeral is returned exactly as given, untrimmed; otherwise the result is the printed amount, a space and the rest, or the amount alone when the rest is empty |
| RecipeUtils.ScaleQuantityReparses | src/utils/recipeUtils.ts:87 | a scaled quantity is already trimmed and matches again as the printed amount and the very same rest |
| RecipeUtils.ScaleQuantityIdempotent | src/utils/recipeUtils.ts:67-88 | scaling an already scaled quantity by 1 returns it unchanged, for every quantity |
| RecipeUtils.ScaleQuantityByOne | src/utils/recipeUtils.ts:82-87 | scaling by 1 keeps the value of a numeral with at most two decimals, and keeps the rest |
| RecipeUtils.ScaledTextReadsBack | src/utils/recipeUtils.ts:82-85 | the printed scaled amount is the printed form of `Math.round(d*ratio*100)` hundredths and parses back to it |
| RecipeUtils.ScaleNumericValue | src/utils/recipeUtils.ts:94-103 | the value comes back as given or as a printed amount; `ScaleNumericValueResult` gives the amount |
| RecipeUtils.ScaleNumericValueResult | src/utils/recipeUtils.ts:94-103 | text without a leading number is returned unchanged; otherwise only the printed rounded number is returned, so a unit suffix is dropped |
| RecipeUtils.ScaleNumericValueIdempotent | src/utils/recipeUtils.ts:94-103 | scaling an already scaled nutrition value by 1 returns it unchanged |
| RecipeUtils.ScaleIngredients | src/utils/recipeUtils.ts:20-36 | same length and order, every name kept, and the input returned as is when either serving count is not positive |
| RecipeUtils.ScaleIngredientsEach | src/utils/recipeUtils.ts:27-35 | each quantity is scaled on its own by `selected / base`; an ingredient without a leading numeral is unchanged |
| RecipeUtils.ScaleIngredientsIdempotent | src/utils/recipeUtils.ts:20-36 | re-scaling a scaled list to equal servings changes nothing |
| RecipeUtils.ScaleNutrition | src/utils/recipeUtils.ts:42-58 | each of calories and protein comes back as given or as a printed amount; `ScaleNutritionFields` and `ScaleNutritionIdempotent` give the rest |
| RecipeUtils.ScaleNutritionFields | src/utils/recipeUtils.ts:42-58 | non-positive servings return the input; calories and protein are scaled independently; a non-numeric value passes through |
| RecipeUtils.ScaleNutritionIdempotent | src/utils/recipeUtils.ts:42-58 | re-scaling scaled nutrition facts to equal servings changes nothing |
| RecipeUtils.ScaleNutritionSame | src/utils/recipeUtils.ts:47-52 | equal base and selected servings scale both values by 1 |
| RecipeExamples.DoubleFlour | src/utils/recipeUtils.ts:64 | "1.5 cups flour" at ratio 2 is "3 cups flour" |
| RecipeExamples.ToTasteUnchanged | src/utils/recipeUtils.ts:65-73 | "to taste" is returned unchanged |
| RecipeExamples.EighthRounded | src/utils/recipeUtils.ts:84-85 | "0.125 tsp" at ratio 1 is "0.13 tsp": rounding to hundredths loses the third decimal |
| RecipeExamples.DoubledThreeQuarters | src/utils/recipeUtils.ts:85 | "0.75 cup" at ratio 2 is "1.50 cup": a result that is not whole keeps two decimals |
| RecipeExamples.HalvedNutrition | src/utils/recipeUtils.ts:42-58 | calories "200" and protein "10g" from 4 to 2 servings give "100" and "5" |
| Text.Trim | src/utils/recipeUtils.ts:69 | `trim()`: the result starts and ends with a character that is not JavaScript white space, and is a slice of the input with only white space before and after it |
| Text.TrimIdempotent | src/utils/recipeUtils.ts:69 | trimming twice is trimming once |
| Suggestions.DerivePreferences | src/app/api/suggestions/route.ts:51-82 | the two loops fill the cuisine and difficulty sets with exactly the distinct values of the contributing saved recipes, in first-seen order |
| Suggestions.DerivedCuisines | src/app/api/suggestions/route.ts:51-82 | a cuisine is derived iff some saved catalogue id found by the lookup, or some saved AI record that parsed, has it; the set has no duplicates |
| Suggestions.NormalFacetsMembers | src/app/api/suggestions/route.ts:55-68 | saved catalogue ids contribute exactly the recipes the lookup finds |
| Suggestions.AiFacetsMembers | src/app/api/suggestions/route.ts:70-82 | saved AI records contribute exactly those that parsed |
| Suggestions.DerivedDifficulties | src/app/api/suggestions/route.ts:51-82 | a difficulty is derived iff some saved catalogue id found by the lookup, or some saved AI record that parsed, has it; the set has no duplicates |
| Suggestions.FirstNormalRating | src/app/api/suggestions/route.ts:99 | the rating found is a normal-type row for the recipe; when none is found, no such row exists |
| Suggestions.OwnRatingBonus | src/app/api/suggestions/route.ts:99-102 | the user's own normal rating adds twice its stars; without one, ratings add nothing |
| Suggestions.AiRatingsIgnored | src/app/api/suggestions/route.ts:99 | ratings of AI recipes never affect a score |
| Suggestions.DerivedBonus | src/app/api/suggestions/route.ts:105-106 | a derived cuisine adds exactly 3 and a derived difficulty exactly 2 |
| Suggestions.ExplicitBonus | src/app/api/suggestions/route.ts:109-112 | an explicit preferences record adds 2 per listed cuisine or difficulty, between 0 and 4, and nothing without a record |
| Suggestions.SavedPenalty | src/app/api/suggestions/route.ts:115-116 | a saved catalogue recipe scores exactly 10 less |
| Suggestions.Score | src/app/api/suggestions/route.ts:95-117 | apart from twice the user's own stars, a score lies between -10 and 9; `OwnRatingBonus`, `DerivedBonus`, `ExplicitBonus` and `SavedPenalty` give each term |
| Suggestions.ScoreAll | src/app/api/suggestions/route.ts:95-118 | one scored entry per catalogue recipe, in catalogue order, each carrying that recipe's own score |
| Suggestions.SortByScore | src/app/api/suggestions/route.ts:120 | the sorted list is a permutation ordered by non-increasing score |
| Suggestions.SortIsStable | src/app/api/suggestions/route.ts:120 | entries with equal scores keep their order |
| Suggestions.TopTen | src/app/api/suggestions/route.ts:121 | a prefix of at most ten entries, the whole list when shorter |
| Suggestions.Recommend | src/app/api/suggestions/route.ts:95-121 | at most ten recipes, sorted by non-increasing score, each from the catalogue with its own score, and each above 0 |
| Suggestions.RecommendKeepsBest | src/app/api/suggestions/route.ts:119-121 | every positive recipe left out scores no higher than every recipe kept, and fewer than ten kept means none was left out |
| Suggestions.RecommendTiesInCatalogOrder | src/app/api/suggestions/route.ts:120-121 | among the returned recipes, those with equal scores are in catalogue order |
| Suggestions.ColdStart | src/app/api/suggestions/route.ts:119 | with no ratings, no derived and no explicit preferences, nothing is recommended |
| Suggestions.Suggest | src/app/api/suggestions/route.ts:4-130 | 401 without a user; 500 "Failed to fetch ratings" or "Failed to fetch recipes"; failed preference or saved-list fetches only drop their contribution; otherwise the recommendations, the derived sets and the explicit record |
| StringOrder.NotAfterTransitive | src/app/api/get-all-ingredients/route.ts:26 | the default sort order is transitive (also proved reflexive, total and antisymmetric) |
| StringOrder.NotAfterTotal | src/app/api/get-all-ingredients/route.ts:26 | any two names are ordered one way or the other |
| StringOrder.NotAfterAntisymmetric | src/app/api/get-all-ingredients/route.ts:26 | names ordered both ways are equal |
| StringOrder.Sort | src/app/api/get-all-ingredients/route.ts:26 | the sorted array is ascending, is a permutation of the input, and keeps a duplicate-free input duplicate-free |
| StringOrder.AscendingUnique | src/app/api/get-all-ingredients/route.ts:26 | two ascending duplicate-free lists with the same members are equal |
| Seqs.Distinct | src/app/api/get-all-ingredients/route.ts:15-26 | a `Set` filled from a list holds each element once and exactly the list's elements |
| Seqs.AddNew | src/app/api/get-all-ingredients/route.ts:23 | `Set.add` keeps the set duplicate-free, adds exactly the new element and keeps insertion order |
| IngredientCatalogue.CollapseQuotes | src/app/api/get-all-ingredients/route.ts:20 | `replace(/""/g, '"')` never lengthens the text; `CollapseDoubled` and `CollapseWithoutPairs` give its effect |
| IngredientCatalogue.ReadColumn | src/app/api/get-all-ingredients/route.ts:17-21 | a text column is collapsed and parsed, a list column used as is, and a missing or unparsable one adds nothing; characterised by `CatalogueContents` and `CatalogueSkipsUnreadable` |
| IngredientCatalogue.CollapseDoubled | src/app/api/get-all-ingredients/route.ts:20 | collapsing `""` to `"` undoes doubling every quote |
| IngredientCatalogue.CollapseWithoutPairs | src/app/api/get-all-ingredients/route.ts:20 | text with no doubled quote is left as it is |
| IngredientCatalogue.AddNames | src/app/api/get-all-ingredients/route.ts:23 | the inner loop adds one row's names to the set, in order |
| IngredientCatalogue.GetAllIngredients | src/app/api/get-all-ingredients/route.ts:9-31 | a database error gives `Database Error: <message>`; otherwise the nested loops and the sort return the catalogue |
| IngredientCatalogue.CatalogueContents | src/app/api/get-all-ingredients/route.ts:15-26 | the list is ascending and duplicate-free, and a name is in it iff some ingredient of some readable row carries it |
| IngredientCatalogue.CatalogueSkipsUnreadable | src/app/api/get-all-ingredients/route.ts:18-22 | a row whose text does not parse adds nothing; the list is the one built without that row |
| IngredientCatalogue.CatalogueIgnoresRowOrder | src/app/api/get-all-ingredients/route.ts:15-26 | rows in any order give the same list |
| IngredientCatalogue.GetAllIngredientsDirect | src/app/api/recognize-ingredients/get-all-ingredients/route.ts:10-38 | a database error gives `Database Error: <message>`; a row holding text makes `forEach` throw; otherwise the catalogue with missing columns read as empty |
| IngredientCatalogue.CatalogueDirectContents | src/app/api/recognize-ingredients/get-all-ingredients/route.ts:22-33 | the list is ascending and duplicate-free, and a name is in it iff some ingredient of some row carries it |
| IngredientCatalogue.RoutesAgree | src/app/api/recognize-ingredients/get-all-ingredients/route.ts:24-30 | where no row holds text, both routes return the same list |
| RateRecipe.Invalid | src/app/api/rate-recipe/route.ts:21-23 | the `POST` check: a falsy id or type, or a rating outside 1 to 5; used by `RatingsTable.Post`'s contract |
| RateRecipe.Upserted | src/app/api/rate-recipe/route.ts:26-35 | the new row is present, rows of other keys are untouched, no other row appears, and with unique keys it is the only row of its key |
| RateRecipe.UpsertedTwice | src/app/api/rate-recipe/route.ts:26-35 | upserting the same rating twice is upserting it once |
| RateRecipe.UpsertedInRange | src/app/api/rate-recipe/route.ts:21-35 | upserting a checked rating keeps every stored rating in [1,5] |
| RateRecipe.OwnRating | src/app/api/rate-recipe/route.ts:66-72 | the rating found is a row of the caller for the recipe and type; none found means no such row |
| RateRecipe.RoundTenths | src/app/api/rate-recipe/route.ts:88 | `Math.round(x*10)/10` is within 0.05 of `x` |
| RateRecipe.AverageBounds | src/app/api/rate-recipe/route.ts:81-84 | the mean of values in [lo,hi] lies in [lo,hi] |
| RateRecipe.AverageRatingInRange | src/app/api/rate-recipe/route.ts:81-88 | the rounded average of checked ratings lies in [1,5] |
| RateRecipe.RatingsTable.Post | src/app/api/rate-recipe/route.ts:10-46 | 401 without a user, 400 on invalid data, 500 `Upsert error: <message>` leaving the table, otherwise the table upserted; keys stay unique and ratings in [1,5] |
| RateRecipe.RatingsTable.Get | src/app/api/rate-recipe/route.ts:48-94 | 401, 400 without recipe or type; with a user, a recipe and a type always a rating answer: the caller's rating or 0, and the rounded average, 0 without ratings and in [1,5] with some |
| FavoritesToggle.ToggledNormal | src/app/api/favorites/toggle/route.ts:32-56 | the favourite's membership flips and every other favourite is untouched |
| FavoritesToggle.ToggledNormalTwice | src/app/api/favorites/toggle/route.ts:32-56 | two toggles restore the favourites |
| FavoritesToggle.ToggledAi | src/app/api/favorites/toggle/route.ts:63-97 | whether the user has the AI recipe saved flips: all matching rows are deleted, or one row with the whole data is inserted; other rows are untouched |
| FavoritesToggle.ToggledAiTwice | src/app/api/favorites/toggle/route.ts:63-97 | two toggles restore whether the AI recipe is saved |
| FavoritesToggle.ToggledAiTwiceUnsaved | src/app/api/favorites/toggle/route.ts:63-97 | saving and unsaving an unsaved AI recipe restores the rows exactly |
| FavoritesToggle.Favorites.Post | src/app/api/favorites/toggle/route.ts:4-104 | 401; the three 400 messages; the check, delete and insert errors with nothing changed; otherwise the toggle, with `saved` equal to membership afterwards and other users' rows untouched |
| RecognizeIngredients.Kept | src/app/api/recognize-ingredients/route.ts:51 | a label is kept when its score is above 0.80 and it is not generic; characterised by `RecognizedMembers` |
| RecognizeIngredients.Recognize | src/app/api/recognize-ingredients/route.ts:50-53 | at most one ingredient per label; `RecognizedMembers` and `RecognizedInOrder` give which ones and in what order |
| RecognizeIngredients.Descriptions | src/app/api/recognize-ingredients/route.ts:52-53 | exactly the descriptions present, null ones dropped |
| RecognizeIngredients.RecognizedMembers | src/app/api/recognize-ingredients/route.ts:51-53 | a text is returned iff some label with it scores above 0.80 and is not generic; "Food", "Ingredient" and "Tableware" never are |
| RecognizeIngredients.RecognizedInOrder | src/app/api/recognize-ingredients/route.ts:50-53 | the result is a subsequence of the labels' descriptions |
| RecognizeIngredients.Post | src/app/api/recognize-ingredients/route.ts:7-59 | 400 without an image, before any upload; 500 `Storage Error: <message>`; 500 with the recogniser's own error; no labels gives no list; otherwise the recognised list, with no generic entries |
| RecipeFinder.Toggled | src/components/RecipeFinder.tsx:95-101 | a selected ingredient is removed everywhere, the others kept in order with their counts; an absent one is appended |
| RecipeFinder.ToggledTwice | src/components/RecipeFinder.tsx:95-101 | toggling an absent ingredient twice restores the selection |
| RecipeFinder.ToggledNoDup | src/components/RecipeFinder.tsx:95-101 | toggling keeps a duplicate-free selection duplicate-free |
| RecipeFinder.TypedIngredient | src/components/RecipeFinder.tsx:104 | the trimmed text is added only when it is non-empty and not yet selected |
| RecipeFinder.MatchingIngredients | src/components/RecipeFinder.tsx:173-175 | the master entries containing the text case-insensitively, and only those, in master-list order |
| RecipeFinder.MatchingEmptyText | src/components/RecipeFinder.tsx:173-175 | empty text shows the whole master list |
| RecipeFinder.MatchingIgnoresCase | src/components/RecipeFinder.tsx:174 | typing in lower case shows the same entries |
| RecipeFinder.NormalisedMaxTime | src/components/RecipeFinder.tsx:126 | an empty time is sent as null |
| RecipeFinder.MaxTimeOfNumber | src/components/RecipeFinder.tsx:126 | a time typed as a plain number is sent as that number |
| JsNumber.ParseIntOfNat | src/components/RecipeFinder.tsx:126 | `parseInt` reads a printed natural number back |
| RecipeFinder.NormalisedDifficulty | src/components/RecipeFinder.tsx:127 | difficulty "any" is sent as null, anything else as is |
| RecipeFinder.Finder.constructor | src/components/RecipeFinder.tsx:24-37 | the initial state: nothing selected, "any" filters, nothing loading, the input view |
| RecipeFinder.Finder.MasterListLoaded | src/components/RecipeFinder.tsx:40-52 | the catalogue becomes the master list, or "Could not load ingredient list." is shown |
| RecipeFinder.Finder.ToggleIngredient | src/components/RecipeFinder.tsx:95-101 | the selection is toggled and stays duplicate-free |
| RecipeFinder.Finder.AddTextIngredient | src/components/RecipeFinder.tsx:103-108 | the trimmed text is appended and the box cleared, or nothing changes; the selection stays duplicate-free |
| RecipeFinder.Finder.StartRecognize | src/components/RecipeFinder.tsx:69-78 | without a file, an error and no request; otherwise loading starts |
| RecipeFinder.Finder.RecognizeAnswered | src/components/RecipeFinder.tsx:84-91 | the recognised list (or none) replaces the selection, or the error is shown; loading ends |
| RecipeFinder.Finder.StartSearch | src/components/RecipeFinder.tsx:111-129 | an empty selection gives an error and no request; otherwise loading starts, results clear and the normalised request is sent (also lines 142-160) |
| RecipeFinder.Finder.SearchAnswered | src/components/RecipeFinder.tsx:130-138 | the recipes are shown in the results view, or the error; loading ends either way (also lines 161-169) |
| RecipeFinder.Finder.BackToInput | src/components/RecipeFinder.tsx:179 | the results' back button returns to the form |
| ImageUploader.RemovedAt | src/components/ImageUploader.tsx:79-81 | exactly position i is removed and the others kept in order; an index out of range changes nothing |
| ImageUploader.RemovedAtRestored | src/components/ImageUploader.tsx:80 | putting the removed entry back restores the list |
| ImageUploader.RemovedAtCounts | src/components/ImageUploader.tsx:80 | exactly one copy of the entry is removed |
| ImageUploader.Uploader.constructor | src/components/ImageUploader.tsx:20-28 | the initial state: no ingredients, nothing loading, the uploader view |
| ImageUploader.Uploader.StartRecognize | src/components/ImageUploader.tsx:47-56 | without a file, an error and nothing else changes; otherwise loading starts and the ingredients are cleared |
| ImageUploader.Uploader.RecognizeAnswered | src/components/ImageUploader.tsx:66-76 | success sets the ingredients and moves to the editor; failure shows the error; loading ends |
| ImageUploader.Uploader.RemoveIngredient | src/components/ImageUploader.tsx:79-81 | the ingredient at the index is removed |
| ImageUploader.Uploader.AddIngredient | src/components/ImageUploader.tsx:83-89 | the trimmed text is appended and the box cleared, or nothing changes |
| ImageUploader.Uploader.StartFind | src/components/ImageUploader.tsx:91-99 | loading starts, results clear, and the ingredients are sent as they are |
| ImageUploader.Uploader.FindAnswered | src/components/ImageUploader.tsx:101-109 | success shows the results view; failure the error; loading ends |
| ImageUploader.Uploader.BackFromResults | src/components/ImageUploader.tsx:115 | back from the results returns to the editor |
| ImageUploader.Uploader.BackToUploader | src/components/ImageUploader.tsx:144 | the editor's link returns to the uploader |

## Left out

- Floating point: numbers are exact rationals. Binary rounding error in `Math.round(x*100)/100` is not modelled, nor is exponent notation from `toString` for huge or tiny values.
- `parseFloat` is a decimal-prefix reader with an optional sign. Exponents and "Infinity" (which `scaleNumericValue` would accept) are not modelled.
- `parseInt` of the maximum time reads only a plain decimal number with an optional sign (`JsNumber.ParseInt`). Hexadecimal prefixes are not modelled.
- Unicode case folding: `toLowerCase` is ASCII case folding.
- Sort order: strings are ordered by code points, not by UTF-16 code units as JavaScript's default sort orders them. The two differ only for characters above U+FFFF.
- `JSON.parse` is a parameter returning a list or nothing. A parse result that is not a list (which would make `forEach` throw) is not modelled. The catalogue route's and the suggestions route's JSON columns are taken as already decoded or absent.
- Catalogue routes: a query that returns no error and no rows is read as an empty list. The second route would then throw on `recipes.forEach`.
- RateRecipe.RatingsTable.Post: a request body without a `rating` passes the JavaScript check, because `undefined < 1` is false. The model's request always carries a rating.
- RateRecipe.RatingsTable.Get: the id in the query string matches a stored recipe only when it is the canonical decimal text of that id. The database's lenient text-to-integer cast (" 7", "07") is not modelled.
- RateRecipe.RatingsTable.Get: read errors of the two GET queries are ignored by the route and fall back to the defaults. The model's reads do not fail.
- FavoritesToggle.Favorites.Post: duplicate catalogue favourites are not modelled, because here the table is a set. In the real database `.single()` reports duplicate rows under the same code, PGRST116, as "no rows". The route reads that code as "not found", so with duplicates it inserts yet another row and answers `saved: true` rather than 500.
- FavoritesToggle.Favorites.Post: the authentication error and a missing user are one `None`. A check error with code PGRST116 ("not found") is passed in as no error.
- The AI recipe id's JSON type and the rest of `recipeData` are opaque strings.
- Suggestions.Suggest: the per-id recipe lookups (route lines 56-67) are one map, and a missing `cuisine` or `difficulty` field is not modelled. The catch-all "Internal server error" is not modelled, because the model throws nothing.
- RecognizeIngredients.Post: the label score is an exact number. The upload's file name, public URL and credentials are not modelled.
- Rendering, effects, object URLs for previews, the input-mode tabs and the file picker are not modelled. Only `ImageUploader`'s handlers carry the disabled button or the rendering view as preconditions (`StartRecognize`, `StartFind`, `BackFromResults`, `BackToUploader`). `RecipeFinder`'s handlers are modelled unguarded: `Finder.StartRecognize` and `Finder.StartSearch` do not require that no search is loading or that the input view is shown, although the component disables those buttons while loading and renders them only in the input view.
- Other routes and components (AI recipe generation, recipe search, favourites listing, pages, cards, stars, sign-out, typing subtitle) are not part of this model.
