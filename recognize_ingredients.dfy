/**
 * The `recognize-ingredients` route: an uploaded photo is labelled by an image
 * recogniser, and the confident, specific labels become the list of
 * ingredients.
 *
 * The upload and the recogniser are parameters: the upload's error, if any,
 * and the labels the recogniser returned (or the message it failed with).
 */
module RecognizeIngredients {
  import opened Wrappers
  import opened Seqs

  /** One label annotation: its confidence and its text, either of which may be absent. */
  datatype Label = Label(score: Option<real>, description: Option<string>)

  datatype Response =
    | Recognized(ingredients: Option<seq<string>>)
    | BadRequest(message: string)
    | ServerError(message: string)

  /** Labels too general to be an ingredient. */
  predicate Generic(d: string) {
    d == "Food" || d == "Ingredient" || d == "Tableware"
  }

  /** The first `filter`: a truthy score above 0.80 and a description other than the generic ones. */
  predicate Kept(l: Label) {
    l.score.Some? && l.score.value > 0.80 && !(l.description.Some? && Generic(l.description.value))
  }

  /** `.map(label => label.description).filter(desc => desc != null)`: the descriptions present, in order. */
  function Descriptions(labels: seq<Label>): (r: seq<string>)
    ensures |r| <= |labels|
    ensures forall x :: x in r <==> exists l | l in labels :: l.description == Some(x)
  {
    if labels == [] then []
    else
      var rest := Descriptions(labels[1..]);
      assert labels == [labels[0]] + labels[1..];
      if labels[0].description.Some? then [labels[0].description.value] + rest else rest
  }

  /** The ingredients read from the labels. */
  function Recognize(labels: seq<Label>): (r: seq<string>)
    ensures |r| <= |labels|
  {
    Descriptions(Filter(labels, Kept))
  }

  /**
   * A text is returned exactly when some label with that description has a
   * score above 0.80 and is not generic; so no generic label is ever returned.
   */
  lemma RecognizedMembers(labels: seq<Label>, x: string)
    ensures x in Recognize(labels) <==>
      exists l | l in labels :: l.score.Some? && l.score.value > 0.80 && l.description == Some(x) && !Generic(x)
    ensures Generic(x) ==> x !in Recognize(labels)
  {
    var kept := Filter(labels, Kept);
    if x in Recognize(labels) {
      var l :| l in kept && l.description == Some(x);
      assert l in labels && Kept(l);
    }
  }

  /** The descriptions of a subsequence of labels are a subsequence of their descriptions. */
  lemma {:induction false} DescriptionsSubsequence(a: seq<Label>, b: seq<Label>)
    requires SubsequenceOf(a, b)
    ensures SubsequenceOf(Descriptions(a), Descriptions(b))
    decreases |b|
  {
    if a == [] {
    } else if a[0] == b[0] {
      DescriptionsSubsequence(a[1..], b[1..]);
      if b[0].description.Some? {
        assert Descriptions(a)[1..] == Descriptions(a[1..]);
        assert Descriptions(b)[1..] == Descriptions(b[1..]);
      }
    } else {
      DescriptionsSubsequence(a, b[1..]);
      if b[0].description.Some? {
        assert Descriptions(b)[1..] == Descriptions(b[1..]);
        SubsequenceSkip(Descriptions(a), Descriptions(b));
      }
    }
  }

  /** The ingredients keep the order of the labels they come from. */
  lemma RecognizedInOrder(labels: seq<Label>)
    ensures SubsequenceOf(Recognize(labels), Descriptions(labels))
  {
    DescriptionsSubsequence(Filter(labels, Kept), labels);
  }

  /**
   * `POST`: 400 when the form carries no image, before anything is uploaded;
   * 500 with the storage or recogniser message when either fails; otherwise
   * the recognised ingredients (absent when the recogniser gave no labels).
   */
  function Post(hasImage: bool, uploadError: Option<string>, labels: Result<Option<seq<Label>>, string>): (r: Response)
    ensures !hasImage ==> r == BadRequest("No image file provided.")
    ensures hasImage && uploadError.Some? ==> r == ServerError("Storage Error: " + uploadError.value)
    ensures r.Recognized? ==> hasImage && uploadError.None? && labels.Success?
    ensures hasImage && uploadError.None? && labels.Failure? ==> r == ServerError(labels.error)
    ensures hasImage && uploadError.None? && labels.Success? && labels.value.None? ==> r == Recognized(None)
    ensures hasImage && uploadError.None? && labels.Success? && labels.value.Some? ==>
      r == Recognized(Some(Recognize(labels.value.value)))
    ensures r.Recognized? && r.ingredients.Some? ==>
      labels.value.Some? && forall x | x in r.ingredients.value :: !Generic(x)
  {
    if !hasImage then BadRequest("No image file provided.")
    else if uploadError.Some? then ServerError("Storage Error: " + uploadError.value)
    else if labels.Failure? then ServerError(labels.error)
    else if labels.value.None? then Recognized(None)
    else
      var found := Recognize(labels.value.value);
      assert forall x | x in found :: !Generic(x) by {
        forall x | x in found ensures !Generic(x) {
          RecognizedMembers(labels.value.value, x);
        }
      }
      Recognized(Some(found))
  }
}
