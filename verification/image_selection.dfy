/** The first quiz step: the user clicks pictures to select or deselect
    them; Continue is enabled once something is selected. */
module ImageSelection {
  import opened Base
  import opened QuizTypes

  /** `selectedImages.some(img => img.id === id)`. */
  predicate HasId(images: seq<QuizImage>, id: string)
  {
    exists i :: 0 <= i < |images| && images[i].id == id
  }

  /** The filter callback `img => img.id !== id`. */
  function OtherId(id: string): QuizImage -> bool
  {
    (img: QuizImage) => img.id != id
  }

  /** `toggleImageSelection`: a picture whose id is already selected is
      removed (every entry with that id), any other is appended. */
  function ToggleImage(selected: seq<QuizImage>, image: QuizImage): (r: seq<QuizImage>)
    ensures !HasId(selected, image.id) ==> r == selected + [image]
    ensures HasId(selected, image.id) ==>
              !HasId(r, image.id) && |r| < |selected|
              && (forall i :: 0 <= i < |r| ==> r[i] in selected)
              && (forall i :: 0 <= i < |selected| && selected[i].id != image.id ==> selected[i] in r)
              && (forall x: QuizImage :: x.id != image.id ==> Occurrences(r, x) == Occurrences(selected, x))
  {
    if HasId(selected, image.id) then
      var k :| 0 <= k < |selected| && selected[k].id == image.id;
      FilterShrinks(selected, OtherId(image.id), k);
      FilterMembers(selected, OtherId(image.id));
      assert forall x: QuizImage :: x.id != image.id ==>
               Occurrences(Filter(selected, OtherId(image.id)), x) == Occurrences(selected, x) by {
        forall x: QuizImage | x.id != image.id
          ensures Occurrences(Filter(selected, OtherId(image.id)), x) == Occurrences(selected, x)
        {
          FilterOccurrences(selected, OtherId(image.id), x);
        }
      }
      Filter(selected, OtherId(image.id))
    else selected + [image]
  }

  /** Removing keeps the remaining pictures in their order. */
  lemma ToggleImageKeepsOrder(selected: seq<QuizImage>, image: QuizImage)
    requires HasId(selected, image.id)
    ensures IsSubsequence(ToggleImage(selected, image), selected)
  {
    FilterIsSubsequence(selected, OtherId(image.id));
  }

  /** Toggling a picture that is not selected twice gives back the
      original selection. */
  lemma ToggleImageTwice(selected: seq<QuizImage>, image: QuizImage)
    requires !HasId(selected, image.id)
    ensures ToggleImage(ToggleImage(selected, image), image) == selected
  {
    var once := selected + [image];
    assert once[|selected|].id == image.id;
    FilterAppend(selected, [image], OtherId(image.id));
    FilterAll(selected, OtherId(image.id));
    assert Filter([image], OtherId(image.id)) == [];
  }

  /** Selected ids stay distinct under toggling. */
  lemma ToggleImageKeepsIdsDistinct(selected: seq<QuizImage>, image: QuizImage)
    requires forall i, j :: 0 <= i < j < |selected| ==> selected[i].id != selected[j].id
    ensures var r := ToggleImage(selected, image);
            forall i, j :: 0 <= i < j < |r| ==> r[i].id != r[j].id
  {
    var r := ToggleImage(selected, image);
    if HasId(selected, image.id) {
      FilterIsSubsequence(selected, OtherId(image.id));
      var idx: seq<nat> :| |idx| == |r|
        && (forall i :: 0 <= i < |idx| ==> idx[i] < |selected| && r[i] == selected[idx[i]])
        && (forall i, j :: 0 <= i < j < |idx| ==> idx[i] < idx[j]);
      forall i, j | 0 <= i < j < |r| ensures r[i].id != r[j].id {
        assert r[i] == selected[idx[i]] && r[j] == selected[idx[j]];
      }
    }
  }

  /** Continue is enabled exactly when something is selected. */
  predicate CanContinue(selected: seq<QuizImage>)
  {
    |selected| > 0
  }
}
