/**
 * The essay submission form of the home page: grade, word count, title and
 * a list of uploaded images, with the rule that enables its submit button.
 * An image is represented by its file; the preview URL the browser makes
 * for it is not modelled.
 */
module SubmitForm {
  /** The grade codes the grade selector offers, in display order. */
  const GradeCodes: seq<string> := [
    "primary1", "primary2", "primary3", "primary4", "primary5", "primary6",
    "junior1", "junior2", "junior3",
    "high1", "high2", "high3"]

  datatype Image = Image(file: string)

  datatype Form = Form(grade: string, wordCount: string, title: string, images: seq<Image>, isSubmitting: bool)

  /** `handleImageUpload`: the chosen files go after the images already
      there, in the order chosen. */
  function Upload(f: Form, files: seq<string>): (r: Form)
    ensures |files| == 0 ==> r == f
    ensures |r.images| == |f.images| + |files|
    ensures r.images[..|f.images|] == f.images
    ensures forall k :: 0 <= k < |files| ==> r.images[|f.images| + k] == Image(files[k])
    ensures r == f.(images := r.images)
  {
    if |files| > 0 then
      f.(images := f.images + seq(|files|, k requires 0 <= k < |files| => Image(files[k])))
    else f
  }

  /** `images.filter((_, i) => i !== index)`, from position `from` on. */
  function WithoutIndex(images: seq<Image>, index: int, from: nat): (r: seq<Image>)
    ensures from <= index < from + |images| ==>
      r == images[..index - from] + images[index - from + 1..]
    ensures !(from <= index < from + |images|) ==> r == images
    decreases |images|
  {
    if |images| == 0 then []
    else
      var rest := WithoutIndex(images[1..], index, from + 1);
      if from == index then
        assert images[1..][..0] == [];
        rest
      else
        ConsSplit(images, index - from);
        [images[0]] + rest
  }

  lemma ConsSplit(images: seq<Image>, j: int)
    requires |images| > 0
    ensures [images[0]] + images[1..] == images
    ensures 1 <= j < |images| ==>
      && [images[0]] + images[1..][..j - 1] == images[..j]
      && images[1..][j - 1 + 1..] == images[j + 1..]
  {
  }

  /** `removeImage(index)`: exactly the image at `index` goes, the others
      keep their order; an index outside the list changes nothing. */
  function RemoveImage(f: Form, index: int): (r: Form)
    ensures 0 <= index < |f.images| ==>
      && |r.images| == |f.images| - 1
      && (forall k :: 0 <= k < index ==> r.images[k] == f.images[k])
      && (forall k :: index <= k < |r.images| ==> r.images[k] == f.images[k + 1])
    ensures !(0 <= index < |f.images|) ==> r == f
    ensures r == f.(images := r.images)
  {
    f.(images := WithoutIndex(f.images, index, 0))
  }

  /** `resetForm`: clears the fields and the images; the busy flag stays. */
  function Reset(f: Form): (r: Form)
    ensures r.grade == "" && r.wordCount == "" && r.title == "" && r.images == []
    ensures r.isSubmitting == f.isSubmitting
  {
    Form("", "", "", [], f.isSubmitting)
  }

  /** The submit button is disabled while submitting and until a grade, a
      title and at least one image are given; the word count is optional. */
  predicate SubmitDisabled(f: Form) {
    f.isSubmitting || f.grade == "" || f.title == "" || |f.images| == 0
  }

  lemma SubmitRule(f: Form)
    ensures !SubmitDisabled(f) <==> !f.isSubmitting && |f.grade| > 0 && |f.title| > 0 && |f.images| > 0
    ensures SubmitDisabled(Reset(f))
    ensures forall wc :: SubmitDisabled(f.(wordCount := wc)) == SubmitDisabled(f)
  {
  }

  /** Removing the image just uploaded gives back the earlier list. */
  lemma RemoveUndoesUpload(f: Form, file: string)
    ensures RemoveImage(Upload(f, [file]), |f.images|) == f
  {
    var u := Upload(f, [file]);
    assert u.images[..|f.images|] == f.images;
    assert u.images[|f.images| + 1..] == [];
    assert WithoutIndex(u.images, |f.images|, 0) == f.images;
  }
}
