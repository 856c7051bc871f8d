/**
  The submission form of components/ProductInput.tsx: how the text box and the photo
  preview become the object handed to `onSubmit`, when the submit button is enabled,
  and which dropped or chosen files are read.
*/
module ProductInput {
  import opened Wrappers
  import opened JsString
  import opened Types

  /** The object passed to `onSubmit`. */
  datatype Submission = Submission(text: string, image: string, kind: InputKind)

  /**
    Lines 20-25: the kind comes from the UNTRIMMED text and the preview (`null` is `None`);
    a photo with any text is `Smart`, a photo alone `Image`, else "http" decides.
  */
  function Classify(textInput: string, imagePreview: Option<string>): (k: InputKind)
    ensures k == Smart <==> textInput != "" && Truthy(imagePreview)
    ensures k == Image <==> textInput == "" && Truthy(imagePreview)
    ensures k == Url <==> !Truthy(imagePreview) && StartsWith(textInput, "http")
    ensures k == Asin <==> !Truthy(imagePreview) && !StartsWith(textInput, "http")
  {
    if textInput != "" && Truthy(imagePreview) then Smart
    else if Truthy(imagePreview) then Image
    else if StartsWith(textInput, "http") then Url
    else Asin
  }

  /** Lines 18-32: the submitted text is trimmed, the image is the preview or "". */
  function Submit(textInput: string, imagePreview: Option<string>): (s: Submission)
    ensures s.kind == Classify(textInput, imagePreview)
    ensures s.text == Trim(textInput)
    ensures imagePreview.Some? ==> s.image == imagePreview.value
    ensures imagePreview.None? ==> s.image == ""
  {
    Submission(Trim(textInput), OrElse(imagePreview, ""), Classify(textInput, imagePreview))
  }

  /** A URL typed after a space is classified as an ASIN, yet submitted without the space. */
  lemma LeadingSpaceUrlIsAsin(url: string)
    requires StartsWith(url, "http") && !IsWhitespace(url[|url| - 1])
    ensures Submit(" " + url, None) == Submission(url, "", Asin)
  {
    ClassifySpacedUrl(url);
    TrimSpacedUrl(url);
  }

  lemma ClassifySpacedUrl(url: string)
    ensures Classify(" " + url, None) == Asin
  {
    var s := " " + url;
    assert !StartsWith(s, "http") by { assert |s| >= 4 ==> s[..4][0] == ' '; }
  }

  lemma TrimSpacedUrl(url: string)
    requires StartsWith(url, "http") && !IsWhitespace(url[|url| - 1])
    ensures Trim(" " + url) == url
  {
    assert url[0] == 'h' by { assert url[..4][0] == url[0]; }
    TrimLeadingWhitespace(' ', url);
    TrimUnchanged(url);
  }

  /** Blank text beside a photo is `Smart` (the text is non-empty) but is submitted as "". */
  lemma BlankTextWithImageIsSmart(blank: string, image: string)
    requires blank != "" && AllWhitespace(blank) && image != ""
    ensures Submit(blank, Some(image)) == Submission("", image, Smart)
  {
  }

  /** Line 158: enabled exactly when the text is not blank or a photo is loaded. */
  function SubmitEnabled(textInput: string, imagePreview: Option<string>): (enabled: bool)
    ensures enabled <==> !AllWhitespace(textInput) || Truthy(imagePreview)
  {
    !(Trim(textInput) == "" && !Truthy(imagePreview))
  }

  /** The enabled button never submits an empty request: some text or a photo goes out. */
  lemma EnabledSubmissionNotEmpty(textInput: string, imagePreview: Option<string>)
    requires SubmitEnabled(textInput, imagePreview)
    ensures var s := Submit(textInput, imagePreview);
            s.text != "" || s.image != ""
  {
  }

  /** Line 35: a file is read only when its MIME type starts with "image/" (case-sensitive). */
  function AcceptsFile(mimeType: string): (accepted: bool)
    ensures accepted <==> |mimeType| >= 6 && mimeType[..6] == "image/"
  {
    StartsWith(mimeType, "image/")
  }

  /** Every image subtype is read, whatever follows the slash. */
  lemma AcceptsImageSubtypes(subtype: string)
    ensures AcceptsFile("image/" + subtype)
  {
    assert ("image/" + subtype)[..6] == "image/";
  }

  /** The test is case-sensitive: no type starting with a capital letter is read. */
  lemma AcceptsFileCaseSensitive(mimeType: string)
    requires mimeType != "" && 'A' <= mimeType[0] <= 'Z'
    ensures !AcceptsFile(mimeType)
  {
    assert |mimeType| >= 6 ==> mimeType[..6][0] == mimeType[0];
  }
}
