/**
  The application state of App.tsx. Every handler is one atomic transition of a
  single `Store` object; an async handler is split into the transition it makes
  before the model call and the ones it makes when the call resolves or throws.
  The per-image updaters (`prev.images.map(...)`) are pure functions.
*/
module AppStore {
  import opened Wrappers
  import opened JsString
  import opened Types

  /** `.slice(0, 20)`: the most history entries kept after an analysis. */
  const HistoryCap := 20
  const AnalysisFailedMessage := "Analysis failed. Please try a different product or verify your API key."
  const GenerationFailedMessage := "Generation failed."

  datatype Step = InputStep | Analyzing | Results

  datatype InputSource = InputSource(kind: InputKind, value: string)

  /** What `generateImage` is handed: the brief, the usable reference, the product description. */
  datatype GenerationRequest = GenerationRequest(brief: ListingImage, reference: Option<string>, visualDescription: string)

  /* ---------------- per-image updaters ---------------- */

  /** The current image is one of the image's recorded versions. */
  predicate UrlInVersions(img: ListingImage) {
    img.generatedImageUrl.Some? ==> img.generatedImageUrl.value in img.versions
  }

  predicate AllUrlsInVersions(images: seq<ListingImage>) {
    forall j :: 0 <= j < |images| ==> UrlInVersions(images[j])
  }

  /** Same slots, and every slot's version list only grew at its end. */
  predicate VersionsExtend(before: seq<ListingImage>, after: seq<ListingImage>) {
    |before| == |after| && forall j :: 0 <= j < |before| ==> before[j].versions <= after[j].versions
  }

  /** `isLoading` set at `index` (lines 134, 154, 166, 184). */
  function SetLoading(images: seq<ListingImage>, index: int, flag: bool): (r: seq<ListingImage>)
    ensures |r| == |images|
    ensures forall j :: 0 <= j < |r| && j != index ==> r[j] == images[j]
    ensures 0 <= index < |images| ==> r[index] == images[index].(isLoading := Some(flag))
    ensures AllUrlsInVersions(images) ==> AllUrlsInVersions(r)
    ensures forall j :: 0 <= j < |r| ==> r[j].versions == images[j].versions
  {
    seq(|images|, j requires 0 <= j < |images| =>
      if j == index then images[j].(isLoading := Some(flag)) else images[j])
  }

  /**
    A finished generation or edit at `index` (lines 143-148, 173-178): the new URL becomes
    current and is appended to the versions, the spinner stops.
  */
  function RecordVersion(images: seq<ListingImage>, index: int, url: string): (r: seq<ListingImage>)
    ensures |r| == |images|
    ensures forall j :: 0 <= j < |r| && j != index ==> r[j] == images[j]
    ensures 0 <= index < |images| ==>
              && r[index].generatedImageUrl == Some(url)
              && r[index].versions == images[index].versions + [url]
              && r[index].isLoading == Some(false)
              && r[index] == images[index].(generatedImageUrl := r[index].generatedImageUrl,
                                            versions := r[index].versions, isLoading := r[index].isLoading)
    ensures 0 <= index < |images| ==> UrlInVersions(r[index])
    ensures AllUrlsInVersions(images) ==> AllUrlsInVersions(r)
    ensures VersionsExtend(images, r)
  {
    seq(|images|, j requires 0 <= j < |images| =>
      if j == index then
        images[j].(generatedImageUrl := Some(url), versions := images[j].versions + [url], isLoading := Some(false))
      else images[j])
  }

  /** A version switch at `index` (line 192): only the current URL moves, without a membership check. */
  function SelectVersion(images: seq<ListingImage>, index: int, url: string): (r: seq<ListingImage>)
    ensures |r| == |images|
    ensures forall j :: 0 <= j < |r| && j != index ==> r[j] == images[j]
    ensures 0 <= index < |images| ==> r[index] == images[index].(generatedImageUrl := Some(url))
    ensures forall j :: 0 <= j < |r| ==> r[j].versions == images[j].versions
    ensures AllUrlsInVersions(images) && (0 <= index < |images| ==> url in images[index].versions)
            ==> AllUrlsInVersions(r)
  {
    seq(|images|, j requires 0 <= j < |images| =>
      if j == index then images[j].(generatedImageUrl := Some(url)) else images[j])
  }

  /** The fields `updateImageField` can set: the string-valued keys of ListingImage. */
  datatype Field = Id | Kind | Title | Headline | SubCopy | VisualPrompt | CreativeBrief | GeneratedImageUrl

  function FieldValue(img: ListingImage, f: Field): Option<string> {
    match f
    case Id => Some(img.id)
    case Kind => Some(img.kind)
    case Title => Some(img.title)
    case Headline => Some(img.headline)
    case SubCopy => Some(img.subCopy)
    case VisualPrompt => Some(img.visualPrompt)
    case CreativeBrief => Some(img.creativeBrief)
    case GeneratedImageUrl => img.generatedImageUrl
  }

  /** `{ ...img, [field]: value }`: the named field takes the value, nothing else moves. */
  function WithField(img: ListingImage, f: Field, value: string): (r: ListingImage)
    ensures FieldValue(r, f) == Some(value)
    ensures forall g :: g != f ==> FieldValue(r, g) == FieldValue(img, g)
    ensures r.versions == img.versions && r.isLoading == img.isLoading
  {
    match f
    case Id => img.(id := value)
    case Kind => img.(kind := value)
    case Title => img.(title := value)
    case Headline => img.(headline := value)
    case SubCopy => img.(subCopy := value)
    case VisualPrompt => img.(visualPrompt := value)
    case CreativeBrief => img.(creativeBrief := value)
    case GeneratedImageUrl => img.(generatedImageUrl := Some(value))
  }

  /** Lines 119-124: every image whose id matches gets the field; the rest are untouched. */
  function UpdateField(images: seq<ListingImage>, id: string, f: Field, value: string): (r: seq<ListingImage>)
    ensures |r| == |images|
    ensures forall j :: 0 <= j < |r| && images[j].id != id ==> r[j] == images[j]
    ensures forall j :: 0 <= j < |r| && images[j].id == id ==> r[j] == WithField(images[j], f, value)
    ensures forall j :: 0 <= j < |r| ==> r[j].versions == images[j].versions
    ensures f != GeneratedImageUrl && AllUrlsInVersions(images) ==> AllUrlsInVersions(r)
  {
    var r := seq(|images|, j requires 0 <= j < |images| =>
      if images[j].id == id then WithField(images[j], f, value) else images[j]);
    assert f != GeneratedImageUrl ==> forall j :: 0 <= j < |r| ==>
      r[j].generatedImageUrl == images[j].generatedImageUrl by {
      if f != GeneratedImageUrl {
        forall j | 0 <= j < |r|
          ensures r[j].generatedImageUrl == images[j].generatedImageUrl
        {
          assert FieldValue(r[j], GeneratedImageUrl) == FieldValue(images[j], GeneratedImageUrl);
        }
      }
    }
    r
  }

  /** `n` successive successful generations (or edits) at one slot, oldest first. */
  function RecordVersions(images: seq<ListingImage>, index: int, urls: seq<string>): seq<ListingImage>
    decreases |urls|
  {
    if urls == [] then images else RecordVersions(RecordVersion(images, index, urls[0]), index, urls[1..])
  }

  /**
    After generating `urls` in turn at one slot, its versions are the old ones followed by
    `urls` in order, the current URL is the last of them, and no other slot changed.
  */
  lemma {:induction false} RecordVersionsAppends(images: seq<ListingImage>, index: int, urls: seq<string>)
    requires 0 <= index < |images| && urls != []
    decreases |urls|
    ensures var r := RecordVersions(images, index, urls);
            && |r| == |images|
            && r[index].versions == images[index].versions + urls
            && r[index].generatedImageUrl == Some(urls[|urls| - 1])
            && forall j :: 0 <= j < |r| && j != index ==> r[j] == images[j]
  {
    var once := RecordVersion(images, index, urls[0]);
    if |urls| > 1 {
      RecordVersionsAppends(once, index, urls[1..]);
      assert images[index].versions + [urls[0]] + urls[1..] == images[index].versions + urls;
      assert urls[1..][|urls[1..]| - 1] == urls[|urls| - 1];
    } else {
      assert urls == [urls[0]];
    }
  }

  /* ---------------- a new project (lines 76-95) ---------------- */

  /** Line 76: the photo itself for an image input, else the first extracted image URL, if any. */
  function FinalReference(kind: InputKind, input: string, analysis: ProductAnalysis): (r: Option<string>)
    ensures kind == Image ==> r == Some(input)
    ensures kind != Image ==> (r.Some? <==> analysis.extractedImageUrls.Some? && |analysis.extractedImageUrls.value| > 0)
    ensures kind != Image && r.Some? ==> r.value == analysis.extractedImageUrls.value[0]
  {
    if kind == Image then Some(input)
    else if analysis.extractedImageUrls.Some? && |analysis.extractedImageUrls.value| > 0 then
      Some(analysis.extractedImageUrls.value[0])
    else None
  }

  /** Line 85: every brief with an empty version list and every other field as it came. */
  function WithoutVersions(briefs: seq<ListingImage>): (r: seq<ListingImage>)
    ensures |r| == |briefs|
    ensures forall j :: 0 <= j < |r| ==> r[j].versions == [] && r[j] == briefs[j].(versions := [])
  {
    seq(|briefs|, j requires 0 <= j < |briefs| => briefs[j].(versions := []))
  }

  /** Lines 78-86; `idClock` and `timestamp` are the two `Date.now()` readings. */
  function NewHistoryItem(idClock: nat, timestamp: int, input: string, kind: InputKind,
                          analysis: ProductAnalysis, briefs: seq<ListingImage>): (item: HistoryItem)
    ensures item.id == DecimalString(idClock) && item.timestamp == timestamp
    ensures item.input == input && item.kind == kind && item.analysis == analysis
    ensures item.referenceImage == FinalReference(kind, input, analysis)
    ensures item.images == WithoutVersions(briefs)
  {
    HistoryItem(DecimalString(idClock), timestamp, input, kind, analysis,
                FinalReference(kind, input, analysis), WithoutVersions(briefs))
  }

  /** Line 95: `[item, ...history].slice(0, 20)`. */
  function PrependBounded(item: HistoryItem, history: seq<HistoryItem>): (r: seq<HistoryItem>)
    ensures |r| == if |history| + 1 <= HistoryCap then |history| + 1 else HistoryCap
    ensures r[0] == item
    ensures r[1..] == history[..|r| - 1]
  {
    var all := [item] + history;
    assert all[1..] == history;
    if |all| <= HistoryCap then all else all[..HistoryCap]
  }

  /** The entries dropped by the bound are always the oldest ones, at the end of the list. */
  lemma PrependBoundedDropsOldest(item: HistoryItem, history: seq<HistoryItem>)
    ensures var r := PrependBounded(item, history);
            history == r[1..] + history[|r| - 1..]
  {
    var r := PrependBounded(item, history);
    assert history == history[..|r| - 1] + history[|r| - 1..];
  }

  /* ---------------- the history mirror (lines 38-56) ---------------- */

  /** The ids of the history list, in order. */
  function Ids(history: seq<HistoryItem>): (ids: seq<string>)
    ensures |ids| == |history| && forall j :: 0 <= j < |ids| ==> ids[j] == history[j].id
  {
    seq(|history|, j requires 0 <= j < |history| => history[j].id)
  }

  /** `history.findIndex(h => h.id === id)`. */
  function HistoryIndex(history: seq<HistoryItem>, id: string): (k: int)
    ensures -1 <= k < |history|
    ensures k == -1 <==> forall j :: 0 <= j < |history| ==> history[j].id != id
    ensures k >= 0 ==> history[k].id == id && forall j :: 0 <= j < k ==> history[j].id != id
  {
    var ids := Ids(history);
    var k := IndexOf(ids, id);
    assert k >= 0 ==> forall j :: 0 <= j < k ==> ids[..k][j] == ids[j];
    assert k == -1 ==> forall j :: 0 <= j < |history| ==> ids[j] in ids;
    k
  }

  /**
    `{ ...h, images, analysis, referenceImage }`: the entry takes the working copy and keeps
    its identity (id, timestamp, input and kind).
  */
  function Mirrored(h: HistoryItem, images: seq<ListingImage>, analysis: ProductAnalysis,
                    referenceImage: Option<string>): (m: HistoryItem)
    ensures m.id == h.id && m.timestamp == h.timestamp && m.input == h.input && m.kind == h.kind
    ensures m.images == images && m.analysis == analysis && m.referenceImage == referenceImage
  {
    h.(images := images, analysis := analysis, referenceImage := referenceImage)
  }

  /** Mirroring the same working copy a second time changes nothing. */
  lemma MirroredIdempotent(h: HistoryItem, images: seq<ListingImage>, analysis: ProductAnalysis,
                           referenceImage: Option<string>)
    ensures var m := Mirrored(h, images, analysis, referenceImage);
            Mirrored(m, images, analysis, referenceImage) == m
  {
  }

  /* ---------------- the store ---------------- */

  class Store {
    var step: Step
    var activeHistoryId: Option<string>
    var analysis: Option<ProductAnalysis>
    var images: seq<ListingImage>
    var error: Option<string>
    var referenceImage: Option<string>
    var history: seq<HistoryItem>
    var inputSource: Option<InputSource>

    /** The results view always has an analysis: the mirror's `prev.analysis!` never fails. */
    ghost predicate Valid()
      reads this
    {
      step == Results ==> analysis.Some?
    }

    /** Line 40: the mirror effect runs when a project is active and its results are shown. */
    predicate SyncApplies()
      reads this
    {
      Truthy(activeHistoryId) && step == Results
    }

    /** The active project's history entry holds the working copy. */
    ghost predicate InSync()
      reads this
      requires Valid()
    {
      SyncApplies() ==>
        var k := HistoryIndex(history, activeHistoryId.value);
        k == -1 || history[k] == Mirrored(history[k], images, analysis.value, referenceImage)
    }

    /** Lines 12-20; `saved` is the decoded `localStorage` history, when there is one. */
    constructor (saved: Option<seq<HistoryItem>>)
      ensures Valid()
      ensures step == InputStep && images == [] && history == saved.GetOr([])
      ensures activeHistoryId == None && analysis == None && error == None
      ensures referenceImage == None && inputSource == None
    {
      step := InputStep;
      activeHistoryId := None;
      analysis := None;
      images := [];
      error := None;
      referenceImage := None;
      history := saved.GetOr([]);
      inputSource := None;
    }

    /** Lines 65-71: to the analyzing step; the reference is the input only for a photo. */
    method StartAnalysis(input: string, kind: InputKind)
      requires Valid()
      modifies this
      ensures Valid()
      ensures step == Analyzing && error == None
      ensures inputSource == Some(InputSource(kind, input))
      ensures referenceImage == (if kind == Image then Some(input) else None)
      ensures activeHistoryId == old(activeHistoryId) && analysis == old(analysis)
      ensures images == old(images) && history == old(history)
    {
      step := Analyzing;
      error := None;
      inputSource := Some(InputSource(kind, input));
      referenceImage := if kind == Image then Some(input) else None;
    }

    /**
      Lines 76-96: the pipeline returned `result` and `briefs`; a new project becomes the
      working copy and is prepended to the bounded history.
    */
    method AnalysisSucceeded(input: string, kind: InputKind, result: ProductAnalysis,
                             briefs: seq<ListingImage>, idClock: nat, timestamp: int)
      requires Valid()
      modifies this
      ensures Valid()
      ensures var item := NewHistoryItem(idClock, timestamp, input, kind, result, briefs);
              && history == PrependBounded(item, old(history))
              && activeHistoryId == Some(item.id)
              && images == item.images
              && referenceImage == item.referenceImage
      ensures step == Results && analysis == Some(result)
      ensures |history| <= HistoryCap && history[0].id == DecimalString(idClock)
      ensures history[1..] <= old(history)
      ensures |images| == |briefs| && forall j :: 0 <= j < |images| ==> images[j].versions == []
      ensures error == old(error) && inputSource == old(inputSource)
    {
      var item := NewHistoryItem(idClock, timestamp, input, kind, result, briefs);
      step := Results;
      activeHistoryId := Some(item.id);
      analysis := Some(result);
      images := item.images;
      referenceImage := item.referenceImage;
      history := PrependBounded(item, history);
    }

    /** Lines 97-103: back to the input step with the fixed message. */
    method AnalysisFailed()
      requires Valid()
      modifies this
      ensures Valid()
      ensures step == InputStep && error == Some(AnalysisFailedMessage)
      ensures activeHistoryId == old(activeHistoryId) && analysis == old(analysis)
      ensures images == old(images) && history == old(history)
      ensures referenceImage == old(referenceImage) && inputSource == old(inputSource)
    {
      step := InputStep;
      error := Some(AnalysisFailedMessage);
    }

    /** Lines 107-117: a stored project becomes the working copy. */
    method LoadFromHistory(item: HistoryItem)
      requires Valid()
      modifies this
      ensures Valid()
      ensures step == Results && activeHistoryId == Some(item.id)
      ensures analysis == Some(item.analysis) && images == item.images
      ensures referenceImage == item.referenceImage
      ensures inputSource == Some(InputSource(item.kind, item.input))
      ensures history == old(history) && error == old(error)
    {
      step := Results;
      activeHistoryId := Some(item.id);
      analysis := Some(item.analysis);
      images := item.images;
      referenceImage := item.referenceImage;
      inputSource := Some(InputSource(item.kind, item.input));
    }

    /** Lines 119-124. */
    method UpdateImageField(id: string, f: Field, value: string)
      requires Valid()
      modifies this`images
      ensures Valid()
      ensures images == UpdateField(old(images), id, f, value)
      ensures VersionsExtend(old(images), images)
    {
      images := UpdateField(images, id, f, value);
    }

    /**
      Lines 129-139 up to the call: nothing happens without an image at `index` or an
      analysis; otherwise the slot starts loading and the request carries the slot's
      brief, the reference if it is a data URI, and the analysis's visual description.
    */
    method BeginGenerate(index: int) returns (request: Option<GenerationRequest>)
      requires Valid()
      modifies this`images
      ensures Valid()
      ensures request.None? <==> !(0 <= index < |old(images)|) || analysis.None?
      ensures request.None? ==> images == old(images)
      ensures request.Some? ==>
                && images == SetLoading(old(images), index, true)
                && request.value.brief == old(images)[index]
                && request.value.reference == ReferenceForGeneration(referenceImage)
                && request.value.visualDescription == analysis.value.visualDescription
    {
      if !(0 <= index < |images|) || analysis.None? {
        return None;
      }
      request := Some(GenerationRequest(images[index], ReferenceForGeneration(referenceImage),
                                        analysis.value.visualDescription));
      images := SetLoading(images, index, true);
    }

    /** Lines 141-149. */
    method GenerateSucceeded(index: int, url: string)
      requires Valid()
      modifies this`images
      ensures Valid()
      ensures images == RecordVersion(old(images), index, url)
      ensures VersionsExtend(old(images), images)
      ensures AllUrlsInVersions(old(images)) ==> AllUrlsInVersions(images)
    {
      images := RecordVersion(images, index, url);
    }

    /** Lines 150-156: the spinner stops and the generation error is shown. */
    method GenerateFailed(index: int)
      requires Valid()
      modifies this`images, this`error
      ensures Valid()
      ensures images == SetLoading(old(images), index, false)
      ensures error == Some(GenerationFailedMessage)
      ensures VersionsExtend(old(images), images)
    {
      images := SetLoading(images, index, false);
      error := Some(GenerationFailedMessage);
    }

    /**
      Lines 161-170 up to the call: nothing happens unless the slot exists and has a
      (truthy) current image; otherwise it starts loading and that image is edited.
    */
    method BeginEdit(index: int) returns (source: Option<string>)
      requires Valid()
      modifies this`images
      ensures Valid()
      ensures source.None? <==> !(0 <= index < |old(images)|) || !Truthy(old(images)[index].generatedImageUrl)
      ensures source.None? ==> images == old(images)
      ensures source.Some? ==> source == old(images)[index].generatedImageUrl
                               && images == SetLoading(old(images), index, true)
    {
      if !(0 <= index < |images|) || !Truthy(images[index].generatedImageUrl) {
        return None;
      }
      source := images[index].generatedImageUrl;
      images := SetLoading(images, index, true);
    }

    /** Lines 171-179. */
    method EditSucceeded(index: int, url: string)
      requires Valid()
      modifies this`images
      ensures Valid()
      ensures images == RecordVersion(old(images), index, url)
      ensures VersionsExtend(old(images), images)
      ensures AllUrlsInVersions(old(images)) ==> AllUrlsInVersions(images)
    {
      images := RecordVersion(images, index, url);
    }

    /** Lines 180-185: the spinner stops; no error is recorded. */
    method EditFailed(index: int)
      requires Valid()
      modifies this`images
      ensures Valid()
      ensures images == SetLoading(old(images), index, false)
      ensures VersionsExtend(old(images), images)
    {
      images := SetLoading(images, index, false);
    }

    /** Lines 189-194; the invariant survives when the caller passes a recorded version. */
    method SwitchVersion(index: int, url: string)
      requires Valid()
      modifies this`images
      ensures Valid()
      ensures images == SelectVersion(old(images), index, url)
      ensures forall j :: 0 <= j < |images| ==> images[j].versions == old(images)[j].versions
      ensures AllUrlsInVersions(old(images)) && (0 <= index < |old(images)| ==> url in old(images)[index].versions)
              ==> AllUrlsInVersions(images)
    {
      images := SelectVersion(images, index, url);
    }

    /** Lines 196-198. */
    method UpdateReference(newRef: string)
      requires Valid()
      modifies this`referenceImage
      ensures Valid()
      ensures referenceImage == Some(newRef)
    {
      referenceImage := Some(newRef);
    }

    /** Line 202: back to input with no active project; the working copy stays. */
    method Reset()
      requires Valid()
      modifies this`step, this`activeHistoryId
      ensures Valid()
      ensures step == InputStep && activeHistoryId == None
      ensures images == old(images) && analysis == old(analysis) && referenceImage == old(referenceImage)
    {
      step := InputStep;
      activeHistoryId := None;
    }

    /**
      Lines 39-56: when a project is active in the results step, its first history entry
      takes the working copy; every other entry, and the list's length, stay as they were.
    */
    method SyncHistory()
      requires Valid()
      modifies this`history
      ensures Valid() && InSync()
      ensures |history| == |old(history)|
      ensures !SyncApplies() ==> history == old(history)
      ensures SyncApplies() ==>
                var k := HistoryIndex(old(history), activeHistoryId.value);
                && (k == -1 ==> history == old(history))
                && (k >= 0 ==> history == old(history)[k := Mirrored(old(history)[k], images, analysis.value, referenceImage)])
      ensures Ids(history) == Ids(old(history))
      ensures old(InSync()) ==> history == old(history)
    {
      if SyncApplies() {
        var k := HistoryIndex(history, activeHistoryId.value);
        if k != -1 {
          var updated := history[k := Mirrored(history[k], images, analysis.value, referenceImage)];
          assert Ids(updated) == Ids(history);
          history := updated;
        }
      }
    }
  }

  /** Line 138: only a data URI is sent as the reference; a remote URL is dropped. */
  function ReferenceForGeneration(ref: Option<string>): (r: Option<string>)
    ensures r.Some? <==> ref.Some? && StartsWith(ref.value, "data:")
    ensures r.Some? ==> r == ref
  {
    if ref.Some? && StartsWith(ref.value, "data:") then ref else None
  }
}
