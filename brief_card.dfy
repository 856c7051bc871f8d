/**
  The derived values components/BriefCard.tsx shows for one asset slot: its version list
  and current version, the role badge, the edit-prompt guard, the version picker and the
  status line, and how they read after the App.tsx transitions.
*/
module BriefCard {
  import opened Wrappers
  import opened JsString
  import opened Types
  import opened AppStore

  /** Line 20: the stored `versions`, or [] when the field is not an array (`None`). */
  function CardVersions(raw: Option<seq<string>>): (versions: seq<string>)
    ensures raw.Some? ==> versions == raw.value
    ensures raw.None? ==> versions == []
  {
    raw.GetOr([])
  }

  /**
    Line 21: -1 without a (truthy) current image, else the first position of the current
    image among the versions, or -1 when it is not one of them.
  */
  function CurrentVersionIndex(raw: Option<seq<string>>, current: Option<string>): (k: int)
    ensures -1 <= k < |CardVersions(raw)|
    ensures k >= 0 <==> Truthy(current) && current.value in CardVersions(raw)
    ensures k >= 0 ==> CardVersions(raw)[k] == current.value
                       && current.value !in CardVersions(raw)[..k]
  {
    if Truthy(current) then IndexOf(CardVersions(raw), current.value) else -1
  }

  /** The index as the card computes it for a slot of the working copy. */
  function SlotVersionIndex(img: ListingImage): int {
    CurrentVersionIndex(Some(img.versions), img.generatedImageUrl)
  }

  /**
    Lines 66 and 187: the versions test shared by the picker button and the
    "{n} versions" count; the count shows exactly when it holds.
  */
  function ShowsPicker(versions: seq<string>): (shown: bool)
    ensures shown <==> |versions| >= 2
  {
    |versions| > 1
  }

  /**
    Line 67: "v{currentVersionIndex + 1} of {versions.length}"; -1 (no current version
    among the list) reads "v0".
  */
  function VersionLabel(k: int, count: nat): (text: string)
    requires k >= -1
    ensures StartsWith(text, "v" + DecimalString(k + 1))
    ensures EndsWith(text, " of " + DecimalString(count))
    ensures |text| == 1 + |DecimalString(k + 1)| + 4 + |DecimalString(count)|
  {
    "v" + DecimalString(k + 1) + " of " + DecimalString(count)
  }

  /**
    Lines 51, 58 and 66: the picker button is drawn only over a generated image, while the
    slot is not loading (`!image.isLoading`) and the edit box is closed, and only beyond
    one version.
  */
  function PickerButtonShown(img: ListingImage, showEditInput: bool): (shown: bool)
    ensures shown <==> && Truthy(img.generatedImageUrl) && img.isLoading != Some(true)
                       && !showEditInput && |img.versions| >= 2
  {
    Truthy(img.generatedImageUrl) && !(img.isLoading == Some(true)) && !showEditInput
    && ShowsPicker(img.versions)
  }

  /** Within one list, different positions never read the same. */
  lemma VersionLabelInjective(j: int, k: int, count: nat)
    requires j >= -1 && k >= -1
    requires VersionLabel(j, count) == VersionLabel(k, count)
    ensures j == k
  {
    var text := VersionLabel(j, count);
    var a, b := DecimalString(j + 1), DecimalString(k + 1);
    var tail := " of " + DecimalString(count);
    assert |a| == |b| by {
      assert |text| == 1 + |a| + |tail| == 1 + |b| + |tail|;
    }
    assert text[1..1 + |a|] == a;
    assert text[1..1 + |b|] == b;
    DecimalStringInjective(j + 1, k + 1);
  }

  /**
    After a generation (or edit) that produced a new, non-empty URL, the slot is `Ready`,
    the picker shows once there was an earlier version, the current version is the newest
    one, and the label reads "v{n} of {n}".
  */
  lemma NewestVersionIsCurrent(images: seq<ListingImage>, index: int, url: string)
    requires 0 <= index < |images| && url != "" && url !in images[index].versions
    ensures var img := RecordVersion(images, index, url)[index];
            && Status(img.generatedImageUrl) == "Ready"
            && (ShowsPicker(img.versions) <==> |images[index].versions| >= 1)
            && (PickerButtonShown(img, false) <==> |images[index].versions| >= 1)
            && SlotVersionIndex(img) == |img.versions| - 1
            && VersionLabel(SlotVersionIndex(img), |img.versions|)
               == "v" + DecimalString(|img.versions|) + " of " + DecimalString(|img.versions|)
  {
    var img := RecordVersion(images, index, url)[index];
    var old_ := images[index].versions;
    assert img.versions == old_ + [url];
    assert img.versions[..|old_|] == old_;
  }

  /**
    Lines 84-87 (with CreativeDisplay.tsx:108): a picker button hands back the URL it
    shows, an element of the slot's versions, so the switch keeps every current image
    among its versions and makes the picked URL current.
  */
  lemma PickedVersionKeepsInvariant(images: seq<ListingImage>, index: int, i: int)
    requires AllUrlsInVersions(images)
    requires 0 <= index < |images| && 0 <= i < |images[index].versions|
    ensures var r := SelectVersion(images, index, images[index].versions[i]);
            && AllUrlsInVersions(r)
            && r[index].generatedImageUrl == Some(images[index].versions[i])
            && r[index].versions == images[index].versions
  {
    assert images[index].versions[i] in images[index].versions;
  }

  /**
    When the versions are distinct and the picked URL is not blank, the card's index after
    the switch is exactly the picked button's position.
  */
  lemma PickedVersionIsShown(images: seq<ListingImage>, index: int, i: int)
    requires 0 <= index < |images| && 0 <= i < |images[index].versions|
    requires images[index].versions[i] != ""
    requires forall a, b :: 0 <= a < b < |images[index].versions| ==>
               images[index].versions[a] != images[index].versions[b]
    ensures SlotVersionIndex(SelectVersion(images, index, images[index].versions[i])[index]) == i
  {
    var vs := images[index].versions;
    assert vs[i] in vs;
  }

  /** Line 185: the status line. */
  function Status(current: Option<string>): (status: string)
    ensures status == "Ready" <==> Truthy(current)
    ensures status == "Pending" <==> !Truthy(current)
  {
    if Truthy(current) then "Ready" else "Pending"
  }

  /** The badge colours of lines 23-29. */
  datatype Badge = Gray | Orange | Purple | Blue | Emerald

  /** Lines 23-29: the first matching test wins. */
  function TypeStyle(kind: string): (b: Badge)
    ensures b == Gray <==> kind == ""
    ensures b == Orange <==> kind != "" && Contains(kind, "Main")
    ensures b == Purple <==> kind != "" && !Contains(kind, "Main") && Contains(kind, "Lifestyle")
    ensures b == Blue <==> kind != "" && !Contains(kind, "Main") && !Contains(kind, "Lifestyle")
                           && Contains(kind, "Infographic")
  {
    if kind == "" then Gray
    else if Contains(kind, "Main") then Orange
    else if Contains(kind, "Lifestyle") then Purple
    else if Contains(kind, "Infographic") then Blue
    else Emerald
  }

  /** The badge each of the eight roles gets. */
  function RoleBadge(t: ImageType): Badge {
    match t
    case MainImage => Orange
    case Lifestyle1 | Lifestyle2 => Purple
    case Infographic1 | Infographic2 | Infographic3 => Blue
    case ComparisonImage | BrandStory => Emerald
  }

  /** Every role label gets its own role's badge: no earlier test catches a later role. */
  lemma TypeStyleOfRoles(t: ImageType)
    ensures TypeStyle(ImageTypeLabel(t)) == RoleBadge(t)
  {
    match t
    case MainImage =>
      assert OccursAt(ImageTypeLabel(t), "Main", 0);
    case Lifestyle1 | Lifestyle2 =>
      StyleOfLifestyle(t);
    case Infographic1 | Infographic2 | Infographic3 =>
      StyleOfInfographic(t);
    case ComparisonImage | BrandStory =>
      StyleOfOther(t);
  }

  lemma StyleOfLifestyle(t: ImageType)
    requires t == Lifestyle1 || t == Lifestyle2
    ensures TypeStyle(ImageTypeLabel(t)) == Purple
  {
    var s := ImageTypeLabel(t);
    MissingCharNotContained(s, "Main", 0);
    assert OccursAt(s, "Lifestyle", 0);
  }

  lemma StyleOfInfographic(t: ImageType)
    requires t == Infographic1 || t == Infographic2 || t == Infographic3
    ensures TypeStyle(ImageTypeLabel(t)) == Blue
  {
    var s := ImageTypeLabel(t);
    MissingCharNotContained(s, "Main", 0);
    MissingCharNotContained(s, "Lifestyle", 0);
    assert OccursAt(s, "Infographic", 0);
  }

  lemma StyleOfOther(t: ImageType)
    requires t == ComparisonImage || t == BrandStory
    ensures TypeStyle(ImageTypeLabel(t)) == Emerald
  {
    var s := ImageTypeLabel(t);
    MissingCharNotContained(s, "Main", 0);
    MissingCharNotContained(s, "Lifestyle", 0);
    MissingCharNotContained(s, "Infographic", 2);
  }

  /** The card's edit-prompt state after a submit, and what reaches `onEdit`. */
  datatype EditOutcome = EditOutcome(sent: Option<string>, prompt: string, showInput: bool)

  /**
    Lines 31-38: a prompt that is not blank goes to `onEdit` untrimmed, then the box is
    cleared and hidden; a blank prompt changes nothing.
  */
  function EditSubmit(prompt: string, showInput: bool): (o: EditOutcome)
    ensures o.sent.Some? <==> !AllWhitespace(prompt)
    ensures o.sent.Some? ==> o.sent.value == prompt && o.prompt == "" && !o.showInput
    ensures o.sent.None? ==> o.prompt == prompt && o.showInput == showInput
  {
    if Trim(prompt) != "" then EditOutcome(Some(prompt), "", false)
    else EditOutcome(None, prompt, showInput)
  }

  /** Submitting again after a successful submit sends nothing: the box is empty. */
  lemma EditSubmitOnce(prompt: string, showInput: bool)
    requires EditSubmit(prompt, showInput).sent.Some?
    ensures var o := EditSubmit(prompt, showInput);
            EditSubmit(o.prompt, o.showInput) == o.(sent := None)
  {
  }
}
