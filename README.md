# Amazon listing generator — a Dafny model of its core

The application turns a product (a URL, an ASIN, a photo, or text plus a photo) into an
Amazon listing image set. When the input has text, a first model call researches the
product with web search (`services/geminiService.ts:68`). A second call structures the
product into a `ProductAnalysis` (line 121). A third call plans eight creative briefs
(line 164). An image model then renders each brief and can edit the result, and every
rendered URL is kept as a version.

This project models the logic around those calls:

- **`GeminiService`** (`services/geminiService.ts`). The resilient JSON decoder `extractJson`:
  - trim;
  - strip the case-insensitive opening fence and the closing fence;
  - parse directly, else cut a greedy `{…}` / `[…]` boundary slice and parse that.

  It also models the first-inline-image scans of image generation and editing, the
  `split(',')[1]` data-URI payload, the grounding-source filter/map, the overwrite of
  `analysis.groundingSources`, and the brief-array fallback.
- **`AppStore`** (`App.tsx`). The application state as a `Store` class with one method per
  handler. Each asynchronous handler is split into the step it takes before the model call
  and the steps it takes when the call resolves or throws. The per-image `images.map(...)`
  updaters are pure functions. The bounded, newest-first history and the effect that mirrors
  the working copy into the active history entry are modelled too.
- **`ProductInput`** (`components/ProductInput.tsx`). Input classification, the submitted
  payload, the submit-enabled predicate and the MIME guard.
- **`BriefCard`** (`components/BriefCard.tsx`). The current-version index, the version label
  and picker, the role badge chain, the edit-prompt guard and the status line.
- **Shared modules.** `JsString` models the ECMAScript string built-ins the code relies on
  (`trim` with the full WhiteSpace/LineTerminator set, `indexOf`, `lastIndexOf`,
  `startsWith`, `includes`, and `Number#toString` for clock readings). `Types` holds the
  records of `types.ts`; the field `type` is called `kind`, because `type` is a Dafny keyword.

`JSON.parse` is a parameter `parse: string -> Option<Json>`, where `None` means it threw. Model
replies are values of a `Response` datatype. Clock readings (`Date.now()`) are parameters.

Four behaviours of the code are easy to miss:

- Reset keeps the working copy (images, analysis, reference).
- An analysis that yields zero briefs is not a failure.
- New briefs get `versions := []` and keep any other field they came with.
- The decoder accepts bracket-free text that parses directly, such as `42`.

## Model

| member | source | states |
|---|---|---|
| JsString.Trim | services/geminiService.ts:18 | `trim()` is the block of the text starting where `trimStart()` stops, with only whitespace before and after it; "" exactly when the text is all whitespace, otherwise neither end is whitespace |
| JsString.IndexOf | components/BriefCard.tsx:21 | `indexOf` gives -1 exactly when the element is absent, else the position of its first occurrence |
| JsString.LastIndexOf | services/geminiService.ts:26 | `lastIndexOf` gives -1 exactly when absent, else a position holding the element with none after it |
| JsString.DecimalString | App.tsx:79 | `Date.now().toString()` is a non-empty digit string with no leading zero |
| JsString.DecimalRoundTrip | App.tsx:79 | reading the id string back gives the clock value |
| JsString.DecimalStringInjective | App.tsx:79 | different clock readings give different project ids |
| GeminiService.StripOpeningFence | services/geminiService.ts:19 | the result is a suffix: the text unchanged without a case-insensitive "```json" at its start, else without the fence and the whole whitespace run after it |
| GeminiService.StripClosingFenceCuts | services/geminiService.ts:19 | the `/```\s*$/` replacement leaves the text unchanged exactly when the regex matches nowhere, else cuts it at the leftmost match |
| GeminiService.StripClosingFenceOfTrimmed | services/geminiService.ts:19 | on trimmed text, the `/```\s*$/` replacement removes a trailing "```" and nothing else |
| GeminiService.Cleaned | services/geminiService.ts:18-19 | the cleaned text only holds characters of the reply |
| GeminiService.CleanedShape | services/geminiService.ts:18-19 | the cleaned text is the trimmed reply without a leading "```json" (any case) and the whitespace after it, then without a trailing "```" |
| GeminiService.CleanedOfFence | services/geminiService.ts:19 | a reply that is one ```` ```json ```` block, whose payload does not start with whitespace, cleans to its payload plus the newline before the closing fence |
| GeminiService.Boundaries | services/geminiService.ts:25-39 | start is the first opener of either kind (-1 if none); end is the last closer of that same kind; no fallback to the other kind |
| GeminiService.ExtractJson | services/geminiService.ts:14-52 | empty text gives null; a direct parse wins; every failure is the fixed "not in a valid format" error |
| GeminiService.BoundarySlice | services/geminiService.ts:41-43 | a slice is cut exactly when there is an opener and the last closer of its kind comes after it; the slice runs from the first opener to that closer, and no such closer follows it |
| GeminiService.ExtractJsonOutcome | services/geminiService.ts:21-51 | failure exactly when the direct parse fails and no slice can be cut or the slice fails; a success is one of the two parses |
| GeminiService.NoOpenerFailsUnlessDirect | services/geminiService.ts:41-50 | text without `{` or `[` succeeds exactly when it parses directly |
| GeminiService.ObjectSliceHasNoArrayFallback | services/geminiService.ts:33-39 | when `{` comes first, a failing brace slice is a failure even if an array follows |
| GeminiService.SliceOfWrappedPayload | services/geminiService.ts:25-43 | prose without openers, then an object or array, then a tail without its closer: the slice is exactly that object or array |
| GeminiService.SliceOvershootsStrayCloser | services/geminiService.ts:26-28 | a matching closer in the trailing prose extends the slice past the object or array (greedy `lastIndexOf`) |
| GeminiService.RecoversPayloadAfterPreamble | services/geminiService.ts:14-52 | a reply "prose + object or array + closing fence" decodes to that payload when the whole cleaned text does not parse |
| GeminiService.RecoversFencedPayload | services/geminiService.ts:18-22 | a reply that is exactly one fenced payload (object, array or other JSON text) decodes to it |
| GeminiService.FirstInlineImage | services/geminiService.ts:216-221 | fails exactly when the part list is missing or no part has inline data; otherwise gives the PNG data URI of the first part that has it |
| GeminiService.GeneratedImageUrl | services/geminiService.ts:216-221 | generation fails with "Image generation engine failed to return a visual." exactly when no part has inline data; otherwise it gives the PNG data URI of the first part that has it, with a missing `data` spelled "undefined" as the template literal does |
| GeminiService.EditedImageUrl | services/geminiService.ts:236-241 | editing fails with "Magic edit failed." exactly when no part has inline data; otherwise it gives the PNG data URI of the first part that has it, with a missing `data` spelled "undefined" |
| GeminiService.InlinePayload | services/geminiService.ts:205 | `split(',')[1]` is undefined exactly when there is no comma; otherwise it is the text after the first comma up to the next comma or the end |
| GeminiService.InlinePayloadOfPngDataUri | services/geminiService.ts:230 | splitting a data URI produced by the scans gives back the base64 data it wrapped |
| GeminiService.SourceOf | services/geminiService.ts:80-83 | a source keeps the link (absent when the chunk has none) and takes the page title when it is non-empty, else "Source"; its title is never empty |
| GeminiService.WebSources | services/geminiService.ts:77-84 | the filter/map never produces more sources than there are chunks |
| GeminiService.WebSourcesAppend | services/geminiService.ts:79-83 | the filter/map keeps the original order (it distributes over concatenation) |
| GeminiService.WebSourcesSound | services/geminiService.ts:79-83 | every source comes from a chunk with a `web` field, with its title defaulted to "Source" |
| GeminiService.WebSourcesComplete | services/geminiService.ts:79-83 | every chunk with a `web` field contributes its source |
| GeminiService.WebSourcesKeepsAll | services/geminiService.ts:79-83 | no chunk is dropped exactly when every chunk has a `web` field |
| GeminiService.GroundingSourcesOf | services/geminiService.ts:63-85 | without (truthy) input text there are no grounding sources; with it, they are exactly `WebSources` of the first candidate's grounding chunks (in order, one per chunk with a web field), or none when that candidate has no chunks |
| GeminiService.AnalysisOf | services/geminiService.ts:147-150 | the analysis succeeds exactly when the reply (or "{}") decodes to an object or array, and is then the cast value with its grounding sources overwritten by phase 1's; a decode failure is the format error, and a decoded primitive or null is the TypeError of setting a property on it |
| GeminiService.AnalysisSourcesComeFromResearch | services/geminiService.ts:63-85 | every grounding source of a successful analysis is the source of a web chunk of the research reply's first candidate, and there is none unless research ran |
| GeminiService.NoTextNoResearch | services/geminiService.ts:66-85 | without input text the research reply is never consulted and the sources are empty |
| GeminiService.BriefsOf | services/geminiService.ts:188-189 | the brief list is the decoded array, or [] when the decoded value is not an array |
| AppStore.SetLoading | App.tsx:132-135 | only `isLoading` at the index changes; length, other slots and all versions are kept |
| AppStore.RecordVersion | App.tsx:141-149 | at the index: URL current, versions grow by exactly that URL at the end, loading off; other slots untouched; current-in-versions preserved |
| AppStore.RecordVersionsAppends | App.tsx:143-148 | n successive generations append the n URLs in order and leave the last one current |
| AppStore.SelectVersion | App.tsx:189-194 | only the current URL at the index moves, versions untouched; the invariant holds when the URL is a recorded version |
| AppStore.WithField | App.tsx:122 | `{ ...img, [field]: value }` sets the named field and no other |
| AppStore.UpdateField | App.tsx:119-124 | only images whose id matches change, only in the named field; editing a field other than the URL keeps the invariant |
| AppStore.FinalReference | App.tsx:76 | the reference is the input for a photo, else the first extracted image URL if there is one |
| AppStore.WithoutVersions | App.tsx:85 | each new image is its brief with `versions := []` and every other field unchanged |
| AppStore.NewHistoryItem | App.tsx:78-86 | the new project's id is the clock's decimal string; it holds the input, the analysis, the final reference and the cleared briefs |
| AppStore.PrependBounded | App.tsx:95 | the new history is at most 20 long, headed by the new item, and its tail is a prefix of the old history |
| AppStore.PrependBoundedDropsOldest | App.tsx:95 | the entries dropped by the bound are the oldest ones |
| AppStore.HistoryIndex | App.tsx:42 | `findIndex` gives -1 exactly when no entry has the id, else the first entry with it |
| AppStore.Mirrored | App.tsx:46-51 | the entry takes the working copy's images, analysis and reference and keeps its id, timestamp, input and kind |
| AppStore.MirroredIdempotent | App.tsx:46-51 | mirroring the same working copy again changes nothing |
| AppStore.ReferenceForGeneration | App.tsx:138 | only a "data:" reference is sent to generation; a remote URL is dropped |
| AppStore.Store.constructor | App.tsx:12-20 | starts at the input step with no images, no project and the saved history |
| AppStore.Store.StartAnalysis | App.tsx:65-71 | to the analyzing step, error cleared, the reference is the input exactly for a photo; the working copy and history are kept |
| AppStore.Store.AnalysisSucceeded | App.tsx:76-96 | results step, the new project active and prepended to a history of at most 20 entries, its images with empty version lists |
| AppStore.Store.AnalysisFailed | App.tsx:97-103 | back to the input step with "Analysis failed. Please try a different product or verify your API key."; nothing else changes |
| AppStore.Store.LoadFromHistory | App.tsx:107-117 | the stored project becomes the working copy in the results step; history unchanged |
| AppStore.Store.UpdateImageField | App.tsx:119-124 | the images become `UpdateField` of the old ones; version lists only extend |
| AppStore.Store.BeginGenerate | App.tsx:126-139 | no-op exactly when the index has no image or there is no analysis; else the slot loads and the request carries the brief, the data-URI reference and the visual description |
| AppStore.Store.GenerateSucceeded | App.tsx:141-149 | the images become `RecordVersion` of the old ones |
| AppStore.Store.GenerateFailed | App.tsx:150-156 | loading cleared at the index and the error is "Generation failed." |
| AppStore.Store.BeginEdit | App.tsx:160-170 | no-op exactly when the index has no image or it has no current URL; else that URL is edited and the slot loads |
| AppStore.Store.EditSucceeded | App.tsx:171-179 | the images become `RecordVersion` of the old ones |
| AppStore.Store.EditFailed | App.tsx:180-185 | only loading is cleared at the index; no error is set |
| AppStore.Store.SwitchVersion | App.tsx:189-194 | only the current URL at the index changes, versions untouched; the invariant survives given a recorded URL |
| AppStore.Store.UpdateReference | App.tsx:196-198 | the reference becomes the new one |
| AppStore.Store.Reset | App.tsx:202 | input step and no active project, the working copy kept |
| AppStore.Store.SyncHistory | App.tsx:38-56 | when a project is active in the results step, its first history entry takes images, analysis and reference; other entries, ids and length are kept; a missing id or an entry already in sync changes nothing |
| ProductInput.Classify | components/ProductInput.tsx:20-25 | smart for text and photo, image for a photo alone, url for text starting "http", asin otherwise, all on the untrimmed text |
| ProductInput.Submit | components/ProductInput.tsx:18-32 | the submitted text is trimmed, the image is the preview or "", the kind is the classification |
| ProductInput.LeadingSpaceUrlIsAsin | components/ProductInput.tsx:22-28 | " http…" classifies as asin yet is submitted without the space |
| ProductInput.BlankTextWithImageIsSmart | components/ProductInput.tsx:22-28 | whitespace text with a photo is smart, submitted with text "" |
| ProductInput.SubmitEnabled | components/ProductInput.tsx:158 | enabled exactly when the text is not blank or a photo is loaded |
| ProductInput.EnabledSubmissionNotEmpty | components/ProductInput.tsx:158 | an enabled submit always sends some text or a photo |
| ProductInput.AcceptsFile | components/ProductInput.tsx:35 | a file is read exactly when its MIME type starts with "image/" |
| ProductInput.AcceptsImageSubtypes | components/ProductInput.tsx:35 | every type "image/…" is read, whatever the subtype |
| ProductInput.AcceptsFileCaseSensitive | components/ProductInput.tsx:35 | the test is case-sensitive: no type starting with a capital letter is read |
| BriefCard.CardVersions | components/BriefCard.tsx:20 | the stored version array, or [] when the field is not an array |
| BriefCard.CurrentVersionIndex | components/BriefCard.tsx:20-21 | -1 without a current image or when it is not a version, else its first position among the versions (non-array versions read as []) |
| BriefCard.ShowsPicker | components/BriefCard.tsx:66 | the versions test the picker button needs; the "{n} versions" count (line 187) shows exactly when there are at least two versions |
| BriefCard.PickerButtonShown | components/BriefCard.tsx:51-66 | the picker button is drawn exactly over a generated image, while the slot is not loading, the edit box is closed and there are at least two versions |
| BriefCard.VersionLabel | components/BriefCard.tsx:67 | the label is "v" with the one-based position (v0 when the current image is not a version), then " of " with the count, and nothing else: prefix, suffix and length are fixed |
| BriefCard.VersionLabelInjective | components/BriefCard.tsx:67 | two positions in one list never give the same label |
| BriefCard.NewestVersionIsCurrent | components/BriefCard.tsx:66-68 | after a generation of a new URL the card is Ready, shows the count, and with the edit box closed draws the picker button, exactly when there was an earlier version, points at the last version and reads "v{n} of {n}" |
| BriefCard.PickedVersionKeepsInvariant | components/BriefCard.tsx:84-87 | a picker button hands back one of the versions, so the switch keeps every current image among its versions |
| BriefCard.PickedVersionIsShown | components/BriefCard.tsx:84-87 | with distinct versions, the card's index after a pick is the picked position |
| BriefCard.Status | components/BriefCard.tsx:185 | "Ready" exactly when there is a current image, else "Pending" |
| BriefCard.TypeStyle | components/BriefCard.tsx:23-29 | gray for an empty type, then orange for "Main", purple for "Lifestyle", blue for "Infographic", emerald otherwise, first match wins |
| BriefCard.TypeStyleOfRoles | components/BriefCard.tsx:23-29 | each of the eight role labels gets its own role's badge |
| BriefCard.EditSubmit | components/BriefCard.tsx:31-38 | a non-blank prompt goes out untrimmed, then the box is cleared and hidden; a blank prompt changes nothing |
| BriefCard.EditSubmitOnce | components/BriefCard.tsx:31-38 | submitting again right after a send sends nothing |

## Left out

- Network and model calls: the `GoogleGenAI` client and every `generateContent` call are foreign and asynchronous. Their replies are `Response` values passed in.
- Prompt text: the interpolated prompts carry no behaviour beyond their text.
- `JSON.parse` internals: the parser is an uninterpreted parameter, and no JSON grammar is modelled.
- GeminiService.AnalysisOf: the structured reply is cast to `ProductAnalysis` without checks, so the cast is a parameter too. Required fields and array defaults are not validated, because the code does not validate them.
- Browser persistence: the `localStorage` reads and writes are I/O. The constructor takes the already decoded saved history; an unparsable saved value, which throws at startup, is not modelled.
- API-key handling (`window.aistudio`, `hasApiKey`) is foreign and is not part of the state.
- Async interleaving: each handler step is atomic over the previous state. The snapshot of `state` taken at the start of generate/edit is taken at the begin step, and overlapping calls on one slot are not modelled.
- Call-site shapes: `ProductInput` hands one object to `onSubmit`, while `handleStartAnalysis` is declared as `(input, type)`. `handleStartAnalysis` in turn calls `analyzeProduct(input, type)`, which takes `{ text, image }`. Each side is modelled by its own declared signature, and the two are not reconciled.
- AppStore.UpdateField: `updateImageField` takes `field: keyof ListingImage` (App.tsx:119, CreativeDisplay.tsx:13), so TypeScript also accepts `versions` and `isLoading` and would store a string there. The only callers pass `'headline'` and `'subCopy'` (BriefCard.tsx:166-167), so `Field` lists only the string-valued keys and the string-into-array case is not modelled.
- AppStore.Store.Valid: the only class invariant is "the results step has an analysis". The property "the current image is one of the versions" is not an invariant, because briefs may arrive with a URL. Instead it is proved preserved by every transition that keeps it.
- Characters are Unicode scalar values rather than UTF-16 code units. The regex `/i` flag is modelled for ASCII letters only, which is all "```json" needs.
- Presentational components (AnalysisView, Header, CreativeDisplay, ImageModal), the simulated login and `FileReader` are markup or I/O.
- BriefCard: `versions` arrives as `Option<seq<string>>`; `None` stands for any non-array value.
