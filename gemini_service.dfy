/**
  The glue of services/geminiService.ts around the model calls: the resilient JSON
  extraction, the scan of response parts for an inline image, the grounding-source
  filter, the brief-array fallback and the data-URI payload split. The model calls
  themselves are not modelled: their responses are inputs.
*/
module GeminiService {
  import opened Wrappers
  import opened JsString
  import opened Types

  /** A decoded JSON value (RFC 8259). Numbers keep their text; no parser is modelled. */
  datatype Json =
    | JNull
    | JBool(b: bool)
    | JNumber(text: string)
    | JString(s: string)
    | JArray(items: seq<Json>)
    | JObject(members: seq<(string, Json)>)

  /** `JSON.parse`, left uninterpreted: `None` stands for the SyntaxError it throws. */
  type Parser = string -> Option<Json>

  const FormatError := "The AI response was not in a valid format. Please try again."
  const GenerationError := "Image generation engine failed to return a visual."
  const EditError := "Magic edit failed."
  const PngDataUriPrefix := "data:image/png;base64,"

  /* ---------------- response shapes of the model calls ---------------- */

  /** `data` and `uri` are optional in the SDK's types: `None` is `undefined`. */
  datatype InlineData = InlineData(mimeType: string, data: Option<string>)
  datatype Part = Part(text: Option<string>, inlineData: Option<InlineData>)
  datatype Web = Web(title: Option<string>, uri: Option<string>)
  datatype Chunk = Chunk(web: Option<Web>)
  datatype Content = Content(parts: Option<seq<Part>>)
  datatype GroundingMetadata = GroundingMetadata(groundingChunks: Option<seq<Chunk>>)
  datatype Candidate = Candidate(content: Option<Content>, groundingMetadata: Option<GroundingMetadata>)
  datatype Response = Response(text: Option<string>, candidates: Option<seq<Candidate>>)

  /** `response.candidates?.[0]`. */
  function FirstCandidate(r: Response): Option<Candidate> {
    if r.candidates.Some? && |r.candidates.value| > 0 then Some(r.candidates.value[0]) else None
  }

  /** `response.candidates?.[0]?.content?.parts`. */
  function CandidateParts(r: Response): Option<seq<Part>> {
    match FirstCandidate(r)
    case Some(Candidate(Some(content), _)) => content.parts
    case _ => None
  }

  /** `response.candidates?.[0]?.groundingMetadata?.groundingChunks`. */
  function CandidateChunks(r: Response): Option<seq<Chunk>> {
    match FirstCandidate(r)
    case Some(Candidate(_, Some(meta))) => meta.groundingChunks
    case _ => None
  }

  /* ---------------- extractJson, attempt 1: trim and strip the fences ---------------- */

  /** `c` matches the lower-case ASCII letter `lower` under the regex `i` flag. */
  predicate SameLetterIgnoringCase(c: char, lower: char)
    requires 'a' <= lower <= 'z'
  {
    c == lower || c as int == lower as int - 32
  }

  /** The regex `/^```json/i` matches at the start of `s`. */
  predicate HasOpeningFence(s: string) {
    |s| >= 7 && s[..3] == "```"
    && SameLetterIgnoringCase(s[3], 'j') && SameLetterIgnoringCase(s[4], 's')
    && SameLetterIgnoringCase(s[5], 'o') && SameLetterIgnoringCase(s[6], 'n')
  }

  /**
    `replace(/^```json\s*\/i, "")`: a suffix of `s`; without the fence `s` is unchanged,
    with it the fence and the whole whitespace run after it go.
  */
  function StripOpeningFence(s: string): (r: string)
    ensures |r| <= |s| && r == s[|s| - |r|..]
    ensures !HasOpeningFence(s) ==> r == s
    ensures HasOpeningFence(s) ==> |r| <= |s| - 7 && AllWhitespace(s[7..|s| - |r|])
                                   && (r != [] ==> !IsWhitespace(r[0]))
  {
    if HasOpeningFence(s) then
      var t := s[7..];
      var r := TrimStart(t);
      assert t[|t| - |r|..] == s[|s| - |r|..];
      assert t[..|t| - |r|] == s[7..|s| - |r|];
      r
    else s
  }

  /** The regex `/```\s*$/` matches at position `i` of `s`. */
  predicate ClosingFenceAt(s: string, i: int) {
    0 <= i && i + 3 <= |s| && s[i..i + 3] == "```" && AllWhitespace(s[i + 3..])
  }

  /** The leftmost position at or after `from` where `/```\s*$/` matches, or -1. */
  function ClosingFenceFrom(s: string, from: nat): (r: int)
    decreases |s| - from
    ensures r == -1 || (from <= r && ClosingFenceAt(s, r))
    ensures r == -1 ==> forall i :: from <= i <= |s| ==> !ClosingFenceAt(s, i)
    ensures r >= 0 ==> forall i :: from <= i < r ==> !ClosingFenceAt(s, i)
  {
    if from + 3 > |s| then -1
    else if ClosingFenceAt(s, from) then from
    else ClosingFenceFrom(s, from + 1)
  }

  /** `replace(/```\s*$/, "")`: cut at the leftmost match. */
  function StripClosingFence(s: string): (r: string)
    ensures |r| <= |s| && r == s[..|r|]
  {
    var i := ClosingFenceFrom(s, 0);
    if i == -1 then s else s[..i]
  }

  /**
    The closing-fence replacement leaves `s` unchanged exactly when the regex matches
    nowhere; otherwise it cuts `s` at the leftmost match.
  */
  lemma StripClosingFenceCuts(s: string)
    ensures var r := StripClosingFence(s);
            && (|r| == |s| <==> forall i :: 0 <= i <= |s| ==> !ClosingFenceAt(s, i))
            && (|r| < |s| ==> ClosingFenceAt(s, |r|) && forall i :: 0 <= i < |r| ==> !ClosingFenceAt(s, i))
  {
  }

  /**
    On text that does not end in whitespace (trimmed text always qualifies) the
    closing-fence regex can only match the final three characters: it removes a
    trailing "```" and nothing else.
  */
  lemma StripClosingFenceOfTrimmed(s: string)
    requires s != [] ==> !IsWhitespace(s[|s| - 1])
    ensures StripClosingFence(s) == if EndsWith(s, "```") then s[..|s| - 3] else s
  {
    var i := ClosingFenceFrom(s, 0);
    if EndsWith(s, "```") {
      assert ClosingFenceAt(s, |s| - 3);
    }
    if i >= 0 {
      assert ClosingFenceAt(s, i);
      assert s[|s| - 3..] == s[i..i + 3];
    }
  }

  /** Lines 18-19: the text the first `JSON.parse` sees. */
  function Cleaned(text: string): (r: string)
    ensures CharsIn(r, text)
  {
    var t := Trim(text);
    var o := StripOpeningFence(t);
    var r := StripClosingFence(o);
    NestedBlockCharsIn(text, |text| - |TrimStart(text)|, t, o, r);
    r
  }

  /**
    On the trimmed reply the two replacements are exact: a leading "```json" (in any case)
    goes together with the whitespace after it, then a trailing "```" goes, and nothing
    else changes.
  */
  lemma CleanedShape(text: string)
    ensures var t := Trim(text);
            var o := if HasOpeningFence(t) then TrimStart(t[7..]) else t;
            Cleaned(text) == if EndsWith(o, "```") then o[..|o| - 3] else o
  {
    var t := Trim(text);
    var o := StripOpeningFence(t);
    assert o != [] ==> o[|o| - 1] == t[|t| - 1];
    StripClosingFenceOfTrimmed(o);
  }

  /** Every character of `r` occurs in `s`. */
  predicate CharsIn(r: string, s: string) {
    forall i :: 0 <= i < |r| ==> r[i] in s
  }

  /** A prefix of a suffix of a block of `s` only holds characters of `s`. */
  lemma NestedBlockCharsIn(s: string, a: nat, t: string, o: string, r: string)
    requires BlankAround(s, a, t)
    requires |o| <= |t| && o == t[|t| - |o|..]
    requires |r| <= |o| && r == o[..|r|]
    ensures CharsIn(r, s)
  {
    forall i | 0 <= i < |r|
      ensures r[i] in s
    {
      assert r[i] == o[i] == t[|t| - |o| + i] == s[a + |t| - |o| + i];
    }
  }

  /* ---------------- extractJson, attempt 2: boundary search ---------------- */

  /** The closing delimiter that goes with an opening one. */
  function Closer(opener: char): char {
    if opener == '{' then '}' else ']'
  }

  predicate IsOpener(c: char) {
    c == '{' || c == '['
  }

  /**
    Lines 25-39: `start` is where the first opener of either kind stands, `end` is the
    last occurrence of the closer of that same kind (greedy, not bracket-balanced).
    Both are -1 when the text has no opener.
  */
  function Boundaries(cleaned: string): (b: (int, int))
    ensures b.0 == -1 <==> forall i :: 0 <= i < |cleaned| ==> !IsOpener(cleaned[i])
    ensures b.0 == -1 ==> b.1 == -1
    ensures b.0 >= 0 ==> b.0 < |cleaned| && IsOpener(cleaned[b.0])
                         && (forall i :: 0 <= i < b.0 ==> !IsOpener(cleaned[i]))
                         && b.1 == LastIndexOf(cleaned, Closer(cleaned[b.0]))
  {
    var firstBrace := IndexOf(cleaned, '{');
    var lastBrace := LastIndexOf(cleaned, '}');
    var firstBracket := IndexOf(cleaned, '[');
    var lastBracket := LastIndexOf(cleaned, ']');
    assert forall i :: 0 <= i < firstBrace ==> cleaned[i] != '{' by {
      assert forall i :: 0 <= i < firstBrace ==> cleaned[i] == cleaned[..firstBrace][i];
    }
    assert forall i :: 0 <= i < firstBracket ==> cleaned[i] != '[' by {
      assert forall i :: 0 <= i < firstBracket ==> cleaned[i] == cleaned[..firstBracket][i];
    }
    assert firstBrace == -1 ==> forall i :: 0 <= i < |cleaned| ==> cleaned[i] != '{';
    assert firstBracket == -1 ==> forall i :: 0 <= i < |cleaned| ==> cleaned[i] != '[';
    if firstBrace != -1 && (firstBracket == -1 || firstBrace < firstBracket) then
      (firstBrace, lastBrace)
    else if firstBracket != -1 then
      (firstBracket, lastBracket)
    else
      (-1, -1)
  }

  /** `GeminiService.extractJson` (lines 14-52). */
  function ExtractJson(text: string, parse: Parser): (r: Result<Json, string>)
    ensures text == "" ==> r == Success(JNull)
    ensures text != "" && parse(Cleaned(text)).Some? ==> r == Success(parse(Cleaned(text)).value)
    ensures r.Failure? ==> r.error == FormatError
  {
    if text == "" then Success(JNull)
    else
      var cleaned := Cleaned(text);
      match parse(cleaned)
      case Some(v) => Success(v)
      case None =>
        match BoundarySlice(cleaned)
        case None => Failure(FormatError)
        case Some(block) =>
          match parse(block)
          case Some(v) => Success(v)
          case None => Failure(FormatError)
  }

  /**
    Lines 41-43: the slice attempt 2 parses, cut only when the last matching closer comes
    after the first opener; it is the block of `cleaned` from that opener to that closer.
  */
  function BoundarySlice(cleaned: string): (r: Option<string>)
    ensures r.Some? <==> Boundaries(cleaned).0 != -1 && Boundaries(cleaned).1 > Boundaries(cleaned).0
    ensures r.Some? ==> var start := Boundaries(cleaned).0;
              && |r.value| >= 2 && start + |r.value| <= |cleaned|
              && r.value == cleaned[start..start + |r.value|]
              && IsOpener(r.value[0]) && r.value[|r.value| - 1] == Closer(r.value[0])
              && Closer(r.value[0]) !in cleaned[start + |r.value|..]
  {
    var b := Boundaries(cleaned);
    if b.0 != -1 && b.1 != -1 && b.1 > b.0 then Some(cleaned[b.0..b.1 + 1]) else None
  }

  /**
    Extraction fails exactly when the direct parse fails and either no slice can be
    cut (no opener, or the last matching closer does not come after it) or the slice
    does not parse; a success is always one of the two parses.
  */
  lemma ExtractJsonOutcome(text: string, parse: Parser)
    requires text != ""
    ensures ExtractJson(text, parse).Failure? <==>
              parse(Cleaned(text)).None?
              && (BoundarySlice(Cleaned(text)).None? || parse(BoundarySlice(Cleaned(text)).value).None?)
    ensures ExtractJson(text, parse).Success? ==>
              Some(ExtractJson(text, parse).value) == parse(Cleaned(text))
              || (BoundarySlice(Cleaned(text)).Some?
                  && Some(ExtractJson(text, parse).value) == parse(BoundarySlice(Cleaned(text)).value))
  {
  }

  /** Text with no `{` and no `[` fails unless it parses directly (a bare `42` does). */
  lemma NoOpenerFailsUnlessDirect(text: string, parse: Parser)
    requires text != ""
    requires forall i :: 0 <= i < |text| ==> !IsOpener(text[i])
    ensures ExtractJson(text, parse).Success? <==> parse(Cleaned(text)).Some?
  {
    var c := Cleaned(text);
    assert forall i :: 0 <= i < |c| ==> !IsOpener(c[i]);
  }

  /**
    When the first opener is `{`, only the brace slice is tried: a failing brace slice
    is a failure even if a well-formed array appears later in the text.
  */
  lemma ObjectSliceHasNoArrayFallback(text: string, parse: Parser)
    requires text != ""
    requires parse(Cleaned(text)).None?
    requires Boundaries(Cleaned(text)).0 >= 0 && Cleaned(text)[Boundaries(Cleaned(text)).0] == '{'
    requires BoundarySlice(Cleaned(text)).Some? ==> parse(BoundarySlice(Cleaned(text)).value).None?
    ensures ExtractJson(text, parse) == Failure(FormatError)
  {
  }

  /**
    The boundary slice of `prose + payload + tail` is the payload when the payload is a
    bracketed block (an object or an array), the prose holds no opener and the tail does
    not hold the payload's closer.
  */
  lemma SliceOfWrappedPayload(prose: string, payload: string, tail: string)
    requires |payload| >= 2 && IsOpener(payload[0]) && payload[|payload| - 1] == Closer(payload[0])
    requires forall i :: 0 <= i < |prose| ==> !IsOpener(prose[i])
    requires Closer(payload[0]) !in tail
    ensures BoundarySlice(prose + payload + tail) == Some(payload)
  {
    var c := prose + payload + tail;
    var start := |prose|;
    var end := |prose| + |payload| - 1;
    WrappedBlock(prose, payload, tail);
    assert c[start] == payload[0] && c[end] == payload[|payload| - 1] by {
      assert c[start..end + 1][0] == c[start];
      assert c[start..end + 1][|payload| - 1] == c[end];
    }
    FirstOpenerAt(c, start);
    LastIndexOfAt(c, Closer(payload[0]), end);
  }

  /** Where the three parts of `prose + payload + tail` stand. */
  lemma WrappedBlock<T>(prose: seq<T>, payload: seq<T>, tail: seq<T>)
    ensures var c := prose + payload + tail;
            && (forall i :: 0 <= i < |prose| ==> c[i] == prose[i])
            && c[|prose|..|prose| + |payload|] == payload
            && c[|prose| + |payload|..] == tail
  {
  }

  /** An opener with no opener before it is where the slice starts. */
  lemma FirstOpenerAt(c: string, n: nat)
    requires n < |c| && IsOpener(c[n])
    requires forall i :: 0 <= i < n ==> !IsOpener(c[i])
    ensures Boundaries(c).0 == n
    ensures Boundaries(c).1 == LastIndexOf(c, Closer(c[n]))
  {
    var b := Boundaries(c);
    assert b.0 >= 0;
  }

  /**
    The greedy search over-reaches: a matching closer in the trailing prose drags the
    slice past the payload (the documented limitation of attempt 2).
  */
  lemma SliceOvershootsStrayCloser(prose: string, payload: string, tail: string, k: nat)
    requires |payload| >= 2 && IsOpener(payload[0]) && payload[|payload| - 1] == Closer(payload[0])
    requires forall i :: 0 <= i < |prose| ==> !IsOpener(prose[i])
    requires k < |tail| && tail[k] == Closer(payload[0])
    ensures var slice := BoundarySlice(prose + payload + tail);
            slice.Some? && |slice.value| > |payload| && StartsWith(slice.value, payload)
  {
    var c := prose + payload + tail;
    var start := |prose|;
    var stray := |prose| + |payload| + k;
    WrappedBlock(prose, payload, tail);
    assert c[start] == payload[0] by {
      assert c[start..start + |payload|][0] == c[start];
    }
    assert c[stray] == tail[k] by {
      assert c[start + |payload|..][k] == c[stray];
    }
    FirstOpenerAt(c, start);
    LastIndexOfAtLeast(c, Closer(payload[0]), stray);
    SliceFromOpener(c, start, stray, |payload|);
  }

  /**
    A slice that starts at `start` and whose last closer comes no earlier than `k` is
    longer than any block from `start` that ends before `k`.
  */
  lemma SliceFromOpener(c: string, start: nat, k: nat, len: nat)
    requires start < |c| && IsOpener(c[start]) && Boundaries(c).0 == start
    requires start + len <= k < |c| && c[k] == Closer(c[start]) && Boundaries(c).1 >= k
    ensures BoundarySlice(c).Some?
    ensures |BoundarySlice(c).value| > len
    ensures BoundarySlice(c).value[..len] == c[start..start + len]
  {
    SliceCut(c, start, k);
    BlockReachesPast(c, start, BoundarySlice(c).value, Closer(c[start]), k, len);
  }

  /** A slice is cut once the last matching closer lies past the first opener. */
  lemma SliceCut(c: string, start: nat, k: nat)
    requires start < |c| && Boundaries(c).0 == start && start < k <= Boundaries(c).1
    ensures BoundarySlice(c).Some?
    ensures BoundarySlice(c).value[0] == c[start]
    ensures BoundarySlice(c).value == c[start..start + |BoundarySlice(c).value|]
    ensures Closer(c[start]) !in c[start + |BoundarySlice(c).value|..]
  {
  }

  /**
    A block of `c` followed by no `x` covers every `x` from its start on, so it is longer
    than any stretch from its start that ends before such an `x`.
  */
  lemma BlockReachesPast<T>(c: seq<T>, start: nat, block: seq<T>, x: T, k: nat, len: nat)
    requires start + |block| <= |c| && block == c[start..start + |block|]
    requires x !in c[start + |block|..]
    requires start + len <= k < |c| && c[k] == x
    ensures |block| > len && block[..len] == c[start..start + len]
  {
  }


  /** A successful slice parse is the result once the direct parse has failed. */
  lemma ExtractJsonFromSlice(text: string, parse: Parser, slice: string, v: Json)
    requires text != "" && parse(Cleaned(text)).None?
    requires BoundarySlice(Cleaned(text)) == Some(slice) && parse(slice) == Some(v)
    ensures ExtractJson(text, parse) == Success(v)
  {
  }

  lemma CleanedOfPreamble(prose: string, payload: string)
    requires prose != [] && !IsWhitespace(prose[0]) && prose[0] != '`'
    requires payload != []
    ensures Cleaned(prose + payload + "\n```") == prose + payload + "\n"
  {
    var text := prose + payload + "\n```";
    assert text[0] == prose[0];
    assert text[|text| - 1] == '`';
    TrimUnchanged(text);
    assert !HasOpeningFence(text) by {
      assert text[..3][0] == prose[0];
    }
    ClosingFenceOf(prose + payload);
  }

  lemma CleanedOfFence(payload: string)
    requires payload != [] && !IsWhitespace(payload[0])
    ensures Cleaned("```json\n" + payload + "\n```") == payload + "\n"
  {
    var tail := payload + "\n```";
    var text := "```json\n" + tail;
    assert text == "```json\n" + payload + "\n```";
    assert tail[0] == payload[0];
    assert text[0] == '`' && text[|text| - 1] == '`';
    TrimUnchanged(text);
    OpeningFenceOf(tail);
    ClosingFenceOf(payload);
  }

  /** The opening fence and the newline after it go; the rest stays. */
  lemma OpeningFenceOf(tail: string)
    requires tail != [] && !IsWhitespace(tail[0])
    ensures StripOpeningFence("```json\n" + tail) == tail
  {
    var text := "```json\n" + tail;
    assert text[..3] == "```";
    assert text[3] == 'j' && text[4] == 's' && text[5] == 'o' && text[6] == 'n' && text[7] == '\n';
    assert text[8] == tail[0] && text[8..] == tail;
    OpeningFenceAt(text);
  }

  lemma OpeningFenceAt(text: string)
    requires |text| > 8 && text[..3] == "```"
    requires text[3] == 'j' && text[4] == 's' && text[5] == 'o' && text[6] == 'n' && text[7] == '\n'
    requires !IsWhitespace(text[8])
    ensures StripOpeningFence(text) == text[8..]
  {
    assert HasOpeningFence(text);
    var rest := text[7..];
    assert rest[0] == '\n' && rest[1] == text[8] && rest[1..] == text[8..];
    TrimStartDropsOne(rest);
  }

  /** A trailing "\n```" loses its fence and keeps its newline. */
  lemma ClosingFenceOf(body: string)
    ensures StripClosingFence(body + "\n```") == body + "\n"
  {
    var s := body + "\n```";
    assert s[|s| - 1] == '`';
    assert EndsWith(s, "```") by { assert s[|s| - 3..] == "```"; }
    StripClosingFenceOfTrimmed(s);
    assert s[..|s| - 3] == body + "\n";
  }

  /**
    A reply of the form `prose + payload + "\n```"`, where the prose starts with a
    non-blank, non-fence character and holds no opener (e.g. "Sure! ```json\n"), yields
    the payload's value once the whole cleaned text fails to parse.
  */
  lemma RecoversPayloadAfterPreamble(prose: string, payload: string, v: Json, parse: Parser)
    requires prose != [] && !IsWhitespace(prose[0]) && prose[0] != '`'
    requires forall i :: 0 <= i < |prose| ==> !IsOpener(prose[i])
    requires |payload| >= 2 && IsOpener(payload[0]) && payload[|payload| - 1] == Closer(payload[0])
    requires parse(payload) == Some(v)
    requires parse(prose + payload + "\n") == None
    ensures ExtractJson(prose + payload + "\n```", parse) == Success(v)
  {
    CleanedOfPreamble(prose, payload);
    SliceOfWrappedPayload(prose, payload, "\n");
    ExtractJsonFromSlice(prose + payload + "\n```", parse, payload, v);
  }

  /**
    A reply that is exactly one fenced block "```json\n" + payload + "\n```" yields the
    payload's value (an object, an array or any other JSON text that does not start with
    whitespace), given that JSON ignores trailing whitespace (section 2 of RFC 8259).
  */
  lemma RecoversFencedPayload(payload: string, v: Json, parse: Parser)
    requires payload != [] && !IsWhitespace(payload[0])
    requires parse(payload) == Some(v)
    requires parse(payload + "\n") == parse(payload)
    ensures ExtractJson("```json\n" + payload + "\n```", parse) == Success(v)
  {
    CleanedOfFence(payload);
  }

  /* ---------------- inline-image scan (lines 216-221, 236-241) ---------------- */

  /** A value inside a template literal: `undefined` is spelled out, a string is kept. */
  function Interpolated(value: Option<string>): (text: string)
    ensures value.Some? ==> text == value.value
    ensures value.None? ==> text == "undefined"
  {
    if value.Some? then value.value else "undefined"
  }

  /** "data:image/png;base64," followed by the payload (RFC 2397). */
  function PngDataUri(data: string): string {
    PngDataUriPrefix + data
  }

  /** Part `k` is the first one carrying inline data. */
  predicate FirstInlineAt(parts: seq<Part>, k: int) {
    0 <= k < |parts| && parts[k].inlineData.Some?
    && forall j :: 0 <= j < k ==> parts[j].inlineData.None?
  }

  /**
    The `for (const part of parts)` loop: the data URI of the first part with inline
    data, or the given error when the part list is missing or has no such part.
  */
  method FirstInlineImage(parts: Option<seq<Part>>, failure: string) returns (r: Result<string, string>)
    ensures r.Failure? <==> parts.None? || forall k :: 0 <= k < |parts.value| ==> parts.value[k].inlineData.None?
    ensures r.Failure? ==> r.error == failure
    ensures r.Success? ==> parts.Some? && exists k :: (FirstInlineAt(parts.value, k)
                             && r.value == PngDataUri(Interpolated(parts.value[k].inlineData.value.data)))
  {
    if parts.Some? {
      var ps := parts.value;
      var i := 0;
      while i < |ps|
        invariant 0 <= i <= |ps|
        invariant forall j :: 0 <= j < i ==> ps[j].inlineData.None?
      {
        if ps[i].inlineData.Some? {
          assert FirstInlineAt(ps, i);
          return Success(PngDataUri(Interpolated(ps[i].inlineData.value.data)));
        }
        i := i + 1;
      }
    }
    return Failure(failure);
  }

  /** `generateImage` after the call: the first inline image, else its error. */
  method GeneratedImageUrl(response: Response) returns (r: Result<string, string>)
    ensures r.Failure? <==> CandidateParts(response).None?
                            || forall k :: 0 <= k < |CandidateParts(response).value| ==> CandidateParts(response).value[k].inlineData.None?
    ensures r.Failure? ==> r.error == GenerationError
    ensures r.Success? ==> CandidateParts(response).Some?
                           && exists k :: (FirstInlineAt(CandidateParts(response).value, k)
                                && r.value == PngDataUri(Interpolated(CandidateParts(response).value[k].inlineData.value.data)))
  {
    r := FirstInlineImage(CandidateParts(response), GenerationError);
  }

  /** `editImage` after the call: the first inline image, else its error. */
  method EditedImageUrl(response: Response) returns (r: Result<string, string>)
    ensures r.Failure? <==> CandidateParts(response).None?
                            || forall k :: 0 <= k < |CandidateParts(response).value| ==> CandidateParts(response).value[k].inlineData.None?
    ensures r.Failure? ==> r.error == EditError
    ensures r.Success? ==> CandidateParts(response).Some?
                           && exists k :: (FirstInlineAt(CandidateParts(response).value, k)
                                && r.value == PngDataUri(Interpolated(CandidateParts(response).value[k].inlineData.value.data)))
  {
    r := FirstInlineImage(CandidateParts(response), EditError);
  }

  /* ---------------- data-URI payload (lines 116, 205, 230) ---------------- */

  /**
    `uri.split(',')[1]`: the text between the first comma and the next one (or the
    end); `None` (JavaScript `undefined`) when there is no comma.
  */
  function InlinePayload(uri: string): (r: Option<string>)
    ensures r.None? <==> ',' !in uri
    ensures r.Some? ==> ',' !in r.value
    ensures r.Some? ==> var c := IndexOf(uri, ',');
              && StartsWith(uri[c + 1..], r.value)
              && (|r.value| == |uri| - c - 1 || uri[c + 1 + |r.value|] == ',')
  {
    var c := IndexOf(uri, ',');
    if c == -1 then None
    else
      var rest := uri[c + 1..];
      var e := IndexOf(rest, ',');
      if e == -1 then Some(rest)
      else
        assert uri[c + 1 + e] == rest[e];
        Some(rest[..e])
  }

  /** The payload split recovers what the image scan wrapped: base64 data has no comma. */
  lemma InlinePayloadOfPngDataUri(data: string)
    requires ',' !in data
    ensures InlinePayload(PngDataUri(data)) == Some(data)
  {
    var uri := PngDataUri(data);
    assert uri[..21] == "data:image/png;base64";
    assert uri[21] == ',';
    IndexOfAt(uri, ',', 21);
    assert uri[22..] == data;
  }

  /* ---------------- grounding sources (lines 63-84, 148) ---------------- */

  /**
    `{ title: c.web.title || 'Source', uri: c.web.uri }`: the link is kept, and the title is
    the page's own when it has a non-empty one, else "Source"; it is never empty.
  */
  function SourceOf(w: Web): (src: GroundingSource)
    ensures src.uri == w.uri
    ensures Truthy(w.title) ==> src.title == w.title.value
    ensures !Truthy(w.title) ==> src.title == "Source"
    ensures src.title != ""
  {
    GroundingSource(OrElse(w.title, "Source"), w.uri)
  }

  /** `.filter(c => c?.web).map(...)`. */
  function WebSources(chunks: seq<Chunk>): (r: seq<GroundingSource>)
    ensures |r| <= |chunks|
  {
    if chunks == [] then []
    else
      var rest := WebSources(chunks[1..]);
      match chunks[0].web
      case Some(w) => [SourceOf(w)] + rest
      case None => rest
  }

  /** The filter/map keeps the original order: it distributes over concatenation. */
  lemma {:induction false} WebSourcesAppend(a: seq<Chunk>, b: seq<Chunk>)
    ensures WebSources(a + b) == WebSources(a) + WebSources(b)
  {
    if a != [] {
      assert (a + b)[1..] == a[1..] + b;
      WebSourcesAppend(a[1..], b);
    } else {
      assert a + b == b;
    }
  }

  /** Every source comes from a chunk with a `web` field, with its title defaulted. */
  lemma {:induction false} WebSourcesSound(chunks: seq<Chunk>, s: GroundingSource)
    requires s in WebSources(chunks)
    ensures exists k :: 0 <= k < |chunks| && chunks[k].web.Some? && s == SourceOf(chunks[k].web.value)
  {
    if chunks[0].web.Some? && s == SourceOf(chunks[0].web.value) {
    } else {
      WebSourcesSound(chunks[1..], s);
      var k :| 0 <= k < |chunks[1..]| && chunks[1..][k].web.Some? && s == SourceOf(chunks[1..][k].web.value);
      assert chunks[k + 1] == chunks[1..][k];
    }
  }

  /** Every chunk with a `web` field contributes its source. */
  lemma {:induction false} WebSourcesComplete(chunks: seq<Chunk>, k: nat)
    requires k < |chunks| && chunks[k].web.Some?
    ensures SourceOf(chunks[k].web.value) in WebSources(chunks)
  {
    if k > 0 {
      assert chunks[1..][k - 1] == chunks[k];
      WebSourcesComplete(chunks[1..], k - 1);
    }
  }

  /** Nothing is dropped exactly when every chunk has a `web` field. */
  lemma {:induction false} WebSourcesKeepsAll(chunks: seq<Chunk>)
    ensures |WebSources(chunks)| == |chunks| <==> forall k :: 0 <= k < |chunks| ==> chunks[k].web.Some?
  {
    if chunks != [] {
      WebSourcesKeepsAll(chunks[1..]);
      assert forall k :: 1 <= k < |chunks| ==> chunks[k] == chunks[1..][k - 1];
      assert (forall k :: 0 <= k < |chunks| ==> chunks[k].web.Some?) <==>
             chunks[0].web.Some? && forall k :: 0 <= k < |chunks[1..]| ==> chunks[1..][k].web.Some?;
    }
  }

  /** Phase 1 runs only for a truthy `input.text` (line 67). */
  predicate ResearchRuns(text: Option<string>) {
    Truthy(text)
  }

  /** The grounding sources phase 1 leaves behind (lines 63-84). */
  function GroundingSourcesOf(text: Option<string>, research: Response): (r: seq<GroundingSource>)
    ensures !ResearchRuns(text) ==> r == []
    ensures ResearchRuns(text) ==>
              r == (if CandidateChunks(research).Some? then WebSources(CandidateChunks(research).value) else [])
  {
    if !ResearchRuns(text) then []
    else
      match CandidateChunks(research)
      case Some(chunks) => WebSources(chunks)
      case None => []
  }

  /* ---------------- analyzeProduct and generateListingBriefs, after the calls ---------------- */

  datatype AnalysisInput = AnalysisInput(text: Option<string>, image: Option<string>)

  /** Setting a property on `null` or a primitive throws in module (strict) code. */
  const PropertyOnNonObjectError := "TypeError: cannot set property 'groundingSources'"

  /**
    Lines 147-150: decode the structuring reply (`|| "{}"`), cast it without checks
    (`cast` stands for the bare `as ProductAnalysis`), and overwrite its grounding
    sources with phase 1's.
  */
  function AnalysisOf(input: AnalysisInput, research: Response, structure: Response,
                      parse: Parser, cast: Json -> ProductAnalysis): (r: Result<ProductAnalysis, string>)
    ensures r.Success? ==> r.value.groundingSources == Some(GroundingSourcesOf(input.text, research))
    ensures ExtractJson(OrElse(structure.text, "{}"), parse).Failure? ==> r == Failure(FormatError)
    ensures var d := ExtractJson(OrElse(structure.text, "{}"), parse);
            r.Success? <==> d.Success? && (d.value.JObject? || d.value.JArray?)
    ensures var d := ExtractJson(OrElse(structure.text, "{}"), parse);
            d.Success? && !(d.value.JObject? || d.value.JArray?) ==> r == Failure(PropertyOnNonObjectError)
    ensures var d := ExtractJson(OrElse(structure.text, "{}"), parse);
            r.Success? ==> r.value == cast(d.value).(groundingSources := Some(GroundingSourcesOf(input.text, research)))
  {
    match ExtractJson(OrElse(structure.text, "{}"), parse)
    case Failure(e) => Failure(e)
    case Success(j) =>
      if j.JObject? || j.JArray? then
        Success(cast(j).(groundingSources := Some(GroundingSourcesOf(input.text, research))))
      else
        Failure(PropertyOnNonObjectError)
  }

  /**
    Without input text no research result is consulted: any two research replies give
    the same analysis, and its grounding sources are empty.
  */
  lemma NoTextNoResearch(input: AnalysisInput, r1: Response, r2: Response, structure: Response,
                         parse: Parser, cast: Json -> ProductAnalysis)
    requires !ResearchRuns(input.text)
    ensures AnalysisOf(input, r1, structure, parse, cast) == AnalysisOf(input, r2, structure, parse, cast)
    ensures AnalysisOf(input, r1, structure, parse, cast).Success? ==>
              AnalysisOf(input, r1, structure, parse, cast).value.groundingSources == Some([])
  {
  }

  /**
    Every grounding source a successful analysis carries is the source of a web chunk of
    the research reply's first candidate, and it exists only when research ran.
  */
  lemma AnalysisSourcesComeFromResearch(input: AnalysisInput, research: Response, structure: Response,
                                        parse: Parser, cast: Json -> ProductAnalysis, s: GroundingSource)
    requires AnalysisOf(input, research, structure, parse, cast).Success?
    requires s in AnalysisOf(input, research, structure, parse, cast).value.groundingSources.value
    ensures ResearchRuns(input.text) && CandidateChunks(research).Some?
    ensures var chunks := CandidateChunks(research).value;
            exists k :: 0 <= k < |chunks| && chunks[k].web.Some? && s == SourceOf(chunks[k].web.value)
  {
    WebSourcesSound(CandidateChunks(research).value, s);
  }

  /** Lines 188-189: the decoded value if it is an array, otherwise the empty list. */
  function BriefsOf(response: Response, parse: Parser): (r: Result<seq<Json>, string>)
    ensures r.Failure? <==> ExtractJson(OrElse(response.text, "[]"), parse).Failure?
    ensures r.Success? ==> var d := ExtractJson(OrElse(response.text, "[]"), parse).value;
                           if d.JArray? then r.value == d.items else r.value == []
  {
    match ExtractJson(OrElse(response.text, "[]"), parse)
    case Failure(e) => Failure(e)
    case Success(j) => Success(if j.JArray? then j.items else [])
  }
}
