/** The enhancement client (services/geminiService.ts): builds the request for the
    remote image model and classifies what comes back into an image payload or
    an error message. The remote call itself is an input: its answer or the value
    it throws is a `CallOutcome`. */
module EnhanceService {
  import opened Wrappers
  import opened Strings

  /** The closed set of enhancement styles (`EnhancementMode`). */
  datatype Mode = General | Face | Landscape

  /** The instruction template sent with the image for each mode (the `prompts` record).
      The templates are configuration text; only their opening sentences are kept here. */
  function Prompt(m: Mode): (p: string)
    ensures p != ""
  {
    match m
    case General => "Act as a professional photo editor."
    case Face => "Act as an expert portrait retoucher."
    case Landscape => "Act as a professional landscape photographer editing a prize-winning photo."
  }

  /** Which mode a template belongs to, if any. */
  function ModeOfPrompt(text: string): (r: Option<Mode>)
    ensures r.Some? ==> Prompt(r.value) == text
  {
    if text == Prompt(General) then Some(General)
    else if text == Prompt(Face) then Some(Face)
    else if text == Prompt(Landscape) then Some(Landscape)
    else None
  }

  /** Every mode has its own template, so the template identifies the mode. */
  lemma PromptIdentifiesMode(m: Mode)
    ensures ModeOfPrompt(Prompt(m)) == Some(m)
  {
  }

  // ---------------------------------------------------------------------------
  // the request

  /** One part of the outgoing request: the image as inline data, or instruction text.
      The data is `None` where the caller passed `undefined`. */
  datatype RequestPart =
    | InlineImage(data: Option<string>, mimeType: string)
    | InstructionText(text: string)

  /** The request's parts: the image first, then the template of the chosen mode. */
  function RequestParts(data: Option<string>, mimeType: string, mode: Mode): (r: seq<RequestPart>)
    ensures |r| == 2 && r[0].InlineImage? && r[1].InstructionText?
  {
    [InlineImage(data, mimeType), InstructionText(Prompt(mode))]
  }

  /** What the remote side can read back from a request: image data, MIME type and mode. */
  function ReadRequest(parts: seq<RequestPart>): Option<(Option<string>, string, Mode)> {
    if |parts| == 2 && parts[0].InlineImage? && parts[1].InstructionText? then
      match ModeOfPrompt(parts[1].text)
      case None => None
      case Some(m) => Some((parts[0].data, parts[0].mimeType, m))
    else None
  }

  /** The request loses nothing: the image, its MIME type and the mode can all be recovered. */
  lemma RequestRoundTrip(data: Option<string>, mimeType: string, mode: Mode)
    ensures ReadRequest(RequestParts(data, mimeType, mode)) == Some((data, mimeType, mode))
  {
    PromptIdentifiesMode(mode);
  }

  // ---------------------------------------------------------------------------
  // the response

  /** Inline binary data: base64 text and its MIME type. */
  datatype Blob = Blob(data: string, mimeType: string)
  /** A response part; either field may be absent. */
  datatype Part = Part(inlineData: Option<Blob>, text: Option<string>)
  datatype Content = Content(parts: Option<seq<Part>>)
  datatype Candidate = Candidate(content: Option<Content>)
  datatype Response = Response(candidates: Option<seq<Candidate>>)

  /** A value seen by a `catch` block: an `Error` object with a message, or anything else. */
  datatype Thrown = Error(message: string) | NonError

  /** What the remote call did: answered with a response, or threw. */
  datatype CallOutcome = Answered(response: Response) | Threw(thrown: Thrown)

  const TextMarker := "API returned text"
  const TextPrefix := TextMarker + " instead of an image: "
  const NoImageMessage := "Image enhancement failed: " + "No image data received from the " + "API."
  const GenericMessage := "Failed to communicate with the AI enhancement service. Please try again later."

  /** `response.candidates?.[0]?.content?.parts`: only the first candidate is looked at. */
  function FirstCandidateParts(r: Response): Option<seq<Part>> {
    match r.candidates
    case None => None
    case Some(cs) =>
      if |cs| == 0 then None
      else match cs[0].content
        case None => None
        case Some(c) => c.parts
  }

  /** `part => part.inlineData`: an inline-data object is truthy whenever present. */
  predicate HasImage(p: Part) {
    p.inlineData.Some?
  }

  /** `part => part.text`: a text is truthy when present and non-empty. */
  predicate HasText(p: Part) {
    Truthy(p.text)
  }

  /** `Array.prototype.find`, returning the index of the element it finds. */
  function FindFirst<T>(s: seq<T>, p: T -> bool): (r: Option<nat>)
    ensures r.Some? ==> r.value < |s| && p(s[r.value])
    ensures r.Some? ==> forall j :: 0 <= j < r.value ==> !p(s[j])
    ensures r.None? ==> forall j :: 0 <= j < |s| ==> !p(s[j])
  {
    if |s| == 0 then None
    else if p(s[0]) then Some(0)
    else match FindFirst(s[1..], p)
      case None => None
      case Some(i) => Some(i + 1)
  }

  /** The `try` body once the response is in: the data of the first image part, else the
      "text instead of an image" error for the first non-empty text part, else the
      "no image data" error. */
  function ReadResponse(r: Response): Result<string, Thrown> {
    match FirstCandidateParts(r)
    case None => Failure(Error(NoImageMessage))
    case Some(parts) =>
      match FindFirst(parts, HasImage)
      case Some(i) => Success(parts[i].inlineData.value.data)
      case None =>
        match FindFirst(parts, HasText)
        case Some(i) => Failure(Error(TextPrefix + parts[i].text.value))
        case None => Failure(Error(NoImageMessage))
  }

  /** The `catch` block: an `Error` whose message mentions "API returned text" is rethrown
      as it is; every other thrown value becomes the generic error. */
  function Rethrow(e: Thrown): Thrown {
    if e.Error? && Contains(e.message, TextMarker) then e else Error(GenericMessage)
  }

  /** The "no image data" message does not mention "API returned text". */
  lemma NoImageMessageUnmarked()
    ensures !Contains(NoImageMessage, TextMarker)
  {
    var head := "Image enhancement failed: " + "No image data received from the ";
    HeadLacksCapitalA();
    NotContainedWithoutFirstChar(head, "API.", TextMarker);
  }

  lemma HeadLacksCapitalA()
    ensures 'A' !in "Image enhancement failed: " + "No image data received from the "
  {
    assert 'A' !in "Image enhancement failed: ";
    assert 'A' !in "No image data received from the ";
  }

  /** `enhanceImage` given what the remote call did. Every failure is an `Error` whose message
      is the generic one or mentions "API returned text"; the "no image data" message never
      reaches the caller. */
  function EnhanceImage(call: CallOutcome): (r: Result<string, Thrown>)
    ensures r.Failure? ==> r.error.Error?
    ensures r.Failure? ==> r.error.message == GenericMessage || Contains(r.error.message, TextMarker)
    ensures r.Failure? ==> r.error.message != NoImageMessage
  {
    NoImageMessageUnmarked();
    match call
    case Threw(e) => Failure(Rethrow(e))
    case Answered(resp) =>
      match ReadResponse(resp)
      case Success(d) => Success(d)
      case Failure(e) => Failure(Rethrow(e))
  }

  // ---------------------------------------------------------------------------
  // properties of the classification

  /** The first image part of the first candidate is the result, whatever follows it. */
  lemma FirstImagePartWins(resp: Response, parts: seq<Part>, i: nat)
    requires FirstCandidateParts(resp) == Some(parts)
    requires i < |parts| && HasImage(parts[i])
    requires forall j :: 0 <= j < i ==> !HasImage(parts[j])
    ensures EnhanceImage(Answered(resp)) == Success(parts[i].inlineData.value.data)
  {
    var k := FindFirst(parts, HasImage);
    assert k.Some? && k.value == i;
  }

  /** The call succeeds exactly when the first candidate has an image part. */
  lemma SucceedsIffImagePart(resp: Response)
    ensures EnhanceImage(Answered(resp)).Success? <==>
            FirstCandidateParts(resp).Some? &&
            exists j :: 0 <= j < |FirstCandidateParts(resp).value| && HasImage(FirstCandidateParts(resp).value[j])
  {
    match FirstCandidateParts(resp)
    case None =>
    case Some(parts) =>
      match FindFirst(parts, HasImage)
      case Some(i) =>
        assert HasImage(parts[i]);
      case None =>
  }

  /** Without an image part, the first non-empty text part is surfaced verbatim after the
      "API returned text" prefix, and the caller receives exactly that message. */
  lemma TextPartSurfaces(resp: Response, parts: seq<Part>, i: nat)
    requires FirstCandidateParts(resp) == Some(parts)
    requires forall j :: 0 <= j < |parts| ==> !HasImage(parts[j])
    requires i < |parts| && HasText(parts[i])
    requires forall j :: 0 <= j < i ==> !HasText(parts[j])
    ensures EnhanceImage(Answered(resp)) == Failure(Error(TextPrefix + parts[i].text.value))
  {
    var k := FindFirst(parts, HasText);
    assert k.Some? && k.value == i;
    TextMessageMarked(parts[i].text.value);
  }

  /** Every "text instead of an image" message mentions "API returned text". */
  lemma TextMessageMarked(text: string)
    ensures Contains(TextPrefix + text, TextMarker)
  {
    var rest := " instead of an image: " + text;
    assert TextPrefix + text == TextMarker + rest;
    PrefixContained(TextMarker, rest);
  }

  /** With neither an image part nor a text part, or with no first candidate or no parts at
      all, the caller receives the generic message. */
  lemma NothingUsableGivesGeneric(resp: Response)
    requires FirstCandidateParts(resp).Some? ==>
             forall j :: 0 <= j < |FirstCandidateParts(resp).value| ==>
               !HasImage(FirstCandidateParts(resp).value[j]) && !HasText(FirstCandidateParts(resp).value[j])
    ensures EnhanceImage(Answered(resp)) == Failure(Error(GenericMessage))
  {
    NoImageMessageUnmarked();
  }

  /** A thrown value reaches the caller unchanged exactly when it is an `Error` mentioning
      "API returned text" (or already carrying the generic message); otherwise the caller
      receives the generic message. */
  lemma ThrownClassified(e: Thrown)
    ensures EnhanceImage(Threw(e)) == Failure(e) <==>
            e.Error? && (Contains(e.message, TextMarker) || e.message == GenericMessage)
    ensures !(e.Error? && Contains(e.message, TextMarker)) ==>
            EnhanceImage(Threw(e)) == Failure(Error(GenericMessage))
  {
  }

  /** Candidates after the first never influence the outcome. */
  lemma LaterCandidatesIgnored(first: Candidate, rest: seq<Candidate>)
    ensures EnhanceImage(Answered(Response(Some([first] + rest)))) ==
            EnhanceImage(Answered(Response(Some([first]))))
  {
    assert ([first] + rest)[0] == first;
  }
}
