/** The application controller (App.tsx): the state behind the page (original image,
    enhanced image, loading flag, error, rotating status message and selected mode),
    the handlers that change it, the data-URL parser, and the render guards that decide
    which components are shown. An enhancement is split into its two halves: the click
    handler up to the `await` (StartEnhance) and the code that runs when the response
    arrives (FinishEnhance); anything may happen in between. */
module App {
  import opened Wrappers
  import opened Strings
  import opened EnhanceService
  import ActionPanel
  import ModeSelector
  import ImageComparator

  // ---------------------------------------------------------------------------
  // the rotating status message

  /** The status messages shown in turn while an enhancement is running. */
  const LoadingMessages: seq<string> := [
    "Consulting with AI artists...",
    "Sharpening details...",
    "Balancing colors...",
    "Adjusting lighting...",
    "Adding a touch of magic...",
    "Almost there, preparing the masterpiece..."
  ]

  /** No message appears twice in a list. */
  predicate Distinct(messages: seq<string>) {
    forall i, j :: 0 <= i < j < |messages| ==> messages[i] != messages[j]
  }

  lemma LoadingMessagesDistinct()
    ensures Distinct(LoadingMessages)
  {
  }

  /** One timer tick (the state updater inside the interval): the message after `prev` in the
      list, wrapping round; a message not in the list (whose `indexOf` is -1) is followed by
      the first one. */
  function NextMessage(messages: seq<string>, prev: string): (next: string)
    requires |messages| > 0
    ensures next in messages
    ensures prev !in messages ==> next == messages[0]
  {
    var current: int := match IndexOf(messages, prev)
                        case None => -1
                        case Some(i) => i;
    messages[(current + 1) % |messages|]
  }

  /** In a list without repeats a tick moves from message i to message i + 1, and from the
      last message back to the first. */
  lemma NextMessageStep(messages: seq<string>, i: nat)
    requires Distinct(messages) && i < |messages|
    ensures NextMessage(messages, messages[i]) == messages[if i + 1 < |messages| then i + 1 else 0]
  {
    var k := |messages|;
    var r := IndexOf(messages, messages[i]);
    assert r == Some(i) by {
      assert messages[i] in messages;
      assert messages[r.value] == messages[i];
    }
    if i + 1 < k {
      ModUnique(i + 1, k, 0, i + 1);
    } else {
      ModUnique(i + 1, k, 1, 0);
    }
  }

  /** The message shown after `n` ticks starting from `m`. */
  function AfterTicks(messages: seq<string>, m: string, n: nat): string
    requires |messages| > 0
  {
    if n == 0 then m else NextMessage(messages, AfterTicks(messages, m, n - 1))
  }

  /** The position reached after `n` steps round a ring of `k` places, counted without `%`. */
  function Turn(n: nat, k: nat): (t: nat)
    requires k > 0
    ensures t < k
  {
    if n == 0 then 0
    else var t := Turn(n - 1, k); if t + 1 < k then t + 1 else 0
  }

  /** Starting from the first message, `n` ticks show the message `n` places round the ring. */
  lemma {:induction false} AfterTicksTurn(messages: seq<string>, n: nat)
    requires Distinct(messages) && |messages| > 0
    ensures AfterTicks(messages, messages[0], n) == messages[Turn(n, |messages|)]
  {
    if n > 0 {
      var t := Turn(n - 1, |messages|);
      var prev := AfterTicks(messages, messages[0], n - 1);
      assert prev == messages[t] by {
        AfterTicksTurn(messages, n - 1);
      }
      NextMessageStep(messages, t);
    }
  }

  /** Going round the ring `n` steps lands on `n mod k`. */
  lemma {:induction false} TurnIsMod(n: nat, k: nat)
    requires k > 0
    ensures Turn(n, k) == n % k
  {
    if n > 0 {
      TurnIsMod(n - 1, k);
      ModStep(n, k);
    }
  }

  /** Starting from the first message, `n` ticks show message `n mod length`: the rotation
      stays in the list and wraps round. */
  lemma RotationWraps(messages: seq<string>, n: nat)
    requires Distinct(messages) && |messages| > 0
    ensures AfterTicks(messages, messages[0], n) == messages[n % |messages|]
  {
    AfterTicksTurn(messages, n);
    TurnIsMod(n, |messages|);
  }

  /** The app's six messages: after `n` ticks from the first one, message `n mod 6` is shown. */
  lemma LoadingRotation(n: nat)
    ensures |LoadingMessages| == 6
    ensures AfterTicks(LoadingMessages, LoadingMessages[0], n) == LoadingMessages[n % 6]
  {
    LoadingMessagesDistinct();
    RotationWraps(LoadingMessages, n);
  }

  lemma MulAtLeast(a: int, k: int)
    requires a >= 1 && k > 0
    ensures a * k >= k
  {
    assert a * k == (a - 1) * k + k;
    if a > 1 {
      MulAtLeast(a - 1, k);
    }
  }

  /** The remainder is determined by any quotient-remainder decomposition. */
  lemma ModUnique(n: int, k: int, q: int, r: int)
    requires k > 0 && 0 <= r < k && n == q * k + r
    ensures n % k == r
  {
    var q', r' := n / k, n % k;
    assert n == q' * k + r';
    assert (q - q') * k == r' - r;
    if q > q' {
      MulAtLeast(q - q', k);
    } else if q < q' {
      MulAtLeast(q' - q, k);
    }
  }

  /** Counting one more tick modulo `k`. */
  lemma ModStep(n: nat, k: nat)
    requires n > 0 && k > 0
    ensures n % k == if (n - 1) % k + 1 < k then (n - 1) % k + 1 else 0
  {
    var q, r := (n - 1) / k, (n - 1) % k;
    assert n - 1 == q * k + r;
    if r + 1 < k {
      ModUnique(n, k, q, r + 1);
    } else {
      assert n == (q + 1) * k + 0;
      ModUnique(n, k, q + 1, 0);
    }
  }

  // ---------------------------------------------------------------------------
  // parseDataUrl

  datatype ParsedDataUrl = ParsedDataUrl(base64Data: Option<string>, mimeType: string)

  const DefaultMimeType := "image/jpeg"

  /** `parseDataUrl`: split at commas; the MIME type is the first capture group of
      `/:(.*?);/` in the first piece, or "image/jpeg" when there is no match or the group is
      empty; the data is the second piece, `None` (the source's `undefined`) without a comma. */
  function ParseDataUrl(dataUrl: string): (r: ParsedDataUrl)
    ensures r.mimeType != ""
    ensures r.base64Data.Some? <==> ',' in dataUrl
    ensures r.base64Data.Some? ==> ',' !in r.base64Data.value
    ensures ';' !in r.mimeType
  {
    var parts := Split(dataUrl, ',');
    var group := ColonGroup(parts[0]);
    var mimeType := if group.Some? && group.value != "" then group.value else DefaultMimeType;
    ParsedDataUrl(if |parts| > 1 then Some(parts[1]) else None, mimeType)
  }

  /** When the first piece (the text before the first comma) has no line terminators, the
      MIME type is the text after its first `:` up to the next `;`, and "image/jpeg" when
      there is no such text or it is empty. */
  lemma ParseDataUrlMimeType(head: string, rest: string)
    requires ',' !in head && (rest == "" || rest[0] == ',')
    requires forall k :: 0 <= k < |head| ==> !IsLineTerminator(head[k])
    ensures var plain := FirstColonToSemicolon(head);
            ParseDataUrl(head + rest).mimeType ==
            if plain.Some? && plain.value != "" then plain.value else DefaultMimeType
  {
    ColonGroupPlain(head);
    if rest == "" {
      assert head + rest == head;
      assert Split(head, ',') == [head];
    } else {
      assert head + rest == head + [','] + rest[1..];
      SplitFirst(head, ',', rest[1..]);
    }
  }

  /** The data is the piece between the first and the second comma. */
  lemma ParseDataUrlData(head: string, data: string, tail: string)
    requires ',' !in head && ',' !in data
    ensures ParseDataUrl(head + [','] + data).base64Data == Some(data)
    ensures ParseDataUrl(head + [','] + data + [','] + tail).base64Data == Some(data)
  {
    SplitFirst(head, ',', data);
    assert Split(data, ',') == [data];
    assert Split(head + [','] + data, ',') == [head, data];
    var u := head + [','] + data + [','] + tail;
    assert u == head + [','] + (data + [','] + tail);
    SplitFirst(head, ',', data + [','] + tail);
    SplitFirst(data, ',', tail);
    assert Split(u, ',')[1] == data;
  }

  /** The first piece of a FileReader data URL reads, plainly, as its MIME type. */
  lemma DataUrlHeadPlain(mimeType: string)
    requires ';' !in mimeType
    ensures FirstColonToSemicolon("data:" + mimeType + ";base64") == Some(mimeType)
  {
    var head := "data:" + mimeType + ";base64";
    var after := mimeType + ";base64";
    assert IndexOf(head, ':') == Some(4) by {
      assert head == "data" + (":" + after);
      IndexOfAppend("data", ":" + after, ':');
    }
    assert head[5..] == after;
    assert IndexOf(after, ';') == Some(|mimeType|) by {
      IndexOfAppend(mimeType, ";base64", ';');
    }
    assert head[5..5 + |mimeType|] == mimeType;
  }

  /** The first piece of a FileReader data URL has no comma and no line terminator when its
      MIME type has neither. */
  lemma DataUrlHeadClean(mimeType: string)
    requires ',' !in mimeType
    requires forall k :: 0 <= k < |mimeType| ==> !IsLineTerminator(mimeType[k])
    ensures ',' !in "data:" + mimeType + ";base64"
    ensures forall k :: 0 <= k < |"data:" + mimeType + ";base64"| ==>
              !IsLineTerminator(("data:" + mimeType + ";base64")[k])
  {
  }

  /** The MIME type of a data URL of the form FileReader produces is read back, whatever the
      data. */
  lemma DataUrlMimeType(mimeType: string, data: string)
    requires mimeType != "" && ',' !in mimeType && ';' !in mimeType
    requires forall k :: 0 <= k < |mimeType| ==> !IsLineTerminator(mimeType[k])
    ensures ParseDataUrl("data:" + mimeType + ";base64," + data).mimeType == mimeType
  {
    var head := "data:" + mimeType + ";base64";
    var url := "data:" + mimeType + ";base64," + data;
    DataUrlHeadClean(mimeType);
    assert url == head + ([','] + data);
    ParseDataUrlMimeType(head, [','] + data);
    DataUrlHeadPlain(mimeType);
  }

  /** A data URL of the form FileReader produces parses back into its MIME type and data. */
  lemma ParseDataUrlRoundTrip(mimeType: string, data: string)
    requires mimeType != "" && ',' !in mimeType && ';' !in mimeType
    requires forall k :: 0 <= k < |mimeType| ==> !IsLineTerminator(mimeType[k])
    requires ',' !in data
    ensures ParseDataUrl("data:" + mimeType + ";base64," + data) == ParsedDataUrl(Some(data), mimeType)
  {
    var head := "data:" + mimeType + ";base64";
    var url := "data:" + mimeType + ";base64," + data;
    assert ParseDataUrl(url).base64Data == Some(data) by {
      DataUrlHeadClean(mimeType);
      assert url == head + [','] + data;
      ParseDataUrlData(head, data, "");
    }
    DataUrlMimeType(mimeType, data);
  }

  // ---------------------------------------------------------------------------
  // what the handlers hand over and display

  /** The arguments `handleEnhanceImage` passes to the enhancement client. */
  datatype EnhanceRequest = EnhanceRequest(base64Data: Option<string>, mimeType: string, mode: Mode)

  /** What `handleDownload` triggers: a download of `href` under `fileName`. */
  datatype DownloadAction = DownloadAction(href: string, fileName: string)

  const PngPrefix := "data:image/png;base64,"
  const UnknownError := "An unknown error occurred."
  const DownloadName := "enhanced-image.png"

  /** The guard of `handleEnhanceImage`: an original image (truthy) and a mode. */
  predicate CanEnhance(original: Option<string>, mode: Option<Mode>) {
    Truthy(original) && mode.Some?
  }

  /** The text the `catch` block stores: the message of an `Error`, otherwise the fallback. */
  function ErrorText(e: Thrown): string {
    match e
    case Error(message) => message
    case NonError => UnknownError
  }

  /** A message the enhancement client can fail with: the generic one or one that mentions
      "API returned text". */
  predicate ServiceMessage(m: string) {
    m == GenericMessage || Contains(m, TextMarker)
  }

  /** Whatever the remote call does, the error text stored after a failure is a service message,
      so it is never empty and the "unknown error" fallback is never shown. */
  lemma FailureTextIsServiceMessage(call: CallOutcome)
    ensures EnhanceImage(call).Failure? ==> ServiceMessage(ErrorText(EnhanceImage(call).error))
    ensures forall m :: ServiceMessage(m) ==> m != "" && m != UnknownError
  {
    UnknownErrorUnmarked();
    forall m | ServiceMessage(m)
      ensures m != ""
    {
      if m != GenericMessage {
        var i: nat :| i <= |m| - |TextMarker| && OccursAt(m, TextMarker, i);
      }
    }
  }

  /** The fallback text does not mention "API returned text". */
  lemma UnknownErrorUnmarked()
    ensures !Contains(UnknownError, TextMarker)
  {
    assert UnknownError == ['A'] + "n unknown error occurred.";
    assert 'A' !in "n unknown error occurred.";
    NotContainedPastStart('A', "n unknown error occurred.", TextMarker);
  }

  // ---------------------------------------------------------------------------
  // the page state and its handlers

  class AppState {
    var originalImage: Option<string>
    var enhancedImage: Option<string>
    var isLoading: bool
    var error: Option<string>
    var loadingMessage: string
    var mode: Option<Mode>

    /** The status message is one of the list, and the first one whenever nothing is running;
        while a request runs there is neither a result nor an error; a result is always a PNG
        data URL and an error always a message of the enhancement client. */
    ghost predicate Valid()
      reads this
    {
      && loadingMessage in LoadingMessages
      && (!isLoading ==> loadingMessage == LoadingMessages[0])
      && (isLoading ==> enhancedImage.None? && error.None?)
      && (enhancedImage.Some? ==> PngPrefix <= enhancedImage.value)
      && (error.Some? ==> ServiceMessage(error.value))
    }

    /** The initial state: nothing loaded, not loading, the first status message. */
    constructor ()
      ensures Valid()
      ensures originalImage == None && enhancedImage == None && error == None && mode == None
      ensures !isLoading && loadingMessage == LoadingMessages[0]
    {
      originalImage := None;
      enhancedImage := None;
      isLoading := false;
      error := None;
      loadingMessage := LoadingMessages[0];
      mode := None;
    }

    /** The `onloadend` callback of an upload: the data URL becomes the original image and the
        result, the error and the mode are cleared; a running request is not touched. */
    method ImageLoaded(dataUrl: string)
      requires Valid()
      modifies this
      ensures Valid()
      ensures originalImage == Some(dataUrl)
      ensures enhancedImage == None && error == None && mode == None
      ensures isLoading == old(isLoading) && loadingMessage == old(loadingMessage)
    {
      originalImage := Some(dataUrl);
      enhancedImage := None;
      error := None;
      mode := None;
    }

    /** `handleStartOver`: clears the original image, the result, the error and the mode, and
        leaves the loading flag as it is. */
    method StartOver()
      requires Valid()
      modifies this
      ensures Valid()
      ensures originalImage == None && enhancedImage == None && error == None && mode == None
      ensures isLoading == old(isLoading) && loadingMessage == old(loadingMessage)
    {
      originalImage := None;
      enhancedImage := None;
      error := None;
      mode := None;
    }

    /** `onSelectMode` of the mode selector: the chosen mode becomes the selected one. */
    method SelectMode(m: Mode)
      requires Valid()
      modifies this
      ensures Valid()
      ensures mode == Some(m)
      ensures originalImage == old(originalImage) && enhancedImage == old(enhancedImage)
      ensures isLoading == old(isLoading) && error == old(error) && loadingMessage == old(loadingMessage)
    {
      mode := Some(m);
    }

    /** The first half of `handleEnhanceImage`, up to the `await`. Without an original image or a
        mode nothing changes and no request is made. Otherwise loading starts, the error and the
        result are cleared, and the request carries the parsed data URL and the mode. */
    method StartEnhance() returns (request: Option<EnhanceRequest>)
      requires Valid()
      modifies this
      ensures Valid()
      ensures request.Some? <==> CanEnhance(old(originalImage), old(mode))
      ensures request.None? ==>
                originalImage == old(originalImage) && enhancedImage == old(enhancedImage) &&
                isLoading == old(isLoading) && error == old(error) &&
                loadingMessage == old(loadingMessage) && mode == old(mode)
      ensures request.Some? ==>
                var parsed := ParseDataUrl(old(originalImage).value);
                && request.value == EnhanceRequest(parsed.base64Data, parsed.mimeType, old(mode).value)
                && isLoading && error == None && enhancedImage == None
                && originalImage == old(originalImage) && mode == old(mode)
                && loadingMessage == old(loadingMessage)
    {
      if !CanEnhance(originalImage, mode) {
        return None;
      }
      isLoading := true;
      error := None;
      enhancedImage := None;
      var parsed := ParseDataUrl(originalImage.value);
      request := Some(EnhanceRequest(parsed.base64Data, parsed.mimeType, mode.value));
    }

    /** The second half of `handleEnhanceImage`, once the client has answered or thrown: on
        success the result becomes a PNG data URL, on failure the error becomes the thrown
        message; either way loading ends and the status message goes back to the first one.
        For a request that was running, exactly one of result and error is set afterwards. */
    method FinishEnhance(call: CallOutcome)
      requires Valid()
      modifies this
      ensures Valid()
      ensures !isLoading && loadingMessage == LoadingMessages[0]
      ensures EnhanceImage(call).Success? ==>
                enhancedImage == Some(PngPrefix + EnhanceImage(call).value) && error == old(error)
      ensures EnhanceImage(call).Failure? ==>
                error == Some(ErrorText(EnhanceImage(call).error)) && enhancedImage == old(enhancedImage)
      ensures old(isLoading) ==> (enhancedImage.Some? <==> error.None?)
      ensures originalImage == old(originalImage) && mode == old(mode)
    {
      var outcome := EnhanceImage(call);
      match outcome {
        case Success(data) =>
          enhancedImage := Some(PngPrefix + data);
        case Failure(e) =>
          FailureTextIsServiceMessage(call);
          error := Some(ErrorText(e));
      }
      isLoading := false;
      loadingMessage := LoadingMessages[0];
    }

    /** One tick of the status-message timer, which runs only while loading. */
    method Tick()
      requires Valid()
      modifies this
      ensures Valid()
      ensures old(isLoading) ==> loadingMessage == NextMessage(LoadingMessages, old(loadingMessage))
      ensures !old(isLoading) ==> loadingMessage == old(loadingMessage)
      ensures originalImage == old(originalImage) && enhancedImage == old(enhancedImage)
      ensures isLoading == old(isLoading) && error == old(error) && mode == old(mode)
    {
      if isLoading {
        loadingMessage := NextMessage(LoadingMessages, loadingMessage);
      }
    }

    /** `handleDownload`: nothing without a (truthy) result; otherwise the result is saved
        under the fixed PNG file name. */
    function Download(): (action: Option<DownloadAction>)
      reads this
      ensures action.None? <==> !Truthy(enhancedImage)
      ensures action.Some? ==> action.value.fileName == DownloadName
    {
      if !Truthy(enhancedImage) then None
      else Some(DownloadAction(enhancedImage.value, DownloadName))
    }

    /** The page for the current state; `sliderPosition` is the comparator's own state. */
    function View(sliderPosition: real): (screen: Screen)
      reads this
      ensures screen.Uploader? <==> !Truthy(originalImage)
      ensures screen.Workspace? ==>
                && (screen.errorBanner.Some? <==> Truthy(error))
                && (screen.modeCards.Some? <==> !isLoading && !Truthy(enhancedImage))
                && (screen.status.Some? <==> isLoading)
      ensures screen.Workspace? && !screen.panel.enhance.disabled ==>
                CanEnhance(originalImage, mode) && !isLoading
      ensures screen.Workspace? && !screen.panel.download.disabled ==>
                Download().Some? && !isLoading
    {
      if !Truthy(originalImage) then Uploader
      else
        Workspace(
          ActionPanel.Render(isLoading, Truthy(enhancedImage), mode.Some?),
          if Truthy(error) then Some(error.value) else None,
          if !isLoading && !Truthy(enhancedImage) then Some(ModeSelector.Render(mode)) else None,
          if isLoading then Some(loadingMessage) else None,
          ImageComparator.Render(originalImage, enhancedImage, sliderPosition))
    }
  }

  /** The page: the uploader alone, or the workspace with the action panel, the error banner
      (if any), the mode cards (if shown), the status message (if loading) and the comparator. */
  datatype Screen =
    | Uploader
    | Workspace(panel: ActionPanel.Panel,
                errorBanner: Option<string>,
                modeCards: Option<seq<ModeSelector.CardView>>,
                status: Option<string>,
                comparator: ImageComparator.ComparatorView)

  // ---------------------------------------------------------------------------
  // properties of the state and the page

  /** While a request runs, the workspace shows the rotating status message, no mode cards,
      no error, the original beside the placeholder, and only Start Over can be pressed. */
  lemma LoadingScreen(app: AppState, sliderPosition: real)
    requires app.Valid() && app.isLoading && Truthy(app.originalImage)
    ensures var screen := app.View(sliderPosition);
            && screen.Workspace?
            && screen.status == Some(app.loadingMessage)
            && screen.modeCards.None? && screen.errorBanner.None?
            && screen.comparator == ImageComparator.SideBySide(app.originalImage.value)
            && screen.panel.enhance.disabled && screen.panel.download.disabled
            && !screen.panel.startOver.disabled
  {
  }

  /** A shown error banner never carries the fallback text and is never empty. */
  lemma ErrorBannerIsServiceMessage(app: AppState, sliderPosition: real)
    requires app.Valid() && app.View(sliderPosition).Workspace?
    requires app.View(sliderPosition).errorBanner.Some?
    ensures ServiceMessage(app.View(sliderPosition).errorBanner.value)
    ensures app.View(sliderPosition).errorBanner.value != UnknownError
  {
    FailureTextIsServiceMessage(Threw(NonError));
  }

  /** What is downloaded is a PNG data URL: its MIME type parses as "image/png", matching the
      file name. */
  lemma DownloadIsPng(app: AppState)
    requires app.Valid() && app.Download().Some?
    ensures ParseDataUrl(app.Download().value.href).mimeType == "image/png"
    ensures app.Download().value.fileName == DownloadName
  {
    var href := app.Download().value.href;
    assert PngPrefix <= href;
    PngDataUrl(href[|PngPrefix|..]);
    assert href == PngPrefix + href[|PngPrefix|..];
  }

  /** A PNG data URL built by `FinishEnhance` parses as "image/png". */
  lemma PngDataUrl(data: string)
    ensures ParseDataUrl(PngPrefix + data).mimeType == "image/png"
  {
    assert PngPrefix + data == "data:" + "image/png" + ";base64," + data by {
      assert PngPrefix == "data:" + "image/png" + ";base64,";
    }
    DataUrlMimeType("image/png", data);
  }

  // ---------------------------------------------------------------------------
  // whole interactions

  /** A response whose first candidate holds just one image part with `data`. */
  function ImageAnswer(data: string): CallOutcome {
    Answered(Response(Some([Candidate(Some(Content(Some([Part(Some(Blob(data, "image/png")), None)]))))])))
  }

  /** A response whose first candidate holds just one text part. */
  function TextAnswer(text: string): CallOutcome {
    Answered(Response(Some([Candidate(Some(Content(Some([Part(None, Some(text))]))))])))
  }

  /** A single image part is the result. */
  lemma ImageAnswerSucceeds(data: string)
    ensures EnhanceImage(ImageAnswer(data)) == Success(data)
  {
    FirstImagePartWins(ImageAnswer(data).response, [Part(Some(Blob(data, "image/png")), None)], 0);
  }

  /** A single non-empty text part is surfaced after the "API returned text" prefix. */
  lemma TextAnswerFails(text: string)
    requires text != ""
    ensures EnhanceImage(TextAnswer(text)) == Failure(Error(TextPrefix + text))
  {
    TextPartSurfaces(TextAnswer(text).response, [Part(None, Some(text))], 0);
  }

  /** Upload a JPEG, pick Face Focus, enhance: the request carries the JPEG's data, its MIME
      type and the mode, and the page ends with the PNG result, no error, and downloads enabled. */
  method FaceEnhanceScenario() returns (request: Option<EnhanceRequest>, screen: Screen)
    ensures request == Some(EnhanceRequest(Some("QUJD"), "image/jpeg", Face))
    ensures screen.Workspace? && screen.errorBanner.None? && screen.modeCards.None?
    ensures !screen.panel.download.disabled
    ensures screen.comparator.Overlay? && screen.comparator.enhanced == PngPrefix + "AAAA"
  {
    var app := new AppState();
    var url := "data:" + "image/jpeg" + ";base64," + "QUJD";
    app.ImageLoaded(url);
    app.SelectMode(Face);
    ParseDataUrlRoundTrip("image/jpeg", "QUJD");
    request := app.StartEnhance();
    ImageAnswerSucceeds("AAAA");
    app.FinishEnhance(ImageAnswer("AAAA"));
    screen := app.View(50.0);
  }

  /** When the model answers with text only, that text is shown in the error banner after the
      "API returned text" prefix, no result is set, and the mode cards come back. */
  method TextOnlyScenario() returns (screen: Screen)
    ensures screen.Workspace? && screen.errorBanner == Some(TextPrefix + "Blocked by policy.")
    ensures screen.modeCards.Some? && screen.panel.download.disabled
  {
    var app := new AppState();
    app.ImageLoaded("data:image/jpeg;base64,QUJD");
    app.SelectMode(Landscape);
    var request := app.StartEnhance();
    TextAnswerFails("Blocked by policy.");
    app.FinishEnhance(TextAnswer("Blocked by policy."));
    screen := app.View(50.0);
  }

  /** Without a mode nothing starts: no request, no loading, and the Enhance button is disabled
      with its "select a mode" tooltip. */
  method NoModeScenario() returns (request: Option<EnhanceRequest>, screen: Screen)
    ensures request.None?
    ensures screen.Workspace? && screen.status.None?
    ensures screen.panel.enhance.disabled && screen.panel.enhance.title == Some(ActionPanel.SelectModeFirst)
  {
    var app := new AppState();
    app.ImageLoaded("data:image/jpeg;base64,QUJD");
    request := app.StartEnhance();
    screen := app.View(50.0);
  }

  /** A response that lands after Start Over and a second upload is not discarded: the result
      enhanced from the first image is shown against the second image. */
  method StaleResponseScenario() returns (original: Option<string>, enhanced: Option<string>)
    ensures original == Some("data:image/jpeg;base64,Qg==")
    ensures enhanced == Some(PngPrefix + "RklSU1Q=")
  {
    var app := new AppState();
    app.ImageLoaded("data:image/jpeg;base64,QQ==");
    app.SelectMode(Face);
    var request := app.StartEnhance();
    app.StartOver();
    app.ImageLoaded("data:image/jpeg;base64,Qg==");
    ImageAnswerSucceeds("RklSU1Q=");
    app.FinishEnhance(ImageAnswer("RklSU1Q="));
    original, enhanced := app.originalImage, app.enhancedImage;
  }
}
