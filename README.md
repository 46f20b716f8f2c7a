# AI photo enhancer: a Dafny model of its core

The application is a browser front end. It lets a user:

- upload a photo;
- pick one of three enhancement styles (Face Focus, Vivid Landscape, General Pro);
- send the image and the style's instruction to a remote image model;
- compare the original with the returned image in a draggable split view, and download the result.

This project models the logic behind that page and proves properties of it:

- `strings.dfy` (module `Strings`): the JavaScript primitives the code relies on, over `seq<char>`. These are:
  - truthiness of `string | null`;
  - `indexOf`, `split` and `includes`;
  - the regular expression `/:(.*?);/`, including the rule that `.` does not match line terminators.
- `enhance_service.dfy` (module `EnhanceService`): the enhancement client. It covers:
  - the per-mode instruction;
  - the order of the request parts;
  - how the answer is read: the first image part of the first candidate, else the first non-empty text part, else "no image";
  - how errors are classified: anything that does not mention "API returned text" becomes the generic message.
- `image_comparator.dfy` (module `ImageComparator`): the before/after widget. It has:
  - a class with the slider position and the dragging flag, updated by the cursor handlers;
  - the clamp-and-map from cursor to percentage;
  - the three render branches.
- `action_panel.dfy` (module `ActionPanel`): the disabled flags, labels and tooltips of the Start Over, Enhance and Download buttons.
- `mode_selector.dfy` (module `ModeSelector`): the fixed list of three mode cards, the highlight rule, and the id a card emits.
- `app.dfy` (module `App`): the controller. It has:
  - a class holding the original image, enhanced image, loading flag, error, status message and mode;
  - the upload, start-over, select-mode, enhance, timer-tick and download handlers;
  - `parseDataUrl`, the status-message rotation and the page's render guards;
  - a few whole interactions written out as scenario methods.
- `wrappers.dfy` (module `Wrappers`): `Option` (for `null`) and `Result` (for a value or a thrown error).

An enhancement is split at its single `await`:

- `StartEnhance` runs the click handler up to the call and returns the request it makes.
- `FinishEnhance` runs the rest, once the remote call has answered or thrown.

The remote call is an input of type `CallOutcome`: either a response or a thrown value. Anything may happen between the two halves; `StaleResponseScenario` shows one such interleaving.

Where the design description and the code disagree, the model follows the code:

- **Which layer shows where.** The enhanced layer is clipped from the right by `100 - position` percent (components/ImageComparator.tsx:93). So the enhanced image shows on the LEFT of the handle and the original on the right. The design text says the opposite. `ImageComparator.OverlaySplitsAtHandle` states the code's behaviour.
- **Zero-width container.** The design text asks for a no-op on a zero-width container. The code divides by the width without a guard (components/ImageComparator.tsx:33), so `SliderPercent` and `Comparator.HandleMove` require a positive width when a container is present.
- **Slider reset.** The design text says the slider resets to 50 for every new image pair. The code sets 50 only when the component is created (components/ImageComparator.tsx:25), so only the constructor sets it.
- **Result and error at once.** The design text says they are "mutually exclusive at any instant". The code ensures this only for a response that arrives while its own request is loading. `AppState.FinishEnhance` states it under that condition. Two overlapping requests could leave both set, but the Enhance button is disabled while loading (`AppState.View`, `LoadingScreen`).
- **Stale responses.** Nothing discards a response that arrives after Start Over or a new upload. `StaleResponseScenario` shows the old result displayed against the new image.

## Model

| member | source | states |
|---|---|---|
| Strings.IndexOf | App.tsx:32 | the result is the first index holding the element, with no earlier occurrence; it is absent (the source's -1) exactly when the element is not in the list |
| Strings.Split | App.tsx:86 | `split(',')` gives at least one piece; exactly one piece when there is no comma; no piece contains a comma |
| Strings.JoinSplit | App.tsx:86 | joining the pieces with the separator gives back the original string, so splitting loses nothing |
| Strings.SplitFirst | App.tsx:86 | the first piece is everything before the first comma and the rest is the split of what follows |
| Strings.ColonGroupFrom | App.tsx:87 | a capture group of `/:(.*?);/` contains no `;` and no line terminator |
| Strings.ColonGroupPlain | App.tsx:87 | on text without line terminators the capture group is the text after the first `:` up to the next `;`, and there is no match when either is missing |
| EnhanceService.Prompt | services/geminiService.ts:13-17 | every mode has a non-empty instruction (the record is total over the three modes) |
| EnhanceService.PromptIdentifiesMode | services/geminiService.ts:11-17 | the three instructions are distinct, so the instruction identifies its mode |
| EnhanceService.RequestParts | services/geminiService.ts:24-34 | the request has two parts, the image's inline data first and the instruction second |
| EnhanceService.RequestRoundTrip | services/geminiService.ts:24-34 | the image data, its MIME type and the mode can all be read back from the request |
| EnhanceService.FindFirst | services/geminiService.ts:41 | `find` returns the first element satisfying the predicate, and nothing only when none does |
| EnhanceService.EnhanceImage | services/geminiService.ts:19-59 | every failure is an `Error` carrying either the generic message or a message that mentions "API returned text"; the "no image data" message never reaches the caller |
| EnhanceService.NoImageMessageUnmarked | services/geminiService.ts:50-57 | the "no image data" message does not contain "API returned text", so the catch block replaces it |
| EnhanceService.FirstImagePartWins | services/geminiService.ts:41-44 | the result is the data of the first part with inline data in the first candidate, whatever follows it |
| EnhanceService.SucceedsIffImagePart | services/geminiService.ts:41-51 | the call succeeds if and only if the first candidate has parts and one of them carries inline data |
| EnhanceService.TextPartSurfaces | services/geminiService.ts:46-55 | with no image part, the first non-empty text part gives the message "API returned text instead of an image: " followed by the text, and the catch block passes it through unchanged |
| EnhanceService.TextMessageMarked | services/geminiService.ts:48-54 | every "text instead of an image" message mentions "API returned text" |
| EnhanceService.NothingUsableGivesGeneric | services/geminiService.ts:41-57 | with no candidate, no parts, or neither an image nor a non-empty text part, the caller receives the generic message |
| EnhanceService.ThrownClassified | services/geminiService.ts:52-57 | a thrown value passes through unchanged exactly when it is an `Error` mentioning "API returned text" (or already the generic one); anything else becomes the generic message |
| EnhanceService.LaterCandidatesIgnored | services/geminiService.ts:41-46 | candidates after the first never change the outcome |
| ImageComparator.SliderPercent | components/ImageComparator.tsx:32-33 | with a positive width, the new position always lies in [0, 100] |
| ImageComparator.SliderPercentMonotone | components/ImageComparator.tsx:32-33 | moving the cursor right never moves the slider left |
| ImageComparator.SliderPercentEdges | components/ImageComparator.tsx:32-33 | a cursor at or left of the box's left edge gives 0; at or right of its right edge, 100 |
| ImageComparator.SliderFollowsCursor | components/ImageComparator.tsx:32-33 | inside the box, the point `position` percent across the width is the cursor itself |
| ImageComparator.Render | components/ImageComparator.tsx:67-104 | nothing is rendered without a truthy original; the two-pane placeholder appears exactly when there is an original but no enhanced image; otherwise both images are stacked |
| ImageComparator.OverlaySplitsAtHandle | components/ImageComparator.tsx:91-104 | in the overlay the enhanced layer's right inset is 100 - position and the handle sits at position, so the enhanced image covers [0, position] |
| ImageComparator.Comparator.constructor | components/ImageComparator.tsx:25-26 | on mount the position is 50 and dragging is off |
| ImageComparator.Comparator.MouseDown | components/ImageComparator.tsx:37-40 | a press starts a drag and leaves the position alone |
| ImageComparator.Comparator.TouchStart | components/ImageComparator.tsx:42-44 | a touch starts a drag and leaves the position alone |
| ImageComparator.Comparator.MouseUp | components/ImageComparator.tsx:46-57 | mouse-up or touch-end anywhere on the window ends the drag and leaves the position alone |
| ImageComparator.Comparator.HandleMove | components/ImageComparator.tsx:29-35 | while dragging, with the container mounted, the position becomes the clamped-and-mapped cursor position; otherwise nothing changes; the position stays in [0, 100] |
| ActionPanel.Render | components/ActionPanel.tsx:23-53 | Enhance is disabled iff enhancing or no mode is selected; Download is disabled iff not enhanced or enhancing; Start Over is never disabled; the tooltip asks for a mode iff none is selected; the label is "Enhancing..." iff enhancing |
| ActionPanel.NothingButStartOverWhileEnhancing | components/ActionPanel.tsx:26-45 | while enhancing, only Start Over can be pressed |
| ModeSelector.Render | components/ModeSelector.tsx:38-48 | the cards follow the fixed list in order, and a card is highlighted iff the selected mode is its id |
| ModeSelector.Activate | components/ModeSelector.tsx:46 | activating a card emits a mode that, fed back as the selection, highlights that card |
| ModeSelector.ModesCoverEveryMode | components/ModeSelector.tsx:17-36 | the list holds exactly three distinct ids, face, landscape and general in that order, covering every mode |
| ModeSelector.AtMostOneHighlighted | components/ModeSelector.tsx:48 | at most one card is highlighted, and none when no mode is selected |
| ModeSelector.ActivateHighlightsOnlyThatCard | components/ModeSelector.tsx:46-48 | after activating card i, card j is highlighted iff j = i |
| App.NextMessage | App.tsx:31-35 | a tick always yields a message of the list, and a message not in the list (index -1) is followed by the first |
| App.NextMessageStep | App.tsx:32-34 | in a list without repeats a tick moves from message i to message i + 1, and from the last back to the first |
| App.AfterTicksTurn | App.tsx:30-36 | after n ticks from the first message the message shown is n places round the list |
| App.TurnIsMod | App.tsx:33 | n places round a list of length k is index n mod k |
| App.RotationWraps | App.tsx:30-36 | after n ticks from the first message, message n mod length is shown |
| App.LoadingRotation | App.tsx:10-36 | for the app's six messages, n ticks from the first show message n mod 6 |
| App.ParseDataUrl | App.tsx:85-90 | the MIME type is never empty and contains no `;`; the data is present iff the URL has a comma, and it contains no comma |
| App.ParseDataUrlMimeType | App.tsx:87 | the MIME type is the text after the first `:` up to the next `;` before the first comma, and "image/jpeg" when there is no match or it is empty |
| App.ParseDataUrlData | App.tsx:86-88 | the data is the text between the first and the second comma |
| App.DataUrlHeadPlain | App.tsx:87 | in "data:TYPE;base64" the text from the first `:` to the next `;` is TYPE |
| App.DataUrlMimeType | App.tsx:85-90 | the MIME type of a FileReader data URL is read back whatever the data |
| App.ParseDataUrlRoundTrip | App.tsx:85-90 | a data URL "data:TYPE;base64,DATA" parses back into TYPE and DATA |
| App.PngDataUrl | App.tsx:76 | a stored result "data:image/png;base64," + data parses as image/png |
| App.FailureTextIsServiceMessage | App.tsx:77-78 | the text stored after a failed call is the generic message or mentions "API returned text", so it is never empty and never the "unknown error" fallback |
| App.UnknownErrorUnmarked | App.tsx:78 | the fallback "An unknown error occurred." does not mention "API returned text" |
| App.AppState.constructor | App.tsx:20-25 | nothing loaded, not loading, no error, no mode, the first status message |
| App.AppState.ImageLoaded | App.tsx:50-55 | the data URL becomes the original image; result, error and mode are cleared; loading is untouched |
| App.AppState.StartOver | App.tsx:59-64 | original image, result, error and mode are cleared; loading is untouched |
| App.AppState.SelectMode | App.tsx:127 | the chosen mode is selected and nothing else changes |
| App.AppState.StartEnhance | App.tsx:66-75 | without a truthy original or a mode, nothing changes and no request is made; otherwise loading starts, error and result are cleared, and the request carries the parsed data URL and the mode |
| App.AppState.FinishEnhance | App.tsx:73-82 | loading always ends, and the status message returns to the first one (the effect at line 38); on success the result is "data:image/png;base64," + data; on failure the error is the thrown message; for a request that was loading, exactly one of result and error is set |
| App.AppState.Tick | App.tsx:30-36 | while loading, a tick advances the status message; nothing else changes |
| App.AppState.Download | App.tsx:92-96 | nothing without a truthy result; otherwise the result is saved as "enhanced-image.png" |
| App.AppState.View | App.tsx:102-139 | the uploader shows iff there is no truthy original; the error banner iff there is a truthy error; the mode cards iff not loading and no result; the status message iff loading; an enabled Enhance button implies an original, a mode and no running request |
| App.LoadingScreen | App.tsx:126-135 | while loading: the status message shows, the mode cards and the error do not, the comparator shows the placeholder, and only Start Over can be pressed |
| App.ErrorBannerIsServiceMessage | App.tsx:119-123 | a shown error is a message of the enhancement client and never the fallback text |
| App.DownloadIsPng | App.tsx:92-96 | what is downloaded parses as image/png, which matches its ".png" file name |
| App.ImageAnswerSucceeds | services/geminiService.ts:41-44 | a single image part is the result |
| App.TextAnswerFails | services/geminiService.ts:46-48 | a single non-empty text part fails with the "text instead of an image" message |
| App.FaceEnhanceScenario | App.tsx:48-83 | upload, Face Focus, enhance: the request carries the JPEG's data and MIME type; the page ends with the PNG result, no error, no mode cards and Download enabled |
| App.TextOnlyScenario | App.tsx:66-82 | a text-only answer shows the prefixed text as the error, no result, and the mode cards again |
| App.NoModeScenario | App.tsx:67 | without a mode no request starts and Enhance is disabled with the "select a mode" tooltip |
| App.StaleResponseScenario | App.tsx:59-83 | a response arriving after Start Over and a second upload is shown against the second image |

## Left out

- The remote call itself, the SDK types and the request options (services/geminiService.ts:21-39). The call's result or thrown value is an input. The response shape keeps only candidates, content, parts, inline data and text.
- The module-level API-key check and client construction (services/geminiService.ts:3-9): start-up configuration.
- The full instruction texts (services/geminiService.ts:14-16). Only their opening sentences are kept; the model relies only on their being non-empty and distinct.
- `console.error` logging (services/geminiService.ts:53, App.tsx:79).
- An `inlineData` object whose `data` field is undefined. In the model an inline-data part always carries data.
- EnhanceService.EnhanceImage: a non-`Error` thrown value is reduced to one case (`NonError`); its contents are not modelled.
- FileReader decoding (App.tsx:49, 56). The uploaded data URL is the input of `ImageLoaded`.
- The DOM mechanics of a download (App.tsx:94-99). `Download` returns the link's target and file name.
- `setInterval`/`clearInterval` timing and effect cleanup (App.tsx:27-46), and the listener registration in the comparator (components/ImageComparator.tsx:48-65). Ticks are explicit `Tick` calls; the listeners are the handler methods.
- ImageComparator.SliderPercent: positions are `real`; IEEE floating-point rounding is not modelled.
- ImageComparator.Comparator.HandleMove: a zero-width container is excluded by its precondition, because the source divides by the width unguarded.
- The touch-move handler's `e.touches[0]` (components/ImageComparator.tsx:52) is reduced to its x coordinate, passed to `HandleMove`.
- JSX markup, styling, icons, card descriptions and the placeholder's text. components/Header.tsx is static markup and is not part of this model; neither are the uploader and loader components.
- Interleavings beyond the split at the `await`. There is no request token, as in the source.
