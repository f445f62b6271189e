# latexscan in Dafny

latexscan is a macOS menu-bar app. On a hotkey it lets the user select a
screen region and sends the picture to Google's Gemini `generateContent`
endpoint with a fixed prompt. If the service answers with LaTeX, the app
puts it on the pasteboard and posts a notification. This project models the
two files that do that work:

- `Gemini` (`gemini_service.dfy`) covers the Gemini client:
  - the error type and its user-facing descriptions;
  - the API-key store;
  - the service object, which holds the endpoint, the prompt and the
    verdict of `URL(string:)` as constants;
  - the request it builds: URL, method, header, and a JSON body with the
    prompt, the base-64 image and the generation settings;
  - how it decides the outcome from the HTTP status and the parsed reply.
- `ViewModel` (`view_model.dfy`) covers the view model:
  - the key check and the capture start;
  - the four outcomes of running the `screencapture` tool, including
    temporary-file handling;
  - processing an image, copying to the pasteboard, and the notification
    text.

Supporting modules:

- `Wrappers`: `Option`/`Result`.
- `Json`: JSON values and Swift's `as?` casts on them.
- `Text`: trimming with `whitespacesAndNewlines`, and the decimal rendering
  of an `Int`.
- `Base64`: base 64 encoding per section 4 of RFC 4648, its decoding, and
  the round trip between them.

The outside world is modelled as follows:

- **The network round trip** is a parameter `network: Request -> Response`.
  It maps the request to what the transport returns: a thrown error, a
  non-HTTP response, or a status code with the body as parsed by
  `JSONSerialization`.
- **The screen-capture tool** is a `CaptureOutcome` parameter: the tool could
  not launch, no file (the user cancelled), an unreadable file, or the
  captured bytes.
- **The pasteboard, the posted notifications, the temporary directory and
  the requests sent** are ghost fields of the view model.
- **`UserDefaults`** is reduced to its one entry under "gemini_api_key".

Five behaviours of the code are easy to overlook, and the model states each
of them:

- **Capture while busy.** Nothing refuses a capture while a conversion is
  running: `startCapture` (LatexScanViewModel.swift:72-84) checks only
  `apiKeySet`. `StartCapture` has no busy check, and its contract does not
  mention `isProcessing`.
- **Unreadable temporary file.** The branch for a file that exists but
  cannot be read (LatexScanViewModel.swift:111-115) leaves the file in
  place. `CaptureHandled` states that the file remains.
- **Error categories.** Authentication failures and other server errors are
  not told apart: every non-200 status becomes the one `apiError`, carrying
  either the service's message or "HTTP <status>"
  (GeminiService.swift:90-97). Transport failures are passed on as they are.
- **Request count.** A capture does not always send a request. The code
  first builds a URL; when `URL(string:)` refuses it, the conversion reports
  an invalid response and sends nothing (GeminiService.swift:75-77).
- **One message at a time.** After a conversion exactly one of the result
  and the error is present (`ProcessImage`). A missing key or a failed
  capture sets the error but keeps any earlier result.

## Model

| member | source | states |
|---|---|---|
| Gemini.ErrorDescription | latexscan/GeminiService.swift:15-24 | an error's description starts with "API Error: " exactly when it is an API error, and the rest of it is the service's message |
| Gemini.ErrorDescriptionInjective | latexscan/GeminiService.swift:10-24 | distinct errors have distinct descriptions |
| Gemini.PromptEndsWithSentinel | latexscan/GeminiService.swift:47-58 | the prompt ends by naming, in quotes, the sentinel NO_MATH_FOUND that the decoder tests for |
| Gemini.RequestBody | latexscan/GeminiService.swift:42-73 | by its definition, the body object holds `contents` with a single entry whose `parts` are the prompt text and an `inline_data` object with MIME type image/png and the base 64 image, and `generationConfig` with temperature 0.1 and maxOutputTokens 2048; RequestBodyCarriesImage reads it back |
| Gemini.RequestBodyCarriesImage | latexscan/GeminiService.swift:40-73 | for any prompt and image, the body has one `contents` entry with exactly two parts: the prompt text itself, then a PNG part from which the receiver recovers exactly the captured bytes; maxOutputTokens is 2048 |
| Gemini.RequestUrl | latexscan/GeminiService.swift:75 | the URL text is the endpoint, then `?key=`, then the key with no escaping, and nothing else |
| Gemini.BuildRequest | latexscan/GeminiService.swift:79-82 | the request is a POST with `Content-Type: application/json`, its URL carries exactly the given key; by its definition the body is RequestBody for the given prompt and image |
| Gemini.UrlCarriesKey | latexscan/GeminiService.swift:75 | for any endpoint and key, a receiver that strips the endpoint and `?key=` from the request URL reads back exactly that key |
| Gemini.DecodeHttp | latexscan/GeminiService.swift:90-115 | success only with status 200 and a trimmed text other than the sentinel; an API error exactly when the status is not 200 |
| Gemini.ErrorMessageOf | latexscan/GeminiService.swift:91-93 | a message it extracts is always the string `message` of the `error` object of an object body; ErrorMessageOfSpec gives the converse |
| Gemini.ErrorMessageOfSpec | latexscan/GeminiService.swift:91-93 | the chain of casts on an error body yields m exactly when the body is an object whose `error` object has the string m as `message` |
| Gemini.FirstPartText | latexscan/GeminiService.swift:99-105 | a text it extracts is always the string `text` of the first part of the first candidate's content, along arrays of objects; FirstPartTextSpec gives the converse |
| Gemini.FirstPartTextSpec | latexscan/GeminiService.swift:99-105 | the chain of casts on a reply yields t exactly when the first candidate's content has a first part whose `text` is the string t, with candidates and parts arrays of objects |
| Gemini.DecodeHttpErrorMessage | latexscan/GeminiService.swift:90-95 | a non-200 reply with a structured error fails with that error's message |
| Gemini.DecodeHttpStatusFallback | latexscan/GeminiService.swift:96 | a non-200 reply without a structured error fails with "HTTP " followed by the status in decimal |
| Gemini.DecodeHttpText | latexscan/GeminiService.swift:109-115 | with status 200 and a first text, the trimmed text is the result, unless it is the sentinel, which means no LaTeX was found |
| Gemini.DecodeHttpMalformed | latexscan/GeminiService.swift:99-107 | with status 200, any reply without that shape is an invalid response |
| Gemini.DecodeHttpFirstCandidateOnly | latexscan/GeminiService.swift:100-101 | replacing the candidates after the first by other objects does not change the outcome |
| Gemini.DecodeHttpFirstPartOnly | latexscan/GeminiService.swift:103-104 | replacing the parts after the first part of the first candidate by other objects does not change the outcome |
| Gemini.FirstTextDecides | latexscan/GeminiService.swift:99-107 | two replies with status 200 that carry the same first text are decoded alike |
| Gemini.DecodeSuccessBody | latexscan/GeminiService.swift:109-115 | a well-formed success reply decodes to its trimmed text when that is not the sentinel |
| Gemini.DecodeNoMathBody | latexscan/GeminiService.swift:111-113 | a well-formed reply whose trimmed text is the sentinel fails with no LaTeX found |
| Gemini.DecodeReply | latexscan/GeminiService.swift:90-115 | every error, and every trimmed non-sentinel text, is what the decoder makes of a reply that reports it, so the decoder's outcomes are exactly these |
| Gemini.DecodeTextExamples | latexscan/GeminiService.swift:109-115 | "  x^2\n" decodes to "x^2", and "NO_MATH_FOUND\n" means no LaTeX |
| Gemini.DecodeErrorExamples | latexscan/GeminiService.swift:90-97 | a 400 reply with message "bad key" fails with that message, and an unparsable 503 reply fails with "HTTP 503" |
| Gemini.DecodeResponse | latexscan/GeminiService.swift:84-88 | a non-HTTP response is an invalid response; a transport error is passed on unchanged; a result is always trimmed and not the sentinel |
| Gemini.LocalizedDescription | latexscan/LatexScanViewModel.swift:141 | by its definition, the message shown for a failed conversion: a GeminiError's `errorDescription`, since GeminiError is a LocalizedError, and a transport error's own description unchanged |
| Gemini.LocalizedDescriptionIdentifiesGeminiError | latexscan/GeminiService.swift:10-24 | two errors of the service that are shown with the same message are the same error |
| Gemini.LocalizedDescriptionAmbiguous | latexscan/LatexScanViewModel.swift:141 | a transport failure whose description reads like one of the service's errors is shown exactly as that error, so the message alone does not tell the two apart |
| Gemini.GeminiService.constructor | latexscan/GeminiService.swift:27-37 | a service sends to the fixed endpoint, with the fixed prompt, and reads its key from the given defaults |
| Gemini.GeminiService.ApiKey | latexscan/GeminiService.swift:28-31 | the key is empty exactly when the stored entry is missing or empty |
| Gemini.GeminiService.SetApiKey | latexscan/GeminiService.swift:32-34 | the key is stored and the getter then returns it |
| Gemini.GeminiService.Sent | latexscan/GeminiService.swift:75-82 | at most one request is sent, and one is sent exactly when `URL(string:)` accepts the endpoint joined with the stored key |
| Gemini.GeminiService.Outcome | latexscan/GeminiService.swift:75-115 | a conversion succeeds only when a request was sent, and then only with trimmed text that is not the sentinel |
| Gemini.GeminiService.ConvertImageToLatex | latexscan/GeminiService.swift:39-116 | with the key stored at the time of the call: if the URL is refused, nothing is sent and the result is an invalid response; otherwise one POST to the service's endpoint with the JSON body for its prompt and the image is sent, and the transport's answer to it decides the outcome; a success always comes from a sent request |
| Text.Trim | latexscan/GeminiService.swift:109 | the result has no whitespace at either end, is no longer than the input, and is empty exactly when the input is all whitespace |
| Text.TrimSplit | latexscan/GeminiService.swift:109 | the input is the result with whitespace added on both sides |
| Text.TrimPadded | latexscan/GeminiService.swift:109 | trimming whitespace-padded text that has no whitespace at its ends gives back that text |
| Text.TrimIdempotent | latexscan/GeminiService.swift:109 | trimming twice is the same as trimming once |
| Text.IntToDecimal | latexscan/GeminiService.swift:96 | the rendering of a status is a non-empty run of decimal digits with no leading zero, preceded by a minus sign exactly when the status is negative |
| Text.ParseIntToDecimal | latexscan/GeminiService.swift:96 | the decimal rendering of the status reads back as the status, so distinct statuses give distinct messages |
| Json.AsObjectArray | latexscan/GeminiService.swift:100-103 | the cast to an array of dictionaries succeeds exactly when every element is an object, and keeps their order |
| Base64.Encode | latexscan/GeminiService.swift:40 | the encoding is 4 symbols for every 3 bytes, rounded up, and every character is in the alphabet or is padding |
| Base64.DecodeEncode | latexscan/GeminiService.swift:40 | decoding the encoding of any byte sequence gives back that sequence |
| ViewModel.NotificationBody | latexscan/LatexScanViewModel.swift:156 | a result of at most 100 characters is the body as it is; a longer one is cut to its first 100 characters plus "...", so the body is never longer than 103 |
| ViewModel.NotificationBodyStartsWithResult | latexscan/LatexScanViewModel.swift:156 | the body agrees with the result on each of its first 100 characters |
| ViewModel.NotificationBodyAmbiguous | latexscan/LatexScanViewModel.swift:156 | a 103-character result that ends in "..." is shown whole, so a trailing ellipsis does not prove that a result was cut |
| ViewModel.LatexScanViewModel.constructor | latexscan/LatexScanViewModel.swift:24-29 | on creation there is no result and no error, nothing is processing, and the key flag reflects the stored key |
| ViewModel.LatexScanViewModel.CheckApiKey | latexscan/LatexScanViewModel.swift:52-54 | the key flag is set exactly when the stored key is non-empty |
| ViewModel.LatexScanViewModel.StartCapture | latexscan/LatexScanViewModel.swift:72-84 | a capture starts exactly when a key is set; without a key the error is the missing-key message, with one the error is cleared; the processing flag is not consulted |
| ViewModel.LatexScanViewModel.CaptureScreenSelection | latexscan/LatexScanViewModel.swift:86-127 | launch failure: "Screen capture failed: " plus the description. Cancel: the error is cleared. Unreadable file: the read-failure message, and the file stays. Capture: the file is removed and the image is converted. Otherwise nothing else changes |
| ViewModel.LatexScanViewModel.ProcessCapture | latexscan/LatexScanViewModel.swift:103-110 | a readable capture's temporary file is removed before its bytes are converted as in ProcessImage |
| ViewModel.LatexScanViewModel.ProcessImage | latexscan/LatexScanViewModel.swift:129-145 | at most one request is sent, for the stored key; processing ends; on success the result is shown, copied and announced; on failure the error's description is shown and there is no result; exactly one of result and error is present afterwards |
| ViewModel.LatexScanViewModel.BeginProcessing | latexscan/LatexScanViewModel.swift:130-132 | processing is marked, and the result and the error are cleared |
| ViewModel.LatexScanViewModel.FinishProcessing | latexscan/LatexScanViewModel.swift:134-144 | processing ends on both paths; on success the result is stored, copied, and announced once; on failure only the error is set |
| ViewModel.LatexScanViewModel.CopyToClipboard | latexscan/LatexScanViewModel.swift:147-151 | the pasteboard holds the last result afterwards; with no result it is untouched |
| ViewModel.LatexScanViewModel.ShowNotification | latexscan/LatexScanViewModel.swift:153-166 | exactly one notification is added, titled "LaTeX Copied!", with the preview body |
| ViewModel.LatexScanViewModel.HandleStartScreenCapture | latexscan/LatexScanViewModel.swift:60-84 | without a key, only the missing-key message changes and no file is touched; with a key, the capture is handled as in CaptureScreenSelection |
| ViewModel.SuccessScenario | latexscan/LatexScanViewModel.swift:60-151 | with a key set, a captured image and a reply whose text is any LaTeX result, that result is shown with no error, is on the pasteboard, is announced by exactly one notification, and no temporary file is left |
| ViewModel.FractionScenario | latexscan/LatexScanViewModel.swift:153-166 | a reply of `\frac{1}{2}` ends on the pasteboard and as the untruncated body of the single notification |
| ViewModel.TransportErrorScenario | latexscan/LatexScanViewModel.swift:134-143 | with a key set and a transport that fails, the transport's own description is the error shown; there is no result, and nothing is copied or announced |
| ViewModel.MissingKeyScenario | latexscan/LatexScanViewModel.swift:72-76 | with no key stored, a capture request shows the missing-key message; no request is sent, no notification is posted, and the temporary directory is unchanged |

## Left out

- The network, `URLSession` and `JSONSerialization` are inputs. The transport's answer is a parameter, and reply bodies arrive already parsed. Bytes written to and read from JSON text are not modelled.
- Gemini.GeminiService.ConvertImageToLatex: the request body is a JSON value, not the bytes `JSONSerialization.data` writes. That call cannot fail on this body, so its error path is not modelled.
- The rules of Foundation's `URL(string:)` are not modelled. Its verdict is the function `urlAccepted` that the service is built with.
- The temperature value 0.1 is in the request body as a number. Nothing is proved about it.
- ViewModel.NotificationBody: counts Unicode scalar values, while Swift's `String` counts grapheme clusters. For text with combining sequences, the source's `prefix(100)` and `count > 100` (LatexScanViewModel.swift:156) can keep more scalars than the model does. Trimming is not affected: `trimmingCharacters(in:)` works scalar by scalar, as `Text.Trim` does.
- The model has no concurrency. `Task.detached`, `MainActor.run` and the task in `processImage` run to completion, one after another. So the model does not show a second capture overlapping a conversion in progress: `Valid()` assumes nothing is processing between steps, though the source does not exclude an overlap.
- The notification-center observers (`setupNotificationObserver`, `setupDefaultsObserver`) and `deinit` are represented by `HandleStartScreenCapture` and by calling `CheckApiKey` directly. Registering and removing observers is not modelled.
- `requestNotificationPermission`, the notification sound, and the UUIDs in the temporary file name and the notification identifier are left out. The temporary path is a parameter.
- The `screencapture` process (its arguments, `waitUntilExit`, interactive selection) is reduced to the `CaptureOutcome` it leaves behind. Error descriptions from launch failures are strings passed in.
- Text.IsSpace: the whitespace set is written out from CoreFoundation's definition of `whitespacesAndNewlines`. Foundation's own source is not part of this model.
- `removeItem` is assumed to succeed (LatexScanViewModel.swift:90, 105): the source ignores its failure with `try?`, so "no temporary file is left" holds only when the file system removes the file.
- Other writers to the pasteboard and to `UserDefaults` between steps are not modelled.
- The SwiftUI views, the settings screen and the app entry point (ContentView.swift, SettingsView.swift, latexscanApp.swift) are not part of this model.
