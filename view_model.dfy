/**
 * The capture-and-convert view model: the four published fields the
 * interface shows, and the external state it acts on (pasteboard,
 * delivered notifications, temporary files, requests sent to the service)
 * as ghost fields. The screen-capture tool and the network are inputs.
 * Every step runs to completion before the next one starts.
 */
module ViewModel {
  import opened Wrappers
  import opened Text
  import opened Gemini
  import Base64

  const MissingKeyMessage: string := "Please set your Gemini API key in Settings"
  const ReadFailedMessage: string := "Failed to read captured image"
  const CaptureFailedPrefix: string := "Screen capture failed: "
  const NotificationTitle: string := "LaTeX Copied!"

  /** Number of characters of the result a notification shows. */
  const PreviewLength: nat := 100

  datatype Notification = Notification(title: string, body: string)

  /** The notification body for `latex`: the text itself when short enough,
      otherwise its first PreviewLength characters and an ellipsis. */
  function NotificationBody(latex: string): (body: string)
    ensures |body| <= PreviewLength + 3
    ensures |latex| <= PreviewLength ==> body == latex
    ensures |latex| > PreviewLength ==>
      |body| == PreviewLength + 3 && body[..PreviewLength] == latex[..PreviewLength]
      && body[PreviewLength..] == "..."
  {
    var preview := if |latex| <= PreviewLength then latex else latex[..PreviewLength];
    preview + (if |latex| > PreviewLength then "..." else "")
  }

  /** The body always begins with the result, as far as the preview goes. */
  lemma NotificationBodyStartsWithResult(latex: string, i: nat)
    requires i < |latex| && i < PreviewLength
    ensures i < |NotificationBody(latex)| && NotificationBody(latex)[i] == latex[i]
  {
    if |latex| > PreviewLength {
      assert NotificationBody(latex)[..PreviewLength][i] == latex[..PreviewLength][i];
    }
  }

  /** An ellipsis can end the body for two reasons: a long result was cut,
      or a result of exactly PreviewLength + 3 characters ended in "...". */
  lemma NotificationBodyAmbiguous(latex: string)
    requires |latex| == PreviewLength + 3 && latex[PreviewLength..] == "..."
    ensures NotificationBody(latex) == latex
  {
    assert latex[..PreviewLength] + latex[PreviewLength..] == latex;
  }

  /** A file in the temporary directory: its bytes, or present but unreadable. */
  datatype FileEntry = Readable(contents: seq<Base64.byte>) | Unreadable

  /** What running `screencapture -i -x <path>` leaves behind: the tool could
      not be launched, no file (the user cancelled), a file whose contents
      cannot be read, or a readable PNG. */
  datatype CaptureOutcome =
    | LaunchFailed(description: string)
    | NoFile
    | UnreadableFile
    | Captured(image: seq<Base64.byte>)

  class LatexScanViewModel {
    var isProcessing: bool
    var lastResult: Option<string>
    var errorMessage: Option<string>
    var apiKeySet: bool
    const geminiService: GeminiService

    /** The string on the general pasteboard; None once cleared. */
    ghost var clipboard: Option<string>
    /** Notifications handed to the notification center, in order. */
    ghost var notifications: seq<Notification>
    /** The temporary directory. */
    ghost var files: map<string, FileEntry>
    /** Requests sent to the service, in order. */
    ghost var requests: seq<Request>

    /** Between steps nothing is in progress, and a shown result is a
        trimmed text other than the sentinel. */
    ghost predicate Valid()
      reads this
    {
      !isProcessing && (lastResult.Some? ==> IsLatex(lastResult.value))
    }

    /** `init()`: the key flag reflects the stored key; nothing else is set.
        The pasteboard and the temporary directory are as found. */
    constructor (service: GeminiService, ghost pasteboard: Option<string>,
                 ghost temporaryFiles: map<string, FileEntry>)
      ensures Valid()
      ensures geminiService == service
      ensures lastResult == None && errorMessage == None
      ensures apiKeySet <==> service.ApiKey() != ""
      ensures clipboard == pasteboard && notifications == []
      ensures files == temporaryFiles && requests == []
    {
      geminiService := service;
      isProcessing := false;
      lastResult := None;
      errorMessage := None;
      apiKeySet := false;
      clipboard := pasteboard;
      notifications := [];
      files := temporaryFiles;
      requests := [];
      new;
      CheckApiKey();
    }

    /** `checkApiKey`: the flag is set exactly when the stored key, read now,
        is non-empty. */
    method CheckApiKey()
      modifies this`apiKeySet
      ensures apiKeySet <==> geminiService.ApiKey() != ""
    {
      var key := geminiService.ApiKey();
      apiKeySet := key != "";
    }

    /** `startCapture`: without a key it only reports the missing key; with
        one it clears the error and the capture starts. It does not look at
        isProcessing. */
    method StartCapture() returns (captureStarted: bool)
      modifies this`errorMessage
      ensures captureStarted == apiKeySet
      ensures !apiKeySet ==> errorMessage == Some(MissingKeyMessage)
      ensures apiKeySet ==> errorMessage == None
    {
      if !apiKeySet {
        errorMessage := Some(MissingKeyMessage);
        return false;
      }
      errorMessage := None;
      return true;
    }

    /** Everything but the error message and the files is as before. */
    twostate predicate OnlyMessageChanged()
      reads this
    {
      && isProcessing == old(isProcessing) && lastResult == old(lastResult)
      && apiKeySet == old(apiKeySet) && clipboard == old(clipboard)
      && notifications == old(notifications) && requests == old(requests)
    }

    /** The effect of converting `imageData`: unless the URL built from the
        key stored now is refused, one request is sent; processing has ended;
        on success the result is shown, on the pasteboard and announced; on
        failure the error's description is shown and no result. */
    twostate predicate ImageProcessed(imageData: seq<Base64.byte>, network: Request -> Response)
      reads this, geminiService, geminiService.defaults
    {
      var result := geminiService.Outcome(imageData, network);
      && requests == old(requests) + geminiService.Sent(imageData)
      && !isProcessing && apiKeySet == old(apiKeySet)
      && match result
         case Success(latex) =>
           && lastResult == Some(latex) && errorMessage == None
           && clipboard == Some(latex)
           && notifications == old(notifications) + [Notification(NotificationTitle, NotificationBody(latex))]
         case Failure(e) =>
           && lastResult == None && errorMessage == Some(LocalizedDescription(e))
           && clipboard == old(clipboard) && notifications == old(notifications)
    }

    /** The effect of one run of the capture tool writing to `tempPath`. Only
        a readable capture is converted, and its file is removed first; an
        unreadable file is left in place. */
    twostate predicate CaptureHandled(tempPath: string, outcome: CaptureOutcome,
                                      network: Request -> Response)
      reads this, geminiService, geminiService.defaults
    {
      match outcome
      case LaunchFailed(d) =>
        OnlyMessageChanged() && errorMessage == Some(CaptureFailedPrefix + d)
        && files == old(files) - {tempPath}
      case NoFile =>
        OnlyMessageChanged() && errorMessage == None && files == old(files) - {tempPath}
      case UnreadableFile =>
        OnlyMessageChanged() && errorMessage == Some(ReadFailedMessage)
        && files == old(files)[tempPath := Unreadable]
      case Captured(image) =>
        ImageProcessed(image, network) && files == old(files) - {tempPath}
    }

    /** `captureScreenSelection`: removes any file at `tempPath`, runs the
        capture tool, and acts on what it left there. */
    method CaptureScreenSelection(tempPath: string, outcome: CaptureOutcome,
                                  network: Request -> Response)
      requires Valid()
      modifies this
      ensures Valid()
      ensures CaptureHandled(tempPath, outcome, network)
    {
      files := files - {tempPath};
      match outcome
      case LaunchFailed(description) =>
        errorMessage := Some(CaptureFailedPrefix + description);
      case NoFile =>
        errorMessage := None;
      case UnreadableFile =>
        files := files[tempPath := Unreadable];
        errorMessage := Some(ReadFailedMessage);
      case Captured(image) =>
        files := files[tempPath := Readable(image)];
        ProcessCapture(tempPath, image, network);
    }

    /** A readable capture: the file is removed, then its bytes are converted. */
    method ProcessCapture(tempPath: string, image: seq<Base64.byte>, network: Request -> Response)
      requires Valid()
      modifies this
      ensures Valid()
      ensures ImageProcessed(image, network)
      ensures files == old(files) - {tempPath}
    {
      files := files - {tempPath};
      ProcessImage(image, network);
    }

    /** `processImage`: marks processing, converts, and delivers the outcome. */
    method ProcessImage(imageData: seq<Base64.byte>, network: Request -> Response)
      requires Valid()
      modifies this
      ensures Valid()
      ensures ImageProcessed(imageData, network)
      ensures lastResult.Some? <==> errorMessage.None?
      ensures files == old(files)
    {
      BeginProcessing();
      var sent, result := geminiService.ConvertImageToLatex(imageData, network);
      if sent.Some? {
        requests := requests + [sent.value];
      }
      FinishProcessing(result);
    }

    /** The synchronous start of `processImage`, before the conversion runs. */
    method BeginProcessing()
      modifies this`isProcessing, this`lastResult, this`errorMessage
      ensures isProcessing && lastResult == None && errorMessage == None
    {
      isProcessing := true;
      lastResult := None;
      errorMessage := None;
    }

    /** The end of `processImage`'s task, once the conversion has an outcome:
        processing ends on both paths. */
    method FinishProcessing(result: Result<string, ConvertError>)
      modifies this`isProcessing, this`lastResult, this`errorMessage,
               this`clipboard, this`notifications
      ensures !isProcessing
      ensures result.Success? ==>
        && lastResult == Some(result.value) && errorMessage == old(errorMessage)
        && clipboard == Some(result.value)
        && notifications == old(notifications) + [Notification(NotificationTitle, NotificationBody(result.value))]
      ensures result.Failure? ==>
        && errorMessage == Some(LocalizedDescription(result.error))
        && lastResult == old(lastResult) && clipboard == old(clipboard)
        && notifications == old(notifications)
    {
      match result {
        case Success(latex) =>
          lastResult := Some(latex);
          CopyToClipboard();
          ShowNotification(latex);
        case Failure(error) =>
          errorMessage := Some(LocalizedDescription(error));
      }
      isProcessing := false;
    }

    /** `copyToClipboard`: replaces the pasteboard's contents with the last
        result; does nothing when there is none. */
    method CopyToClipboard()
      modifies this`clipboard
      ensures lastResult.Some? ==> clipboard == lastResult
      ensures lastResult.None? ==> clipboard == old(clipboard)
    {
      if lastResult.None? {
        return;
      }
      clipboard := None;
      clipboard := Some(lastResult.value);
    }

    /** `showNotification`: hands one notification to the notification center. */
    method ShowNotification(latex: string)
      modifies this`notifications
      ensures notifications == old(notifications) + [Notification(NotificationTitle, NotificationBody(latex))]
    {
      notifications := notifications + [Notification(NotificationTitle, NotificationBody(latex))];
    }

    /** The `startScreenCapture` observer: `startCapture`, then, when it
        started a capture, the capture itself. Without a key nothing is
        captured, converted or sent. */
    method HandleStartScreenCapture(tempPath: string, outcome: CaptureOutcome,
                                    network: Request -> Response)
      requires Valid()
      modifies this
      ensures Valid()
      ensures !old(apiKeySet) ==>
        OnlyMessageChanged() && errorMessage == Some(MissingKeyMessage) && files == old(files)
      ensures old(apiKeySet) ==> CaptureHandled(tempPath, outcome, network)
    {
      var started := StartCapture();
      if started {
        CaptureScreenSelection(tempPath, outcome, network);
      }
    }
  }

  /** A key is set, the capture yields an image, and the service answers
      with `latex`: it is shown, is on the pasteboard, is announced once,
      and no temporary file is left. */
  method SuccessScenario(image: seq<Base64.byte>, latex: string) returns (vm: LatexScanViewModel)
    requires IsLatex(latex)
    ensures vm.lastResult == Some(latex) && vm.errorMessage == None
    ensures vm.clipboard == Some(latex)
    ensures vm.notifications == [Notification(NotificationTitle, NotificationBody(latex))]
    ensures vm.files == map[]
  {
    var defaults := new Defaults(Some("key"));
    var service := new GeminiService(defaults, (url: string) => true);
    vm := new LatexScanViewModel(service, None, map[]);
    var reply := Http(200, Some(SuccessBody(latex)));
    TrimUnpadded(latex);
    DecodeSuccessBody(latex);
    assert DecodeResponse(reply) == Success(latex);
    vm.HandleStartScreenCapture("latexscan_capture.png", Captured(image), (request: Request) => reply);
  }

  /** The fraction one half is announced with itself as the body. */
  method FractionScenario(image: seq<Base64.byte>) returns (vm: LatexScanViewModel)
    ensures vm.clipboard == Some("\\frac{1}{2}")
    ensures vm.notifications == [Notification(NotificationTitle, "\\frac{1}{2}")]
  {
    var latex := "\\frac{1}{2}";
    assert latex[0] == '\\' && latex[|latex| - 1] == '}' && latex != Sentinel;
    vm := SuccessScenario(image, latex);
  }

  /** A key is set and the capture yields an image, but the transport fails
      with `description`: that description itself is the error shown, there
      is no result, and nothing is copied or announced. */
  method TransportErrorScenario(image: seq<Base64.byte>, description: string) returns (vm: LatexScanViewModel)
    ensures vm.errorMessage == Some(description) && vm.lastResult == None
    ensures vm.clipboard == None && vm.notifications == []
    ensures vm.files == map[]
  {
    var defaults := new Defaults(Some("key"));
    var service := new GeminiService(defaults, (url: string) => true);
    vm := new LatexScanViewModel(service, None, map[]);
    var reply := TransportFailure(description);
    assert DecodeResponse(reply) == Failure(Transport(description));
    vm.HandleStartScreenCapture("latexscan_capture.png", Captured(image), (request: Request) => reply);
  }

  /** No key has been stored: the capture request only reports the missing
      key; no file is touched and nothing is sent. */
  method MissingKeyScenario() returns (vm: LatexScanViewModel)
    ensures vm.errorMessage == Some(MissingKeyMessage)
    ensures vm.lastResult == None && !vm.isProcessing
    ensures vm.requests == [] && vm.notifications == []
    ensures vm.files == map["latexscan_capture.png" := Unreadable]
  {
    var defaults := new Defaults(None);
    var service := new GeminiService(defaults, (url: string) => true);
    vm := new LatexScanViewModel(service, None, map["latexscan_capture.png" := Unreadable]);
    var network := (request: Request) => Http(200, Some(SuccessBody("x")));
    vm.HandleStartScreenCapture("latexscan_capture.png", Captured([0]), network);
  }
}
