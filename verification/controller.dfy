/** The submit flow `generate()`: clear the previous outcome, validate the
    prompt, build the request, turn the pending indicator on, branch on the
    response, and turn the indicator off again on every path. It is modelled
    as a pure function from the page state before a submission to the page
    state after it. The network exchange (`fetch` together with `res.json()`),
    `atob` and the clock are parameters. */
module Controller {

  import opened Js
  import opened JsString
  import FileName
  import Chunking

  /** Status texts the page shows. */
  const PromptRequired: string := "프롬프트를 입력해주세요."
  const RequestFailed: string := "이미지 생성 요청이 실패했습니다."
  const NoImageData: string := "서버 응답에 이미지 데이터가 없습니다."
  const Completed: string := "생성이 완료되었습니다."
  const ErrorPrefix: string := "오류: "

  /** The text around a server message appended to the failure text. */
  const ServerNoteOpen: string := " (서버: "
  const ServerNoteClose: string := ")"

  /** The source of an inline preview is a PNG data URL. */
  const PngDataPrefix: string := "data:image/png;base64,"

  /** The severity class of the status box. */
  datatype Kind = Info | Warn | Err

  datatype Status = Status(text: string, kind: Kind, visible: bool)

  /** The preview area: whatever the page started with, or one image. */
  datatype Preview = Initial | Image(src: string, noReferrer: bool)

  /** Where the download link points. */
  datatype Href = Unset | ObjectUrl(blob: Chunking.Blob) | Remote(url: string)

  datatype Download = Download(visible: bool, href: Href, fileName: string)

  /** The part of the page `generate()` reads and writes. `buttonDisabled` is
      the submit button's `disabled` property. */
  datatype Ui = Ui(status: Status, spinnerOn: bool, buttonDisabled: bool, preview: Preview, download: Download)

  /** A planet option: its value and its `data-style` attribute, if any. */
  datatype PlanetOption = PlanetOption(value: string, style: Option<string>)

  /** The form controls at the moment of submission; `selected` is absent
      when the planet selector has no selected option. */
  datatype Form = Form(selected: Option<PlanetOption>, prompt: string, style: string, size: string)

  /** The JSON body posted to `/api/generate`. */
  datatype Request = Request(planet: string, planetStyle: string, userPrompt: string, style: string, size: string)

  /** What the network exchange yields: a non-2xx response with the
      `message` of its JSON body when that body could be read, a 2xx response
      with its two image fields, or a value thrown by `fetch` or `res.json()`. */
  datatype Response =
    | NotOk(message: Option<string>)
    | Ok(imageB64: Option<string>, imageUrl: Option<string>)
    | Threw(error: Thrown)

  /** How `generate()` ended: stopped by validation, left by an exception
      raised before its `try` block, or after sending a request. */
  datatype Exit = Invalid | Uncaught | Sent(request: Request)

  datatype Outcome = Outcome(ui: Ui, exit: Exit)

  /** The pending indicator and the disabled button move together. */
  predicate Coupled(ui: Ui) {
    ui.buttonDisabled == ui.spinnerOn
  }

  function ShowStatus(ui: Ui, text: string, kind: Kind): Ui {
    ui.(status := Status(text, kind, true))
  }

  /** `hideStatus()` keeps the text and the class. */
  function HideStatus(ui: Ui): Ui {
    ui.(status := ui.status.(visible := false))
  }

  function HideDownload(ui: Ui): Ui {
    ui.(download := ui.download.(visible := false))
  }

  /** `showSpinner(on)`: the indicator and the button's disabled state are
      set together, and nothing else changes. */
  function ShowSpinner(ui: Ui, on: bool): (r: Ui)
    ensures r.spinnerOn == on && Coupled(r)
    ensures r.status == ui.status && r.preview == ui.preview && r.download == ui.download
  {
    ui.(spinnerOn := on, buttonDisabled := on)
  }

  /** The `catch` block: every error becomes an `err` status showing the
      error's message, or its string form when the message is falsy; nothing
      else on the page changes. */
  function Catch(ui: Ui, e: Thrown): (r: Ui)
    ensures r.status.visible && r.status.kind == Err && StartsWith(r.status.text, ErrorPrefix)
    ensures Truthy(e.message) ==> r.status.text == ErrorPrefix + e.message.value
    ensures !Truthy(e.message) ==> r.status.text == ErrorPrefix + e.asText
    ensures r.spinnerOn == ui.spinnerOn && r.buttonDisabled == ui.buttonDisabled
    ensures r.preview == ui.preview && r.download == ui.download
  {
    ShowStatus(ui, ErrorPrefix + e.Shown(), Err)
  }

  /** The message of the error thrown for a non-2xx response: the fixed
      failure text, followed by the server's message only when it is truthy. */
  function FailureMessage(message: Option<string>): (msg: string)
    ensures StartsWith(msg, RequestFailed)
    ensures !Truthy(message) ==> msg == RequestFailed
    ensures Truthy(message) ==> msg[|RequestFailed|..] == ServerNoteOpen + message.value + ServerNoteClose
  {
    RequestFailed + (if Truthy(message) then ServerNoteOpen + message.value + ServerNoteClose else "")
  }

  /** `setPreviewFromURL(url)`: the URL itself becomes the preview source
      (fetched without referrer) and the download target, under a `.jpg`
      name; the status, the indicator and the button are left alone. */
  function PreviewFromUrl(ui: Ui, url: string, planet: string, iso: string): (r: Ui)
    ensures r.preview == Image(url, true)
    ensures r.download.visible && r.download.href == Remote(url)
    ensures r.download.fileName == FileName.MakeFileName(planet, iso, "jpg")
    ensures var name := r.download.fileName;
      |name| >= 4 && name[|name| - 4..] == ".jpg"
      && StartsWith(name, FileName.PlanetPart(planet))
    ensures r.status == ui.status && r.spinnerOn == ui.spinnerOn && r.buttonDisabled == ui.buttonDisabled
  {
    ui.(preview := Image(url, true),
        download := Download(true, Remote(url), FileName.MakeFileName(planet, iso, "jpg")))
  }

  /** The page state after `setPreviewFromB64`, and what it threw. The
      preview image is replaced before `atob` runs, so a decoding error leaves
      the new preview in place with the download link untouched. */
  datatype Step = Step(ui: Ui, thrown: Option<Thrown>)

  /** `setPreviewFromB64(b64)`: the data URL is shown whether or not `atob`
      accepts the payload; only a decoded payload offers a download, a blob
      of the decoded bytes under a `.png` name. */
  function PreviewFromB64(ui: Ui, b64: string, planet: string, iso: string,
                          atob: string -> Completion<seq<char>>): (step: Step)
    ensures step.ui.preview == Image(PngDataPrefix + b64, false)
    ensures step.thrown.Some? <==> atob(b64).Throw?
    ensures atob(b64).Throw? ==> step.thrown.value == atob(b64).error && step.ui.download == ui.download
    ensures atob(b64).Normal? ==>
      && step.ui.download.visible
      && step.ui.download.href.ObjectUrl?
      && Chunking.Flatten(step.ui.download.href.blob.parts) == Chunking.Bytes(atob(b64).value)
      && step.ui.download.href.blob.contentType == "image/png"
      && step.ui.download.fileName == FileName.MakeFileName(planet, iso, "png")
    ensures step.ui.status == ui.status && step.ui.spinnerOn == ui.spinnerOn
    ensures step.ui.buttonDisabled == ui.buttonDisabled
  {
    var shown := ui.(preview := Image(PngDataPrefix + b64, false));
    match atob(b64)
    case Throw(e) => Step(shown, Some(e))
    case Normal(byteChars) =>
      var blob := Chunking.ToBlob(byteChars, "image/png");
      Step(shown.(download := Download(true, ObjectUrl(blob), FileName.MakeFileName(planet, iso, "png"))), None)
  }

  /** The `try` block with its `catch`: from the request being sent to just
      before `finally`. */
  function Settle(ui: Ui, planet: string, response: Response,
                  atob: string -> Completion<seq<char>>, iso: string): (r: Ui)
    ensures r.spinnerOn == ui.spinnerOn && r.buttonDisabled == ui.buttonDisabled
    ensures r.status.visible && r.status.kind != Warn
    ensures r.status.kind == Info ==> r.status.text == Completed && r.download.visible
    ensures r.status.kind == Err ==> StartsWith(r.status.text, ErrorPrefix) && r.download == ui.download
  {
    match response
    case Threw(e) => Catch(ui, e)
    case NotOk(m) => Catch(ui, ErrorOf(FailureMessage(m)))
    case Ok(b64, url) =>
      if Truthy(b64) then
        var step := PreviewFromB64(ui, b64.value, planet, iso, atob);
        if step.thrown.Some? then Catch(step.ui, step.thrown.value)
        else ShowStatus(step.ui, Completed, Info)
      else if Truthy(url) then ShowStatus(PreviewFromUrl(ui, url.value, planet, iso), Completed, Info)
      else Catch(ui, ErrorOf(NoImageData))
  }

  /** Where `generate()` stands once the request is about to be sent. */
  datatype Phase = Warned(ui: Ui) | Escaped(ui: Ui) | Pending(ui: Ui, request: Request)

  /** From the start of `generate()` to `showSpinner(true)`: hide the old
      status and download link, validate the trimmed prompt, read the planet
      option and build the request. */
  function Begin(prev: Ui, form: Form): (p: Phase)
    ensures p.Warned? <==> AllSpace(form.prompt)
    ensures p.Pending? <==> !AllSpace(form.prompt) && form.selected.Some?
    ensures !p.ui.download.visible && p.ui.preview == prev.preview
    ensures !p.Pending? ==> p.ui.spinnerOn == prev.spinnerOn && p.ui.buttonDisabled == prev.buttonDisabled
    ensures p.Warned? ==> p.ui.status == Status(PromptRequired, Warn, true)
    ensures p.Escaped? ==> !p.ui.status.visible
    ensures p.Pending? ==> p.ui.spinnerOn && p.ui.buttonDisabled && !p.ui.status.visible
  {
    var ui := HideDownload(HideStatus(prev));
    var userPrompt := Trim(form.prompt);
    if userPrompt == [] then Warned(ShowStatus(ui, PromptRequired, Warn))
    else match form.selected
      case None => Escaped(ui)
      case Some(option) =>
        var request := Request(option.value, Or(option.style, ""), userPrompt, form.style, form.size);
        Pending(ShowSpinner(ui, true), request)
  }

  /** `generate()`, with `iso` the clock reading taken for the file name.
      The three exits partition the inputs: a blank prompt stops at
      validation, a missing option escapes before the `try`, and every other
      submission sends the trimmed prompt. */
  function Generate(prev: Ui, form: Form, response: Response,
                    atob: string -> Completion<seq<char>>, iso: string): (r: Outcome)
    ensures r.exit == Invalid <==> AllSpace(form.prompt)
    ensures r.exit == Uncaught <==> !AllSpace(form.prompt) && form.selected.None?
    ensures r.exit.Sent? ==> r.exit.request.userPrompt == Trim(form.prompt)
    ensures r.exit.Sent? ==> r.exit.request.planet == form.selected.value.value
  {
    match Begin(prev, form)
    case Warned(ui) => Outcome(ui, Invalid)
    case Escaped(ui) => Outcome(ui, Uncaught)
    case Pending(ui, request) =>
      Outcome(ShowSpinner(Settle(ui, request.planet, response, atob, iso), false), Sent(request))
  }

  /** An empty or white-space-only prompt is rejected before anything is
      sent: a warning appears, the download link is hidden, and the pending
      indicator and button are left as they were. */
  lemma BlankPromptWarns(prev: Ui, form: Form, response: Response,
                         atob: string -> Completion<seq<char>>, iso: string)
    ensures var r := Generate(prev, form, response, atob, iso);
      r.exit == Invalid <==> AllSpace(form.prompt)
    ensures var r := Generate(prev, form, response, atob, iso);
      r.exit == Invalid ==>
        && r.ui.status == Status(PromptRequired, Warn, true)
        && !r.ui.download.visible
        && r.ui.spinnerOn == prev.spinnerOn && r.ui.buttonDisabled == prev.buttonDisabled
        && r.ui.preview == prev.preview
  {
  }

  /** A request is sent exactly when the prompt has non-space text and a
      planet option is selected; it carries the trimmed prompt and the
      option's style, `''` when the option has none. */
  lemma RequestPayload(prev: Ui, form: Form, response: Response,
                       atob: string -> Completion<seq<char>>, iso: string)
    ensures var r := Generate(prev, form, response, atob, iso);
      r.exit.Sent? <==> !AllSpace(form.prompt) && form.selected.Some?
    ensures var r := Generate(prev, form, response, atob, iso);
      r.exit.Sent? ==>
        var option := form.selected.value;
        && r.exit.request.planet == option.value
        && (Truthy(option.style) ==> r.exit.request.planetStyle == option.style.value)
        && (!Truthy(option.style) ==> r.exit.request.planetStyle == "")
        && r.exit.request.userPrompt == Trim(form.prompt)
        && r.exit.request.userPrompt != []
        && r.exit.request.style == form.style && r.exit.request.size == form.size
  {
  }

  /** With no planet option selected, reading its `data-style` throws before
      the `try` block: nothing is sent, no status is shown, and the exception
      leaves `generate()`. */
  lemma NoOptionEscapes(prev: Ui, form: Form, response: Response,
                        atob: string -> Completion<seq<char>>, iso: string)
    requires !AllSpace(form.prompt) && form.selected.None?
    ensures var r := Generate(prev, form, response, atob, iso);
      && r.exit == Uncaught
      && !r.ui.status.visible && !r.ui.download.visible
      && r.ui.spinnerOn == prev.spinnerOn && r.ui.buttonDisabled == prev.buttonDisabled
  {
  }

  /** While the request is outstanding the indicator is on and the button
      disabled, and nothing in the response handling changes either. */
  lemma PendingUntilSettled(prev: Ui, form: Form, response: Response,
                            atob: string -> Completion<seq<char>>, iso: string)
    requires Begin(prev, form).Pending?
    ensures var p := Begin(prev, form);
      var settled := Settle(p.ui, p.request.planet, response, atob, iso);
      settled.spinnerOn && settled.buttonDisabled
  {
  }

  /** Once a request was sent, the `finally` block always runs: whatever the
      response, the indicator ends hidden and the button enabled. */
  lemma CleanupOnEveryPath(prev: Ui, form: Form, response: Response,
                           atob: string -> Completion<seq<char>>, iso: string)
    ensures var r := Generate(prev, form, response, atob, iso);
      r.exit.Sent? ==> !r.ui.spinnerOn && !r.ui.buttonDisabled
    ensures var r := Generate(prev, form, response, atob, iso);
      !r.exit.Sent? ==> r.ui.spinnerOn == prev.spinnerOn && r.ui.buttonDisabled == prev.buttonDisabled
  {
  }

  /** The button's disabled state equals the indicator's state after every
      submission that started with them equal. */
  lemma CouplingPreserved(prev: Ui, form: Form, response: Response,
                          atob: string -> Completion<seq<char>>, iso: string)
    requires Coupled(prev)
    ensures Coupled(Generate(prev, form, response, atob, iso).ui)
  {
  }

  /** The download link is visible after a submission exactly when the
      completion message is showing; every visible error carries the error
      prefix. */
  lemma DownloadOnlyOnSuccess(prev: Ui, form: Form, response: Response,
                              atob: string -> Completion<seq<char>>, iso: string)
    ensures var r := Generate(prev, form, response, atob, iso);
      r.ui.download.visible <==> r.ui.status.visible && r.ui.status.kind == Info
    ensures var r := Generate(prev, form, response, atob, iso);
      r.ui.status.visible && r.ui.status.kind == Info ==> r.ui.status.text == Completed
    ensures var r := Generate(prev, form, response, atob, iso);
      r.ui.status.visible && r.ui.status.kind == Err ==> StartsWith(r.ui.status.text, ErrorPrefix)
  {
  }

  /** A non-2xx response shows the fixed failure text, with the server's
      message appended only when it is truthy, and leaves the download link
      hidden and the preview unchanged. */
  lemma NotOkFails(prev: Ui, form: Form, message: Option<string>,
                   atob: string -> Completion<seq<char>>, iso: string)
    requires Begin(prev, form).Pending?
    ensures var r := Generate(prev, form, NotOk(message), atob, iso);
      && r.ui.status == Status(ErrorPrefix + FailureMessage(message), Err, true)
      && !r.ui.download.visible && r.ui.preview == prev.preview
  {
    var msg := FailureMessage(message);
    assert StartsWith(msg, RequestFailed);
    assert ErrorOf(msg).Shown() == msg;
  }

  /** A thrown `fetch` or `res.json()` shows the error's message, or its
      string form when the message is empty. */
  lemma ThrownFails(prev: Ui, form: Form, e: Thrown,
                    atob: string -> Completion<seq<char>>, iso: string)
    requires Begin(prev, form).Pending?
    ensures var r := Generate(prev, form, Threw(e), atob, iso);
      && r.ui.status == Status(ErrorPrefix + e.Shown(), Err, true)
      && !r.ui.download.visible && r.ui.preview == prev.preview
  {
  }

  /** A truthy `image_b64` wins over `image_url`: the preview shows the PNG
      data URL, and when it decodes, the download link points at a blob
      holding the decoded bytes, named `*.png`. */
  lemma InlineImageWins(prev: Ui, form: Form, b64: string, url: Option<string>,
                        atob: string -> Completion<seq<char>>, iso: string, byteChars: seq<char>)
    requires Begin(prev, form).Pending?
    requires b64 != [] && atob(b64) == Normal(byteChars)
    ensures var r := Generate(prev, form, Ok(Some(b64), url), atob, iso);
      var planet := form.selected.value.value;
      && r.ui.status == Status(Completed, Info, true)
      && r.ui.preview == Image(PngDataPrefix + b64, false)
      && r.ui.download.visible
      && r.ui.download.href.ObjectUrl?
      && Chunking.Flatten(r.ui.download.href.blob.parts) == Chunking.Bytes(byteChars)
      && r.ui.download.href.blob.contentType == "image/png"
      && r.ui.download.fileName == FileName.MakeFileName(planet, iso, "png")
  {
  }

  /** An `image_b64` that `atob` rejects is reported as an error; the preview
      has already been replaced, the download link stays hidden. */
  lemma UndecodableImageFails(prev: Ui, form: Form, b64: string, url: Option<string>,
                              atob: string -> Completion<seq<char>>, iso: string, e: Thrown)
    requires Begin(prev, form).Pending?
    requires b64 != [] && atob(b64) == Throw(e)
    ensures var r := Generate(prev, form, Ok(Some(b64), url), atob, iso);
      && r.ui.status == Status(ErrorPrefix + e.Shown(), Err, true)
      && r.ui.preview == Image(PngDataPrefix + b64, false)
      && !r.ui.download.visible && r.ui.download.href == prev.download.href
  {
  }

  /** Without a truthy `image_b64`, a truthy `image_url` is used verbatim as
      the preview source (without referrer) and as the download target, and
      the file is named `*.jpg`. */
  lemma RemoteImageUsed(prev: Ui, form: Form, b64: Option<string>, url: string,
                        atob: string -> Completion<seq<char>>, iso: string)
    requires Begin(prev, form).Pending?
    requires !Truthy(b64) && url != []
    ensures var r := Generate(prev, form, Ok(b64, Some(url)), atob, iso);
      var planet := form.selected.value.value;
      && r.ui.status == Status(Completed, Info, true)
      && r.ui.preview == Image(url, true)
      && r.ui.download == Download(true, Remote(url), FileName.MakeFileName(planet, iso, "jpg"))
  {
  }

  /** A 2xx response with neither image field truthy (absent or `''`) is an
      error; the preview and the download link are left alone. */
  lemma MissingImageFails(prev: Ui, form: Form, b64: Option<string>, url: Option<string>,
                          atob: string -> Completion<seq<char>>, iso: string)
    requires Begin(prev, form).Pending?
    requires !Truthy(b64) && !Truthy(url)
    ensures var r := Generate(prev, form, Ok(b64, url), atob, iso);
      && r.ui.status == Status(ErrorPrefix + NoImageData, Err, true)
      && r.ui.preview == prev.preview && !r.ui.download.visible
  {
    assert ErrorOf(NoImageData).Shown() == NoImageData;
  }

  /** The extension of the download a response leads to: `png` on the
      inline path, `jpg` otherwise. */
  function Extension(response: Response): string {
    if response.Ok? && Truthy(response.imageB64) then "png" else "jpg"
  }

  /** A download offered after a submission is named after the planet value
      that was sent, the clock reading, and the extension of the path taken. */
  lemma DownloadName(prev: Ui, form: Form, response: Response,
                     atob: string -> Completion<seq<char>>, iso: string)
    ensures var r := Generate(prev, form, response, atob, iso);
      r.exit.Sent? && r.ui.download.visible ==>
        r.ui.download.fileName == FileName.MakeFileName(r.exit.request.planet, iso, Extension(response))
  {
    var phase := Begin(prev, form);
    if phase.Pending? {
      var ui, planet := phase.ui, phase.request.planet;
      var settled := Settle(ui, planet, response, atob, iso);
      if settled.download.visible && response.Ok? {
        if Truthy(response.imageB64) {
          var step := PreviewFromB64(ui, response.imageB64.value, planet, iso, atob);
          assert step.thrown.None?;
        } else {
          assert Truthy(response.imageUrl);
        }
      }
    }
  }

  /** The whole submission when the response carries only `image_url`. */
  lemma UrlSubmission(prev: Ui, form: Form, url: string,
                      atob: string -> Completion<seq<char>>, iso: string)
    requires !AllSpace(form.prompt) && form.selected.Some? && url != []
    ensures var option := form.selected.value;
      var r := Generate(prev, form, Ok(None, Some(url)), atob, iso);
      && r.exit == Sent(Request(option.value, Or(option.style, ""), Trim(form.prompt), form.style, form.size))
      && r.ui.preview == Image(url, true)
      && r.ui.download == Download(true, Remote(url), FileName.MakeFileName(option.value, iso, "jpg"))
      && r.ui.status == Status(Completed, Info, true)
      && !r.ui.spinnerOn && !r.ui.buttonDisabled
  {
  }

  /** A submission whose planet value has no white space and whose prompt has
      no surrounding white space, answered with only `image_url`: both are
      sent verbatim, and the download is named `<planet>_<stamp>.jpg`. */
  lemma PlainUrlSubmission(prev: Ui, form: Form, url: string,
                           atob: string -> Completion<seq<char>>, iso: string)
    requires form.selected.Some? && form.selected.value.value != [] && NoSpace(form.selected.value.value)
    requires form.prompt != [] && !IsSpace(form.prompt[0]) && !IsSpace(form.prompt[|form.prompt| - 1])
    requires url != []
    ensures var option := form.selected.value;
      var r := Generate(prev, form, Ok(None, Some(url)), atob, iso);
      && r.exit == Sent(Request(option.value, Or(option.style, ""), form.prompt, form.style, form.size))
      && r.ui.download == Download(true, Remote(url), option.value + "_" + FileName.Stamp(iso) + "." + "jpg")
      && r.ui.status == Status(Completed, Info, true)
  {
    var planet := form.selected.value.value;
    FileName.PlanetPartUnchanged(planet);
    TrimUnpadded(form.prompt);
    UrlSubmission(prev, form, url, atob, iso);
  }
}
