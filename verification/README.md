# Planet image generator: verified model of the page script

The planet image generator is a small school web page. A student picks a
planet, types a prompt, chooses a style and a size, and submits the form. The
page posts the request to its own `/api/generate` endpoint, shows the returned
image, and offers the image for download. This project models the
deterministic core of the page script in Dafny and proves properties of that
model:

- **Download file names** (`makeFileName`, module `FileName`). The planet
  value, or `planet` when the value is empty, has each white-space run
  replaced by `_`. The ISO clock reading loses its `:` and `-` characters and
  is cut to 15 characters. The two are joined as `p_ts.ext`.
  `SplitFileName` is a partner parser that reads such a name back by
  searching for the last `.` and the last `_` before it.
- **Byte slicing** (the loop of `b64ToBlob`, module `Chunking`). The string
  that `atob` returns is cut into slices of at most 512 characters. Each
  character becomes one `Uint8Array` element. An imperative method is verified
  against a recursive reference definition of the slicing.
- **The submit flow** (`generate` and `showSpinner`, module `Controller`).
  `generate` is modelled as a pure function from the page state before a
  submission to the page state after it:
  - the `Ui` record holds the status box, the pending indicator, the submit
    button, the preview and the download link;
  - the exit says whether a request was sent, and with what payload.

  The network exchange is an abstract `Response`. `atob` is a function
  parameter that may throw. The clock is the ISO string `iso`.
- **ECMAScript support** (modules `Js` and `JsString`):
  - truthiness of string properties;
  - `x || d`;
  - thrown values and `err?.message || err`;
  - `trim()`, `replace(/\s+/g, '_')` and `replaceAll(c, '')`.

  `trim` and `\s` share one white-space class: the ECMAScript WhiteSpace and
  LineTerminator code points.

A failed submission can leave part of its work on the page.
`setPreviewFromB64` replaces the preview image before `b64ToBlob` calls `atob`
(script.js:41-44). So an `image_b64` that does not decode leaves the new
preview in place together with an `err` status, and the download link stays
hidden. `Controller.PreviewFromB64` and `Controller.UndecodableImageFails`
state this.

## Model

| member | source | states |
|---|---|---|
| Js.ErrorOf | script.js:108 | an `Error` built with a non-empty message is shown by the catch block as exactly that message |
| JsString.Trim | script.js:88 | the trimmed prompt is empty iff the prompt is all white space; otherwise it starts and ends with non-space; the input is the leading run, the result and an all-space tail, in that order |
| JsString.TrimUnpadded | script.js:88 | a non-empty string with non-space first and last characters is its own trim |
| JsString.CollapseSpaces | script.js:67 | the result of `replace(/\s+/g, '_')` holds no white space, is no longer than the input, and is empty only for empty input |
| JsString.CollapseWithoutSpace | script.js:67 | a string without white space passes through the replacement unchanged |
| JsString.CollapseRun | script.js:67 | a maximal white-space run between two non-space neighbours becomes exactly one `_`, and the pieces around it are rewritten independently |
| JsString.RemoveAll | script.js:68 | `replaceAll(c, '')` leaves no `c` and never lengthens the string |
| JsString.RemoveAllCounts | script.js:68 | removal deletes every copy of `c` and keeps every other character with its multiplicity |
| JsString.RemoveAllJoin | script.js:68 | removal distributes over concatenation, so the kept characters stay in order |
| FileName.PlanetPart | script.js:67 | the planet part of a file name is never empty and contains no white space |
| FileName.PlanetPartUnchanged | script.js:67 | an empty planet value yields `planet`; a value without white space is kept verbatim |
| FileName.Stamp | script.js:68 | the timestamp has no `:` or `-`, and its length is the smaller of 15 and the number of other characters in the clock reading |
| FileName.StampOfInstant | script.js:68 | for a `YYYY-MM-DDTHH:MM:SS.sssZ` reading the stamp is `YYYYMMDDTHHMMSS`, character for character: 15 characters, `T` at index 8, digits elsewhere, no `.` and no `_` |
| FileName.MakeFileName | script.js:66-70 | the name is the planet part, then `_`, then exactly the stamp, then `.` and the extension, and its length is the sum of theirs plus two |
| FileName.SplitFileName | script.js:69 | a file name that can be split is exactly planet + `_` + stamp + `.` + ext, with no `.` in ext and no `_` in the stamp |
| FileName.SplitMakeFileName | script.js:66-70 | round trip: splitting a built file name recovers the planet part, the stamp and the extension, even when the planet part contains `_` or `.` |
| Chunking.ByteOf | script.js:78-79 | a character code below 256 is stored unchanged in the `Uint8Array` element |
| Chunking.FlattenChunks | script.js:75-81 | concatenating the slices reproduces the sliced sequence exactly |
| Chunking.ChunkLengths | script.js:75-76 | every slice is non-empty and at most `sliceSize` long, and all but the last are exactly `sliceSize` long |
| Chunking.ChunkCount | script.js:75 | there are no slices for empty input, and otherwise ceil(n / sliceSize) of them: `(c - 1) * sliceSize < n <= c * sliceSize` |
| Chunking.ChunkAt | script.js:75-78 | element `i` of slice `k` is element `k * sliceSize + i` of the input |
| Chunking.SliceToBytes | script.js:77-79 | the inner loop fills one element per character of the slice, each the stored value of that character's code |
| Chunking.SliceBytes | script.js:72-82 | the loop produces exactly the reference slicing of the byte values; their concatenation is the byte values; count and slice lengths as above |
| Chunking.ToBlob | script.js:72-82 | the blob's parts concatenate to the byte values of the decoded string, carry the given content type, and are 512 long except the last |
| Chunking.BlobHoldsCodes | script.js:73-79 | when `atob` yields only codes below 256, the blob holds exactly those character codes, one per character |
| Controller.ShowSpinner | script.js:31-34 | the indicator's state and the button's `disabled` property are set to the same value, and nothing else on the page changes |
| Controller.FailureMessage | script.js:106-107 | the failure text always starts with the fixed message; ` (서버: m)` is appended exactly when the server message `m` is truthy |
| Controller.Catch | script.js:121-123 | every caught error becomes a visible `err` status of `오류: ` followed by the error's message, or its string form when the message is falsy; the indicator, button, preview and download are left alone |
| Controller.PreviewFromUrl | script.js:52-64 | the URL becomes the no-referrer preview source and exactly the download target, under exactly the name `makeFileName('jpg')` gives for the planet value and the clock reading; status, indicator and button are untouched |
| Controller.PreviewFromB64 | script.js:36-50 | the PNG data URL is shown whether or not `atob` accepts the payload; it throws exactly when `atob` throws, leaving the download as it was; otherwise the download is a blob of the decoded bytes typed `image/png` under the `.png` name |
| Controller.Begin | script.js:85-98 | the flow stops with a warning iff the prompt is all white space, and goes on to send iff a planet option is also selected; the download link is hidden first; the indicator is turned on only on the sending path |
| Controller.Settle | script.js:99-123 | response handling never touches the indicator or the button; it always ends with a visible `info` status showing the completion text with the download link visible, or a visible `err` status carrying the `오류: ` prefix with the link untouched |
| Controller.Generate | script.js:84-127 | the three exits partition the inputs: stop at validation iff the prompt is blank, escape before the `try` iff it is not blank and no option is selected, otherwise send a request carrying the selected value and the trimmed prompt |
| Controller.BlankPromptWarns | script.js:85-89 | `generate()` stops at validation iff the prompt is blank; then the status is the `warn` prompt message, the download link is hidden, and the indicator, the button and the preview keep their previous state |
| Controller.RequestPayload | script.js:88-96 | a request is sent iff the prompt has non-space text and an option is selected; it carries the option's value, its `data-style` or `''`, the trimmed prompt, the style and the size |
| Controller.NoOptionEscapes | script.js:91-92 | with no selected option the exception escapes `generate()` before the `try`: nothing is sent, no status is shown, and the indicator is not touched |
| Controller.PendingUntilSettled | script.js:98-123 | from `showSpinner(true)` until `finally`, the indicator stays on and the button disabled whatever the response |
| Controller.CleanupOnEveryPath | script.js:98-126 | after a request was sent, every path ends with the indicator off and the button enabled; otherwise both keep their previous state |
| Controller.CouplingPreserved | script.js:31-34 | if the button's disabled state equals the indicator's state before a submission, it does after it too |
| Controller.DownloadOnlyOnSuccess | script.js:84-127 | the download link is visible exactly when an `info` status is visible; such a status shows the completion text, and a visible `err` status starts with `오류: ` |
| Controller.NotOkFails | script.js:105-109 | a non-2xx response shows `오류: ` plus the failure text, hides the download link and keeps the preview |
| Controller.ThrownFails | script.js:121-123 | an exception from `fetch` or `res.json()` shows its message, or its string form when the message is empty, and leaves the preview and a hidden download link |
| Controller.InlineImageWins | script.js:112-114 | a truthy `image_b64` takes precedence over `image_url`: PNG data-URL preview, a download blob holding the decoded bytes as `image/png`, a `.png` file name, and the completion status |
| Controller.UndecodableImageFails | script.js:36-44 | an `image_b64` that `atob` rejects yields an `err` status; the preview already shows the data URL, and the download link stays hidden |
| Controller.RemoteImageUsed | script.js:115-117 | without a truthy `image_b64`, a truthy `image_url` becomes the no-referrer preview source and exactly the download target, under a `.jpg` name |
| Controller.MissingImageFails | script.js:118-120 | a 2xx response with neither image field truthy (absent or `''`) yields the no-image-data error and leaves the preview alone |
| Controller.DownloadName | script.js:47-69 | a download offered after a submission is named by `makeFileName` from the planet value that was sent and the clock reading, with `png` on the inline path and `jpg` otherwise |
| Controller.UrlSubmission | script.js:84-127 | a complete URL-only submission: the payload sent, the preview, the download link and the final state of the status, the indicator and the button |
| Controller.PlainUrlSubmission | script.js:84-127 | a planet value without white space and a prompt without surrounding white space are sent verbatim; a URL-only response then yields the download name `<planet>_<stamp>.jpg` and the completion status |

## Left out

- DOM lookup and wiring are not modelled: `initRefs`, the `DOMContentLoaded` handler, `bindEvents` and the Ctrl/Cmd+Enter shortcut. They only connect page elements to `generate`.
- `fetch`, `res.json()` and `JSON.stringify` are not modelled. The network exchange is the abstract `Response`: a non-2xx response with the `message` of a readable JSON body, a 2xx response with its two image fields, or a thrown value. A body that cannot be read counts as no message.
- The browser calls `atob`, `new Blob`, `URL.createObjectURL`, `new Image()` and `innerHTML` are not modelled. `atob` is a parameter that returns a string or throws. A blob is its list of byte slices plus its content type, and an object URL is the blob it names. Base64 decoding belongs to the browser, not the script.
- `Date`, `toISOString` and `toLocaleString` are not modelled. The ISO reading is the parameter `iso`, and the `meta` timestamp text is not modelled.
- `console.error` is not modelled, and neither is the interleaving of overlapping submissions. The model treats one submission at a time as one uninterrupted step.
- The image `alt` text is not modelled.
- Controller.Generate: `makeFileName` reads the planet selector again once the response has arrived. The model uses the value read at submission, so a selection changed while the request is pending is not modelled.
- FileName.StampOfInstant: only readings of years 0 to 9999 are covered. The extended `±YYYYYY` form that `toISOString` produces outside that range is not.
- JsString.IsSpace: characters are Unicode scalar values, not UTF-16 code units. For the white-space class and the characters `:`, `-`, `_` and `.` this makes no difference.
- Controller.CleanupOnEveryPath: a `fetch` or `res.json()` that never settles is not modelled. The script sets no time-out (script.js:100-110), so in that case `finally` never runs, and the indicator stays on and the button disabled after `showSpinner(true)`. The model treats every request as settling with a response or a thrown value.
- Chunking.SliceBytes: requires a positive slice size. With a size of 0 or less the source loop never terminates. The script always uses the default of 512.
