# Upload widget model

This project models the client-side state machine of the image-highlighting
upload widget in `static/script.js`. The widget keeps three kinds of state:

- an ordered selection of image files;
- the URL of the last processed image (`processedImageUrl`) and its suggested
  download name (`fileName`);
- a few flags of the page: the result panel shown or not (with its text and
  success style), the download button shown or not, and the upload button
  enabled or not.

Its handlers change that state. Selecting or dropping files appends the
images among them. The remove button deletes one file by index. The prompt
field's `input` event recomputes readiness. The upload button sends the
trimmed prompt and the files as a multipart form and shows what came back.
The download button follows the stored URL.

The model is in four modules:

- `Wrappers`: `Option`, for JSON keys that may be missing.
- `JsString`: the ECMAScript `trim` (the WhiteSpace and LineTerminator code
  points, stripped from both ends) and `startsWith`.
- `UploadWidget`: the pure functions and their lemmas, plus the class
  `Widget`. The class has the widget's state as fields, one method per
  handler, and an invariant `Valid`. `Valid` says a shown download button
  has a non-empty URL and sits under a shown result panel. It also says the
  upload button is enabled only when the widget is ready.
- `Scenarios`: sequences of events on a `Widget`, checked against the
  handlers' contracts alone.

The asynchronous upload handler is split at its `await fetch`.
`StartUpload` runs it up to the request: the guard, the disabled button and
the form. `CompleteUpload` runs the rest once the request has settled. The
settled request is an `Outcome`: `Ok` for a 2xx response with its JSON keys,
`HttpError` for any other status with its optional `error` key, and
`NetworkError` for anything thrown inside the `try`, with its message.
Between the two calls, other handlers may run, as they can in the browser.

Two behaviours of the code are easy to misread, and the model follows the
code in both:

- An error response whose body is not JSON does not show the generic
  fallback. `response.json()` throws inside the `try`, so the `catch` shows
  "Network error: " followed by the parser's message. Such a response
  arrives in the model as `NetworkError`.
- Removing a file while others remain does not clear the result or the
  processed URL. Only removing the last file does (script.js:121-125).
  Selecting new images always clears them.

## Model

| member | source | states |
|---|---|---|
| `JsString.IsTrimmable` | static/script.js:131 | the characters `trim` strips are the ECMAScript WhiteSpace and LineTerminator code points; all lie in the Basic Multilingual Plane and none is an ASCII letter or digit |
| `JsString.StartsWith` | static/script.js:56 | `startsWith` holds exactly when the prefix is no longer than the string and agrees with it position by position; the string is then the prefix followed by the rest |
| `JsString.Trim` | static/script.js:131 | the trimmed prompt is empty exactly when every character is JavaScript white space, and otherwise neither starts nor ends with white space |
| `JsString.TrimIsInfix` | static/script.js:144 | the trimmed prompt is the contiguous part of the input left after the leading white space, and everything cut off on either side is white space |
| `JsString.TrimOfPadded` | static/script.js:144 | white space added around a text that neither starts nor ends with white space is exactly what trim removes |
| `JsString.TrimIdempotent` | static/script.js:144-158 | the prompt put in the form is already trimmed: trimming it again changes nothing |
| `UploadWidget.IsImage` | static/script.js:66 | a file counts as an image exactly when its MIME type is "image/" followed by some subtype |
| `UploadWidget.FilterImages` | static/script.js:66 | the filter keeps a file exactly when it was given and its MIME type starts with "image/", and never lengthens the list |
| `UploadWidget.FilterImagesAppend` | static/script.js:66-69 | filtering a concatenation is concatenating the filtered parts, so the survivors keep their arrival order |
| `UploadWidget.FilterImagesCounts` | static/script.js:66 | each image file survives as many times as it was given, and no other file survives |
| `UploadWidget.FilterImagesOfImages` | static/script.js:56-58 | a list made only of images passes the filter unchanged |
| `UploadWidget.FilterImagesIdempotent` | static/script.js:56-58 | the drop handler's own pre-filter changes nothing: filtering twice is filtering once |
| `UploadWidget.RemoveAt` | static/script.js:118 | `splice(index, 1)` shortens the selection by one; the files before the index stay where they were and those after it move down by one |
| `UploadWidget.RemoveAtInverse` | static/script.js:118 | putting the removed file back at its index restores the old selection |
| `UploadWidget.RemoveAtMultiset` | static/script.js:118 | removal drops exactly one occurrence of the removed file and keeps every other file |
| `UploadWidget.Ready` | static/script.js:129-133 | the widget is ready exactly when a file is selected and the prompt is not made only of white space, that is, it holds a character that `trim` keeps |
| `UploadWidget.PayloadRoundTrip` | static/script.js:155-163 | reading the form back gives the trimmed prompt once under "user_input" and the selected files, in order, under "images" |
| `UploadWidget.Payload` | static/script.js:155-163 | the form has one entry more than there are files: the trimmed prompt under "user_input" first, then file k under "images" at entry k + 1 |
| `UploadWidget.BuildFormData` | static/script.js:155-163 | the loop that appends one "images" entry per selected file builds exactly that form |
| `UploadWidget.Truthy` | static/script.js:176 | JavaScript truthiness of a string-valued JSON key that may be missing: false when missing or `""`, true otherwise |
| `UploadWidget.ResultMessage` | static/script.js:174-189 | the panel text for an outcome; a failure never leaves it empty |
| `UploadWidget.ResultMessageShows` | static/script.js:174-189 | a success shows the backend's message verbatim; a non-empty backend `error` is shown verbatim, otherwise the fixed fallback; a transport error shows its message after the prefix "Network error: " |
| `UploadWidget.Widget.constructor` | static/script.js:2-4 | the page starts with no selection, an empty URL and file name, nothing shown and the upload button disabled |
| `UploadWidget.Widget.CheckUploadReady` | static/script.js:129-140 | afterwards the upload button is enabled exactly when the widget is ready |
| `UploadWidget.Widget.InputChanged` | static/script.js:40 | a new prompt is stored and the upload button follows readiness for it |
| `UploadWidget.Widget.HandleFileSelect` | static/script.js:63-77 | with no image among the files nothing changes at all; otherwise the images are appended in order after the old selection, the result panel and download button are hidden, the URL is cleared, the button follows readiness, and the file name is kept |
| `UploadWidget.Widget.HandleDrop` | static/script.js:52-60 | a drop has exactly the effect of selecting the same files |
| `UploadWidget.Widget.RemoveFile` | static/script.js:117-126 | the file at the index is removed; the button follows readiness; the result, download button and URL are cleared when the selection becomes empty and are kept otherwise |
| `UploadWidget.Widget.StartUpload` | static/script.js:143-163 | a request is made exactly when the widget is ready; it carries the trimmed prompt and the selection in order, and the upload button is disabled; otherwise nothing changes |
| `UploadWidget.Widget.ShowResult` | static/script.js:231-249 | the panel is shown with the text and style given; a failure hides the download button and a success leaves it as it was |
| `UploadWidget.Widget.ApplyOutcome` | static/script.js:171-190 | the outcome's message is shown; only a success with a non-empty URL replaces the URL and shows the download button; only a success with a non-empty file name replaces the file name; a failure hides the download button and keeps the URL |
| `UploadWidget.Widget.CompleteUpload` | static/script.js:165-200 | the outcome is applied as above and the upload button then follows readiness of the current selection and prompt |
| `UploadWidget.Widget.Download` | static/script.js:204-216 | with an empty URL nothing happens; otherwise the link targets the URL with the stored file name (empty if none came back); a shown download button always has a target |

## Left out

- Styling: class names, `innerHTML` icons, the button label "PROCESSING..." and its restoration (script.js:45-54, 84-92, 134-138, 148-153, 192-199, 236-246). They are presentation only.
- Preview rendering (`updatePreview`, script.js:80-114): `FileReader` callbacks build the DOM asynchronously. `RemoveFile` instead requires an index inside the selection, which the rendered remove buttons provide. `splice` with negative or out-of-range indices is not modelled.
- The upload area's click that opens the file picker (script.js:28-32) and the drag-over and drag-leave highlights (script.js:43-50) change no modelled state.
- Network and parsing: `fetch` and `response.json()` (script.js:166-172, 185) become the `Outcome` parameter. JSON keys are modelled as strings that may be missing. Values of other JSON types are not modelled.
- `Outcome.Ok` always carries a `message` string. A success body without `message` is not modelled.
- The download animation and its 2000 ms timer (script.js:207-211, 221-227), including the download button being disabled meanwhile. The anchor element that starts the download is modelled as the returned `DownloadLink`.
- The browser does not deliver clicks to a disabled button. The model keeps only each handler's own guard, so nothing stops `StartUpload` from being called twice. The `AddDuringUpload` scenario shows how the button itself can be re-enabled while a request is in flight.
- The initial page markup is not part of this model. The constructor takes the page to start with hidden panels and a disabled upload button.
- Strings are sequences of Unicode scalar values. JavaScript strings are UTF-16 and may hold lone surrogates, which a Dafny `char` cannot represent. This does not change `trim`, `startsWith('image/')` or the emptiness test on well-formed text.
- Files are values (name and MIME type). Two browser `File` objects with the same name and type are indistinguishable here, and file contents are not modelled.
- app.py and process.py, the backend, are not part of this model. They do disk I/O, threading, OpenCV and OCR.
