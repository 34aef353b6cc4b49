/**
  The upload widget of static/script.js: the selection of image files, the
  prompt text, the result panel, the download button and the upload button,
  and the event handlers that change them.

  The network round trip of the upload button is split in two: `StartUpload`
  runs the handler up to the `fetch` (guard, button disabled, form built) and
  `CompleteUpload` runs the rest once the request has settled, with the
  settled request given as an `Outcome`.
 */
module UploadWidget {
  import opened Wrappers
  import opened JsString

  // ---------------------------------------------------------------------
  // Files and the image filter
  // ---------------------------------------------------------------------

  /** A file handle as the widget sees it: its name and its MIME type. */
  datatype File = File(name: string, mimeType: string)

  /** The MIME prefix that marks a file as an image. */
  const ImagePrefix := "image/"

  /** `file.type.startsWith('image/')` */
  predicate IsImage(f: File): (r: bool)
    ensures r <==> |ImagePrefix| <= |f.mimeType| && f.mimeType == ImagePrefix + f.mimeType[|ImagePrefix|..]
  {
    StartsWith(f.mimeType, ImagePrefix)
  }

  /** `files.filter(file => file.type.startsWith('image/'))` */
  function FilterImages(files: seq<File>): (r: seq<File>)
    ensures |r| <= |files|
    ensures forall f :: f in r <==> f in files && IsImage(f)
  {
    if files == [] then []
    else (if IsImage(files[0]) then [files[0]] else []) + FilterImages(files[1..])
  }

  /** Filtering commutes with concatenation: the survivors keep their arrival order. */
  lemma {:induction false} FilterImagesAppend(a: seq<File>, b: seq<File>)
    ensures FilterImages(a + b) == FilterImages(a) + FilterImages(b)
  {
    if a == [] {
      assert a + b == b;
    } else {
      assert (a + b)[0] == a[0];
      assert (a + b)[1..] == a[1..] + b;
      FilterImagesAppend(a[1..], b);
    }
  }

  /** A list of images passes the filter untouched. */
  lemma {:induction false} FilterImagesOfImages(files: seq<File>)
    requires forall f :: f in files ==> IsImage(f)
    ensures FilterImages(files) == files
  {
    if files != [] {
      assert files[0] in files;
      assert forall f :: f in files[1..] ==> f in files;
      FilterImagesOfImages(files[1..]);
      assert files == [files[0]] + files[1..];
    }
  }

  /** Filtering twice is filtering once, so a pre-filtered drop selects the same files. */
  lemma FilterImagesIdempotent(files: seq<File>)
    ensures FilterImages(FilterImages(files)) == FilterImages(files)
  {
    FilterImagesOfImages(FilterImages(files));
  }

  /** Every image is kept as often as it occurs, and nothing else is kept. */
  lemma {:induction false} FilterImagesCounts(files: seq<File>, f: File)
    ensures multiset(FilterImages(files))[f] == if IsImage(f) then multiset(files)[f] else 0
  {
    if files != [] {
      FilterImagesCounts(files[1..], f);
      assert files == [files[0]] + files[1..];
    }
  }

  // ---------------------------------------------------------------------
  // Removal by index
  // ---------------------------------------------------------------------

  /** `s.splice(i, 1)` for an index inside `s`: the remaining elements, compacted. */
  function RemoveAt<T>(s: seq<T>, i: nat): (r: seq<T>)
    requires i < |s|
    ensures |r| == |s| - 1
    ensures forall k :: 0 <= k < i ==> r[k] == s[k]
    ensures forall k :: i <= k < |r| ==> r[k] == s[k + 1]
  {
    s[..i] + s[i + 1..]
  }

  /** Putting the removed element back at its index restores the sequence. */
  lemma RemoveAtInverse<T>(s: seq<T>, i: nat)
    requires i < |s|
    ensures RemoveAt(s, i)[..i] + [s[i]] + RemoveAt(s, i)[i..] == s
  {
    var r := RemoveAt(s, i);
    assert r[..i] == s[..i];
    assert r[i..] == s[i + 1..];
    assert s == s[..i] + [s[i]] + s[i + 1..];
  }

  /** Removal drops exactly one occurrence of the removed element. */
  lemma RemoveAtMultiset<T>(s: seq<T>, i: nat)
    requires i < |s|
    ensures multiset(RemoveAt(s, i)) + multiset{s[i]} == multiset(s)
  {
    assert s == s[..i] + [s[i]] + s[i + 1..];
  }

  // ---------------------------------------------------------------------
  // Readiness
  // ---------------------------------------------------------------------

  /**
    `checkUploadReady`'s condition: some file is selected and the trimmed
    prompt is not empty, that is, the prompt holds a character `trim` keeps.
   */
  predicate Ready(selected: seq<File>, userInput: string): (r: bool)
    ensures r <==> selected != [] && !TrimmableBetween(userInput, 0, |userInput|)
  {
    |selected| > 0 && |Trim(userInput)| > 0
  }

  // ---------------------------------------------------------------------
  // The multipart form sent by the upload button
  // ---------------------------------------------------------------------

  /** The form field that carries the trimmed prompt. */
  const UserInputField := "user_input"
  /** The form field repeated once per selected image. */
  const ImagesField := "images"

  /** A form value: text or a file. */
  datatype FormValue = Text(text: string) | Blob(file: File)

  /** One `formData.append(field, value)`. */
  datatype FormEntry = FormEntry(field: string, value: FormValue)

  /** The entries appended for the images, in selection order. */
  function ImageEntries(files: seq<File>): (entries: seq<FormEntry>)
    ensures |entries| == |files|
  {
    if files == [] then []
    else ImageEntries(files[..|files| - 1]) + [FormEntry(ImagesField, Blob(files[|files| - 1]))]
  }

  /** The form the upload button sends: the prompt, then one entry per file. */
  function Payload(text: string, files: seq<File>): (form: seq<FormEntry>)
    ensures |form| == |files| + 1
    ensures form[0] == FormEntry(UserInputField, Text(text))
    ensures forall k :: 0 <= k < |files| ==> form[k + 1] == FormEntry(ImagesField, Blob(files[k]))
  {
    ImageEntriesAt(files);
    [FormEntry(UserInputField, Text(text))] + ImageEntries(files)
  }

  lemma {:induction false} ImageEntriesAt(files: seq<File>)
    ensures forall k :: 0 <= k < |files| ==> ImageEntries(files)[k] == FormEntry(ImagesField, Blob(files[k]))
  {
    if files != [] {
      ImageEntriesAt(files[..|files| - 1]);
    }
  }

  /** `formData.getAll(field)`: the values appended under `field`, in order. */
  function GetAll(form: seq<FormEntry>, field: string): (values: seq<FormValue>)
    ensures |values| <= |form|
  {
    if form == [] then []
    else
      var last := form[|form| - 1];
      GetAll(form[..|form| - 1], field) + if last.field == field then [last.value] else []
  }

  /** The files as form values, in order. */
  function Blobs(files: seq<File>): (values: seq<FormValue>)
    ensures |values| == |files|
    ensures forall k :: 0 <= k < |files| ==> values[k] == Blob(files[k])
  {
    seq(|files|, k requires 0 <= k < |files| => Blob(files[k]))
  }

  /**
    The receiving end reads back exactly what was sent: the prompt once under
    "user_input", and the files, in selection order, under "images".
   */
  lemma {:induction false} PayloadRoundTrip(text: string, files: seq<File>)
    ensures GetAll(Payload(text, files), UserInputField) == [Text(text)]
    ensures GetAll(Payload(text, files), ImagesField) == Blobs(files)
  {
    var form := Payload(text, files);
    if files == [] {
      assert form == [FormEntry(UserInputField, Text(text))];
      assert form[..0] == [];
    } else {
      var init := files[..|files| - 1];
      PayloadRoundTrip(text, init);
      assert form == Payload(text, init) + [FormEntry(ImagesField, Blob(files[|files| - 1]))];
      assert form[..|form| - 1] == Payload(text, init);
      assert Blobs(files) == Blobs(init) + [Blob(files[|files| - 1])];
    }
  }

  /**
    The upload handler's form construction: the prompt, then a `forEach`
    that appends one "images" entry per selected file.
   */
  method BuildFormData(text: string, files: seq<File>) returns (form: seq<FormEntry>)
    ensures form == Payload(text, files)
  {
    form := [FormEntry(UserInputField, Text(text))];
    var k := 0;
    while k < |files|
      invariant 0 <= k <= |files|
      invariant form == Payload(text, files[..k])
    {
      assert files[..k + 1][..k] == files[..k];
      form := form + [FormEntry(ImagesField, Blob(files[k]))];
      k := k + 1;
    }
    assert files[..k] == files;
  }

  // ---------------------------------------------------------------------
  // Outcomes of the upload request and the messages they show
  // ---------------------------------------------------------------------

  /**
    How the upload request settled. `Ok` is a 2xx response whose JSON body
    carried `message` and possibly `processedImageUrl` and `fileName`;
    `HttpError` is any other status whose JSON body possibly carried `error`;
    `NetworkError` is anything thrown inside the `try`, with its `message`.
   */
  datatype Outcome =
    | Ok(message: string, processedImageUrl: Option<string>, fileName: Option<string>)
    | HttpError(error: Option<string>)
    | NetworkError(description: string)

  /**
    JavaScript truthiness of a string-valued key that may be missing: a
    missing key (`undefined`) and the empty string are the only falsy values.
   */
  predicate Truthy(v: Option<string>) {
    v.Some? && v.value != ""
  }

  const FallbackError := "Error processing images. Please try again."
  const NetworkErrorPrefix := "Network error: "

  /** The text the result panel shows for an outcome. */
  function ResultMessage(o: Outcome): (text: string)
    ensures !o.Ok? ==> text != ""
  {
    match o
    case Ok(message, _, _) => message
    case HttpError(error) => if Truthy(error) then error.value else FallbackError
    case NetworkError(description) => NetworkErrorPrefix + description
  }

  /**
    The panel text spelled out per outcome (beside `ResultMessage`'s own
    promise that a failure is never empty): a success shows the backend's
    message verbatim; the backend's error text is shown verbatim, otherwise
    the fallback; a transport error's description follows the fixed prefix.
   */
  lemma ResultMessageShows(o: Outcome)
    ensures o.Ok? ==> ResultMessage(o) == o.message
    ensures o.HttpError? ==>
      ResultMessage(o) == if Truthy(o.error) then o.error.value else FallbackError
    ensures o.NetworkError? ==>
      StartsWith(ResultMessage(o), NetworkErrorPrefix) &&
      ResultMessage(o)[|NetworkErrorPrefix|..] == o.description
  {
    if o.NetworkError? {
      assert ResultMessage(o)[..|NetworkErrorPrefix|] == NetworkErrorPrefix;
    }
  }

  /** What the download button navigates to: the URL and the suggested file name. */
  datatype DownloadLink = DownloadLink(href: string, download: string)

  // ---------------------------------------------------------------------
  // The widget
  // ---------------------------------------------------------------------

  class Widget {
    /** `selectedFiles` */
    var selected: seq<File>
    /** `processedImageUrl` */
    var processedImageUrl: string
    /** `fileName` */
    var fileName: string
    /** The prompt field's value. */
    var userInput: string
    /** Whether the result panel is displayed, what it says and whether as a success. */
    var resultVisible: bool
    var resultText: string
    var resultSuccess: bool
    /** Whether the download button's container is displayed. */
    var downloadVisible: bool
    /** Whether the upload button is enabled. */
    var uploadEnabled: bool

    /**
      What every handler keeps: a visible download button has a target and
      sits under a visible result, and the upload button is enabled only
      when the widget is ready.
     */
    ghost predicate Valid()
      reads this
    {
      (downloadVisible ==> processedImageUrl != "" && resultVisible) &&
      (uploadEnabled ==> Ready(selected, userInput))
    }

    /** The page as loaded: nothing selected, nothing shown, upload disabled. */
    constructor ()
      ensures Valid()
      ensures selected == [] && processedImageUrl == "" && fileName == "" && userInput == ""
      ensures !resultVisible && resultText == "" && !resultSuccess
      ensures !downloadVisible && !uploadEnabled
    {
      selected := [];
      processedImageUrl := "";
      fileName := "";
      userInput := "";
      resultVisible := false;
      resultText := "";
      resultSuccess := false;
      downloadVisible := false;
      uploadEnabled := false;
    }

    /** `checkUploadReady`: the upload button is enabled exactly when the widget is ready. */
    method CheckUploadReady()
      modifies this`uploadEnabled
      ensures uploadEnabled == Ready(selected, userInput)
    {
      var hasFiles := |selected| > 0;
      var hasText := |Trim(userInput)| > 0;
      if hasFiles && hasText {
        uploadEnabled := true;
      } else {
        uploadEnabled := false;
      }
    }

    /** The prompt field's `input` listener. */
    method InputChanged(text: string)
      requires Valid()
      modifies this`userInput, this`uploadEnabled
      ensures Valid()
      ensures userInput == text
      ensures uploadEnabled == Ready(selected, text)
    {
      userInput := text;
      CheckUploadReady();
    }

    /**
      `handleFileSelect`: appends the image files, in arrival order, and
      clears the previous result; with no image among `files` it does nothing.
      `fileName` is never touched.
     */
    method HandleFileSelect(files: seq<File>)
      requires Valid()
      modifies this`selected, this`uploadEnabled, this`resultVisible, this`downloadVisible,
        this`processedImageUrl
      ensures Valid()
      ensures FilterImages(files) == [] ==> unchanged(this)
      ensures FilterImages(files) != [] ==>
        selected == old(selected) + FilterImages(files) &&
        uploadEnabled == Ready(selected, userInput) &&
        !resultVisible && !downloadVisible && processedImageUrl == ""
    {
      if |files| == 0 {
        return;
      }
      var validFiles := FilterImages(files);
      if |validFiles| == 0 {
        return;
      }
      selected := selected + validFiles;
      CheckUploadReady();
      resultVisible := false;
      downloadVisible := false;
      processedImageUrl := "";
    }

    /**
      The upload area's `drop` listener: filters the dropped files itself and
      hands a non-empty result to `handleFileSelect`. It behaves exactly as
      `handleFileSelect` on the unfiltered files.
     */
    method HandleDrop(files: seq<File>)
      requires Valid()
      modifies this`selected, this`uploadEnabled, this`resultVisible, this`downloadVisible,
        this`processedImageUrl
      ensures Valid()
      ensures FilterImages(files) == [] ==> unchanged(this)
      ensures FilterImages(files) != [] ==>
        selected == old(selected) + FilterImages(files) &&
        uploadEnabled == Ready(selected, userInput) &&
        !resultVisible && !downloadVisible && processedImageUrl == ""
    {
      var images := FilterImages(files);
      if |images| > 0 {
        FilterImagesIdempotent(files);
        HandleFileSelect(images);
      }
    }

    /**
      `removeFile` for an index the preview rendered: the file at `index`
      is dropped and the rest close up; the result is cleared only when the
      selection becomes empty.
     */
    method RemoveFile(index: nat)
      requires Valid()
      requires index < |selected|
      modifies this`selected, this`uploadEnabled, this`resultVisible, this`downloadVisible,
        this`processedImageUrl
      ensures Valid()
      ensures selected == RemoveAt(old(selected), index)
      ensures uploadEnabled == Ready(selected, userInput)
      ensures selected == [] ==> !resultVisible && !downloadVisible && processedImageUrl == ""
      ensures selected != [] ==>
        resultVisible == old(resultVisible) && downloadVisible == old(downloadVisible) &&
        processedImageUrl == old(processedImageUrl)
    {
      selected := selected[..index] + selected[index + 1..];
      CheckUploadReady();
      if |selected| == 0 {
        resultVisible := false;
        downloadVisible := false;
        processedImageUrl := "";
      }
    }

    /**
      The upload button's handler up to the request: nothing happens unless
      the widget is ready; otherwise the button is disabled and the form is
      built from the trimmed prompt and the selection.
     */
    method StartUpload() returns (request: Option<seq<FormEntry>>)
      requires Valid()
      modifies this`uploadEnabled
      ensures Valid()
      ensures request.Some? <==> Ready(selected, userInput)
      ensures request.Some? ==> request.value == Payload(Trim(userInput), selected) && !uploadEnabled
      ensures request.None? ==> uploadEnabled == old(uploadEnabled)
    {
      var text := Trim(userInput);
      if |selected| == 0 || |text| == 0 {
        return None;
      }
      uploadEnabled := false;
      var form := BuildFormData(text, selected);
      return Some(form);
    }

    /**
      `showResult`: the panel is shown with `text`; a failure also hides the
      download button.
     */
    method ShowResult(text: string, isSuccess: bool)
      modifies this`resultVisible, this`resultText, this`resultSuccess, this`downloadVisible
      ensures resultVisible && resultText == text && resultSuccess == isSuccess
      ensures downloadVisible == (isSuccess && old(downloadVisible))
    {
      resultVisible := true;
      resultText := text;
      resultSuccess := isSuccess;
      if !isSuccess {
        downloadVisible := false;
      }
    }

    /**
      The upload handler's treatment of the settled request. A success shows
      its message and takes over a non-empty URL (showing the download
      button) and a non-empty file name; a failure shows its message and
      hides the download button, but keeps the old URL. `fileName` is never
      cleared.
     */
    method ApplyOutcome(o: Outcome)
      requires Valid()
      modifies this`resultVisible, this`resultText, this`resultSuccess, this`downloadVisible,
        this`processedImageUrl, this`fileName
      ensures Valid()
      ensures resultVisible && resultText == ResultMessage(o) && resultSuccess == o.Ok?
      ensures processedImageUrl ==
        if o.Ok? && Truthy(o.processedImageUrl) then o.processedImageUrl.value
        else old(processedImageUrl)
      ensures downloadVisible ==
        if o.Ok? then Truthy(o.processedImageUrl) || old(downloadVisible) else false
      ensures fileName == if o.Ok? && Truthy(o.fileName) then o.fileName.value else old(fileName)
    {
      match o
      case Ok(message, url, name) =>
        ShowResult(message, true);
        if url.Some? && url.value != "" {
          processedImageUrl := url.value;
          downloadVisible := true;
        }
        if name.Some? && name.value != "" {
          fileName := name.value;
        }
      case HttpError(error) =>
        var text := if error.Some? && error.value != "" then error.value else FallbackError;
        ShowResult(text, false);
      case NetworkError(description) =>
        ShowResult(NetworkErrorPrefix + description, false);
    }

    /**
      The upload handler after the request has settled: the outcome is
      shown, then the button's state is recomputed from the current
      selection and prompt.
     */
    method CompleteUpload(o: Outcome)
      requires Valid()
      modifies this`resultVisible, this`resultText, this`resultSuccess, this`downloadVisible,
        this`processedImageUrl, this`fileName, this`uploadEnabled
      ensures Valid()
      ensures resultVisible && resultText == ResultMessage(o) && resultSuccess == o.Ok?
      ensures processedImageUrl ==
        if o.Ok? && Truthy(o.processedImageUrl) then o.processedImageUrl.value
        else old(processedImageUrl)
      ensures downloadVisible ==
        if o.Ok? then Truthy(o.processedImageUrl) || old(downloadVisible) else false
      ensures fileName == if o.Ok? && Truthy(o.fileName) then o.fileName.value else old(fileName)
      ensures uploadEnabled == Ready(selected, userInput)
    {
      ApplyOutcome(o);
      CheckUploadReady();
    }

    /**
      The download button's handler: nothing without a URL; otherwise a link
      to the URL whose suggested name is `fileName || ''`. A visible
      download button always has a target.
     */
    method Download() returns (link: Option<DownloadLink>)
      ensures processedImageUrl == "" ==> link == None
      ensures processedImageUrl != "" ==> link == Some(DownloadLink(processedImageUrl, fileName))
      ensures Valid() && downloadVisible ==> link.Some?
    {
      if processedImageUrl == "" {
        return None;
      }
      link := Some(DownloadLink(processedImageUrl, if fileName != "" then fileName else ""));
    }
  }
}
