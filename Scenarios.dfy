/**
  Event sequences on the widget, checked against the contracts of its
  handlers alone.
 */
module Scenarios {
  import opened Wrappers
  import opened JsString
  import opened UploadWidget

  lemma PngIsImage(name: string)
    ensures IsImage(File(name, "image/png"))
    ensures FilterImages([File(name, "image/png")]) == [File(name, "image/png")]
  {
    assert "image/png"[..|ImagePrefix|] == ImagePrefix;
  }

  lemma PdfIsNotImage(name: string)
    ensures !IsImage(File(name, "application/pdf"))
  {
    assert "application/pdf"[0] != ImagePrefix[0];
  }

  lemma HasText(s: string)
    requires s != [] && !IsTrimmable(s[0])
    ensures |Trim(s)| > 0
  {
    assert !TrimmableBetween(s, 0, |s|);
  }

  lemma PaddedPrompt()
    ensures Trim("  find cat  ") == "find cat"
  {
    assert "  find cat  " == "  " + "find cat" + "  ";
    TrimOfPadded("  ", "find cat", "  ");
  }

  /**
    One image and a padded prompt, then the upload button: the form carries
    the trimmed prompt and the image, and the button is disabled until the
    request settles.
   */
  method SubmitTrimsPrompt() returns (w: Widget)
    ensures fresh(w) && w.Valid()
    ensures w.selected == [File("imgA.png", "image/png")]
    ensures Ready(w.selected, w.userInput) && !w.uploadEnabled
  {
    w := new Widget();
    var img := File("imgA.png", "image/png");
    PngIsImage("imgA.png");
    w.HandleFileSelect([img]);
    PaddedPrompt();
    w.InputChanged("  find cat  ");
    assert w.uploadEnabled;

    var request := w.StartUpload();
    assert request == Some(Payload("find cat", [img]));
  }

  /** The backend answers with a result: success, and the download button targets it. */
  method SuccessWithDownload() returns (w: Widget)
    ensures fresh(w) && w.Valid()
    ensures |w.selected| == 1 && Ready(w.selected, w.userInput)
    ensures w.processedImageUrl == "https://x/out.png" && w.fileName == "out.png"
  {
    w := SubmitTrimsPrompt();
    w.CompleteUpload(Ok("done", Some("https://x/out.png"), Some("out.png")));
    assert w.resultVisible && w.resultSuccess && w.resultText == "done";
    assert w.downloadVisible && w.uploadEnabled;

    var link := w.Download();
    assert link == Some(DownloadLink("https://x/out.png", "out.png"));
  }

  /** The backend's error text is shown and the download button stays hidden. */
  method BackendError() {
    var w := SubmitTrimsPrompt();
    w.CompleteUpload(HttpError(Some("bad image")));
    assert !w.resultSuccess && w.resultText == "bad image" && !w.downloadVisible;
    assert w.uploadEnabled;
  }

  /** A failure without an error text shows the fallback. */
  method BackendErrorWithoutText() {
    var w := SubmitTrimsPrompt();
    w.CompleteUpload(HttpError(None));
    assert !w.resultSuccess && w.resultText == FallbackError;
  }

  /** A transport error shows its description after the prefix. */
  method TransportError() {
    var w := SubmitTrimsPrompt();
    w.CompleteUpload(NetworkError("Failed to fetch"));
    assert !w.resultSuccess && w.resultText == NetworkErrorPrefix + "Failed to fetch";
  }

  /**
    A failure after a success hides the download button; the old URL is kept,
    but no visible button leads to it until a later success shows one again.
   */
  method FailureKeepsUrl() {
    var w := SuccessWithDownload();
    var again := w.StartUpload();
    assert again.Some?;
    w.CompleteUpload(NetworkError("Failed to fetch"));
    assert !w.downloadVisible && w.processedImageUrl == "https://x/out.png";
  }

  /** Without a result URL, the download button does nothing. */
  method DownloadWithoutResult() {
    var w := new Widget();
    var link := w.Download();
    assert link == None;
  }

  /** A file that is not an image is dropped silently. */
  method NonImageIgnored() {
    var w := new Widget();
    var img := File("a.png", "image/png");
    var doc := File("b.pdf", "application/pdf");
    PngIsImage("a.png");
    PdfIsNotImage("b.pdf");
    w.HandleFileSelect([doc]);
    assert FilterImages([doc]) == [];
    assert w.selected == [];

    assert [doc, img][1..] == [img];
    w.HandleFileSelect([doc, img]);
    assert w.selected == [img];
  }

  /** Removing the last image clears the result but not the remembered file name. */
  method RemoveLastClears() {
    var w := SuccessWithDownload();
    w.RemoveFile(0);
    assert w.selected == [];
    assert !w.resultVisible && !w.downloadVisible && w.processedImageUrl == "";
    assert !w.uploadEnabled;
    assert w.fileName == "out.png";
  }

  /**
    Selecting another image while a request is in flight re-enables the
    upload button, so a second request can be started before the first
    settles: the button, not the handler, keeps uploads one at a time.
   */
  method AddDuringUpload() {
    var w := new Widget();
    var img := File("a.png", "image/png");
    PngIsImage("a.png");
    HasText("cat");
    w.HandleFileSelect([img]);
    w.InputChanged("cat");
    var first := w.StartUpload();
    assert first.Some? && !w.uploadEnabled;

    w.HandleFileSelect([img]);
    assert w.uploadEnabled;
    var second := w.StartUpload();
    assert second.Some?;
  }
}
