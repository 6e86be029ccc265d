/**
 * The registration form component: the field collector (`formData`), the photo selection
 * guard (`image`), the best-effort image compressor and the submit pipeline.
 *
 * External collaborators (the image compressor, blob storage, the document store, the id
 * generator, `alert`, `console.error`) are not executed: what they return is an oracle
 * parameter (`Backend`, the guid), and every call made on them is recorded, in order, as an
 * `Effect` in the trace a handler returns.
 */
module FormComponent {
  import opened Wrappers

  // ---------------------------------------------------------------- field collector

  /** A stored field value: checkboxes store a boolean, every other control a string. */
  datatype Value = Text(text: string) | Bool(flag: bool)

  /** The dynamically keyed form record. */
  type Record = map<string, Value>

  /** What a change event carries: the control's name, value, type and checked state. */
  datatype InputEvent = InputEvent(name: string, value: string, controlType: string, checked: bool)

  function FieldValue(e: InputEvent): Value
  {
    if e.controlType == "checkbox" then Bool(e.checked) else Text(e.value)
  }

  /** The record update of `handleInputChange`: the named field is written, every other
      key keeps its value. */
  function SetField(rec: Record, e: InputEvent): (r: Record)
    ensures e.name in r
    ensures e.controlType == "checkbox" ==> r[e.name] == Bool(e.checked)
    ensures e.controlType != "checkbox" ==> r[e.name] == Text(e.value)
    ensures r.Keys == rec.Keys + {e.name}
    ensures forall k :: k in rec && k != e.name ==> r[k] == rec[k]
  {
    rec[e.name := FieldValue(e)]
  }

  /** The record after the change events, handled in order, starting from rec. */
  function Collect(rec: Record, events: seq<InputEvent>): Record
    decreases |events|
  {
    if events == [] then rec else Collect(SetField(rec, events[0]), events[1..])
  }

  /** Reference definition of last-write-wins: the value of the last event naming k. */
  function LastWrite(events: seq<InputEvent>, k: string): Option<Value>
    decreases |events|
  {
    if events == [] then None
    else if events[|events| - 1].name == k then Some(FieldValue(events[|events| - 1]))
    else LastWrite(events[..|events| - 1], k)
  }

  lemma {:induction false} CollectSnoc(rec: Record, events: seq<InputEvent>, e: InputEvent)
    ensures Collect(rec, events + [e]) == SetField(Collect(rec, events), e)
    decreases |events|
  {
    if events == [] {
      assert [e][1..] == [];
    } else {
      assert (events + [e])[1..] == events[1..] + [e];
      CollectSnoc(SetField(rec, events[0]), events[1..], e);
    }
  }

  /** Last write wins: after any sequence of change events, a key holds the value of the
      last event that named it, and a key no event named keeps what it had (absent stays
      absent). */
  lemma {:induction false} CollectLastWriteWins(rec: Record, events: seq<InputEvent>, k: string)
    ensures k in Collect(rec, events) <==> LastWrite(events, k).Some? || k in rec
    ensures k in Collect(rec, events) ==>
              Collect(rec, events)[k] ==
                if LastWrite(events, k).Some? then LastWrite(events, k).value else rec[k]
    decreases |events|
  {
    if events != [] {
      var init, last := events[..|events| - 1], events[|events| - 1];
      assert events == init + [last];
      CollectSnoc(rec, init, last);
      CollectLastWriteWins(rec, init, k);
    }
  }

  /** No event names k exactly when the reference definition finds no write to k. */
  lemma {:induction false} LastWriteNoneIff(events: seq<InputEvent>, k: string)
    ensures LastWrite(events, k).None? <==> forall i :: 0 <= i < |events| ==> events[i].name != k
    decreases |events|
  {
    if events != [] {
      var init := events[..|events| - 1];
      LastWriteNoneIff(init, k);
      assert forall i :: 0 <= i < |init| ==> init[i] == events[i];
    }
  }

  /** From the empty initial record: a key is present exactly when some event named it,
      and then it holds the value of the last such event. */
  lemma CollectFromEmpty(events: seq<InputEvent>, k: string)
    ensures k in Collect(map[], events) <==> exists i :: 0 <= i < |events| && events[i].name == k
    ensures k in Collect(map[], events) ==> Some(Collect(map[], events)[k]) == LastWrite(events, k)
  {
    CollectLastWriteWins(map[], events, k);
    LastWriteNoneIff(events, k);
  }

  // ---------------------------------------------------------------- image selection

  /** A selected file: its name, declared media type and bytes. */
  datatype File = File(name: string, mediaType: string, bytes: seq<bv8>)

  const AllowedImageTypes: seq<string> := ["image/jpeg", "image/png", "image/heic", "image/jpg"]

  const InvalidImageMessage: string := "Please upload a valid image file (jpg/jpeg/png/heic)"

  /** The first file chosen in the file input: no file list, or an empty one, yields none. */
  function FirstFile(files: Option<seq<File>>): (f: Option<File>)
    ensures f.Some? <==> files.Some? && |files.value| > 0
    ensures f.Some? ==> f.value == files.value[0]
  {
    if files.Some? && |files.value| > 0 then Some(files.value[0]) else None
  }

  /** The guard of `handleImageChange`: a file is present and its media type is allowed. */
  predicate ImageAccepted(file: Option<File>)
  {
    file.Some? && file.value.mediaType in AllowedImageTypes
  }

  /** The guard accepts exactly a present file of one of the four media types (compared
      verbatim, so `IMAGE/PNG` or `image/gif` is refused). */
  lemma ImageAcceptedIff(file: Option<File>)
    ensures ImageAccepted(file) <==>
              && file.Some?
              && (|| file.value.mediaType == "image/jpeg"
                  || file.value.mediaType == "image/png"
                  || file.value.mediaType == "image/heic"
                  || file.value.mediaType == "image/jpg")
  {
  }

  // ---------------------------------------------------------------- effects and oracles

  /** The fixed options handed to the compressor: 3 MB, 1920 px, on a web worker. */
  datatype CompressionOptions = CompressionOptions(maxSizeMB: nat, maxWidthOrHeight: nat, useWebWorker: bool)

  const ImageCompressionOptions: CompressionOptions := CompressionOptions(3, 1920, true)

  /** A call made on an external collaborator, with its arguments. */
  datatype Call =
    | Compress(input: File, options: CompressionOptions)
    | Upload(key: string, upload: File)
    | GetUrl(key: string)
    | AddDoc(collection: string, document: Record)

  /** One observable action, in the order performed. */
  datatype Effect =
    | PreventDefault
    | Called(call: Call)
    | Alert(message: string)
    | ConsoleError(message: string)

  /** The external calls of a trace, in order. */
  function Calls(effects: seq<Effect>): seq<Call>
    decreases |effects|
  {
    if effects == [] then []
    else (if effects[0].Called? then [effects[0].call] else []) + Calls(effects[1..])
  }

  /** The alerts a trace raises, in order. */
  function Alerts(effects: seq<Effect>): seq<string>
    decreases |effects|
  {
    if effects == [] then []
    else (if effects[0].Alert? then [effects[0].message] else []) + Alerts(effects[1..])
  }

  /** The console errors a trace logs, in order. */
  function Logs(effects: seq<Effect>): seq<string>
    decreases |effects|
  {
    if effects == [] then []
    else (if effects[0].ConsoleError? then [effects[0].message] else []) + Logs(effects[1..])
  }

  /** The views of a one-effect trace. */
  lemma ViewsOfOne(e: Effect)
    ensures Calls([e]) == if e.Called? then [e.call] else []
    ensures Alerts([e]) == if e.Alert? then [e.message] else []
    ensures Logs([e]) == if e.ConsoleError? then [e.message] else []
  {
    assert [e][1..] == [];
  }

  lemma {:induction false} CallsAppend(a: seq<Effect>, b: seq<Effect>)
    ensures Calls(a + b) == Calls(a) + Calls(b)
    decreases |a|
  {
    if a == [] {
      assert a + b == b;
    } else {
      assert (a + b)[0] == a[0] && (a + b)[1..] == a[1..] + b;
      CallsAppend(a[1..], b);
    }
  }

  lemma {:induction false} AlertsAppend(a: seq<Effect>, b: seq<Effect>)
    ensures Alerts(a + b) == Alerts(a) + Alerts(b)
    decreases |a|
  {
    if a == [] {
      assert a + b == b;
    } else {
      assert (a + b)[0] == a[0] && (a + b)[1..] == a[1..] + b;
      AlertsAppend(a[1..], b);
    }
  }

  lemma {:induction false} LogsAppend(a: seq<Effect>, b: seq<Effect>)
    ensures Logs(a + b) == Logs(a) + Logs(b)
    decreases |a|
  {
    if a == [] {
      assert a + b == b;
    } else {
      assert (a + b)[0] == a[0] && (a + b)[1..] == a[1..] + b;
      LogsAppend(a[1..], b);
    }
  }

  /** The three views of a trace distribute over concatenation of traces. */
  lemma ViewsAppend(a: seq<Effect>, b: seq<Effect>)
    ensures Calls(a + b) == Calls(a) + Calls(b)
    ensures Alerts(a + b) == Alerts(a) + Alerts(b)
    ensures Logs(a + b) == Logs(a) + Logs(b)
  {
    CallsAppend(a, b);
    AlertsAppend(a, b);
    LogsAppend(a, b);
  }

  /** What the compressor does with one input: produces a file, or throws. */
  datatype CompressionResult = CompressedTo(file: File) | CompressionThrew

  /** What the outside world answers in one submit attempt. `downloadUrl == None` means
      that `getDownloadURL` throws. */
  datatype Backend = Backend(
    compression: CompressionResult,
    uploadThrows: bool,
    downloadUrl: Option<string>,
    addDocThrows: bool)

  const CompressionFailedMessage: string := "Image compression failed:"
  const UploadFailedMessage: string := "Image upload failed:"
  const SubmitFailedMessage: string := "Error submitting form:"
  const SubmitSucceededMessage: string := "Form submitted successfully!"
  const FormsCollection: string := "forms"

  // ---------------------------------------------------------------- compression

  datatype Compressed = Compressed(output: File, log: seq<Effect>)

  /** The file compression hands on: the compressor's output, or the original. */
  function CompressionOutput(file: File, result: CompressionResult): File
  {
    if result.CompressedTo? then result.file else file
  }

  /** `compressImage`: never fails. It calls the compressor once with the fixed options and
      yields its output, or, when the compressor throws, logs and yields the original,
      unmodified file. It raises no alert. */
  function CompressImage(file: File, result: CompressionResult): (c: Compressed)
    ensures result.CompressionThrew? ==> c.output == file
    ensures result.CompressedTo? ==> c.output == result.file
    ensures Calls(c.log) == [Compress(file, ImageCompressionOptions)]
    ensures Alerts(c.log) == []
    ensures Logs(c.log) == if result.CompressionThrew? then [CompressionFailedMessage] else []
  {
    var call := [Called(Compress(file, ImageCompressionOptions))];
    ViewsOfOne(Called(Compress(file, ImageCompressionOptions)));
    match result
    case CompressedTo(f) => Compressed(f, call)
    case CompressionThrew =>
      ViewsAppend(call, [ConsoleError(CompressionFailedMessage)]);
      Compressed(file, call + [ConsoleError(CompressionFailedMessage)])
  }

  // ---------------------------------------------------------------- the submitted document

  /** The storage key of a submission's image: the prefix and the guid, no extension. */
  function ImageKey(guid: string): string
  {
    "images/" + guid
  }

  /** The key is the seven characters `images/` followed by the guid verbatim. */
  lemma ImageKeyParts(guid: string)
    ensures |ImageKey(guid)| == |guid| + 7
    ensures ImageKey(guid)[..7] == "images/" && ImageKey(guid)[7..] == guid
  {
  }

  /** Two attempts with different ids never upload to the same key: a retry stores a
      second blob beside the first, it does not overwrite it. */
  lemma ImageKeyInjective(g1: string, g2: string)
    requires g1 != g2
    ensures ImageKey(g1) != ImageKey(g2)
  {
    ImageKeyParts(g1);
    ImageKeyParts(g2);
  }

  /** The document `handleSubmit` writes: the record spread first, then `id` and `imageUrl`. */
  function BuildDocument(formData: Record, guid: string, imageUrl: string): Record
  {
    formData["id" := Text(guid)]["imageUrl" := Text(imageUrl)]
  }

  /** The submitted document holds every field of the record plus `id` and `imageUrl`,
      and those two override same-named fields of the record. */
  lemma DocumentShape(formData: Record, guid: string, imageUrl: string)
    ensures var doc := BuildDocument(formData, guid, imageUrl);
            && doc.Keys == formData.Keys + {"id", "imageUrl"}
            && doc["id"] == Text(guid)
            && doc["imageUrl"] == Text(imageUrl)
            && forall k :: k in formData && k != "id" && k != "imageUrl" ==> doc[k] == formData[k]
  {
  }

  /** The first two calls when an image is selected: compress the original, then upload
      what compression yielded under the submission's key. */
  function UploadCalls(image: File, guid: string, compression: CompressionResult): seq<Call>
  {
    [Compress(image, ImageCompressionOptions), Upload(ImageKey(guid), CompressionOutput(image, compression))]
  }

  /** The pipeline stops before persisting when an image is selected and its upload or
      the download-URL lookup throws. */
  predicate UploadAborts(image: Option<File>, backend: Backend)
  {
    image.Some? && (backend.uploadThrows || backend.downloadUrl.None?)
  }

  // ---------------------------------------------------------------- the submit pipeline

  /** The effects of the persistence step: one write, then the success alert, or only a log
      entry when the write throws. */
  function PersistTrace(document: Record, backend: Backend): seq<Effect>
  {
    [Called(AddDoc(FormsCollection, document)),
     if backend.addDocThrows then ConsoleError(SubmitFailedMessage) else Alert(SubmitSucceededMessage)]
  }

  /** The effects up to and including the upload call: prevent the default navigation,
      compress the selection, upload what compression yielded. */
  function UploadingTrace(image: File, guid: string, compression: CompressionResult): seq<Effect>
  {
    [PreventDefault] + CompressImage(image, compression).log +
    [Called(Upload(ImageKey(guid), CompressionOutput(image, compression)))]
  }

  /** The effects up to and including the download-URL lookup of the uploaded key. */
  function LookedUpTrace(image: File, guid: string, compression: CompressionResult): seq<Effect>
  {
    UploadingTrace(image, guid, compression) + [Called(GetUrl(ImageKey(guid)))]
  }

  /** Reference definition of one submit attempt, step by step: prevent the default
      navigation; with an image, compress, upload and look up the URL, returning early
      (after logging) if the upload or the lookup throws; then persist the document. */
  function SubmitTrace(formData: Record, image: Option<File>, guid: string, backend: Backend): seq<Effect>
  {
    if image.None? then
      [PreventDefault] + PersistTrace(BuildDocument(formData, guid, ""), backend)
    else
      if backend.uploadThrows then
        UploadingTrace(image.value, guid, backend.compression) + [ConsoleError(UploadFailedMessage)]
      else
        var lookedUp := LookedUpTrace(image.value, guid, backend.compression);
        if backend.downloadUrl.None? then
          lookedUp + [ConsoleError(UploadFailedMessage)]
        else
          lookedUp + PersistTrace(BuildDocument(formData, guid, backend.downloadUrl.value), backend)
  }

  lemma PersistViews(document: Record, backend: Backend)
    ensures Calls(PersistTrace(document, backend)) == [AddDoc(FormsCollection, document)]
    ensures Alerts(PersistTrace(document, backend)) ==
              if backend.addDocThrows then [] else [SubmitSucceededMessage]
    ensures Logs(PersistTrace(document, backend)) ==
              if backend.addDocThrows then [SubmitFailedMessage] else []
  {
    var write := Called(AddDoc(FormsCollection, document));
    var outcome := if backend.addDocThrows then ConsoleError(SubmitFailedMessage) else Alert(SubmitSucceededMessage);
    assert PersistTrace(document, backend) == [write] + [outcome];
    ViewsOfOne(write);
    ViewsOfOne(outcome);
    ViewsAppend([write], [outcome]);
  }

  lemma UploadingCalls(image: File, guid: string, compression: CompressionResult)
    ensures Calls(UploadingTrace(image, guid, compression)) == UploadCalls(image, guid, compression)
  {
    var log := CompressImage(image, compression).log;
    var upload := Called(Upload(ImageKey(guid), CompressionOutput(image, compression)));
    assert UploadingTrace(image, guid, compression) == [PreventDefault] + log + [upload];
    ViewsOfOne(PreventDefault);
    ViewsOfOne(upload);
    CallsAppend([PreventDefault], log);
    CallsAppend([PreventDefault] + log, [upload]);
    assert Calls([PreventDefault] + log) == [Compress(image, ImageCompressionOptions)];
  }

  lemma UploadingAlertsAndLogs(image: File, guid: string, compression: CompressionResult)
    ensures Alerts(UploadingTrace(image, guid, compression)) == []
    ensures Logs(UploadingTrace(image, guid, compression)) ==
              if compression.CompressionThrew? then [CompressionFailedMessage] else []
  {
    var log := CompressImage(image, compression).log;
    var upload := Called(Upload(ImageKey(guid), CompressionOutput(image, compression)));
    assert UploadingTrace(image, guid, compression) == [PreventDefault] + log + [upload];
    ViewsOfOne(PreventDefault);
    ViewsOfOne(upload);
    AlertsAppend([PreventDefault], log);
    AlertsAppend([PreventDefault] + log, [upload]);
    LogsAppend([PreventDefault], log);
    LogsAppend([PreventDefault] + log, [upload]);
  }

  /** The views of the trace up to and including the upload call. */
  lemma UploadingViews(image: File, guid: string, compression: CompressionResult)
    ensures Calls(UploadingTrace(image, guid, compression)) == UploadCalls(image, guid, compression)
    ensures Alerts(UploadingTrace(image, guid, compression)) == []
    ensures Logs(UploadingTrace(image, guid, compression)) ==
              if compression.CompressionThrew? then [CompressionFailedMessage] else []
  {
    UploadingCalls(image, guid, compression);
    UploadingAlertsAndLogs(image, guid, compression);
  }

  /** No image: one write of the record with an empty `imageUrl`, then its outcome. */
  lemma SubmitWithoutImageViews(formData: Record, guid: string, backend: Backend)
    ensures Calls(SubmitTrace(formData, None, guid, backend)) == [AddDoc(FormsCollection, BuildDocument(formData, guid, ""))]
    ensures Alerts(SubmitTrace(formData, None, guid, backend)) ==
              if backend.addDocThrows then [] else [SubmitSucceededMessage]
    ensures Logs(SubmitTrace(formData, None, guid, backend)) ==
              if backend.addDocThrows then [SubmitFailedMessage] else []
  {
    var persist := PersistTrace(BuildDocument(formData, guid, ""), backend);
    assert SubmitTrace(formData, None, guid, backend) == [PreventDefault] + persist;
    ViewsOfOne(PreventDefault);
    PersistViews(BuildDocument(formData, guid, ""), backend);
    ViewsAppend([PreventDefault], persist);
  }

  /** The upload throws: compress and upload, log the failure, nothing more. */
  lemma SubmitUploadThrowsViews(formData: Record, image: File, guid: string, backend: Backend)
    requires backend.uploadThrows
    ensures Calls(SubmitTrace(formData, Some(image), guid, backend)) == UploadCalls(image, guid, backend.compression)
    ensures Alerts(SubmitTrace(formData, Some(image), guid, backend)) == []
    ensures Logs(SubmitTrace(formData, Some(image), guid, backend)) ==
              (if backend.compression.CompressionThrew? then [CompressionFailedMessage] else []) + [UploadFailedMessage]
  {
    var uploading := UploadingTrace(image, guid, backend.compression);
    var failed := ConsoleError(UploadFailedMessage);
    assert SubmitTrace(formData, Some(image), guid, backend) == uploading + [failed];
    UploadingViews(image, guid, backend.compression);
    ViewsOfOne(failed);
    ViewsAppend(uploading, [failed]);
  }

  lemma LookedUpViews(image: File, guid: string, compression: CompressionResult)
    ensures Calls(LookedUpTrace(image, guid, compression)) == UploadCalls(image, guid, compression) + [GetUrl(ImageKey(guid))]
    ensures Alerts(LookedUpTrace(image, guid, compression)) == []
    ensures Logs(LookedUpTrace(image, guid, compression)) ==
              if compression.CompressionThrew? then [CompressionFailedMessage] else []
  {
    var lookup := Called(GetUrl(ImageKey(guid)));
    UploadingViews(image, guid, compression);
    ViewsOfOne(lookup);
    ViewsAppend(UploadingTrace(image, guid, compression), [lookup]);
  }

  /** The URL lookup throws: compress, upload, look up, log the failure, nothing more. */
  lemma SubmitUrlMissingViews(formData: Record, image: File, guid: string, backend: Backend)
    requires !backend.uploadThrows && backend.downloadUrl.None?
    ensures Calls(SubmitTrace(formData, Some(image), guid, backend)) ==
              UploadCalls(image, guid, backend.compression) + [GetUrl(ImageKey(guid))]
    ensures Alerts(SubmitTrace(formData, Some(image), guid, backend)) == []
    ensures Logs(SubmitTrace(formData, Some(image), guid, backend)) ==
              (if backend.compression.CompressionThrew? then [CompressionFailedMessage] else []) + [UploadFailedMessage]
  {
    var lookedUp := LookedUpTrace(image, guid, backend.compression);
    var failed := ConsoleError(UploadFailedMessage);
    assert SubmitTrace(formData, Some(image), guid, backend) == lookedUp + [failed];
    LookedUpViews(image, guid, backend.compression);
    ViewsOfOne(failed);
    ViewsAppend(lookedUp, [failed]);
  }

  /** Upload and lookup succeed: the four calls in order, the last one writing the document
      that carries the resolved URL. */
  lemma SubmitUploadedCalls(formData: Record, image: File, guid: string, backend: Backend)
    requires !backend.uploadThrows && backend.downloadUrl.Some?
    ensures Calls(SubmitTrace(formData, Some(image), guid, backend)) ==
              UploadCalls(image, guid, backend.compression) +
              [GetUrl(ImageKey(guid))] + [AddDoc(FormsCollection, BuildDocument(formData, guid, backend.downloadUrl.value))]
  {
    var lookedUp := LookedUpTrace(image, guid, backend.compression);
    var persist := PersistTrace(BuildDocument(formData, guid, backend.downloadUrl.value), backend);
    assert SubmitTrace(formData, Some(image), guid, backend) == lookedUp + persist;
    LookedUpViews(image, guid, backend.compression);
    PersistViews(BuildDocument(formData, guid, backend.downloadUrl.value), backend);
    CallsAppend(lookedUp, persist);
  }

  /** Upload and lookup succeed: what the user and the console see is the outcome of the
      write, after the compression failure if there was one. */
  lemma SubmitUploadedOutcome(formData: Record, image: File, guid: string, backend: Backend)
    requires !backend.uploadThrows && backend.downloadUrl.Some?
    ensures Alerts(SubmitTrace(formData, Some(image), guid, backend)) ==
              if backend.addDocThrows then [] else [SubmitSucceededMessage]
    ensures Logs(SubmitTrace(formData, Some(image), guid, backend)) ==
              (if backend.compression.CompressionThrew? then [CompressionFailedMessage] else []) +
              (if backend.addDocThrows then [SubmitFailedMessage] else [])
  {
    var lookedUp := LookedUpTrace(image, guid, backend.compression);
    var persist := PersistTrace(BuildDocument(formData, guid, backend.downloadUrl.value), backend);
    assert SubmitTrace(formData, Some(image), guid, backend) == lookedUp + persist;
    LookedUpViews(image, guid, backend.compression);
    PersistViews(BuildDocument(formData, guid, backend.downloadUrl.value), backend);
    AlertsAppend(lookedUp, persist);
    LogsAppend(lookedUp, persist);
    assert Alerts(lookedUp) + Alerts(persist) == Alerts(persist);
  }

  /** Which external calls a submit attempt makes, with their arguments, in order. Without
      an image: one write of the record with an empty `imageUrl`. With an image: compress
      the selection, upload the result under `images/<guid>`, then (unless the upload threw)
      look up that same key; and only when both succeeded, write the document carrying the
      resolved URL. No call follows a failed upload or lookup. */
  lemma SubmitCalls(formData: Record, image: Option<File>, guid: string, backend: Backend)
    ensures image.None? ==>
              Calls(SubmitTrace(formData, image, guid, backend)) ==
                [AddDoc(FormsCollection, BuildDocument(formData, guid, ""))]
    ensures image.Some? && backend.uploadThrows ==>
              Calls(SubmitTrace(formData, image, guid, backend)) == UploadCalls(image.value, guid, backend.compression)
    ensures image.Some? && !backend.uploadThrows && backend.downloadUrl.None? ==>
              Calls(SubmitTrace(formData, image, guid, backend)) ==
                UploadCalls(image.value, guid, backend.compression) + [GetUrl(ImageKey(guid))]
    ensures image.Some? && !UploadAborts(image, backend) ==>
              Calls(SubmitTrace(formData, image, guid, backend)) ==
                UploadCalls(image.value, guid, backend.compression) +
                [GetUrl(ImageKey(guid))] + [AddDoc(FormsCollection, BuildDocument(formData, guid, backend.downloadUrl.value))]
  {
    if image.None? {
      SubmitWithoutImageViews(formData, guid, backend);
    } else if backend.uploadThrows {
      SubmitUploadThrowsViews(formData, image.value, guid, backend);
    } else if backend.downloadUrl.None? {
      SubmitUrlMissingViews(formData, image.value, guid, backend);
    } else {
      SubmitUploadedCalls(formData, image.value, guid, backend);
    }
  }

  /** The `imageUrl` a completed pipeline writes: empty without an image, otherwise the
      URL resolved for the uploaded key. */
  function SubmittedImageUrl(image: Option<File>, backend: Backend): (url: string)
    requires !UploadAborts(image, backend)
    ensures image.None? ==> url == ""
    ensures image.Some? ==> Some(url) == backend.downloadUrl
  {
    if image.None? then "" else backend.downloadUrl.value
  }

  /** No document is written after a failed upload or lookup. */
  lemma SubmitWritesNothingWhenAborted(formData: Record, image: Option<File>, guid: string, backend: Backend)
    requires UploadAborts(image, backend)
    ensures forall i :: 0 <= i < |Calls(SubmitTrace(formData, image, guid, backend))| ==>
              !Calls(SubmitTrace(formData, image, guid, backend))[i].AddDoc?
  {
    var upload := UploadCalls(image.value, guid, backend.compression);
    if backend.uploadThrows {
      SubmitUploadThrowsViews(formData, image.value, guid, backend);
    } else {
      SubmitUrlMissingViews(formData, image.value, guid, backend);
      assert forall i :: 0 <= i < |upload + [GetUrl(ImageKey(guid))]| ==>
               (upload + [GetUrl(ImageKey(guid))])[i] in {upload[0], upload[1], GetUrl(ImageKey(guid))};
    }
  }

  /** A pipeline that gets past the upload writes exactly one document, to `forms`, as its
      last call: the record plus `id` and `imageUrl`. */
  lemma SubmitWritesOnceWhenUploaded(formData: Record, image: Option<File>, guid: string, backend: Backend)
    requires !UploadAborts(image, backend)
    ensures var calls := Calls(SubmitTrace(formData, image, guid, backend));
            && |calls| > 0
            && calls[|calls| - 1] ==
                 AddDoc(FormsCollection, BuildDocument(formData, guid, SubmittedImageUrl(image, backend)))
            && forall i :: 0 <= i < |calls| - 1 ==> !calls[i].AddDoc?
  {
    if image.None? {
      SubmitWithoutImageViews(formData, guid, backend);
    } else {
      SubmitUploadedCalls(formData, image.value, guid, backend);
    }
  }

  /** The written document carries the submission id, and as `imageUrl` either the empty
      string (no image) or the URL answered by the lookup of `images/<guid>`, the call just
      before the write. */
  lemma SubmitDocumentCarriesResolvedUrl(formData: Record, image: Option<File>, guid: string, backend: Backend)
    requires !UploadAborts(image, backend)
    ensures var calls := Calls(SubmitTrace(formData, image, guid, backend));
            |calls| > 0 && calls[|calls| - 1].AddDoc?
    ensures var calls := Calls(SubmitTrace(formData, image, guid, backend));
            var doc := calls[|calls| - 1].document;
            && "id" in doc && "imageUrl" in doc
            && doc["id"] == Text(guid)
            && (image.None? ==> doc["imageUrl"] == Text(""))
            && (image.Some? ==>
                  && |calls| >= 2
                  && calls[|calls| - 2] == GetUrl("images/" + guid)
                  && doc["imageUrl"] == Text(backend.downloadUrl.value))
  {
    SubmitWritesOnceWhenUploaded(formData, image, guid, backend);
    DocumentShape(formData, guid, SubmittedImageUrl(image, backend));
    if image.Some? {
      SubmitUploadedCalls(formData, image.value, guid, backend);
    }
  }

  /** A compressor that throws does not stop the submit: the original file is uploaded
      and, when upload and lookup succeed, the document is written. */
  lemma SubmitRecoversFromCompressionFailure(formData: Record, image: File, guid: string, backend: Backend)
    requires backend.compression.CompressionThrew?
    ensures var calls := Calls(SubmitTrace(formData, Some(image), guid, backend));
            |calls| >= 2 && calls[0] == Compress(image, ImageCompressionOptions) && calls[1] == Upload(ImageKey(guid), image)
    ensures !backend.uploadThrows && backend.downloadUrl.Some? ==>
              AddDoc(FormsCollection, BuildDocument(formData, guid, backend.downloadUrl.value))
                in Calls(SubmitTrace(formData, Some(image), guid, backend))
  {
    SubmitCalls(formData, Some(image), guid, backend);
  }

  /** A submit attempt reports success with exactly one alert, and only when the pipeline
      reached the write and the write succeeded; every failure is silent for the user. */
  lemma SubmitAlerts(formData: Record, image: Option<File>, guid: string, backend: Backend)
    ensures Alerts(SubmitTrace(formData, image, guid, backend)) ==
              if !UploadAborts(image, backend) && !backend.addDocThrows then [SubmitSucceededMessage] else []
  {
    if image.None? {
      SubmitWithoutImageViews(formData, guid, backend);
    } else if backend.uploadThrows {
      SubmitUploadThrowsViews(formData, image.value, guid, backend);
    } else if backend.downloadUrl.None? {
      SubmitUrlMissingViews(formData, image.value, guid, backend);
    } else {
      SubmitUploadedOutcome(formData, image.value, guid, backend);
    }
  }

  /** What a submit attempt logs: the compression failure (which it recovers from), then
      the upload failure that ends it early, or the failed write. */
  lemma SubmitLogs(formData: Record, image: Option<File>, guid: string, backend: Backend)
    ensures Logs(SubmitTrace(formData, image, guid, backend)) ==
              (if image.Some? && backend.compression.CompressionThrew? then [CompressionFailedMessage] else []) +
              (if UploadAborts(image, backend) then [UploadFailedMessage]
               else if backend.addDocThrows then [SubmitFailedMessage]
               else [])
  {
    if image.None? {
      SubmitWithoutImageViews(formData, guid, backend);
    } else if backend.uploadThrows {
      SubmitUploadThrowsViews(formData, image.value, guid, backend);
    } else if backend.downloadUrl.None? {
      SubmitUrlMissingViews(formData, image.value, guid, backend);
    } else {
      SubmitUploadedOutcome(formData, image.value, guid, backend);
    }
  }

  /** Every attempt starts by preventing the browser's default form navigation. */
  lemma SubmitStartsWithPreventDefault(formData: Record, image: Option<File>, guid: string, backend: Backend)
    ensures |SubmitTrace(formData, image, guid, backend)| > 0
    ensures SubmitTrace(formData, image, guid, backend)[0] == PreventDefault
  {
  }

  // ---------------------------------------------------------------- the component

  /** The component state: the collected record and the current photo selection. */
  class Form {
    var formData: Record
    var image: Option<File>

    constructor ()
      ensures formData == map[] && image == None
    {
      formData := map[];
      image := None;
    }

    /** `handleInputChange`: merge one field into the record. */
    method HandleInputChange(e: InputEvent)
      modifies this
      ensures formData == SetField(old(formData), e)
      ensures image == old(image)
    {
      formData := SetField(formData, e);
    }

    /** `handleImageChange`: take the first chosen file if its media type is allowed;
        otherwise raise an alert and keep the current selection. */
    method HandleImageChange(files: Option<seq<File>>) returns (effects: seq<Effect>)
      modifies this
      ensures ImageAccepted(FirstFile(files)) ==> image == FirstFile(files) && effects == []
      ensures !ImageAccepted(FirstFile(files)) ==>
                image == old(image) && effects == [Alert(InvalidImageMessage)]
      ensures formData == old(formData)
    {
      var file := FirstFile(files);
      if file.Some? && file.value.mediaType in AllowedImageTypes {
        image := file;
        effects := [];
      } else {
        effects := [Alert(InvalidImageMessage)];
      }
    }

    /** `handleSubmit` for one attempt with id `guid`. It reads `formData` and `image`,
        writes neither, and performs no field check of its own. */
    method HandleSubmit(guid: string, backend: Backend) returns (effects: seq<Effect>)
      ensures effects == SubmitTrace(formData, image, guid, backend)
    {
      effects := [PreventDefault];
      var imageUrl := "";
      if image.Some? {
        // first try block: compression recovers on its own; upload or lookup failure ends the attempt
        var compressed := CompressImage(image.value, backend.compression);
        effects := effects + compressed.log;
        var imageRef := ImageKey(guid);
        effects := effects + [Called(Upload(imageRef, compressed.output))];
        if backend.uploadThrows {
          effects := effects + [ConsoleError(UploadFailedMessage)];
          return;
        }
        effects := effects + [Called(GetUrl(imageRef))];
        if backend.downloadUrl.None? {
          effects := effects + [ConsoleError(UploadFailedMessage)];
          return;
        }
        imageUrl := backend.downloadUrl.value;
      }
      var formWithImage := BuildDocument(formData, guid, imageUrl);
      // second try block: one write; the alert only on success, a log entry otherwise
      effects := effects + [Called(AddDoc(FormsCollection, formWithImage))];
      if backend.addDocThrows {
        effects := effects + [ConsoleError(SubmitFailedMessage)];
      } else {
        effects := effects + [Alert(SubmitSucceededMessage)];
      }
    }
  }
}

/** Client code: what a caller can conclude from the handlers' contracts alone. */
module FormScenarios {
  import opened Wrappers
  import opened FormComponent

  /** Filled record, no photo, the write succeeds: one write of the record with an empty
      `imageUrl`, then the success alert. */
  method SubmitWithoutPhoto()
  {
    var form := new Form();
    form.HandleInputChange(InputEvent("nameEnglish", "Karim", "text", false));
    form.HandleInputChange(InputEvent("singleSelect", "on", "checkbox", true));
    form.HandleInputChange(InputEvent("nameEnglish", "Rahim", "text", false));
    assert form.formData == map["nameEnglish" := Text("Rahim"), "singleSelect" := Bool(true)];
    var effects := form.HandleSubmit("g-1", Backend(CompressionThrew, false, None, false));
    SubmitCalls(form.formData, form.image, "g-1", Backend(CompressionThrew, false, None, false));
    SubmitAlerts(form.formData, form.image, "g-1", Backend(CompressionThrew, false, None, false));
    assert Calls(effects) == [AddDoc("forms", map["nameEnglish" := Text("Rahim"), "singleSelect" := Bool(true),
                                                 "id" := Text("g-1"), "imageUrl" := Text("")])];
    assert Alerts(effects) == ["Form submitted successfully!"];
  }

  /** A PNG photo whose compression throws: the original file is uploaded under
      `images/g-2`, its URL is written into the document, and the submit succeeds. */
  method SubmitPhotoWhoseCompressionFails()
  {
    var form := new Form();
    var photo := File("me.png", "image/png", [1, 2, 3]);
    var alerts := form.HandleImageChange(Some([photo]));
    assert form.image == Some(photo) && alerts == [];
    var backend := Backend(CompressionThrew, false, Some("https://cdn/x"), false);
    var effects := form.HandleSubmit("g-2", backend);
    SubmitCalls(form.formData, form.image, "g-2", backend);
    SubmitAlerts(form.formData, form.image, "g-2", backend);
    assert ImageKey("g-2") == "images/g-2";
    assert UploadCalls(photo, "g-2", CompressionThrew) ==
           [Compress(photo, ImageCompressionOptions), Upload("images/g-2", photo)];
    assert Calls(effects) == [Compress(photo, ImageCompressionOptions), Upload("images/g-2", photo),
                              GetUrl("images/g-2"),
                              AddDoc("forms", map["id" := Text("g-2"), "imageUrl" := Text("https://cdn/x")])];
    assert Alerts(effects) == ["Form submitted successfully!"];
  }

  /** A rejected file, or an empty choice, keeps the earlier selection and raises the alert. */
  method RejectedFileKeepsSelection()
  {
    var form := new Form();
    var photo := File("me.jpg", "image/jpeg", []);
    var alerts := form.HandleImageChange(Some([photo]));
    alerts := form.HandleImageChange(Some([File("cat.gif", "image/gif", [])]));
    assert form.image == Some(photo) && alerts == [Alert(InvalidImageMessage)];
    alerts := form.HandleImageChange(None);
    assert form.image == Some(photo) && alerts == [Alert(InvalidImageMessage)];
  }

  /** A failed upload stops the submit before any write, with no alert. */
  method FailedUploadStopsSubmit()
  {
    var form := new Form();
    var photo := File("me.jpg", "image/jpeg", []);
    var alerts := form.HandleImageChange(Some([photo]));
    var backend := Backend(CompressedTo(photo), true, Some("unused"), false);
    var effects := form.HandleSubmit("g-3", backend);
    SubmitCalls(form.formData, form.image, "g-3", backend);
    SubmitAlerts(form.formData, form.image, "g-3", backend);
    assert ImageKey("g-3") == "images/g-3";
    assert UploadCalls(photo, "g-3", CompressedTo(photo)) ==
           [Compress(photo, ImageCompressionOptions), Upload("images/g-3", photo)];
    assert Calls(effects) == [Compress(photo, ImageCompressionOptions), Upload("images/g-3", photo)];
    assert Alerts(effects) == [];
  }
}
