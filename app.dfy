/** The client (frontend/src/App.tsx): the view's state, the conversion
    request it sends, the effects it has on the outside world (toasts, the
    POST, the download), and the file uploader with its drag highlight.
    The browser, the network and the DOM are not modelled: the request's
    outcome is an input, and every effect is appended to a log. */
module ConverterApp {
  import opened Options
  import FileNames

  /** A browser `File`: `id` stands for its reference identity. */
  datatype FileRef = FileRef(id: nat, name: string, data: seq<bv8>)

  datatype FormatOption = FormatOption(value: string, caption: string, category: string)
  datatype OperationOption = OperationOption(value: string, caption: string, description: string)

  /** The target formats offered by the first Select. */
  const FormatOptions: seq<FormatOption> := [
    FormatOption("mp4", "MP4", "video"),
    FormatOption("mp3", "MP3", "audio"),
    FormatOption("avi", "AVI", "video"),
    FormatOption("mkv", "MKV", "video"),
    FormatOption("webm", "WEBM", "video"),
    FormatOption("jpg", "JPG", "image"),
    FormatOption("png", "PNG", "image"),
    FormatOption("gif", "GIF", "image")
  ]

  /** The operations offered by the second Select; its default value
      "convert" is not among them. */
  const OperationOptions: seq<OperationOption> := [
    OperationOption("compress_video", "Compress Video", "Reduce video file size"),
    OperationOption("compress_image", "Compress Image", "Reduce image file size")
  ]

  const DefaultOperation: string := "convert"

  function FormatCodes(): set<string>
  {
    set o | o in FormatOptions :: o.value
  }

  function OperationCodes(): set<string>
  {
    set o | o in OperationOptions :: o.value
  }

  /** The values `operation` can hold: its default or a Select item. */
  predicate KnownOperation(operation: string)
  {
    operation == DefaultOperation || operation in OperationCodes()
  }

  datatype ToastKind = Success | Error | Warning

  datatype FormValue = FilePart(file: FileRef) | TextPart(text: string)

  /** What the view does to the outside world. */
  datatype Effect =
    | Toast(kind: ToastKind, title: string, message: string)
    | Post(form: seq<(string, FormValue)>)
    | Download(fileName: string, body: seq<bv8>)

  const WarningToast: Effect :=
    Toast(Warning, "Missing file or format", "Please select both a file and a format.")
  const ErrorToast: Effect :=
    Toast(Error, "Conversion failed", "Something went wrong while converting the file.")

  function SuccessToast(target: string): Effect
  {
    Toast(Success, "File converted!", "Downloaded as ." + target)
  }

  /** The values `handleConvert` captured when it sent its request. */
  datatype Request = Request(file: FileRef, target: string, operation: string)

  /** How the awaited part of `handleConvert` ends: a response with its
      status and body, or a thrown error (fetch rejected, or reading the
      body or starting the download threw). */
  datatype Outcome = Responded(status: int, body: seq<bv8>) | Rejected

  /** `res.ok`: the status is in the range 200-299. */
  predicate Succeeded(outcome: Outcome)
  {
    outcome.Responded? && 200 <= outcome.status <= 299
  }

  /** The guard `!file || !target`, negated: a file is chosen and the
      target is not the empty string. */
  predicate CanSubmit(file: Option<FileRef>, target: string)
  {
    file.Some? && target != ""
  }

  /** The multipart body: "file", "target", "operation", in that order. */
  function FormFields(r: Request): (fields: seq<(string, FormValue)>)
    ensures |fields| == 3
    ensures forall i, j :: 0 <= i < j < |fields| ==> fields[i].0 != fields[j].0
    ensures forall i :: 0 <= i < |fields| ==> (fields[i].1.FilePart? <==> fields[i].0 == "file")
  {
    [("file", FilePart(r.file)), ("target", TextPart(r.target)), ("operation", TextPart(r.operation))]
  }

  /** The effects of the part of `handleConvert` after the await. */
  function SettleEffects(r: Request, outcome: Outcome): (effects: seq<Effect>)
    ensures |effects| > 0 && effects[|effects| - 1].Toast?
    ensures forall i :: 0 <= i < |effects| ==> !effects[i].Post?
    ensures effects[0].Download? <==> Succeeded(outcome)
    ensures Succeeded(outcome) ==> effects[0].fileName == FileNames.DownloadName(r.file.name, r.target)
    ensures Succeeded(outcome) ==> effects[|effects| - 1] == SuccessToast(r.target)
  {
    if Succeeded(outcome) then
      [Download(FileNames.DownloadName(r.file.name, r.target), outcome.body), SuccessToast(r.target)]
    else
      [ErrorToast]
  }

  /** All effects of one `handleConvert` call that nothing interleaves. */
  function ConvertEffects(file: Option<FileRef>, target: string, operation: string, outcome: Outcome): (effects: seq<Effect>)
    ensures 1 <= |effects| <= 3
    ensures effects[0].Post? <==> CanSubmit(file, target)
    ensures effects[|effects| - 1].Toast?
  {
    if !CanSubmit(file, target) then [WarningToast]
    else
      var r := Request(file.value, target, operation);
      [Post(FormFields(r))] + SettleEffects(r, outcome)
  }

  /** The toasts of a log, in order. */
  function Toasts(log: seq<Effect>): (r: seq<Effect>)
    ensures forall t :: t in r ==> t.Toast? && t in log
    ensures |r| <= |log|
  {
    if log == [] then [] else (if log[0].Toast? then [log[0]] else []) + Toasts(log[1..])
  }

  function Posts(log: seq<Effect>): seq<seq<(string, FormValue)>>
  {
    if log == [] then [] else (if log[0].Post? then [log[0].form] else []) + Posts(log[1..])
  }

  function Downloads(log: seq<Effect>): seq<string>
  {
    if log == [] then [] else (if log[0].Download? then [log[0].fileName] else []) + Downloads(log[1..])
  }

  /** Every call shows exactly one toast: a warning when declined, a
      success when the response was ok, an error otherwise. */
  lemma OneToastPerCall(file: Option<FileRef>, target: string, operation: string, outcome: Outcome)
    ensures var toasts := Toasts(ConvertEffects(file, target, operation, outcome));
      && |toasts| == 1
      && (toasts[0].kind == Warning <==> !CanSubmit(file, target))
      && (toasts[0].kind == Success <==> CanSubmit(file, target) && Succeeded(outcome))
      && (toasts[0].kind == Error <==> CanSubmit(file, target) && !Succeeded(outcome))
      && toasts[0] == if !CanSubmit(file, target) then WarningToast
                      else if Succeeded(outcome) then SuccessToast(target)
                      else ErrorToast
  {
    var effects := ConvertEffects(file, target, operation, outcome);
    if CanSubmit(file, target) {
      assert Toasts(effects) == Toasts(effects[1..]);
      if Succeeded(outcome) {
        assert Toasts(effects[1..]) == Toasts(effects[2..]);
      }
    }
  }

  /** A declined call sends nothing and downloads nothing; an accepted one
      sends exactly one request carrying the current file, target and
      operation. */
  lemma RequestOnlyWhenAccepted(file: Option<FileRef>, target: string, operation: string, outcome: Outcome)
    ensures var posts := Posts(ConvertEffects(file, target, operation, outcome));
      && (!CanSubmit(file, target) ==> posts == [])
      && (CanSubmit(file, target) ==> posts == [[("file", FilePart(file.value)), ("target", TextPart(target)), ("operation", TextPart(operation))]])
  {
    var effects := ConvertEffects(file, target, operation, outcome);
    if CanSubmit(file, target) {
      assert Posts(effects[1..]) == [] by {
        if Succeeded(outcome) {
          assert Posts(effects[1..]) == Posts(effects[2..]);
        }
      }
    }
  }

  /** A download happens exactly when the request was sent and its response
      was ok, under the client's download name. */
  lemma DownloadOnlyOnSuccess(file: Option<FileRef>, target: string, operation: string, outcome: Outcome)
    ensures Downloads(ConvertEffects(file, target, operation, outcome))
         == if CanSubmit(file, target) && Succeeded(outcome)
            then [FileNames.DownloadName(file.value.name, target)] else []
  {
    var effects := ConvertEffects(file, target, operation, outcome);
    if CanSubmit(file, target) {
      assert Downloads(effects) == Downloads(effects[1..]);
      if Succeeded(outcome) {
        assert Downloads(effects[1..]) == [effects[1].fileName] + Downloads(effects[2..]);
      }
    }
  }

  /** The success toast names the target format. */
  lemma SuccessToastNamesTarget(target: string)
    ensures var m := SuccessToast(target).message;
      |m| > |target| && m[|m| - |target|..] == target && m[|m| - |target| - 1] == '.'
  {
    var m := SuccessToast(target).message;
    assert m == "Downloaded as ." + target;
    assert m[|m| - |target|..] == target;
  }

  /** The state of the App component, plus the request its pending
      `handleConvert` awaits and the log of its effects. */
  class ConverterView {
    var file: Option<FileRef>
    var target: string
    var operation: string
    var loading: bool
    var inFlight: Option<Request>
    ghost var log: seq<Effect>

    ghost predicate Valid()
      reads this
    {
      && (target == "" || target in FormatCodes())
      && KnownOperation(operation)
      && (loading <==> inFlight.Some?)
      && (inFlight.Some? ==> inFlight.value.target in FormatCodes() && KnownOperation(inFlight.value.operation))
    }

    /** The initial state of the four `useState` hooks. */
    constructor ()
      ensures Valid()
      ensures file == None && target == "" && operation == "convert" && !loading
      ensures inFlight == None && log == []
    {
      file := None;
      target := "";
      operation := DefaultOperation;
      loading := false;
      inFlight := None;
      log := [];
    }

    /** `setFile`, called by the uploader. */
    method SetFile(f: FileRef)
      requires Valid()
      modifies this`file
      ensures Valid() && file == Some(f)
    {
      file := Some(f);
    }

    /** The format Select's `onValueChange`; it only emits listed codes. */
    method SetTarget(value: string)
      requires Valid() && value in FormatCodes()
      modifies this`target
      ensures Valid() && target == value
    {
      target := value;
    }

    /** The operation Select's `onValueChange`; it only emits listed codes,
        so once changed, `operation` never returns to "convert". */
    method SetOperation(value: string)
      requires Valid() && value in OperationCodes()
      modifies this`operation
      ensures Valid() && operation == value && operation != DefaultOperation
    {
      operation := value;
    }

    /** `handleConvert` up to its `await`: the guard, raising `loading`,
        building the form and sending it. The button is disabled while
        `loading`, so it is only clicked when not loading. */
    method HandleConvert()
      requires Valid() && !loading
      modifies this`loading, this`inFlight, this`log
      ensures Valid()
      ensures !CanSubmit(file, target) ==>
        !loading && inFlight == None && log == old(log) + [WarningToast]
      ensures CanSubmit(file, target) ==>
        && loading
        && inFlight == Some(Request(file.value, target, operation))
        && log == old(log) + [Post(FormFields(inFlight.value))]
    {
      if file.None? || target == "" {
        log := log + [WarningToast];
        return;
      }
      loading := true;
      var request := Request(file.value, target, operation);
      inFlight := Some(request);
      log := log + [Post(FormFields(request))];
    }

    /** The rest of `handleConvert` once the response (or the error)
        arrives: download and success toast, or error toast; then the
        `finally` clears `loading`. It works on the values captured when the
        request was sent, whatever the user has chosen since. */
    method Settle(outcome: Outcome)
      requires Valid() && inFlight.Some?
      modifies this`loading, this`inFlight, this`log
      ensures Valid() && !loading && inFlight == None
      ensures log == old(log) + SettleEffects(old(inFlight.value), outcome)
    {
      var request := inFlight.value;
      if Succeeded(outcome) {
        var name := FileNames.DownloadName(request.file.name, request.target);
        log := log + [Download(name, outcome.body)];
        log := log + [SuccessToast(request.target)];
      } else {
        log := log + [ErrorToast];
      }
      loading := false;
      inFlight := None;
    }

    /** One click whose request settles before anything else happens. */
    method ConvertUninterrupted(outcome: Outcome)
      requires Valid() && !loading
      modifies this`loading, this`inFlight, this`log
      ensures Valid() && !loading && inFlight == None
      ensures log == old(log) + ConvertEffects(file, target, operation, outcome)
    {
      HandleConvert();
      if loading {
        Settle(outcome);
      }
    }
  }

  /** What the uploader receives: the label's four drag handlers and the
      hidden input's change handler, each with the event's file list. */
  datatype UploaderEvent =
    | DragEnter
    | DragOver
    | DragLeave
    | Drop(dropped: Option<seq<FileRef>>)
    | Change(chosen: Option<seq<FileRef>>)

  /** `handleFiles`: keep the first file of a non-empty list. */
  function Intake(current: Option<FileRef>, files: Option<seq<FileRef>>): (r: Option<FileRef>)
    ensures files.Some? && files.value != [] ==> r == Some(files.value[0])
    ensures files.None? || files.value == [] ==> r == current
  {
    if files.Some? && |files.value| > 0 then Some(files.value[0]) else current
  }

  /** `handleDrag` on an event of type `eventType`. */
  function DragFlag(active: bool, eventType: string): bool
  {
    if eventType == "dragenter" || eventType == "dragover" then true
    else if eventType == "dragleave" then false
    else active
  }

  function EventType(e: UploaderEvent): string
  {
    match e
    case DragEnter => "dragenter"
    case DragOver => "dragover"
    case DragLeave => "dragleave"
    case Drop(_) => "drop"
    case Change(_) => "change"
  }

  /** The highlight after one event: drops clear it, change events leave it. */
  function DragAfter(active: bool, e: UploaderEvent): bool
  {
    match e
    case Drop(_) => false
    case Change(_) => active
    case _ => DragFlag(active, EventType(e))
  }

  /** The chosen file after one event. */
  function FileAfter(current: Option<FileRef>, e: UploaderEvent): Option<FileRef>
  {
    match e
    case Drop(files) => Intake(current, files)
    case Change(files) => Intake(current, files)
    case _ => current
  }

  /** The highlight after a stream of events, in order. */
  function DragAfterAll(active: bool, events: seq<UploaderEvent>): bool
    decreases |events|
  {
    if events == [] then active else DragAfterAll(DragAfter(active, events[0]), events[1..])
  }

  /** The chosen file after a stream of events, in order. */
  function FileAfterAll(current: Option<FileRef>, events: seq<UploaderEvent>): Option<FileRef>
    decreases |events|
  {
    if events == [] then current else FileAfterAll(FileAfter(current, events[0]), events[1..])
  }

  /** The most recent drag event (not a change event), if any. */
  function LastDragEvent(events: seq<UploaderEvent>): Option<UploaderEvent>
  {
    if events == [] then None
    else if !events[|events| - 1].Change? then Some(events[|events| - 1])
    else LastDragEvent(events[..|events| - 1])
  }

  /** The first file of the most recent drop or pick that carried a file. */
  function LastChosen(events: seq<UploaderEvent>): Option<FileRef>
  {
    if events == [] then None
    else
      var e := events[|events| - 1];
      var files := if e.Drop? then e.dropped else if e.Change? then e.chosen else None;
      if files.Some? && files.value != [] then Some(files.value[0])
      else LastChosen(events[..|events| - 1])
  }

  lemma {:induction false} DragAfterAllSnoc(active: bool, events: seq<UploaderEvent>, e: UploaderEvent)
    ensures DragAfterAll(active, events + [e]) == DragAfter(DragAfterAll(active, events), e)
    decreases |events|
  {
    if events == [] {
      assert [e][1..] == [];
    } else {
      assert (events + [e])[1..] == events[1..] + [e];
      DragAfterAllSnoc(DragAfter(active, events[0]), events[1..], e);
    }
  }

  lemma {:induction false} FileAfterAllSnoc(current: Option<FileRef>, events: seq<UploaderEvent>, e: UploaderEvent)
    ensures FileAfterAll(current, events + [e]) == FileAfter(FileAfterAll(current, events), e)
    decreases |events|
  {
    if events == [] {
      assert [e][1..] == [];
    } else {
      assert (events + [e])[1..] == events[1..] + [e];
      FileAfterAllSnoc(FileAfter(current, events[0]), events[1..], e);
    }
  }

  /** The drop zone is highlighted exactly when the most recent drag event
      was a dragenter or dragover (or, with none, as it started). */
  lemma {:induction false} HighlightFollowsLastDragEvent(active: bool, events: seq<UploaderEvent>)
    ensures DragAfterAll(active, events)
         == match LastDragEvent(events)
            case None => active
            case Some(e) => e.DragEnter? || e.DragOver?
    decreases |events|
  {
    if events != [] {
      var init := events[..|events| - 1];
      assert events == init + [events[|events| - 1]];
      DragAfterAllSnoc(active, init, events[|events| - 1]);
      HighlightFollowsLastDragEvent(active, init);
    }
  }

  /** The chosen file is the first file of the most recent drop or pick
      that carried one, or the file chosen before the events. */
  lemma {:induction false} FileIsLatestChoice(current: Option<FileRef>, events: seq<UploaderEvent>)
    ensures FileAfterAll(current, events) == if LastChosen(events).Some? then LastChosen(events) else current
    decreases |events|
  {
    if events != [] {
      var init := events[..|events| - 1];
      assert events == init + [events[|events| - 1]];
      FileAfterAllSnoc(current, init, events[|events| - 1]);
      FileIsLatestChoice(current, init);
    }
  }

  /** The drop zone of the App component, wired to the view's `setFile`. */
  class FileUploader {
    var dragActive: bool
    const view: ConverterView

    constructor (view: ConverterView)
      ensures this.view == view && !dragActive
    {
      this.view := view;
      dragActive := false;
    }

    /** `handleFiles`. */
    method HandleFiles(files: Option<seq<FileRef>>)
      requires view.Valid()
      modifies view`file
      ensures view.Valid() && view.file == Intake(old(view.file), files)
    {
      if files.Some? && |files.value| > 0 {
        view.SetFile(files.value[0]);
      }
    }

    /** `handleDrag`, bound to dragenter, dragleave and dragover. */
    method HandleDrag(eventType: string)
      modifies this`dragActive
      ensures dragActive == DragFlag(old(dragActive), eventType)
    {
      if eventType == "dragenter" || eventType == "dragover" {
        dragActive := true;
      } else if eventType == "dragleave" {
        dragActive := false;
      }
    }

    /** `handleDrop`: clear the highlight, then keep the first file. */
    method HandleDrop(files: Option<seq<FileRef>>)
      requires view.Valid()
      modifies this`dragActive, view`file
      ensures view.Valid() && !dragActive && view.file == Intake(old(view.file), files)
    {
      dragActive := false;
      if files.Some? && |files.value| > 0 {
        HandleFiles(files);
      }
    }

    /** `handleChange` of the hidden file input. */
    method HandleChange(files: Option<seq<FileRef>>)
      requires view.Valid()
      modifies view`file
      ensures view.Valid() && view.file == Intake(old(view.file), files)
    {
      if files.Some? && |files.value| > 0 {
        HandleFiles(files);
      }
    }

    /** The JSX wiring: which handler each event reaches. */
    method OnEvent(e: UploaderEvent)
      requires view.Valid()
      modifies this`dragActive, view`file
      ensures view.Valid()
      ensures dragActive == DragAfter(old(dragActive), e)
      ensures view.file == FileAfter(old(view.file), e)
    {
      match e {
        case DragEnter => HandleDrag("dragenter");
        case DragOver => HandleDrag("dragover");
        case DragLeave => HandleDrag("dragleave");
        case Drop(files) => HandleDrop(files);
        case Change(files) => HandleChange(files);
      }
    }
  }
}
