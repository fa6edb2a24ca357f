/** The server's `POST /convert` handler (backend/app.py): read the three
    form fields, save the upload under `uploads/`, derive the output name,
    and run exactly one processor, or answer 400 "Invalid operation".
    The processors themselves (ffmpeg runs) are opaque: the model records
    which one was invoked, on which paths, and takes its result as input. */
module ConvertService {
  import opened Options
  import opened FileNames

  const UploadFolder: string := "uploads"
  const ProcessedFolder: string := "processed"

  /** The three processors of backend/utils.py. */
  datatype Processor = ConvertFile | CompressVideo | CompressImage

  /** One processor invocation `p(input_path, output_path)`. */
  datatype Run = Run(processor: Processor, inputPath: string, outputPath: string)

  /** What a processor did: wrote the output file, or raised (ffmpeg
      exited non-zero and `subprocess.run(..., check=True)` threw). */
  datatype RunResult = Wrote(output: seq<bv8>) | Raised

  /** An uploaded file part: its client-side file name and its bytes. */
  datatype Upload = Upload(filename: string, data: seq<bv8>)

  /** The parsed multipart body, as Flask exposes it. */
  datatype Form = Form(files: map<string, Upload>, fields: map<string, string>)

  /** The three values `convert()` reads from the form. */
  datatype Submission = Submission(upload: Upload, target: string, operation: string)

  datatype Reply =
    | SentFile(path: string, downloadName: string, data: seq<bv8>)  // 200, as attachment
    | JsonError(status: int, body: map<string, string>)
    | BadRequest      // 400 raised by Flask for a missing form key
    | InternalError   // 500 from an exception raised by a processor

  /** The HTTP status code of each reply. */
  function Status(reply: Reply): int
  {
    match reply
    case SentFile(_, _, _) => 200
    case JsonError(status, _) => status
    case BadRequest => 400
    case InternalError => 500
  }

  /** The operation string that selects each processor. */
  function OperationName(p: Processor): string
  {
    match p
    case ConvertFile => "convert"
    case CompressVideo => "compress_video"
    case CompressImage => "compress_image"
  }

  /** The if/elif chain on `operation`: the processor it selects, if any. */
  function Dispatch(operation: string): (p: Option<Processor>)
    ensures p.Some? <==> operation in {"convert", "compress_video", "compress_image"}
    ensures p.Some? ==> OperationName(p.value) == operation
  {
    if operation == "convert" then Some(ConvertFile)
    else if operation == "compress_video" then Some(CompressVideo)
    else if operation == "compress_image" then Some(CompressImage)
    else None
  }

  /** Every processor is reachable, through its own name only. */
  lemma DispatchRoundTrip(p: Processor, operation: string)
    ensures Dispatch(OperationName(p)) == Some(p)
    ensures Dispatch(operation) == Some(p) ==> operation == OperationName(p)
  {
  }

  /** `request.files["file"]`, `request.form["target"]`,
      `request.form["operation"]`; any missing key makes Flask abort with 400. */
  function ParseForm(form: Form): (s: Option<Submission>)
    ensures s.Some? <==> "file" in form.files && "target" in form.fields && "operation" in form.fields
    ensures s.Some? ==> s.value.upload == form.files["file"] && s.value.target == form.fields["target"]
                        && s.value.operation == form.fields["operation"]
  {
    if "file" in form.files && "target" in form.fields && "operation" in form.fields
    then Some(Submission(form.files["file"], form.fields["target"], form.fields["operation"]))
    else None
  }

  /** `os.path.join(UPLOAD_FOLDER, filename)`: inside `uploads/`, unless
      the name is absolute, which replaces the folder. */
  function InputPath(safeName: string): (path: string)
    ensures safeName != [] && safeName[0] == '/' ==> path == safeName
    ensures safeName == [] || safeName[0] != '/' ==> path == UploadFolder + "/" + safeName
  {
    Join(UploadFolder, safeName)
  }

  /** `os.path.join(PROCESSED_FOLDER, output_filename)`: inside
      `processed/` unless the sanitized name is absolute. */
  function OutputPath(safeName: string, target: string): (path: string)
    ensures safeName == [] || safeName[0] != '/' ==> path == ProcessedFolder + "/" + OutputFilename(safeName, target)
  {
    var out := OutputFilename(safeName, target);
    OutputFilenameShape(safeName, target);
    assert (safeName == [] || safeName[0] != '/') ==> out[0] != '/' by {
      var k := |out| - |ConvertedMark| - |target|;
      if safeName != [] && safeName[0] == '/' {
      } else if k == 0 {
        assert out[0] == out[k..][0] == (ConvertedMark + target)[0] == '_';
      } else {
        assert out[..k] <= safeName;
        assert out[0] == out[..k][0] == safeName[0];
      }
    }
    Join(ProcessedFolder, out)
  }

  /** The output name holds no '/' when neither the sanitized name nor
      the target does. */
  lemma OutputFilenameHasNoSlash(safeName: string, target: string)
    requires '/' !in safeName && '/' !in target
    ensures '/' !in OutputFilename(safeName, target)
  {
    var out := OutputFilename(safeName, target);
    var stem := SplitExt(safeName).0;
    assert out == stem + ConvertedMark + target;
    forall k | 0 <= k < |out| ensures out[k] != '/' {
      if k < |stem| {
        assert out[k] == safeName[k];
      } else if k < |stem| + |ConvertedMark| {
        assert out[k] == ConvertedMark[k - |stem|];
      } else {
        assert out[k] == target[k - |stem| - |ConvertedMark|];
      }
    }
  }

  /** For a sanitized name without '/', the upload lands in `uploads/` and
      the result in `processed/`, and the attachment's download name is the
      output file name itself. */
  lemma PathsOfPlainName(safeName: string, target: string)
    requires '/' !in safeName && '/' !in target
    ensures InputPath(safeName) == UploadFolder + "/" + safeName
    ensures OutputPath(safeName, target) == ProcessedFolder + "/" + OutputFilename(safeName, target)
    ensures BaseName(OutputPath(safeName, target)) == OutputFilename(safeName, target)
    ensures InputPath(safeName) != OutputPath(safeName, target)
  {
    var out := OutputFilename(safeName, target);
    OutputFilenameHasNoSlash(safeName, target);
    BaseNameOfJoin(ProcessedFolder, out);
    var input := UploadFolder + "/" + safeName;
    var output := ProcessedFolder + "/" + out;
    assert input[1] == 'p' && output[1] == 'r';
  }

  /** The server's observable state: the files on its disk, and a log of
      the processor invocations it made. */
  class Backend {
    var disk: map<string, seq<bv8>>
    ghost var runs: seq<Run>

    /** `initial` is what `uploads/` and `processed/` already hold:
        `os.makedirs(..., exist_ok=True)` keeps the files of earlier runs. */
    constructor (initial: map<string, seq<bv8>>)
      ensures disk == initial && runs == []
    {
      disk := initial;
      runs := [];
    }

    /** `convert()`. `safeName` is `secure_filename(file.filename)`, which
        this model does not interpret; `result` is what the invoked
        processor does. */
    method Convert(form: Form, safeName: string, result: RunResult) returns (reply: Reply)
      modifies this
      ensures ParseForm(form).None? ==> reply == BadRequest && Status(reply) == 400 && disk == old(disk) && runs == old(runs)
      ensures ParseForm(form).Some? ==>
        var s := ParseForm(form).value;
        var saved := old(disk)[InputPath(safeName) := s.upload.data];
        var output := OutputPath(safeName, s.target);
        match Dispatch(s.operation)
        case None =>
          && reply == JsonError(400, map["error" := "Invalid operation"]) && Status(reply) == 400
          && disk == saved && runs == old(runs)
        case Some(p) =>
          && runs == old(runs) + [Run(p, InputPath(safeName), output)]
          && match result
             case Raised => reply == InternalError && Status(reply) == 500 && disk == saved
             case Wrote(bytes) =>
               && disk == saved[output := bytes]
               && reply == SentFile(output, BaseName(output), bytes) && Status(reply) == 200
    {
      if !("file" in form.files && "target" in form.fields && "operation" in form.fields) {
        reply := BadRequest;
        assert Status(reply) == 400;
        return;
      }
      var upload := form.files["file"];
      var targetFormat := form.fields["target"];
      var operation := form.fields["operation"];

      var inputPath := InputPath(safeName);
      disk := disk[inputPath := upload.data];

      var outputPath := OutputPath(safeName, targetFormat);

      var processor: Processor;
      if operation == "convert" {
        processor := ConvertFile;
      } else if operation == "compress_video" {
        processor := CompressVideo;
      } else if operation == "compress_image" {
        processor := CompressImage;
      } else {
        reply := JsonError(400, map["error" := "Invalid operation"]);
        assert Status(reply) == 400;
        return;
      }
      runs := runs + [Run(processor, inputPath, outputPath)];
      match result {
        case Raised =>
          reply := InternalError;
          assert Status(reply) == 500;
          return;
        case Wrote(bytes) =>
          disk := disk[outputPath := bytes];
      }
      reply := SentFile(outputPath, BaseName(outputPath), disk[outputPath]);
      assert Status(reply) == 200;
    }
  }
}
