/** The multipart body between the client and the server: how the form
    the client builds (App.tsx, `FormData`) appears to `convert()`
    (`request.files`, `request.form`). */
module Wire {
  import opened Options
  import ConverterApp
  import ConvertService

  function SentKeys(fields: seq<(string, ConverterApp.FormValue)>): set<string>
  {
    set p | p in fields :: p.0
  }

  /** File parts go to `request.files` (as the file's name and bytes),
      text parts to `request.form`; for a repeated key `[]` gives the first
      part sent. */
  function Receive(fields: seq<(string, ConverterApp.FormValue)>): (form: ConvertService.Form)
    ensures form.files.Keys + form.fields.Keys <= SentKeys(fields)
    decreases |fields|
  {
    if fields == [] then ConvertService.Form(map[], map[])
    else
      var rest := Receive(fields[1..]);
      assert SentKeys(fields[1..]) <= SentKeys(fields) by {
        forall p | p in fields[1..] ensures p in fields {
        }
      }
      var name := fields[0].0;
      match fields[0].1
      case FilePart(f) => ConvertService.Form(rest.files[name := ConvertService.Upload(f.name, f.data)], rest.fields)
      case TextPart(t) => ConvertService.Form(rest.files, rest.fields[name := t])
  }

  /** What the client sends is what the server reads back: the chosen file
      (its name and bytes), the target and the operation. */
  lemma RequestArrivesIntact(r: ConverterApp.Request)
    ensures ConvertService.ParseForm(Receive(ConverterApp.FormFields(r)))
         == Some(ConvertService.Submission(ConvertService.Upload(r.file.name, r.file.data), r.target, r.operation))
  {
    var fields := ConverterApp.FormFields(r);
    var last := Receive(fields[2..]);
    assert fields[2..][1..] == [];
    assert last == ConvertService.Form(map[], map["operation" := r.operation]);
    var middle := Receive(fields[1..]);
    assert fields[1..][1..] == fields[2..];
    assert middle == ConvertService.Form(map[], map["operation" := r.operation, "target" := r.target]);
    assert Receive(fields)
        == ConvertService.Form(map["file" := ConvertService.Upload(r.file.name, r.file.data)], middle.fields);
  }

  /** Every operation the client can send selects a processor: the client
      never receives the 400 "Invalid operation" reply. */
  lemma KnownOperationsAreServed(operation: string)
    requires ConverterApp.KnownOperation(operation)
    ensures ConvertService.Dispatch(operation).Some?
  {
    if operation != ConverterApp.DefaultOperation {
      var o :| o in ConverterApp.OperationOptions && o.value == operation;
    }
  }

  /** In particular the request a consistent view is awaiting reaches a
      processor on the server. */
  lemma InFlightRequestIsServed(view: ConverterApp.ConverterView)
    requires view.Valid() && view.inFlight.Some?
    ensures var s := ConvertService.ParseForm(Receive(ConverterApp.FormFields(view.inFlight.value)));
      s.Some? && ConvertService.Dispatch(s.value.operation).Some?
  {
    RequestArrivesIntact(view.inFlight.value);
    KnownOperationsAreServed(view.inFlight.value.operation);
  }
}
