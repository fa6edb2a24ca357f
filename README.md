# Files Pro: the conversion workflow and the convert endpoint

Files Pro is a single-page client (frontend/src/App.tsx) that lets a user
pick one file, choose a target format and an operation, and post them to a
small Flask server (backend/app.py) that saves the upload, runs one ffmpeg
based processor on it and sends the result back for download.

This project models the two pieces of logic in that code:

- **The client's conversion workflow** (module `ConverterApp`, file
  `app.dfy`). The App component's state (`file`, `target`, `operation`,
  `loading`) is the class `ConverterView`; the drop zone with its
  `dragActive` highlight is the class `FileUploader`, which calls the
  view's `setFile`. `handleConvert` is asynchronous, so it is modelled in
  two steps: `HandleConvert` runs up to the `await` (the guard, raising
  `loading`, building the three-part form, sending it) and `Settle` runs
  after it with the request's outcome as an input (a response with its
  status and body, or a thrown error), then clears `loading` as the
  `finally` does. Between the two, `loading` is true and the view holds the
  request it awaits; `Settle` uses the file and target captured when the
  request was sent, whatever the user has chosen since.
  `ConvertUninterrupted` is one click whose request settles before
  anything else happens, and its effects are the function
  `ConvertEffects`. Toasts, the POST and the download are entries in a
  ghost log of effects.
- **The server's `convert()` handler** (module `ConvertService`, file
  `service.dfy`): the class `Backend` holds the files on disk and a log of
  processor invocations; `Convert` reads the form, saves the upload under
  `uploads/`, derives the output name, and runs exactly one processor or
  answers 400 with `{"error": "Invalid operation"}`.
- **The two file-name rules** (module `FileNames`, file `filenames.dfy`):
  the client names the download after the text before the FIRST '.' of the
  original name (`"movie.part1.mov"` becomes `"movie_converted.mp4"`),
  while the server names its output after Python's `os.path.splitext`
  stem, which ends at the LAST '.' (`"movie.part1_converted.mp4"`).
  Applied to the same string, the two rules agree on plain names with
  exactly one '.' that is not the first character (`NamesAgreeOnOneDot`)
  and differ on every name with two (`NamesDifferOnTwoDots`). The server
  applies its rule to `secure_filename(file.filename)`, not to the name
  the client sees, so these comparisons describe the actual download and
  output names only where `secure_filename` leaves the name unchanged
  (for "my clip.mov", ".env" or "a.b." it does not).
- **The wire between them** (module `Wire`, file `wire.dfy`): the form the
  client sends is read back intact by the server, and every operation the
  client can hold selects a processor, so the client never receives the
  "Invalid operation" reply.

One consequence of the code that the model makes explicit: the operation
Select's default value is "convert", but "convert" is not one of its
items, so once the user picks another operation, `operation` can never
become "convert" again (`ConverterView.SetOperation`).

## Model

| member | source | states |
|---|---|---|
| `FileNames.PrefixBefore` | frontend/src/App.tsx:174 | `split(".")[0]`: the result is a prefix of the name, holds no '.', and stops at the first '.' or the end of the name |
| `FileNames.PrefixBeforeUnique` | frontend/src/App.tsx:174 | those three properties determine the prefix: any prefix with them is the result |
| `FileNames.DownloadNameFromFirstDot` | frontend/src/App.tsx:174 | the download name is the part of the original name up to its first '.' (or all of it), then "_converted.", then the target |
| `FileNames.DownloadName` | frontend/src/App.tsx:174 | the download name ends with "_converted." and the target, and what precedes that is a prefix of the original name holding no '.' |
| `FileNames.ClientMultiDotExample` | frontend/src/App.tsx:174 | "movie.part1.mov" with target "mp4" downloads as "movie_converted.mp4" |
| `FileNames.NoDotKeepsWholeName` | frontend/src/App.tsx:174 | applied to a string without '.', both rules keep it whole |
| `FileNames.NamesAgreeOnOneDot` | frontend/src/App.tsx:174 | applied to the same plain string with exactly one '.', not its first character, the client's rule and the server's rule give the same name |
| `FileNames.NamesDifferOnTwoDots` | frontend/src/App.tsx:174 | applied to the same string with two dots, the client's rule and the server's rule give different names |
| `FileNames.LastIndexOf` | backend/app.py:25 | `str.rfind`, used by `splitext`: -1 or an index that holds the character |
| `FileNames.NoneAfterLastIndex` | backend/app.py:25 | no occurrence of the character follows the index `rfind` reports |
| `FileNames.ExtensionStart` | backend/app.py:25 | where `splitext` starts the extension: an index holding '.', or the end of the name for no extension |
| `FileNames.SplitExt` | backend/app.py:25 | `os.path.splitext`: stem and extension concatenate to the name, and a non-empty extension starts with '.' |
| `FileNames.ExtensionHasNoDotOrSlash` | backend/app.py:25 | after its leading '.', the extension holds neither '.' nor '/' |
| `FileNames.NoDotNoExtension` | backend/app.py:25 | a name without '.' has an empty extension |
| `FileNames.StemEndsAtLastDot` | backend/app.py:25 | for a plain name not starting with '.' that holds a '.', the stem is everything before the last '.' |
| `FileNames.StemBeforeFinalDot` | backend/app.py:25 | when a given '.' is the last one of such a name, the stem is the text before it |
| `FileNames.DotfileHasNoExtension` | backend/app.py:25 | a name whose only '.' is its first character has no extension |
| `FileNames.ServerMultiDotExample` | backend/app.py:25 | `splitext` on "movie.part1.mov" with target "mp4" gives "movie.part1_converted.mp4" |
| `FileNames.HiddenFileExample` | backend/app.py:25 | on the string ".env", `splitext` finds no extension (".env_converted.mp4") while the client's rule keeps nothing before its '.' ("_converted.mp4") |
| `FileNames.OutputFilename` | backend/app.py:25 | the output name: the `splitext` stem of the sanitized name, "_converted." and the target (its properties are `OutputFilenameShape` and the `splitext` lemmas) |
| `FileNames.OutputFilenameShape` | backend/app.py:25 | the output name ends with "_converted." and the target, and what precedes that is a prefix of the sanitized name |
| `FileNames.Join` | backend/app.py:22-26 | `os.path.join`: an absolute name replaces the folder; otherwise the result is the folder then the name, with a '/' inserted exactly when the folder is non-empty and does not already end in '/' |
| `FileNames.BaseName` | backend/app.py:37 | the attachment name `send_file` derives: the text after the last '/', which holds no '/' |
| `FileNames.BaseNameOfJoin` | backend/app.py:26-37 | joining a plain name to a folder and taking the basename gives the name back |
| `ConvertService.ParseForm` | backend/app.py:17-19 | the three fields are read exactly when "file", "target" and "operation" are all present, and carry their values |
| `ConvertService.Dispatch` | backend/app.py:28-35 | a processor is selected exactly for "convert", "compress_video" and "compress_image", and it is the one that operation names |
| `ConvertService.DispatchRoundTrip` | backend/app.py:28-33 | each processor is selected by its own operation string and by no other |
| `ConvertService.InputPath` | backend/app.py:22 | the upload path is "uploads/" then the sanitized name, unless that name is absolute, which replaces the folder |
| `ConvertService.OutputPath` | backend/app.py:26 | for a sanitized name that is not absolute, the output path is "processed/" then the output name |
| `ConvertService.OutputFilenameHasNoSlash` | backend/app.py:25 | the output name holds no '/' when the sanitized name and the target hold none |
| `ConvertService.PathsOfPlainName` | backend/app.py:21-26 | for a name without '/', the upload goes to "uploads/<name>", the output to "processed/<output name>", the two paths differ, and the download name is the output name |
| `ConvertService.Backend.constructor` | backend/app.py:7-13 | the server starts with whatever files earlier runs left on disk (the folders are created only if missing) and no processor run |
| `ConvertService.Backend.Convert` | backend/app.py:15-37 | a missing form key gives status 400 and changes nothing; otherwise the upload is saved first (also for an invalid operation); an unknown operation gives 400 "Invalid operation" and runs nothing; a known one runs exactly its processor on the input and output paths and sends the output file with status 200, or gives 500 when the processor raises |
| `ConverterApp.ConverterView.constructor` | frontend/src/App.tsx:145-148 | the initial state: no file, empty target, operation "convert", not loading, nothing awaited, no effects |
| `ConverterApp.ConverterView.SetFile` | frontend/src/App.tsx:145 | `setFile` replaces the chosen file |
| `ConverterApp.ConverterView.SetTarget` | frontend/src/App.tsx:242 | the target becomes the listed format code chosen |
| `ConverterApp.ConverterView.SetOperation` | frontend/src/App.tsx:269 | the operation becomes the listed code chosen, which is never "convert" |
| `ConverterApp.ConverterView.HandleConvert` | frontend/src/App.tsx:150-166 | without a file or with an empty target: one warning toast, no request, `loading` untouched; otherwise `loading` is raised and exactly one POST carries file, target and operation, in that order, with the current values |
| `ConverterApp.ConverterView.Settle` | frontend/src/App.tsx:167-182 | on an ok response: a download under the client's name, then a success toast; on any other response or a thrown error: one error toast; in every case `loading` ends false |
| `ConverterApp.ConverterView.ConvertUninterrupted` | frontend/src/App.tsx:150-183 | a whole click appends exactly the effects `ConvertEffects` describes and leaves `loading` false |
| `ConverterApp.CanSubmit` | frontend/src/App.tsx:151 | a request is sent only when a file is chosen and the target is not empty (the negation of the guard that rejects a missing file or an empty target) |
| `ConverterApp.Succeeded` | frontend/src/App.tsx:168 | `res.ok`: a response whose status is in 200-299 |
| `ConverterApp.FormFields` | frontend/src/App.tsx:157-160 | the body has three parts with distinct keys, and the only file part is the one named "file" |
| `ConverterApp.SettleEffects` | frontend/src/App.tsx:167-182 | after the await: no further request, a download first exactly when the response is ok (under the client's download name), and a toast last, which on an ok response is the success toast for the captured target |
| `ConverterApp.ConvertEffects` | frontend/src/App.tsx:150-183 | one whole call has one to three effects, starts with the POST exactly when the guard passes, and ends with a toast |
| `ConverterApp.OneToastPerCall` | frontend/src/App.tsx:150-183 | every call shows exactly one toast: warning iff declined, success iff sent and ok, error iff sent and not ok; and it is that exact toast, so on success its message names the target (`SuccessToastNamesTarget`) |
| `ConverterApp.RequestOnlyWhenAccepted` | frontend/src/App.tsx:151-160 | a declined call sends nothing; an accepted one sends exactly one form with the fields file, target, operation |
| `ConverterApp.DownloadOnlyOnSuccess` | frontend/src/App.tsx:168-175 | a download happens exactly when the request was sent and answered ok, under the client's download name |
| `ConverterApp.SuccessToastNamesTarget` | frontend/src/App.tsx:177 | the success toast's message ends with "." and the target format |
| `ConverterApp.Intake` | frontend/src/App.tsx:76-80 | a non-empty file list sets the file to its first element; a missing or empty list leaves the file as it was |
| `ConverterApp.DragFlag` | frontend/src/App.tsx:85-89 | `handleDrag`'s flag: set by dragenter and dragover, cleared by dragleave, kept by other types; its meaning over a stream of events is `HighlightFollowsLastDragEvent` |
| `ConverterApp.HighlightFollowsLastDragEvent` | frontend/src/App.tsx:82-100 | after any stream of events the drop zone is highlighted exactly when the most recent drag event was dragenter or dragover |
| `ConverterApp.FileIsLatestChoice` | frontend/src/App.tsx:76-106 | after any stream of events the chosen file is the first file of the most recent drop or pick that carried one, else the earlier choice |
| `ConverterApp.FileUploader.constructor` | frontend/src/App.tsx:74 | the highlight starts off |
| `ConverterApp.FileUploader.HandleFiles` | frontend/src/App.tsx:76-80 | the view's file follows `Intake` |
| `ConverterApp.FileUploader.HandleDrag` | frontend/src/App.tsx:82-90 | dragenter and dragover set the highlight, dragleave clears it, other event types leave it |
| `ConverterApp.FileUploader.HandleDrop` | frontend/src/App.tsx:92-100 | a drop clears the highlight and keeps the first dropped file, if any |
| `ConverterApp.FileUploader.HandleChange` | frontend/src/App.tsx:102-107 | a pick keeps the first chosen file, if any |
| `ConverterApp.FileUploader.OnEvent` | frontend/src/App.tsx:111-130 | each event reaches its handler: the highlight and the file change as one step of the event stream says |
| `Wire.Receive` | backend/app.py:17-19 | the server sees only keys the client sent |
| `Wire.RequestArrivesIntact` | frontend/src/App.tsx:157-160 | the form the client builds is read back by the server as the file's name and bytes, the target and the operation |
| `Wire.KnownOperationsAreServed` | frontend/src/App.tsx:196-199 | "convert" and every operation option select a processor on the server |
| `Wire.InFlightRequestIsServed` | frontend/src/App.tsx:157-166 | the request a consistent view awaits is complete and selects a processor: the client never gets the "Invalid operation" reply |

## Left out

- The toast rendering (`showToast`, frontend/src/App.tsx:38-70): DOM nodes, markup and the timers that animate and remove it. A toast is a logged (kind, title, message) effect.
- `fetch`, `res.blob()`, `URL.createObjectURL` and the anchor click: browser and network APIs. The outcome of the request is an input to `Settle`, and the download is a logged (name, bytes) effect. A failure while reading the body or starting the download is folded into the thrown-error outcome, which has the same effects.
- The object URL is never revoked in the code, and the model has no object URLs to revoke.
- The file-size display (frontend/src/App.tsx:231): floating point, display only.
- JSX rendering, styling and the UI component library; the format categories and labels are kept as data only.
- The fixed endpoint URL and its port, and the server's port setting: deployment configuration.
- ConverterApp.ConverterView.HandleConvert: requires `!loading`, because the button is disabled while loading; a second click that lands before React re-renders is not modelled, nor is React's batching of state updates.
- No timeout or cancellation exists in the code; an outcome that never arrives is a `Settle` that is never called, and the view then stays loading.
- `secure_filename` (werkzeug): a library call whose rules are not modelled; the sanitized name is an input to `Backend.Convert`.
- FileNames.NamesAgreeOnOneDot, FileNames.NamesDifferOnTwoDots, FileNames.NoDotKeepsWholeName and FileNames.HiddenFileExample compare the two naming rules on one and the same string; because `secure_filename` is not modelled, they say nothing about names it changes (it strips leading and trailing '.' and '_' and replaces whitespace with '_').
- ConvertService.Backend.Convert is one atomic step on one shared disk. `app.run` serves requests on several threads, so two uploads with the same sanitized name can overwrite each other's `uploads/` and `processed/` files and one client can be sent the other's result; that interleaving is not modelled.
- ConvertService.Backend.Convert treats `processed/...` as one path. Flask's `send_file` resolves a relative path against the application's root folder, while `file.save` and ffmpeg use the working directory, so "the file just written is the file sent" holds only when the server is started from the backend folder.
- Flask's request parsing beyond the three keys, CORS, `os.makedirs`, and the streaming done by `send_file`.
- `file.save` and `send_file` are modelled as writing and reading the disk map; their own failures (an empty sanitized name makes the input path the folder itself) are not modelled.
- The processors (backend/utils.py) run ffmpeg in a subprocess: a foreign program. The model records which processor ran on which paths and takes what it wrote, or that it raised, as an input; a partially written output after a failure is not modelled.
- frontend/src/components/FileUploader.tsx and frontend/src/components/FormatSelector.tsx: presentational wrappers not used by the App component.
