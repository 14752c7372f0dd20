/**
 * The editor's file operations: choosing and loading a file to open, and saving the
 * buffer either to the file it came from or to a place chosen in a dialog.
 *
 * The dialogs and the filesystem are not modelled; they are the `Host`, an oracle that
 * says how each dialog is answered and what each read or write returns. Every operation
 * returns its result together with the effects it performed on the host, in order, so
 * that "no dialog was shown" or "nothing was written" can be stated.
 */
module FileHandler {
  import opened Wrappers
  import opened Paths

  /** A selection of `std::io::ErrorKind`; the model never inspects the kind. */
  datatype IoErrorKind =
    | NotFound | PermissionDenied | AlreadyExists | InvalidInput | InvalidData
    | Interrupted | UnexpectedEof | OutOfMemory | Unsupported | Other

  /** The editor's error: the user closed a dialog, or the filesystem failed. */
  datatype Error = DialogClosed | IO(kind: IoErrorKind)

  /** `Result<T, Error>` */
  datatype Result<+T> = Ok(value: T) | Err(error: Error)

  /** `std::io::Result<T>`, what the filesystem answers. */
  datatype IoResult<+T> = Done(value: T) | Failed(kind: IoErrorKind)

  /** How the user answers a file dialog. */
  datatype DialogOutcome = Cancelled | Chosen(path: Path)

  /** The environment the operations run in. */
  datatype Host = Host(
    openDialog: DialogOutcome,
    saveDialog: DialogOutcome,
    read: Path -> IoResult<string>,
    write: (Path, string) -> IoResult<()>)

  /** Something an operation does to the outside world. */
  datatype Effect = ShowOpenDialog | ShowSaveDialog | Read(path: Path) | Write(path: Path, content: string)

  /** A result with the effects that produced it. */
  datatype Traced<+T> = Traced(result: T, effects: seq<Effect>)

  predicate Reads(effects: seq<Effect>) {
    exists i :: 0 <= i < |effects| && effects[i].Read?
  }

  predicate Writes(effects: seq<Effect>) {
    exists i :: 0 <= i < |effects| && effects[i].Write?
  }

  predicate ShowsDialog(effects: seq<Effect>) {
    exists i :: 0 <= i < |effects| && (effects[i].ShowOpenDialog? || effects[i].ShowSaveDialog?)
  }

  /** `load_file`: read the whole file as text; a failed read is reported as `IO` of its kind. */
  function LoadFile(path: Path, host: Host): (r: Traced<Result<string>>)
    ensures r.effects == [Read(path)]
    ensures r.result.Ok? <==> host.read(path).Done?
    ensures r.result.Ok? ==> r.result.value == host.read(path).value
    ensures r.result.Err? ==> r.result.error == IO(host.read(path).kind)
  {
    var result := match host.read(path)
      case Done(text) => Ok(text)
      case Failed(kind) => Err(IO(kind));
    Traced(result, [Read(path)])
  }

  /**
   * `pick_file`: ask the user for a file, then load it. The result pairs the text with
   * the path that was chosen.
   */
  function PickFile(host: Host): (r: Traced<Result<(string, Option<Path>)>>)
    ensures |r.effects| > 0 && r.effects[0] == ShowOpenDialog && !Writes(r.effects)
    ensures host.openDialog.Cancelled? ==> r.result == Err(DialogClosed) && r.effects == [ShowOpenDialog]
    ensures host.openDialog.Chosen? ==>
      var p := host.openDialog.path;
      r.effects == [ShowOpenDialog, Read(p)] &&
      (r.result.Ok? <==> host.read(p).Done?) &&
      (r.result.Ok? ==> r.result.value == (host.read(p).value, Some(p))) &&
      (r.result.Err? ==> r.result.error == IO(host.read(p).kind))
  {
    match host.openDialog
    case Cancelled => Traced(Err(DialogClosed), [ShowOpenDialog])
    case Chosen(p) =>
      var loaded := LoadFile(p, host);
      var result := match loaded.result
        case Err(e) => Err(e)
        case Ok(text) => Ok((text, Some(p)));
      Traced(result, [ShowOpenDialog] + loaded.effects)
  }

  /** The path a save goes to: the known one, or the one chosen in the save dialog. */
  function SaveTarget(path: Option<Path>, host: Host): (r: Traced<Result<Path>>)
    ensures path.Some? ==> r == Traced(Ok(path.value), [])
    ensures path.None? ==> r.effects == [ShowSaveDialog]
    ensures path.None? && host.saveDialog.Cancelled? ==> r.result == Err(DialogClosed)
    ensures path.None? && host.saveDialog.Chosen? ==> r.result == Ok(host.saveDialog.path)
  {
    match path
    case Some(p) => Traced(Ok(p), [])
    case None =>
      match host.saveDialog
      case Cancelled => Traced(Err(DialogClosed), [ShowSaveDialog])
      case Chosen(p) => Traced(Ok(p), [ShowSaveDialog])
  }

  /**
   * `save_file`: write `content` to the known path, or to one chosen in the save dialog
   * when there is none; the result is the path written to.
   */
  function SaveFile(path: Option<Path>, content: string, host: Host): (r: Traced<Result<Path>>)
    ensures !Reads(r.effects)
    ensures ShowsDialog(r.effects) <==> path.None?
    ensures path.Some? ==> r.effects == [Write(path.value, content)]
    ensures path.None? && host.saveDialog.Chosen? ==>
      r.effects == [ShowSaveDialog, Write(host.saveDialog.path, content)]
    ensures r.result.Ok? ==> path == Some(r.result.value) || (path.None? && host.saveDialog == Chosen(r.result.value))
    ensures r.result == Err(DialogClosed) <==> path.None? && host.saveDialog.Cancelled?
    ensures r.result == Err(DialogClosed) ==> r.effects == [ShowSaveDialog]
    ensures !Writes(r.effects) ==> r.result == Err(DialogClosed)
    ensures r.result.Ok? ==>
      |r.effects| > 0 && r.effects[|r.effects| - 1] == Write(r.result.value, content) &&
      host.write(r.result.value, content).Done?
    ensures r.result.Err? && r.result.error.IO? ==>
      |r.effects| > 0 && r.effects[|r.effects| - 1].Write? &&
      host.write(r.effects[|r.effects| - 1].path, content) == Failed(r.result.error.kind)
  {
    var target := SaveTarget(path, host);
    match target.result
    case Err(e) =>
      assert target.effects[0] == ShowSaveDialog;
      Traced(Err(e), target.effects)
    case Ok(p) =>
      var result := match host.write(p, content)
        case Done(_) => Ok(p)
        case Failed(kind) => Err(IO(kind));
      var effects := target.effects + [Write(p, content)];
      assert effects[|effects| - 1] == Write(p, content);
      Traced(result, effects)
  }
}
