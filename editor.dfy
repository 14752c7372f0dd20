/**
 * The editor session: its state, and how one message turns a state into the next
 * state plus at most one file task for the runtime to perform.
 */
module Editor {
  import opened Wrappers
  import opened Paths
  import opened FileHandler
  import opened Highlighter
  import opened Messages

  /**
   * The text widget's buffer (`text_editor::Content`) with `C` its value and `A` its
   * actions. The widget itself is not modelled: these are its operations.
   */
  datatype ContentOps<!C, !A> = ContentOps(
    empty: C,                  // Content::new()
    fromText: string -> C,     // Content::with(text)
    text: C -> string,         // content.text()
    edit: (C, A) -> C,         // content.edit(action)
    isEdit: A -> bool,         // action.is_edit()
    cursor: C -> (nat, nat))   // content.cursor_position(), zero-based (line, column)

  /** The session state (`TextEditor`). */
  datatype State<C> = State(
    content: C,
    path: Option<Path>,
    isDirty: bool,
    theme: Theme,
    error: Option<Error>)

  /** A file operation for the runtime to run; its completion comes back as a message. */
  datatype FileTask = OpenTask | SaveTask(path: Option<Path>, content: string)

  /** `Command`: nothing, or `Command::perform` of a file task. */
  datatype Command = NoCommand | Perform(task: FileTask)

  /** `TextEditor::new`: the state at startup and its (empty) command. */
  function Init<C, A>(ops: ContentOps<C, A>): (r: (State<C>, Command))
    ensures r.0.content == ops.empty && r.0.path == None && r.0.error == None
    ensures r.0.theme == SolarizedDark && r.0.isDirty
    ensures r.1 == NoCommand
  {
    (State(ops.empty, None, true, SolarizedDark, None), NoCommand)
  }

  /**
   * `TextEditor::update`. Its contract is given field by field: which messages touch
   * each field, and the command issued.
   */
  function Step<C, A>(ops: ContentOps<C, A>, s: State<C>, m: EditorMessage<A>): (r: (State<C>, Command))
    // the buffer: edited, reset, or replaced by a loaded file
    ensures r.0.content ==
      match m
      case Edit(a) => ops.edit(s.content, a)
      case New => ops.empty
      case FileOpened(Ok((text, _))) => ops.fromText(text)
      case _ => s.content
    // the path: cleared by New, set by a successful open or save
    ensures r.0.path ==
      match m
      case New => None
      case FileOpened(Ok((_, p))) => p
      case FileSaved(Ok(p)) => Some(p)
      case _ => s.path
    // dirtiness: an Edit can only raise it; New raises it; a successful open or save clears it
    ensures r.0.isDirty ==
      match m
      case Edit(a) => s.isDirty || ops.isEdit(a)
      case New => true
      case FileOpened(Ok(_)) => false
      case FileSaved(Ok(_)) => false
      case _ => s.isDirty
    // the theme changes only on ThemeChanged
    ensures r.0.theme == if m.ThemeChanged? then m.theme else s.theme
    // the error: cleared only by Edit, set by a failed open or save
    ensures r.0.error ==
      match m
      case Edit(_) => None
      case FileOpened(Err(e)) => Some(e)
      case FileSaved(Err(e)) => Some(e)
      case _ => s.error
    // a task is issued only by Open and Save; Save carries the current path and text
    ensures r.1 ==
      match m
      case Open => Perform(OpenTask)
      case Save => Perform(SaveTask(s.path, ops.text(s.content)))
      case _ => NoCommand
  {
    match m
    case Edit(action) =>
      (s.(isDirty := s.isDirty || ops.isEdit(action),
          content := ops.edit(s.content, action),
          error := None), NoCommand)
    case New =>
      (s.(content := ops.empty, isDirty := true, path := None), NoCommand)
    case Open =>
      (s, Perform(OpenTask))
    case FileOpened(result) =>
      (match result
       case Ok((text, path)) => (s.(content := ops.fromText(text), path := path, isDirty := false), NoCommand)
       case Err(error) => (s.(error := Some(error)), NoCommand))
    case Save =>
      (s, Perform(SaveTask(s.path, ops.text(s.content))))
    case FileSaved(result) =>
      (match result
       case Ok(path) => (s.(path := Some(path), isDirty := false), NoCommand)
       case Err(error) => (s.(error := Some(error)), NoCommand))
    case ThemeChanged(theme) =>
      (s.(theme := theme), NoCommand)
  }

  /** Running a task on the host, and the message its completion delivers. */
  function Run<A>(task: FileTask, host: Host): (r: Traced<EditorMessage<A>>)
    ensures task.OpenTask? ==> r == Traced(FileOpened(PickFile(host).result), PickFile(host).effects)
    ensures task.SaveTask? ==>
      var saved := SaveFile(task.path, task.content, host);
      r == Traced(FileSaved(saved.result), saved.effects)
  {
    match task
    case OpenTask =>
      var picked := PickFile(host);
      Traced(FileOpened(picked.result), picked.effects)
    case SaveTask(path, content) =>
      var saved := SaveFile(path, content, host);
      Traced(FileSaved(saved.result), saved.effects)
  }

  /**
   * One message handled to completion: the message is applied and, when it issues a
   * task, the task is run on the host and its completion message applied as well.
   * This is the sequential reading of the event loop, with no other message between
   * a task and its completion.
   */
  function Dispatch<C, A>(ops: ContentOps<C, A>, host: Host, s: State<C>, m: EditorMessage<A>): (r: Traced<State<C>>)
    ensures !(m.Open? || m.Save?) ==> r == Traced(Step(ops, s, m).0, [])
  {
    var (next, command) := Step(ops, s, m);
    match command
    case NoCommand => Traced(next, [])
    case Perform(task) =>
      var done := Run(task, host);
      Traced(Step(ops, next, done.result).0, done.effects)
  }

  /** The editor object: `update` assigns its fields in place. */
  class TextEditor<C, A> {
    const ops: ContentOps<C, A>
    var content: C
    var path: Option<Path>
    var isDirty: bool
    var theme: Theme
    var error: Option<Error>

    function Snapshot(): State<C>
      reads this
    {
      State(content, path, isDirty, theme, error)
    }

    /** `TextEditor::new` */
    constructor (ops: ContentOps<C, A>)
      ensures this.ops == ops && Snapshot() == Init(ops).0
    {
      this.ops := ops;
      content := ops.empty;
      isDirty := true;
      path := None;
      theme := SolarizedDark;
      error := None;
    }

    /** `TextEditor::update` */
    method Update(message: EditorMessage<A>) returns (command: Command)
      modifies this
      ensures Snapshot() == Step(ops, old(Snapshot()), message).0
      ensures command == Step(ops, old(Snapshot()), message).1
    {
      match message {
        case Edit(action) =>
          isDirty := isDirty || ops.isEdit(action);
          content := ops.edit(content, action);
          error := None;
          command := NoCommand;
        case New =>
          content := ops.empty;
          isDirty := true;
          path := None;
          command := NoCommand;
        case Open =>
          command := Perform(OpenTask);
        case FileOpened(result) =>
          match result {
            case Ok((text, p)) =>
              content := ops.fromText(text);
              path := p;
              isDirty := false;
            case Err(e) =>
              error := Some(e);
          }
          command := NoCommand;
        case Save =>
          var text := ops.text(content);
          command := Perform(SaveTask(path, text));
        case FileSaved(result) =>
          match result {
            case Ok(p) =>
              path := Some(p);
              isDirty := false;
            case Err(e) =>
              error := Some(e);
          }
          command := NoCommand;
        case ThemeChanged(t) =>
          theme := t;
          command := NoCommand;
      }
    }
  }
}
