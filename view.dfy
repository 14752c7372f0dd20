/**
 * What the editor derives from its state for display and input: the keyboard
 * shortcuts, whether Save can be pressed, the status bar, the cursor position shown,
 * the extension that selects the highlighting syntax, and the application theme.
 */
module View {
  import opened Wrappers
  import opened Paths
  import opened FileHandler
  import opened Highlighter
  import opened Messages
  import opened Editor

  /** The key codes the shortcuts look at; `OtherKey` stands for every other key. */
  datatype KeyCode = KeyS | KeyO | KeyN | OtherKey(id: nat)

  datatype Modifiers = Modifiers(shift: bool, control: bool, alt: bool, logo: bool)

  /** The platform decides which modifier is the command key. */
  datatype TargetOs = MacOs | OtherOs

  /** `Modifiers::command`: the logo key on macOS, Control elsewhere. */
  predicate IsCommand(mods: Modifiers, os: TargetOs) {
    if os.MacOs? then mods.logo else mods.control
  }

  /** The key handler of `subscription`: command-S saves, command-O opens, command-N starts a new file. */
  function OnKeyPress<A>(key: KeyCode, mods: Modifiers, os: TargetOs): (r: Option<EditorMessage<A>>)
    ensures r.Some? <==> IsCommand(mods, os) && !key.OtherKey?
    ensures r == Some(Save) <==> IsCommand(mods, os) && key == KeyS
    ensures r == Some(Open) <==> IsCommand(mods, os) && key == KeyO
    ensures r == Some(New) <==> IsCommand(mods, os) && key == KeyN
  {
    if IsCommand(mods, os) then
      match key
      case KeyS => Some(Save)
      case KeyO => Some(Open)
      case KeyN => Some(New)
      case OtherKey(_) => None
    else None
  }

  /** The message the Save button sends when pressed; None disables the button. */
  function SaveOnPress<C, A>(s: State<C>): (r: Option<EditorMessage<A>>)
    ensures r.Some? <==> s.isDirty
    ensures r.Some? ==> r.value == Save
  {
    if s.isDirty then Some(Save) else None
  }

  /** The status text: the error if there is one, else the file being edited. */
  datatype Status = ErrorStatus(error: Error) | Info(text: string)

  const NEW_FILE: string := "New File"
  const EDITING: string := "Editing: "

  function StatusOf<C>(s: State<C>): (r: Status)
    ensures r.ErrorStatus? <==> s.error.Some?
    ensures r.ErrorStatus? ==> r.error == s.error.value
    ensures r == Info(NEW_FILE) <==> s.error.None? && (s.path.None? || !IsText(s.path.value))
    ensures s.error.None? && s.path.Some? && IsText(s.path.value) ==>
      r == Info(EDITING + ToStr(s.path.value).value)
  {
    match s.error
    case Some(e) => ErrorStatus(e)
    case None =>
      var shown := if s.path.Some? then ToStr(s.path.value) else None;
      match shown
      case Some(file) =>
        assert (EDITING + file)[0] != NEW_FILE[0];
        Info(EDITING + file)
      case None => Info(NEW_FILE)
  }

  /** The cursor position as shown: line and column counted from one. */
  function CursorDisplay<C, A>(ops: ContentOps<C, A>, s: State<C>): (r: (nat, nat))
    ensures r.0 >= 1 && r.1 >= 1
    ensures (r.0 - 1, r.1 - 1) == ops.cursor(s.content)
  {
    var (line, column) := ops.cursor(s.content);
    (line + 1, column + 1)
  }

  const DEFAULT_EXTENSION: string := "txt"

  /** The extension handed to the highlighter: the path's extension as text, else "txt". */
  function HighlightExtension<C>(s: State<C>): (r: string)
    ensures s.path.None? ==> r == DEFAULT_EXTENSION
    ensures r == DEFAULT_EXTENSION ||
      (s.path.Some? && Extension(s.path.value).Some? && ToStr(Extension(s.path.value).value) == Some(r))
    ensures s.path.Some? && Extension(s.path.value).Some? && IsText(Extension(s.path.value).value) ==>
      r == ToStr(Extension(s.path.value).value).value
  {
    var named := match s.path
      case None => None
      case Some(p) =>
        match Extension(p)
        case None => None
        case Some(ext) => ToStr(ext);
    named.UnwrapOr(DEFAULT_EXTENSION)
  }

  /** A file saved as `dir/stem.ext` is highlighted as `ext`. */
  lemma HighlightOfNamedFile<C>(s: State<C>, dir: Path, stem: Path, ext: string)
    requires dir == [] || dir[|dir| - 1] == SEPARATOR
    requires stem != [] && SEPARATOR !in stem
    requires '.' !in ext && '/' !in ext
    requires stem + [DOT] + FromStr(ext) != [DOT, DOT]
    requires s.path == Some(dir + stem + [DOT] + FromStr(ext))
    ensures HighlightExtension(s) == ext
  {
    var e := FromStr(ext);
    assert DOT !in e && SEPARATOR !in e by {
      forall i | 0 <= i < |e| ensures e[i] != DOT && e[i] != SEPARATOR {
        assert e[i] == Char(ext[i]);
      }
    }
    assert dir + stem + [DOT] + e + [] == dir + stem + [DOT] + e;
    ExtensionOfNamedFile(dir, stem, e, []);
    ToStrFromStr(ext);
  }

  /** The application theme follows the highlighting theme's darkness. */
  datatype AppTheme = Dark | Light

  function AppThemeOf(t: Theme): (r: AppTheme)
    ensures r == Dark <==> IsDark(t)
    ensures r == Light <==> t == InspiredGitHub
  {
    if IsDark(t) then Dark else Light
  }

  /**
   * At startup the status bar reads "New File", the highlighter uses "txt", the theme
   * is dark, and Save can be pressed (the editor starts out dirty).
   */
  lemma InitialView<C, A>(ops: ContentOps<C, A>)
    ensures StatusOf(Init(ops).0) == Info(NEW_FILE)
    ensures HighlightExtension(Init(ops).0) == DEFAULT_EXTENSION
    ensures AppThemeOf(Init(ops).0.theme) == Dark
    ensures SaveOnPress<C, A>(Init(ops).0) == Some(Save)
  {
  }

  /** After New the status bar shows the error still held, or "New File". */
  lemma StatusAfterNew<C, A>(ops: ContentOps<C, A>, s: State<C>)
    ensures StatusOf(Step(ops, s, New).0) == if s.error.Some? then ErrorStatus(s.error.value) else Info(NEW_FILE)
  {
  }
}
