# A model of the rustgui text editor core

The editor is a small desktop text editor (Rust, iced GUI). Its logic is one event-driven
state machine, `TextEditor::update`, plus two file operations, `pick_file` and
`save_file`, dispatched as asynchronous commands. This project models that logic in
Dafny and proves what each message does to the session state, what the file operations
do with the dialogs and the filesystem, and how the state looks on screen.

Modules (one per concept of the program):

- `Wrappers`: Rust's `Option`.
- `Highlighter`: the highlighting themes and their darkness.
- `Paths`: paths as sequences of units (a character, or a raw non-ASCII byte that is
  not decoded as a character), with `to_str`, `file_name` and `extension`.
- `FileHandler` (src/handlers/file_handler.rs): the `Error` type, `load_file`,
  `pick_file` and `save_file`. The dialogs and the disk are a `Host` oracle: how each
  dialog is answered, and what each read or write returns. Every operation returns its
  result together with the effects it performed (dialog shown, file read, file written).
- `Messages` (src/messages.rs): the `EditorMessage` event type.
- `Editor` (src/main.rs): the state, `new`, the reducer `Step` for `update`, the
  commands, and the `TextEditor` class whose `Update` method assigns fields in place.
  `Update` is proved to agree with `Step`. The text widget's buffer
  (`text_editor::Content`) is abstract: its value type `C`, its action type `A`, and its
  operations `ContentOps` (new, with, text, edit, is_edit, cursor position) are
  parameters.
- `Session`: properties over several messages (replays of message sequences), and one
  message handled to completion against a host (`Dispatch`: the task runs and its
  completion message is applied).
- `View` (src/main.rs): the keyboard shortcuts, Save enablement, the status text, the
  cursor display, the highlighter's extension and the application theme.

Behaviour of the code that the model keeps as written:

- The editor starts dirty, and New makes it dirty again (src/main.rs:60, src/main.rs:86).
- Only Edit clears the error (src/main.rs:80). New and successful opens and saves keep it
  (src/main.rs:84-89, src/main.rs:97-101, src/main.rs:116-119).
- Saving always goes to the known path when there is one; there is no save-as
  (src/handlers/file_handler.rs:40-50).
- Loading uses `read_to_string` (src/handlers/file_handler.rs:31), which has no lossy
  decoding fallback: it fails with `InvalidData` when the file's bytes are not valid
  UTF-8. The model leaves every read outcome, that one included, to the `Host.read`
  oracle.

## Model

| member | source | states |
|---|---|---|
| Paths.ToStr | src/main.rs:191 | a path is shown as text exactly when all its units are characters, and the text spells the path |
| Paths.ToStrFromStr | src/main.rs:191 | the path spelled by a string converts back to that string |
| Paths.FileName | src/main.rs:165 | a file name has no separator and is never empty, "." or ".."; a path made only of separators (including the empty path) has none |
| Paths.FileNameIsFinalComponent | src/main.rs:165 | a file name is the final component of its path: it ends where the trailing separators begin and starts at the start of the path or right after a separator |
| Paths.TrimmedTailIsSeparators | src/main.rs:165 | what is cut off the end of a path before its name is taken consists of separators only |
| Paths.Extension | src/main.rs:165 | an extension is the dot-free tail after the file name's last dot, the dot not being first; a name without a dot has none |
| Paths.FileNameOfComponent | src/main.rs:165 | for a directory prefix, a non-empty component and any trailing separators, the file name is that component, except that "." and ".." give none ("a/.." and "a/../" have no file name) |
| Paths.ExtensionOfNamedFile | src/main.rs:165 | a path ending in `stem.ext`, followed by any number of trailing separators, has extension `ext`, with or without a directory in front |
| FileHandler.LoadFile | src/handlers/file_handler.rs:30-37 | reads exactly the given path; succeeds with the file's text exactly when the read succeeds; otherwise fails with `IO` of the read's error kind |
| FileHandler.PickFile | src/handlers/file_handler.rs:16-28 | always shows the open dialog and never writes; a cancel gives `DialogClosed` and reads nothing; a chosen path is read once; success pairs the text with `Some` of the chosen path; a read failure gives `IO(kind)` |
| FileHandler.SaveTarget | src/handlers/file_handler.rs:40-50 | a known path is used without a dialog; otherwise the save dialog is shown, and a cancel gives `DialogClosed` |
| FileHandler.SaveFile | src/handlers/file_handler.rs:39-58 | never reads; shows a dialog exactly when no path is known; with a known path, writes the content there and only there; `DialogClosed` happens exactly on a cancelled dialog and writes nothing; with no known path and a chosen place `q`, shows the dialog and then writes the content to `q`; success returns the path just written, which is the known path or the chosen one; a write failure gives `IO` of that write's kind |
| Editor.Init | src/main.rs:56-68 | the startup state has an empty buffer, no path, no error, the SolarizedDark theme and is dirty; no command is issued |
| Editor.Step | src/main.rs:75-135 | field by field: the content is changed only by Edit, New and a successful open; the path is changed only by New and successful opens and saves; dirtiness is kept or raised by Edit, set by New and cleared by successful opens and saves; the theme is changed only by ThemeChanged; the error is cleared only by Edit and set by failed opens and saves; only Open and Save issue a command, and Save's command carries the current path and buffer text |
| Editor.Run | src/main.rs:91-112 | an open task completes as FileOpened carrying `pick_file`'s result, with its effects; a save task completes as FileSaved carrying `save_file`'s result for the task's path and text, with its effects |
| Editor.Dispatch | src/main.rs:75-125 | a message other than Open or Save performs no effect and yields the reducer's new state |
| Editor.TextEditor.constructor | src/main.rs:56-68 | the new editor object holds the startup state |
| Editor.TextEditor.Update | src/main.rs:75-135 | updating the fields in place gives the reducer's new state and command |
| Session.ReplayEdits | src/main.rs:77-82 | a run of Edits applies the actions in order and keeps path and theme; the result is dirty iff it was dirty before or some action edits; the error is cleared unless the run is empty |
| Session.ErrorClearedOnlyByEdit | src/main.rs:75-135 | an error stays set through any sequence of messages without an Edit |
| Session.OpenCompletionHasPath | src/handlers/file_handler.rs:23-27 | an open task never completes successfully without a path |
| Session.PathKeptWithoutNew | src/main.rs:84-125 | once the document has a path, it keeps one through any sequence without New (and without a path-less successful open) |
| Session.CleanWithoutEditing | src/main.rs:77-89 | a clean document stays clean through any sequence with no New and no editing action |
| Session.DirtyUntilCompleted | src/main.rs:95-125 | a dirty document stays dirty through any sequence with no successful open or save |
| Session.OpenCancelled | src/main.rs:91-107 | Open with a cancelled dialog sets the error to DialogClosed, changes nothing else and reads nothing |
| Session.OpenReadFails | src/main.rs:95-107 | Open of an unreadable file sets the error to `IO(kind)` and changes nothing else |
| Session.OpenLoads | src/main.rs:95-101 | a successful Open loads the text, records the chosen path and makes the document clean, leaving theme and error alone |
| Session.SaveNewCancelled | src/main.rs:108-125 | Save of a document without a path, with the dialog cancelled, sets the error to DialogClosed and writes nothing |
| Session.SaveNewWriteFails | src/main.rs:108-125 | Save of a document without a path, to a place chosen in the dialog where the write fails, shows the dialog, attempts that one write, and sets only the error, to `IO(kind)` |
| Session.SaveKnownPath | src/main.rs:108-125 | Save of a document with a path writes its text there without a dialog; success makes it clean, and failure sets `IO(kind)` |
| Session.SaveReusesChosenPath | src/main.rs:108-119 | after a first Save to a place chosen in the dialog, the next Save writes there without a dialog |
| Session.OpenThenSaveWritesBack | src/main.rs:95-112 | Open followed at once by Save writes the loaded text back to the same file without a dialog, provided the buffer returns the text it was built from |
| View.OnKeyPress | src/main.rs:137-155 | with the command modifier, S, O and N give Save, Open and New; any other key, or no command modifier, gives no message |
| View.SaveOnPress | src/main.rs:174 | the Save button is enabled, and sends Save, exactly when the document is dirty |
| View.StatusOf | src/main.rs:188-195 | the status shows the error whenever there is one; otherwise "Editing: " and the path when the path is text; otherwise "New File" |
| View.CursorDisplay | src/main.rs:203-207 | the displayed line and column are the cursor's plus one, so both are at least one |
| View.HighlightExtension | src/main.rs:165 | the highlighter gets "txt" when there is no path, and otherwise the path's extension when it is text |
| View.HighlightOfNamedFile | src/main.rs:165 | a document saved as `dir/stem.ext` is highlighted as `ext` |
| View.AppThemeOf | src/main.rs:216-222 | the application theme is Dark exactly for a dark highlighting theme, and Light only for InspiredGitHub |
| View.InitialView | src/main.rs:56-68 | at startup the status reads "New File", the extension is "txt", the theme is dark and Save is enabled |
| View.StatusAfterNew | src/main.rs:84-89 | after New the status still shows a held error, or "New File" |

## Left out

- Rendering and layout (widgets, rows and columns, tooltips, button styles, the `action` helper's styling), the window title and the `main` window settings: these are presentation.
- Encoding detection for the status bar (src/encoding/encoding_detector.rs): it wraps the statistical `chardetng` guesser. That library, and the UTF-8 encoding of the buffer it reads, are not part of this model.
- The text widget's buffer: cursor movement, how an action edits the text, and highlighting rules belong to iced. The buffer's operations are parameters (`ContentOps`), so no property of them is assumed except where a lemma states one as a precondition (`OpenThenSaveWritesBack` needs the buffer to return the text it was built from).
- The `{:?}` rendering of an error and the `format!` of the cursor position: the status is given as the error value or the text, and the cursor as a pair of numbers.
- Font loading and icons (src/ui/fonts.rs).
- Asynchrony and concurrency: `Dispatch` runs a task to completion before the next message, so overlapping opens and saves, and races between them, are not modelled.
- `Command::perform` itself and the runtime that executes commands: a command is a value naming the task.
- `std::io::ErrorKind` is represented by a selection of its kinds. The model treats the kind as opaque.
- Paths.FileName: follows `Path::file_name` only for '/'-separated paths, and it treats a trailing "." component as no file name. The standard library instead skips such a component ("a/." names "a"). Windows prefixes and separators are not modelled.
- Paths.ToStr: a run of `Raw` bytes that together form valid UTF-8 (0xC3 0xA9 spells "é") is not recognised as text. The model assumes that every decodable character of a path is given as a `Char` unit.
- The theme list and `is_dark` follow iced's highlighter, which is not part of this model.
