/** The events the editor reacts to (`EditorMessage`). `A` is the text widget's action type. */
module Messages {
  import opened Wrappers
  import opened Paths
  import opened FileHandler
  import opened Highlighter

  datatype EditorMessage<A> =
    | Edit(action: A)
    | Open
    | New
    | Save
    | FileOpened(loaded: Result<(string, Option<Path>)>)
    | FileSaved(stored: Result<Path>)
    | ThemeChanged(theme: Theme)
}
