/**
 * Properties of the editor over several messages: replaying a sequence of messages,
 * and a message handled to completion against a host (tasks and their completions).
 */
module Session {
  import opened Wrappers
  import opened Paths
  import opened FileHandler
  import opened Messages
  import opened Editor

  /** The state after applying `ms` in order, from `s` (the commands are dropped). */
  function Replay<C, A>(ops: ContentOps<C, A>, s: State<C>, ms: seq<EditorMessage<A>>): State<C>
    decreases |ms|
  {
    if ms == [] then s else Replay(ops, Step(ops, s, ms[0]).0, ms[1..])
  }

  /** The Edit messages for a sequence of widget actions. */
  function Edits<A>(actions: seq<A>): (ms: seq<EditorMessage<A>>)
    ensures |ms| == |actions| && forall i :: 0 <= i < |ms| ==> ms[i] == Edit(actions[i])
  {
    seq(|actions|, i requires 0 <= i < |actions| => Edit(actions[i]))
  }

  /** The buffer after applying each action in turn. */
  function ApplyEdits<C, A>(ops: ContentOps<C, A>, c: C, actions: seq<A>): C
    decreases |actions|
  {
    if actions == [] then c else ApplyEdits(ops, ops.edit(c, actions[0]), actions[1..])
  }

  /** Some action of the sequence changes the text. */
  predicate AnyEditing<C, A>(ops: ContentOps<C, A>, actions: seq<A>) {
    exists i :: 0 <= i < |actions| && ops.isEdit(actions[i])
  }

  /**
   * A run of Edit messages applies the actions to the buffer in order, leaves the path
   * and theme alone, makes the document dirty exactly when it was dirty or some action
   * edits, and clears the error unless the run is empty.
   */
  lemma {:induction false} ReplayEdits<C, A>(ops: ContentOps<C, A>, s: State<C>, actions: seq<A>)
    ensures Replay(ops, s, Edits(actions)) ==
      s.(content := ApplyEdits(ops, s.content, actions),
         isDirty := s.isDirty || AnyEditing(ops, actions),
         error := if actions == [] then s.error else None)
    decreases |actions|
  {
    if actions != [] {
      var next := Step(ops, s, Edit(actions[0])).0;
      assert Edits(actions)[1..] == Edits(actions[1..]);
      ReplayEdits(ops, next, actions[1..]);
      assert AnyEditing(ops, actions) <==> ops.isEdit(actions[0]) || AnyEditing(ops, actions[1..]) by {
        if AnyEditing(ops, actions[1..]) {
          var i :| 0 <= i < |actions[1..]| && ops.isEdit(actions[1..][i]);
          assert ops.isEdit(actions[i + 1]);
        }
        if AnyEditing(ops, actions) && !ops.isEdit(actions[0]) {
          var i :| 0 <= i < |actions| && ops.isEdit(actions[i]);
          assert actions[1..][i - 1] == actions[i];
        }
      }
    }
  }

  /** Once set, the error survives every message but Edit. */
  lemma {:induction false} ErrorClearedOnlyByEdit<C, A>(ops: ContentOps<C, A>, s: State<C>, ms: seq<EditorMessage<A>>)
    requires s.error.Some?
    requires forall i :: 0 <= i < |ms| ==> !ms[i].Edit?
    ensures Replay(ops, s, ms).error.Some?
    decreases |ms|
  {
    if ms != [] {
      ErrorClearedOnlyByEdit(ops, Step(ops, s, ms[0]).0, ms[1..]);
    }
  }

  /** A successful open that names no file; `pick_file` never produces one. */
  predicate OpensWithoutPath<A>(m: EditorMessage<A>) {
    m.FileOpened? && m.loaded.Ok? && m.loaded.value.1.None?
  }

  /** The completion of an open task always carries a path. */
  lemma OpenCompletionHasPath<A>(host: Host)
    ensures !OpensWithoutPath(Run<A>(OpenTask, host).result)
  {
  }

  /** Once the document has a path, only New (or an open without a path) takes it away. */
  lemma {:induction false} PathKeptWithoutNew<C, A>(ops: ContentOps<C, A>, s: State<C>, ms: seq<EditorMessage<A>>)
    requires s.path.Some?
    requires forall i :: 0 <= i < |ms| ==> !ms[i].New? && !OpensWithoutPath(ms[i])
    ensures Replay(ops, s, ms).path.Some?
    decreases |ms|
  {
    if ms != [] {
      PathKeptWithoutNew(ops, Step(ops, s, ms[0]).0, ms[1..]);
    }
  }

  /** A clean document stays clean while no message edits the text or starts a new file. */
  lemma {:induction false} CleanWithoutEditing<C, A>(ops: ContentOps<C, A>, s: State<C>, ms: seq<EditorMessage<A>>)
    requires !s.isDirty
    requires forall i :: 0 <= i < |ms| ==> !ms[i].New? && !(ms[i].Edit? && ops.isEdit(ms[i].action))
    ensures !Replay(ops, s, ms).isDirty
    decreases |ms|
  {
    if ms != [] {
      CleanWithoutEditing(ops, Step(ops, s, ms[0]).0, ms[1..]);
    }
  }

  /** A successful open or save completion. */
  predicate Completes<A>(m: EditorMessage<A>) {
    (m.FileOpened? && m.loaded.Ok?) || (m.FileSaved? && m.stored.Ok?)
  }

  /** A dirty document stays dirty until an open or a save succeeds. */
  lemma {:induction false} DirtyUntilCompleted<C, A>(ops: ContentOps<C, A>, s: State<C>, ms: seq<EditorMessage<A>>)
    requires s.isDirty
    requires forall i :: 0 <= i < |ms| ==> !Completes(ms[i])
    ensures Replay(ops, s, ms).isDirty
    decreases |ms|
  {
    if ms != [] {
      DirtyUntilCompleted(ops, Step(ops, s, ms[0]).0, ms[1..]);
    }
  }

  /** Open with the dialog cancelled: only the error changes, to DialogClosed, and nothing is read. */
  lemma OpenCancelled<C, A>(ops: ContentOps<C, A>, host: Host, s: State<C>)
    requires host.openDialog.Cancelled?
    ensures Dispatch(ops, host, s, Open) == Traced(s.(error := Some(DialogClosed)), [ShowOpenDialog])
  {
  }

  /** Open of a file that cannot be read: the error becomes `IO` of the read's kind, nothing else changes. */
  lemma OpenReadFails<C, A>(ops: ContentOps<C, A>, host: Host, s: State<C>, p: Path, k: IoErrorKind)
    requires host.openDialog == Chosen(p) && host.read(p) == Failed(k)
    ensures Dispatch(ops, host, s, Open) == Traced(s.(error := Some(IO(k))), [ShowOpenDialog, Read(p)])
  {
  }

  /** A successful Open loads the text, remembers the path and leaves the document clean. */
  lemma OpenLoads<C, A>(ops: ContentOps<C, A>, host: Host, s: State<C>, p: Path, text: string)
    requires host.openDialog == Chosen(p) && host.read(p) == Done(text)
    ensures Dispatch(ops, host, s, Open) ==
      Traced(s.(content := ops.fromText(text), path := Some(p), isDirty := false), [ShowOpenDialog, Read(p)])
  {
  }

  /** Save of a new document with the dialog cancelled: the error becomes DialogClosed and nothing is written. */
  lemma SaveNewCancelled<C, A>(ops: ContentOps<C, A>, host: Host, s: State<C>)
    requires s.path.None? && host.saveDialog.Cancelled?
    ensures Dispatch(ops, host, s, Save) == Traced(s.(error := Some(DialogClosed)), [ShowSaveDialog])
  {
  }

  /**
   * Save of a new document to a place chosen in the dialog, where the write fails:
   * only the error changes, to `IO` of the write's kind, and the path stays unknown.
   */
  lemma SaveNewWriteFails<C, A>(ops: ContentOps<C, A>, host: Host, s: State<C>, q: Path, k: IoErrorKind)
    requires s.path.None? && host.saveDialog == Chosen(q)
    requires host.write(q, ops.text(s.content)) == Failed(k)
    ensures Dispatch(ops, host, s, Save) ==
      Traced(s.(error := Some(IO(k))), [ShowSaveDialog, Write(q, ops.text(s.content))])
  {
  }

  /** Save of a document with a path writes its text there without a dialog. */
  lemma SaveKnownPath<C, A>(ops: ContentOps<C, A>, host: Host, s: State<C>)
    requires s.path.Some?
    ensures Dispatch(ops, host, s, Save).effects == [Write(s.path.value, ops.text(s.content))]
    ensures host.write(s.path.value, ops.text(s.content)).Done? ==>
      Dispatch(ops, host, s, Save).result == s.(isDirty := false)
    ensures host.write(s.path.value, ops.text(s.content)).Failed? ==>
      Dispatch(ops, host, s, Save).result == s.(error := Some(IO(host.write(s.path.value, ops.text(s.content)).kind)))
  {
  }

  /**
   * A first Save that succeeds at the place chosen in the dialog makes the next Save
   * write to that same place without asking again.
   */
  lemma SaveReusesChosenPath<C, A>(ops: ContentOps<C, A>, host: Host, s: State<C>, q: Path)
    requires s.path.None? && host.saveDialog == Chosen(q)
    requires host.write(q, ops.text(s.content)).Done?
    ensures
      var saved := Dispatch(ops, host, s, Save);
      saved.effects == [ShowSaveDialog, Write(q, ops.text(s.content))] &&
      saved.result.path == Some(q) && !saved.result.isDirty &&
      Dispatch(ops, host, saved.result, Save).effects == [Write(q, ops.text(s.content))]
  {
  }

  /**
   * Open followed at once by Save writes the loaded text back to the file it came
   * from, without a dialog, provided the buffer gives back the text it was made from.
   */
  lemma OpenThenSaveWritesBack<C, A>(ops: ContentOps<C, A>, host: Host, s: State<C>, p: Path, text: string)
    requires host.openDialog == Chosen(p) && host.read(p) == Done(text)
    requires ops.text(ops.fromText(text)) == text
    ensures Dispatch(ops, host, Dispatch(ops, host, s, Open).result, Save).effects == [Write(p, text)]
  {
  }
}
