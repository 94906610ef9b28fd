// The journal protocol of the mutation harness (scripts/mutate.py) as a state
// machine. One step is one thing the process can be stopped before or after: a
// file opened for writing (its content is arbitrary until the write is complete),
// the journal put in place by an atomic replace, the journal unlinked, `_pending`
// assigned. Between any two steps the process may be killed, a signal may arrive,
// or the statement may raise.
module JournalProtocol {
  import opened Common
  import opened SourceText

  type Path = string
  type Files = map<Path, Content>
  type Entries = map<Path, string>

  datatype Disk = Disk(files: Files, journal: Option<Entries>)

  /** Where the process stands. `dying` marks a `_restore` started by a signal handler or at exit. */
  datatype Pc =
    | Outside
    | Starting
    | RecoverLoop(todo: Entries)
    | RecoverWrite(todo: Entries, path: Path)
    | RecoverClear
    | RecoverUnlink
    | Installing
    | Ready
    | Journaling(rel: Path, mutated: string)
    | Mutating(rel: Path, mutated: string)
    | MutateWrite(rel: Path, mutated: string)
    | Testing
    | RestoreLoop(todo: Entries, dying: bool)
    | RestoreWrite(todo: Entries, path: Path, dying: bool)
    | RestoreClear(dying: bool)
    | RestoreUnlink(dying: bool)

  /** `handlers` says whether `_install_handlers` has run in this process. */
  datatype Proc = Down | Up(pc: Pc, pending: Entries, handlers: bool)

  datatype State = State(disk: Disk, proc: Proc)

  datatype Action = Advance | Interrupt | Raise | Kill | Launch

  /** The text `_read` returns, if the file is there and decodes. */
  function ReadText(files: Files, p: Path): Option<string> {
    if p in files && files[p].Text? then Some(Universal(files[p].text)) else None
  }

  /** `_read` raises UnicodeDecodeError, which `recover` does not catch. */
  predicate Unreadable(files: Files, p: Path) {
    p in files && files[p].Undecodable?
  }

  /** Every file the journal names, if it exists, decodes. */
  predicate AllReadable(d: Disk) {
    d.journal.Some? ==> forall p | p in d.journal.value :: !Unreadable(d.files, p)
  }

  ghost predicate MayPatch(files: Files, rel: Path, mutated: string) {
    && ReadText(files, rel).Some?
    && exists pat, sub ::
        Contains(ReadText(files, rel).value, pat) && mutated == ReplaceFirst(ReadText(files, rel).value, pat, sub)
  }

  ghost predicate Advances(s: State, s': State)
    requires s.proc.Up?
  {
    var Disk(files, journal) := s.disk;
    var Up(pc, pending, handlers) := s.proc;
    match pc
    case Outside => s' == At(s, Starting)
    case Starting => s' == At(s, if journal.None? then Installing else RecoverLoop(journal.value))
    case RecoverLoop(todo) =>
      if todo == map[] then s' == At(s, RecoverClear)
      else exists p | p in todo && !Unreadable(files, p) ::
        if ReadText(files, p) == Some(todo[p]) then s' == At(s, RecoverLoop(todo - {p}))
        else exists torn :: s' == Write(At(s, RecoverWrite(todo, p)), p, torn)
    case RecoverWrite(todo, p) =>
      p in todo && s' == Write(At(s, RecoverLoop(todo - {p})), p, Text(todo[p]))
    case RecoverClear => s' == Forget(At(s, RecoverUnlink))
    case RecoverUnlink => s' == SetJournal(At(s, Installing), None)
    case Installing => s' == State(s.disk, Up(Ready, pending, true))
    case Ready =>
      || s' == At(s, Outside)
      || exists rel, mutated | MayPatch(files, rel, mutated) ::
          s' == State(s.disk, Up(Journaling(rel, mutated), map[rel := ReadText(files, rel).value], handlers))
    case Journaling(rel, mutated) => s' == SetJournal(At(s, Mutating(rel, mutated)), Some(pending))
    case Mutating(rel, mutated) => exists torn :: s' == Write(At(s, MutateWrite(rel, mutated)), rel, torn)
    case MutateWrite(rel, mutated) => s' == Write(At(s, Testing), rel, Text(mutated))
    case Testing => s' == At(s, RestoreLoop(pending, false))
    case RestoreLoop(todo, dying) =>
      if todo == map[] then s' == At(s, RestoreClear(dying))
      else exists p, torn | p in todo :: s' == Write(At(s, RestoreWrite(todo, p, dying)), p, torn)
    case RestoreWrite(todo, p, dying) =>
      p in todo && s' == Write(At(s, RestoreLoop(todo - {p}, dying)), p, Text(todo[p]))
    case RestoreClear(dying) => s' == Forget(At(s, RestoreUnlink(dying)))
    case RestoreUnlink(dying) =>
      s' == if dying then State(s.disk.(journal := None), Down) else SetJournal(At(s, Ready), None)
  }

  function At(s: State, pc: Pc): State
    requires s.proc.Up?
  {
    s.(proc := s.proc.(pc := pc))
  }

  function Write(s: State, p: Path, c: Content): State {
    s.(disk := s.disk.(files := s.disk.files[p := c]))
  }

  function SetJournal(s: State, j: Option<Entries>): State {
    s.(disk := s.disk.(journal := j))
  }

  function Forget(s: State): State
    requires s.proc.Up?
  {
    s.(proc := s.proc.(pending := map[]))
  }

  /** The handler, and the `atexit` hook, run `_restore` over whatever `_pending` holds, then the process ends. */
  function Interrupted(s: State): State
    requires s.proc.Up?
  {
    if s.proc.handlers then At(s, RestoreLoop(s.proc.pending, true)) else s.(proc := Down)
  }

  /** An exception leaves `run`; during the tests the `finally` block restores first. */
  function Raised(s: State): State
    requires s.proc.Up?
  {
    At(s, if s.proc.pc.Testing? then RestoreLoop(s.proc.pending, false) else Outside)
  }

  ghost predicate Next(s: State, a: Action, s': State) {
    match a
    case Launch => s.proc.Down? && s' == State(s.disk, Up(Outside, map[], false))
    case Advance => s.proc.Up? && Advances(s, s')
    case Interrupt => s.proc.Up? && s' == Interrupted(s)
    case Raise => s.proc.Up? && s' == Raised(s)
    case Kill => s.proc.Up? && s' == s.(proc := Down)
  }

  // ── what is promised ──────────────────────────────────────────────────────

  /** Every file named is still what it was, up to the newline reading, and no other file has come or gone. */
  predicate Intact(orig: Files, files: Files, except: set<Path>) {
    && files.Keys - except == orig.Keys - except
    && forall p | p in orig && p in files && p !in except :: Same(orig[p], files[p])
  }

  /** `e` tells how to put back the files it names. */
  predicate Originals(orig: Files, e: Entries) {
    forall p | p in e :: p in orig && orig[p].Text? && e[p] == Universal(orig[p].text)
  }

  /**
   * What a dead process may leave behind: with no journal the tree is whole;
   * with a journal, its entries are the originals and every other file is whole.
   */
  predicate Safe(orig: Files, d: Disk) {
    match d.journal
    case None => Intact(orig, d.files, {})
    case Some(e) => Originals(orig, e) && Intact(orig, d.files, e.Keys)
  }

  predicate Clean(orig: Files, d: Disk) {
    d.journal.None? && Intact(orig, d.files, {})
  }

  /**
   * `_pending` names a file and no journal is on disk. `_restore` then rewrites
   * that file with nothing to recover it from.
   */
  predicate Exposed(s: State) {
    s.proc.Up? && s.proc.handlers && s.proc.pending != map[] && s.disk.journal.None?
  }

  // ── the invariant ─────────────────────────────────────────────────────────

  /** The journal, when there is one, is what `_pending` says, or there is nothing left to undo. */
  predicate Linked(orig: Files, d: Disk, pending: Entries) {
    d.journal.Some? ==> d.journal.value == pending || (pending == map[] && Intact(orig, d.files, {}))
  }

  predicate RecoverInv(orig: Files, d: Disk, todo: Entries) {
    d.journal.Some? && todo.Keys <= d.journal.value.Keys && Originals(orig, todo) && Intact(orig, d.files, todo.Keys)
  }

  predicate RestoreInv(orig: Files, s: State, todo: Entries)
    requires s.proc.Up?
  {
    && todo.Keys <= s.proc.pending.Keys && Originals(orig, todo)
    && Intact(orig, s.disk.files, todo.Keys) && s.proc.handlers
  }

  predicate Patching(s: State, rel: Path)
    requires s.proc.Up?
  {
    s.disk.journal == Some(s.proc.pending) && s.proc.pending.Keys == {rel} && s.proc.handlers
  }

  predicate PcInv(orig: Files, s: State)
    requires s.proc.Up?
  {
    var d := s.disk;
    match s.proc.pc
    case Outside => true
    case Starting => true
    case RecoverLoop(todo) => RecoverInv(orig, d, todo)
    case RecoverWrite(todo, p) =>
      RecoverInv(orig, d, todo) && p in todo && (s.proc.handlers ==> d.journal == Some(s.proc.pending))
    case RecoverClear => Intact(orig, d.files, {})
    case RecoverUnlink => Intact(orig, d.files, {}) && s.proc.pending == map[]
    case Installing => Clean(orig, d)
    case Ready => Clean(orig, d) && s.proc.handlers
    case Journaling(rel, _) => Clean(orig, d) && s.proc.pending.Keys == {rel} && s.proc.handlers
    case Mutating(rel, _) => Patching(s, rel)
    case MutateWrite(rel, _) => Patching(s, rel)
    case Testing => d.journal == Some(s.proc.pending) && s.proc.handlers
    case RestoreLoop(todo, _) => RestoreInv(orig, s, todo) && (todo == map[] || d.journal == Some(s.proc.pending))
    case RestoreWrite(todo, p, _) => RestoreInv(orig, s, todo) && p in todo && d.journal == Some(s.proc.pending)
    case RestoreClear(_) => Intact(orig, d.files, {}) && s.proc.handlers
    case RestoreUnlink(_) => Intact(orig, d.files, {}) && s.proc.pending == map[] && s.proc.handlers
  }

  predicate Inv(orig: Files, s: State) {
    && Safe(orig, s.disk)
    && (s.proc.Up? ==>
          && Originals(orig, s.proc.pending)
          && (if s.proc.handlers then Linked(orig, s.disk, s.proc.pending) else s.proc.pending == map[])
          && PcInv(orig, s))
  }

  lemma PutBackKeepsIntact(orig: Files, files: Files, todo: Entries, p: Path)
    requires Originals(orig, todo) && p in todo && Intact(orig, files, todo.Keys)
    ensures Intact(orig, files[p := Text(todo[p])], (todo - {p}).Keys)
    ensures ReadText(files, p) == Some(todo[p]) ==> Intact(orig, files, (todo - {p}).Keys)
  {
    UniversalIdempotent(orig[p].text);
    var x := (todo - {p}).Keys;
    assert x == todo.Keys - {p};
    var files' := files[p := Text(todo[p])];
    assert files'.Keys - x == (files.Keys - todo.Keys) + {p};
    assert orig.Keys - x == (orig.Keys - todo.Keys) + {p};
    if p in files {
      assert files.Keys - x == (files.Keys - todo.Keys) + {p};
    }
  }

  lemma TornKeepsIntact(orig: Files, files: Files, except: set<Path>, p: Path, c: Content)
    requires p in except && Intact(orig, files, except)
    ensures Intact(orig, files[p := c], except)
  {
    assert files[p := c].Keys - except == files.Keys - except;
  }

  lemma IntactWeakens(orig: Files, files: Files, some: set<Path>, more: set<Path>)
    requires some <= more && Intact(orig, files, some)
    ensures Intact(orig, files, more)
  {
    assert files.Keys - more == (files.Keys - some) - more;
    assert orig.Keys - more == (orig.Keys - some) - more;
  }

  lemma IntactReadsBack(orig: Files, files: Files, todo: Entries, p: Path)
    requires Intact(orig, files, {}) && Originals(orig, todo) && p in todo
    ensures ReadText(files, p) == Some(todo[p])
  {
    assert p in orig.Keys - {};
    assert p in files.Keys - {};
  }

  lemma AdvanceRecoverKeepsInv(orig: Files, s: State, s': State)
    requires Inv(orig, s) && s.proc.Up? && Advances(s, s')
    requires s.proc.pc.RecoverLoop? || s.proc.pc.RecoverWrite?
    ensures Inv(orig, s')
  {
    var files, todo := s.disk.files, s.proc.pc.todo;
    if s.proc.pc.RecoverWrite? {
      PutBackKeepsIntact(orig, files, todo, s.proc.pc.path);
      TornKeepsIntact(orig, files, s.disk.journal.value.Keys, s.proc.pc.path, Text(todo[s.proc.pc.path]));
    } else if todo == map[] {
      assert todo.Keys == {};
    } else {
      var p :| p in todo && !Unreadable(files, p) &&
        if ReadText(files, p) == Some(todo[p]) then s' == At(s, RecoverLoop(todo - {p}))
        else exists torn :: s' == Write(At(s, RecoverWrite(todo, p)), p, torn);
      PutBackKeepsIntact(orig, files, todo, p);
      if ReadText(files, p) != Some(todo[p]) {
        var torn :| s' == Write(At(s, RecoverWrite(todo, p)), p, torn);
        TornKeepsIntact(orig, files, todo.Keys, p, torn);
        TornKeepsIntact(orig, files, s.disk.journal.value.Keys, p, torn);
        if Intact(orig, files, {}) { IntactReadsBack(orig, files, todo, p); }
      }
    }
  }

  lemma AdvancePatchKeepsInv(orig: Files, s: State, s': State)
    requires Inv(orig, s) && s.proc.Up? && Advances(s, s')
    requires s.proc.pc.Ready? || s.proc.pc.Journaling? || s.proc.pc.Mutating? || s.proc.pc.MutateWrite? || s.proc.pc.Testing?
    ensures Inv(orig, s')
  {
    var files := s.disk.files;
    match s.proc.pc
    case Ready =>
      if s' != At(s, Outside) {
        var rel, mutated :| MayPatch(files, rel, mutated) &&
          s' == State(s.disk, Up(Journaling(rel, mutated), map[rel := ReadText(files, rel).value], s.proc.handlers));
        assert rel in files.Keys - {};
        assert rel in orig.Keys - {};
      }
    case Journaling(rel, _) =>
      IntactWeakens(orig, files, {}, s.proc.pending.Keys);
    case Mutating(rel, mutated) =>
      var torn :| s' == Write(At(s, MutateWrite(rel, mutated)), rel, torn);
      TornKeepsIntact(orig, files, s.proc.pending.Keys, rel, torn);
    case MutateWrite(rel, mutated) =>
      TornKeepsIntact(orig, files, s.proc.pending.Keys, rel, Text(mutated));
    case Testing =>
  }

  lemma AdvanceRestoreKeepsInv(orig: Files, s: State, s': State)
    requires Inv(orig, s) && s.proc.Up? && Advances(s, s')
    requires s.proc.pc.RestoreLoop? || s.proc.pc.RestoreWrite?
    ensures Inv(orig, s')
  {
    var files, todo := s.disk.files, s.proc.pc.todo;
    if s.proc.pc.RestoreWrite? {
      PutBackKeepsIntact(orig, files, todo, s.proc.pc.path);
      TornKeepsIntact(orig, files, s.proc.pending.Keys, s.proc.pc.path, Text(todo[s.proc.pc.path]));
    } else if todo == map[] {
      assert todo.Keys == {};
    } else {
      var p, torn :| p in todo && s' == Write(At(s, RestoreWrite(todo, p, s.proc.pc.dying)), p, torn);
      TornKeepsIntact(orig, files, todo.Keys, p, torn);
      TornKeepsIntact(orig, files, s.proc.pending.Keys, p, torn);
    }
  }

  lemma StepKeepsInv(orig: Files, s: State, a: Action, s': State)
    requires Inv(orig, s) && Next(s, a, s')
    requires a.Interrupt? ==> !Exposed(s)
    ensures Inv(orig, s')
  {
    if s.proc.Up? && Intact(orig, s.disk.files, {}) {
      IntactWeakens(orig, s.disk.files, {}, s.proc.pending.Keys);
    }
    if a.Advance? {
      match s.proc.pc
      case RecoverLoop(_) => AdvanceRecoverKeepsInv(orig, s, s');
      case RecoverWrite(_, _) => AdvanceRecoverKeepsInv(orig, s, s');
      case Ready => AdvancePatchKeepsInv(orig, s, s');
      case Journaling(_, _) => AdvancePatchKeepsInv(orig, s, s');
      case Mutating(_, _) => AdvancePatchKeepsInv(orig, s, s');
      case MutateWrite(_, _) => AdvancePatchKeepsInv(orig, s, s');
      case Testing => AdvancePatchKeepsInv(orig, s, s');
      case RestoreLoop(_, _) => AdvanceRestoreKeepsInv(orig, s, s');
      case RestoreWrite(_, _, _) => AdvanceRestoreKeepsInv(orig, s, s');
      case _ =>
    }
  }
}
