// What the journal protocol guarantees over whole runs: any number of processes,
// each killed, signalled or failing at any step.
module JournalRuns {
  import opened Common
  import opened SourceText
  import opened JournalProtocol
  import opened Utf8

  /** `t` lists the states of a run and `acts` the steps between them. */
  ghost predicate IsRun(t: seq<State>, acts: seq<Action>) {
    |t| == |acts| + 1 && forall i :: 0 <= i < |acts| ==> Next(t[i], acts[i], t[i + 1])
  }

  /** No signal and no exit hook starts `_restore` between the assignment of `_pending` and the journal. */
  ghost predicate Guarded(t: seq<State>, acts: seq<Action>) {
    |t| == |acts| + 1 && forall i :: 0 <= i < |acts| ==> acts[i].Interrupt? ==> !Exposed(t[i])
  }

  function Fresh(orig: Files): State {
    State(Disk(orig, None), Down)
  }

  predicate Recovered(s: State) {
    s.proc.Up? && s.proc.pc.Installing?
  }

  // ── crash safety ──────────────────────────────────────────────────────────

  lemma {:induction false} GuardedRunKeepsInv(orig: Files, t: seq<State>, acts: seq<Action>, i: nat)
    requires IsRun(t, acts) && Guarded(t, acts) && t[0] == Fresh(orig) && i < |t|
    ensures Inv(orig, t[i])
  {
    if i > 0 {
      GuardedRunKeepsInv(orig, t, acts, i - 1);
      StepKeepsInv(orig, t[i - 1], acts[i - 1], t[i]);
    }
  }

  /**
   * Whatever is killed, raised or signalled, and however often: the disk can always
   * be put right from what is on it, and every `recover` that completes has put it
   * right and left no journal.
   */
  lemma CrashSafety(orig: Files, t: seq<State>, acts: seq<Action>, i: nat)
    requires IsRun(t, acts) && Guarded(t, acts) && t[0] == Fresh(orig) && i < |t|
    ensures Safe(orig, t[i].disk)
    ensures Recovered(t[i]) ==> Clean(orig, t[i].disk)
  {
    GuardedRunKeepsInv(orig, t, acts, i);
  }

  predicate NoCarriageReturn(files: Files) {
    forall p | p in files && files[p].Text? :: '\r' !in files[p].text
  }

  /** With no carriage return in any text, original or torn, what comes back is the original, byte for byte. */
  lemma CrashSafetyToTheByte(orig: Files, t: seq<State>, acts: seq<Action>, i: nat)
    requires IsRun(t, acts) && Guarded(t, acts) && t[0] == Fresh(orig) && i < |t|
    requires NoCarriageReturn(orig) && NoCarriageReturn(t[i].disk.files)
    ensures Recovered(t[i]) ==> t[i].disk == Disk(orig, None)
  {
    CrashSafety(orig, t, acts, i);
    if Recovered(t[i]) {
      var files := t[i].disk.files;
      assert files.Keys == files.Keys - {} == orig.Keys - {} == orig.Keys;
      forall p | p in orig ensures files[p] == orig[p] { SameIsEqual(orig[p], files[p]); }
    }
  }

  // ── the window the handler opens ──────────────────────────────────────────

  /** The disk that is left when the handler, started in `s`, is killed while it writes `p`. */
  function HandlerKilled(s: State, p: Path, torn: Content): Disk
    requires s.proc.Up?
  {
    Write(Interrupted(s), p, torn).disk
  }

  /** Outside the window the handler may be killed in the middle of any of its writes, whatever that leaves. */
  lemma HandlerMayBeKilled(orig: Files, s: State, p: Path, torn: Content)
    requires Inv(orig, s) && s.proc.Up? && s.proc.handlers && !Exposed(s) && p in s.proc.pending
    ensures Safe(orig, HandlerKilled(s, p, torn))
  {
    TornKeepsIntact(orig, s.disk.files, s.proc.pending.Keys, p, torn);
  }

  /**
   * With what a killed write can leave, no kill of the handler does harm exactly when
   * the process was not exposed when the signal came, or nothing pending has any text.
   */
  lemma HandlerMayBeKilledIff(orig: Files, s: State)
    requires Inv(orig, s) && s.proc.Up? && s.proc.handlers
    ensures (forall p, c :: p in s.proc.pending && LeftBy(s.proc.pending[p], c) ==> Safe(orig, HandlerKilled(s, p, c)))
            <==> !Exposed(s) || forall p | p in s.proc.pending :: s.proc.pending[p] == ""
  {
    var pending := s.proc.pending;
    if !Exposed(s) {
      forall p, c | p in pending ensures Safe(orig, HandlerKilled(s, p, c)) { HandlerMayBeKilled(orig, s, p, c); }
    } else if p :| p in pending && pending[p] != "" {
      TextLeftIff(pending[p], "");
      WrittenShortIsNotSame(orig[p].text);
      assert p in orig.Keys - {};
      assert !Safe(orig, HandlerKilled(s, p, Text("")));
    } else {
      forall p, c | p in pending && LeftBy(pending[p], c) ensures Safe(orig, HandlerKilled(s, p, c)) {
        NothingLeftOfNothing(c);
        IntactReadsBack(orig, s.disk.files, pending, p);
        assert s.disk.files[p := c].Keys == s.disk.files.Keys;
      }
    }
  }

  lemma WrittenShortIsNotSame(text: string)
    ensures Same(Text(text), Text("")) <==> Universal(text) == ""
  {
  }

  lemma NothingLeftOfNothing(c: Content)
    requires LeftBy("", c)
    ensures c == Text("")
  {
    UndecodableLeftIff("");
    TextLeftIff("", c.text);
  }

  lemma RunsJoin(t: seq<State>, acts: seq<Action>, u: seq<State>, more: seq<Action>)
    requires IsRun(t, acts) && IsRun(u, more) && t[|acts|] == u[0]
    ensures IsRun(t + u[1..], acts + more)
  {
    var all, steps := t + u[1..], acts + more;
    forall i | 0 <= i < |steps| ensures Next(all[i], steps[i], all[i + 1]) {
      if i >= |acts| { assert Next(u[i - |acts|], more[i - |acts|], u[i - |acts| + 1]); }
    }
  }

  /** A first process, as far as the point where `_pending` is set and the journal is not yet written. */
  function ToPatch(orig: Files, rel: Path, mutated: string): seq<State>
    requires ReadText(orig, rel).Some?
  {
    var d := Disk(orig, None);
    [ State(d, Down),
      State(d, Up(Outside, map[], false)),
      State(d, Up(Starting, map[], false)),
      State(d, Up(Installing, map[], false)),
      State(d, Up(Ready, map[], true)),
      State(d, Up(Journaling(rel, mutated), map[rel := ReadText(orig, rel).value], true)) ]
  }

  const TO_PATCH := [Launch, Advance, Advance, Advance, Advance]

  lemma ToPatchIsRun(orig: Files, rel: Path, mutated: string)
    requires MayPatch(orig, rel, mutated)
    ensures IsRun(ToPatch(orig, rel, mutated), TO_PATCH)
  {
  }

  /** In every state of the run, a file being written holds what a killed write of that text leaves. */
  ghost predicate Faithful(t: seq<State>) {
    forall i :: 0 <= i < |t| ==> HoldsItsText(t[i])
  }

  ghost predicate HoldsItsText(s: State) {
    match Writing(s)
    case None => true
    case Some((p, text)) => p in s.disk.files && LeftBy(text, s.disk.files[p])
  }

  /** The file that is open for writing, and the text that goes into it. */
  function Writing(s: State): Option<(Path, string)> {
    if s.proc.Down? then None
    else match s.proc.pc
      case RecoverWrite(todo, p) => if p in todo then Some((p, todo[p])) else None
      case MutateWrite(rel, mutated) => Some((rel, mutated))
      case RestoreWrite(todo, p, _) => if p in todo then Some((p, todo[p])) else None
      case _ => None
  }

  /** Some run ends after a completed `recover` with the file as a killed write of its text leaves it, and not whole. */
  ghost predicate CanBeLost(orig: Files, rel: Path)
    requires ReadText(orig, rel).Some?
  {
    exists t: seq<State>, acts, c ::
      && IsRun(t, acts) && Faithful(t) && t[0] == Fresh(orig) && Recovered(t[|acts|])
      && LeftBy(ReadText(orig, rel).value, c) && t[|acts|].disk == Disk(orig[rel := c], None)
      && !Clean(orig, t[|acts|].disk)
  }

  /**
   * The harm is real for exactly the files that hold any text, among those a case can
   * patch: a signal in the window, a kill while the handler writes, and the next
   * `recover` completes on what the kill left.
   */
  lemma WindowLosesFileIff(orig: Files, rel: Path, mutated: string)
    requires MayPatch(orig, rel, mutated)
    ensures CanBeLost(orig, rel) <==> orig[rel].text != ""
  {
    var text := ReadText(orig, rel).value;
    assert text == "" <==> orig[rel].text == "";
    if text != "" {
      var c := Text("");
      TextLeftIff(text, "");
      WindowRun(orig, rel, mutated, c);
      var t: seq<State>, acts :| IsRun(t, acts) && Faithful(t) && t[0] == Fresh(orig) && Recovered(t[|acts|])
                                 && t[|acts|].disk == Disk(orig[rel := c], None);
      WrittenShortIsNotSame(orig[rel].text);
      assert !Intact(orig, orig[rel := c], {});
    } else {
      forall c | LeftBy(text, c) ensures orig[rel := c] == orig { NothingLeftOfNothing(c); }
      assert Intact(orig, orig, {});
    }
  }

  lemma OneWriteIsFaithful(t: seq<State>, k: nat)
    requires k < |t| && HoldsItsText(t[k]) && forall i | 0 <= i < |t| && i != k :: Writing(t[i]) == None
    ensures Faithful(t)
  {
  }

  /** From the point where `_pending` is set: a signal, a kill in the handler, the next start. */
  function LostInWindow(orig: Files, rel: Path, mutated: string, torn: Content): seq<State>
    requires ReadText(orig, rel).Some?
  {
    var lost := Disk(orig[rel := torn], None);
    var entries := map[rel := ReadText(orig, rel).value];
    [ ToPatch(orig, rel, mutated)[5],
      State(Disk(orig, None), Up(RestoreLoop(entries, true), entries, true)),
      State(lost, Up(RestoreWrite(entries, rel, true), entries, true)),
      State(lost, Down),
      State(lost, Up(Outside, map[], false)),
      State(lost, Up(Starting, map[], false)),
      State(lost, Up(Installing, map[], false)) ]
  }

  const LOST_IN_WINDOW := [Interrupt, Advance, Kill, Launch, Advance, Advance]

  lemma LostInWindowIsRun(orig: Files, rel: Path, mutated: string, torn: Content)
    requires MayPatch(orig, rel, mutated)
    ensures IsRun(LostInWindow(orig, rel, mutated, torn), LOST_IN_WINDOW)
  {
    var t := LostInWindow(orig, rel, mutated, torn);
    var entries := t[1].proc.pending;
    assert rel in entries && t[2] == Write(At(t[1], RestoreWrite(entries, rel, true)), rel, torn);
  }

  /** A run through the window, for everything that the kill can leave of the file. */
  lemma WindowRun(orig: Files, rel: Path, mutated: string, torn: Content)
    requires MayPatch(orig, rel, mutated) && LeftBy(ReadText(orig, rel).value, torn)
    ensures exists t: seq<State>, acts :: IsRun(t, acts) && Faithful(t) && t[0] == Fresh(orig) && Recovered(t[|acts|])
                              && t[|acts|].disk == Disk(orig[rel := torn], None)
  {
    hide IsRun, LeftBy, Faithful, Contains, ReplaceFirst, Universal;
    var start, end := ToPatch(orig, rel, mutated), LostInWindow(orig, rel, mutated, torn);
    ToPatchIsRun(orig, rel, mutated);
    LostInWindowIsRun(orig, rel, mutated, torn);
    RunsJoin(start, TO_PATCH, end, LOST_IN_WINDOW);
    var t, acts := start + end[1..], TO_PATCH + LOST_IN_WINDOW;
    assert t[7] == end[2] && t[|acts|] == end[6];
    OneWriteIsFaithful(t, 7);
    assert IsRun(t, acts) && Recovered(t[|acts|]);
  }

  /** Left to finish, the handler cleans up wherever the signal came, in the window too. */
  predicate HandlerInv(orig: Files, s: State) {
    match s.proc
    case Down => Clean(orig, s.disk)
    case Up(pc, pending, handlers) =>
      && handlers && Originals(orig, pending) && Intact(orig, s.disk.files, pending.Keys)
      && match pc
         case RestoreLoop(todo, dying) => dying && RestoreInv(orig, s, todo)
         case RestoreWrite(todo, p, dying) => dying && RestoreInv(orig, s, todo) && p in todo
         case RestoreClear(dying) => dying && Intact(orig, s.disk.files, {})
         case RestoreUnlink(dying) => dying && Intact(orig, s.disk.files, {}) && pending == map[]
         case _ => false
  }

  lemma HandlerStepKeepsInv(orig: Files, s: State, a: Action, s': State)
    requires HandlerInv(orig, s) && Next(s, a, s') && (a.Advance? || a.Interrupt?)
    ensures HandlerInv(orig, s')
  {
    var files := s.disk.files;
    if a.Advance? && s.proc.pc.RestoreWrite? {
      PutBackKeepsIntact(orig, files, s.proc.pc.todo, s.proc.pc.path);
      TornKeepsIntact(orig, files, s.proc.pending.Keys, s.proc.pc.path, Text(s.proc.pc.todo[s.proc.pc.path]));
    } else if a.Advance? && s.proc.pc.RestoreLoop? {
      var todo := s.proc.pc.todo;
      if todo == map[] {
        assert todo.Keys == {};
      } else {
        var p, torn :| p in todo && s' == Write(At(s, RestoreWrite(todo, p, true)), p, torn);
        TornKeepsIntact(orig, files, todo.Keys, p, torn);
        TornKeepsIntact(orig, files, s.proc.pending.Keys, p, torn);
      }
    } else if a.Advance? && s.proc.pc.RestoreClear? {
      assert Forget(s).proc.pending.Keys == {};
    }
  }

  lemma {:induction false} HandlerRunKeepsInv(orig: Files, s: State, t: seq<State>, acts: seq<Action>, i: nat)
    requires Inv(orig, s) && s.proc.Up? && s.proc.handlers
    requires IsRun(t, acts) && t[0] == Interrupted(s) && i < |t|
    requires forall k :: 0 <= k < |acts| ==> acts[k].Advance? || acts[k].Interrupt?
    ensures HandlerInv(orig, t[i])
  {
    if i > 0 {
      HandlerRunKeepsInv(orig, s, t, acts, i - 1);
      HandlerStepKeepsInv(orig, t[i - 1], acts[i - 1], t[i]);
    } else if Intact(orig, s.disk.files, {}) {
      IntactWeakens(orig, s.disk.files, {}, s.proc.pending.Keys);
    }
  }

  /**
   * A signal at any step whatsoever, further signals during the handler included:
   * if the handler ends the process, the tree is whole and no journal is left.
   */
  lemma SignalRestores(orig: Files, s: State, t: seq<State>, acts: seq<Action>)
    requires Inv(orig, s) && s.proc.Up? && s.proc.handlers
    requires IsRun(t, acts) && t[0] == Interrupted(s)
    requires forall k :: 0 <= k < |acts| ==> acts[k].Advance? || acts[k].Interrupt?
    ensures t[|acts|].proc.Down? ==> Clean(orig, t[|acts|].disk)
  {
    HandlerRunKeepsInv(orig, s, t, acts, |acts|);
  }

  /** The `finally` block is at work. */
  predicate Finally(s: State) {
    s.proc.Up? && match s.proc.pc
    case RestoreLoop(_, dying) => !dying
    case RestoreWrite(_, _, dying) => !dying
    case RestoreClear(dying) => !dying
    case RestoreUnlink(dying) => !dying
    case _ => false
  }

  lemma {:induction false} AdvancesKeepInv(orig: Files, t: seq<State>, acts: seq<Action>, i: nat)
    requires IsRun(t, acts) && Inv(orig, t[0]) && i < |t| && forall k :: 0 <= k < |acts| ==> !acts[k].Interrupt?
    ensures Inv(orig, t[i])
  {
    if i > 0 {
      AdvancesKeepInv(orig, t, acts, i - 1);
      StepKeepsInv(orig, t[i - 1], acts[i - 1], t[i]);
    }
  }

  /** An exception out of the tests starts the `finally` block, and when that is done the tree is whole and no journal is left. */
  lemma ExceptionRestores(orig: Files, t: seq<State>, acts: seq<Action>, n: nat)
    requires IsRun(t, acts) && Inv(orig, t[0]) && t[0].proc.Up? && t[0].proc.pc.Testing?
    requires acts != [] && acts[0].Raise? && forall k :: 1 <= k < |acts| ==> acts[k].Advance?
    requires 0 < n < |t| && !Finally(t[n]) && forall k :: 1 <= k < n ==> Finally(t[k])
    ensures n > 1 && Clean(orig, t[n].disk)
  {
    assert Next(t[0], acts[0], t[1]);
    assert Next(t[n - 1], acts[n - 1], t[n]);
    AdvancesKeepInv(orig, t, acts, n - 1);
    AdvancesKeepInv(orig, t, acts, n);
  }

  /** A `_restore` with nothing pending and no journal, or a process that is gone after one. */
  predicate Idle(s: State) {
    s.disk.journal.None? && (s.proc.Up? ==>
      && s.proc.handlers && s.proc.pending == map[]
      && (s.proc.pc == RestoreLoop(map[], true) || s.proc.pc == RestoreClear(true) || s.proc.pc == RestoreUnlink(true)))
  }

  lemma {:induction false} IdleStaysIdle(t: seq<State>, acts: seq<Action>, i: nat)
    requires IsRun(t, acts) && Idle(t[0]) && i < |t|
    requires forall k :: 0 <= k < |acts| ==> !acts[k].Raise? && !acts[k].Launch?
    ensures Idle(t[i]) && t[i].disk == t[0].disk
  {
    if i > 0 {
      IdleStaysIdle(t, acts, i - 1);
      assert Next(t[i - 1], acts[i - 1], t[i]);
    }
  }

  /**
   * A `_restore` that has come to its end may be started again, by a signal or the exit
   * hook, with more signals on top or a kill anywhere: the disk stays as it is.
   */
  lemma RestoreTwiceIsOnce(orig: Files, s: State, s': State, t: seq<State>, acts: seq<Action>)
    requires Inv(orig, s) && s.proc.Up? && s.proc.pc.RestoreUnlink? && Advances(s, s') && s'.proc.Up?
    requires IsRun(t, acts) && t[0] == Interrupted(s')
    requires forall k :: 0 <= k < |acts| ==> !acts[k].Raise? && !acts[k].Launch?
    ensures t[|acts|].disk == s'.disk
  {
    IdleStaysIdle(t, acts, |acts|);
  }

  // ── when `recover` completes ──────────────────────────────────────────────

  ghost predicate RunsOnTo(t: seq<State>, acts: seq<Action>, s: State) {
    IsRun(t, acts) && t[0] == s && Recovered(t[|acts|]) && forall k :: 0 <= k < |acts| ==> acts[k].Advance?
  }

  function Recovery(d: Disk, pc: Pc): State {
    State(d, Up(pc, map[], false))
  }

  lemma RunsOnFrom(s: State, s': State, t: seq<State>, acts: seq<Action>)
    requires s.proc.Up? && Advances(s, s') && RunsOnTo(t, acts, s')
    ensures RunsOnTo([s] + t, [Advance] + acts, s)
  {
    var u, b := [s] + t, [Advance] + acts;
    forall i | 0 <= i < |b| ensures Next(u[i], b[i], u[i + 1]) {
      if i > 0 { assert Next(t[i - 1], acts[i - 1], t[i]); }
    }
  }

  lemma {:induction false} RecoverLoopRunsOn(d: Disk, todo: Entries)
    requires d.journal.Some? && forall p | p in todo :: !Unreadable(d.files, p)
    ensures exists t, acts :: RunsOnTo(t, acts, Recovery(d, RecoverLoop(todo)))
    decreases todo.Keys
  {
    var s := Recovery(d, RecoverLoop(todo));
    if todo == map[] {
      var end := Recovery(d.(journal := None), Installing);
      assert RunsOnTo([end], [], end);
      var unlink, clear := Recovery(d, RecoverUnlink), Recovery(d, RecoverClear);
      RunsOnFrom(unlink, end, [end], []);
      RunsOnFrom(clear, unlink, [unlink] + [end], [Advance] + []);
      RunsOnFrom(s, clear, [clear] + ([unlink] + [end]), [Advance] + ([Advance] + []));
    } else {
      var p :| p in todo;
      var rest := todo - {p};
      assert rest.Keys == todo.Keys - {p};
      if ReadText(d.files, p) == Some(todo[p]) {
        RecoverLoopRunsOn(d, rest);
        var t, acts :| RunsOnTo(t, acts, Recovery(d, RecoverLoop(rest)));
        RunsOnFrom(s, Recovery(d, RecoverLoop(rest)), t, acts);
      } else {
        var put := Text(todo[p]);
        var d' := d.(files := d.files[p := put]);
        RecoverLoopRunsOn(d', rest);
        var t, acts :| RunsOnTo(t, acts, Recovery(d', RecoverLoop(rest)));
        var mid := Recovery(d', RecoverWrite(todo, p));
        assert Write(mid, p, put) == mid;
        RunsOnFrom(mid, Recovery(d', RecoverLoop(rest)), t, acts);
        assert mid == Write(At(s, RecoverWrite(todo, p)), p, put);
        RunsOnFrom(s, mid, [mid] + t, [Advance] + acts);
      }
    }
  }

  /** `p` is still to be read, and reading it raises. */
  predicate Blocked(s: State, p: Path) {
    && s.proc.Up? && Unreadable(s.disk.files, p)
    && match s.proc.pc
       case Starting => s.disk.journal.Some? && p in s.disk.journal.value
       case RecoverLoop(todo) => p in todo
       case RecoverWrite(todo, q) => p in todo && q != p
       case _ => false
  }

  lemma {:induction false} BlockedStaysBlocked(p: Path, t: seq<State>, acts: seq<Action>, i: nat)
    requires IsRun(t, acts) && Blocked(t[0], p) && i < |t| && forall k :: 0 <= k < |acts| ==> acts[k].Advance?
    ensures Blocked(t[i], p)
  {
    if i > 0 {
      BlockedStaysBlocked(p, t, acts, i - 1);
      assert Next(t[i - 1], acts[i - 1], t[i]);
    }
  }

  /** `recover` can complete exactly when every file the journal names, if it exists, decodes. */
  lemma RecoverCompletesIff(d: Disk)
    ensures (exists t, acts :: RunsOnTo(t, acts, Recovery(d, Starting))) <==> AllReadable(d)
  {
    var s := Recovery(d, Starting);
    if !AllReadable(d) {
      var p :| p in d.journal.value && Unreadable(d.files, p);
      forall t, acts | RunsOnTo(t, acts, s) ensures false {
        BlockedStaysBlocked(p, t, acts, |acts|);
      }
    } else if d.journal.None? {
      var end := Recovery(d, Installing);
      assert RunsOnTo([end], [], end);
      RunsOnFrom(s, end, [end], []);
    } else {
      RecoverLoopRunsOn(d, d.journal.value);
      var t, acts :| RunsOnTo(t, acts, Recovery(d, RecoverLoop(d.journal.value)));
      RunsOnFrom(s, Recovery(d, RecoverLoop(d.journal.value)), t, acts);
    }
  }

  // ── when it cannot ────────────────────────────────────────────────────────

  /** Some run without a signal, killed in the middle of writing the patched file, is followed by no complete `recover`. */
  ghost predicate CanBlock(orig: Files, rel: Path, mutated: string)
    requires ReadText(orig, rel).Some?
  {
    exists t: seq<State>, acts, c ::
      && IsRun(t, acts) && Guarded(t, acts) && Faithful(t) && t[0] == Fresh(orig) && t[|acts|].proc.Down?
      && LeftBy(mutated, c) && t[|acts|].disk == MutateKilled(orig, rel, c)
      && !AllReadable(t[|acts|].disk)
  }

  function MutateKilled(orig: Files, rel: Path, c: Content): Disk
    requires ReadText(orig, rel).Some?
  {
    Disk(orig[rel := c], Some(map[rel := ReadText(orig, rel).value]))
  }

  /**
   * The condition can fail, with no signal at all: a kill while the patched file is
   * being written cuts a character in two, for exactly the texts that are not ASCII.
   */
  lemma TornCharacterBlocksIff(orig: Files, rel: Path, mutated: string)
    requires MayPatch(orig, rel, mutated)
    ensures CanBlock(orig, rel, mutated) <==> !Ascii(mutated)
  {
    UndecodableLeftIff(mutated);
    if !Ascii(mutated) {
      var c :| LeftBy(mutated, c) && c.Undecodable?;
      MutateRun(orig, rel, mutated, c);
      var t: seq<State>, acts :| IsRun(t, acts) && Guarded(t, acts) && Faithful(t) && t[0] == Fresh(orig)
                                 && t[|acts|].proc.Down? && t[|acts|].disk == MutateKilled(orig, rel, c);
      assert rel in t[|acts|].disk.journal.value;
    }
  }

  /** From the point where `_pending` is set: the journal, then a kill while the patched file is written. */
  function KilledInWrite(orig: Files, rel: Path, mutated: string, torn: Content): seq<State>
    requires ReadText(orig, rel).Some?
  {
    var entries := map[rel := ReadText(orig, rel).value];
    var lost := MutateKilled(orig, rel, torn);
    [ ToPatch(orig, rel, mutated)[5],
      State(Disk(orig, Some(entries)), Up(Mutating(rel, mutated), entries, true)),
      State(lost, Up(MutateWrite(rel, mutated), entries, true)),
      State(lost, Down) ]
  }

  const KILLED_IN_WRITE := [Advance, Advance, Kill]

  lemma KilledInWriteIsRun(orig: Files, rel: Path, mutated: string, torn: Content)
    requires MayPatch(orig, rel, mutated)
    ensures IsRun(KilledInWrite(orig, rel, mutated, torn), KILLED_IN_WRITE)
  {
    var t := KilledInWrite(orig, rel, mutated, torn);
    assert t[2] == Write(At(t[1], MutateWrite(rel, mutated)), rel, torn);
  }

  /** A run killed in the middle of writing the patched file, for everything that the kill can leave of it. */
  lemma MutateRun(orig: Files, rel: Path, mutated: string, torn: Content)
    requires MayPatch(orig, rel, mutated) && LeftBy(mutated, torn)
    ensures exists t: seq<State>, acts :: IsRun(t, acts) && Guarded(t, acts) && Faithful(t) && t[0] == Fresh(orig)
                              && t[|acts|].proc.Down? && t[|acts|].disk == MutateKilled(orig, rel, torn)
  {
    hide IsRun, LeftBy, Faithful, Contains, ReplaceFirst, Universal;
    var start, end := ToPatch(orig, rel, mutated), KilledInWrite(orig, rel, mutated, torn);
    ToPatchIsRun(orig, rel, mutated);
    KilledInWriteIsRun(orig, rel, mutated, torn);
    RunsJoin(start, TO_PATCH, end, KILLED_IN_WRITE);
    var t, acts := start + end[1..], TO_PATCH + KILLED_IN_WRITE;
    assert t[7] == end[2] && t[|acts|] == end[3];
    OneWriteIsFaithful(t, 7);
    assert IsRun(t, acts) && Guarded(t, acts);
  }

  ghost predicate WritesAscii(t: seq<State>) {
    forall i :: 0 <= i < |t| && Writing(t[i]).Some? ==> Ascii(Writing(t[i]).value.1)
  }

  /** Every file named here is there and decodes. */
  predicate AllText(files: Files, names: set<Path>) {
    forall p | p in names :: p in files && files[p].Text?
  }

  /** What the journal, `_pending` and the loops over them name. */
  function Named(s: State): set<Path> {
    (if s.disk.journal.Some? then s.disk.journal.value.Keys else {})
    + if s.proc.Down? then {} else s.proc.pending.Keys + match s.proc.pc
        case RecoverLoop(todo) => todo.Keys
        case RecoverWrite(todo, _) => todo.Keys
        case Mutating(rel, _) => {rel}
        case MutateWrite(rel, _) => {rel}
        case Journaling(rel, _) => {rel}
        case RestoreLoop(todo, _) => todo.Keys
        case RestoreWrite(todo, _, _) => todo.Keys
        case _ => {}
  }

  ghost predicate WritesText(s: State) {
    HoldsItsText(s) && (Writing(s).Some? ==> Ascii(Writing(s).value.1))
  }

  lemma WritesTextOnly(s: State)
    requires WritesText(s) && Writing(s).Some?
    ensures Writing(s).value.0 in s.disk.files && s.disk.files[Writing(s).value.0].Text?
  {
    UndecodableLeftIff(Writing(s).value.1);
  }

  lemma TextIsPut(files: Files, names: set<Path>, more: set<Path>, p: Path, c: Content)
    requires AllText(files, names) && c.Text? && more <= names + {p}
    ensures AllText(files[p := c], more)
  {
  }

  lemma LoopKeepsText(s: State, s': State)
    requires s.proc.Up? && Advances(s, s') && AllText(s.disk.files, Named(s)) && WritesText(s')
    requires s.proc.pc.RecoverLoop? || s.proc.pc.RestoreLoop? || s.proc.pc.Mutating?
    ensures AllText(s'.disk.files, Named(s'))
  {
    hide WritesText;
    if Writing(s').None? {
      assert s'.disk == s.disk && Named(s') <= Named(s);
    } else {
      hide AllText;
      WritesTextOnly(s');
      var p := Writing(s').value.0;
      var c := s'.disk.files[p];
      assert s'.disk.files == s.disk.files[p := c];
      TextIsPut(s.disk.files, Named(s), Named(s'), p, c);
    }
  }

  lemma WrittenKeepsText(s: State, s': State)
    requires s.proc.Up? && Advances(s, s') && AllText(s.disk.files, Named(s))
    requires s.proc.pc.RecoverWrite? || s.proc.pc.RestoreWrite? || s.proc.pc.MutateWrite?
    ensures AllText(s'.disk.files, Named(s'))
  {
    hide Universal, Contains, ReplaceFirst;
    assert s'.disk.journal == s.disk.journal && Named(s') <= Named(s);
  }

  lemma QuietKeepsText(s: State, s': State)
    requires s.proc.Up? && Advances(s, s') && AllText(s.disk.files, Named(s))
    requires !(s.proc.pc.RecoverLoop? || s.proc.pc.RestoreLoop? || s.proc.pc.Mutating?)
    requires !(s.proc.pc.RecoverWrite? || s.proc.pc.RestoreWrite? || s.proc.pc.MutateWrite?)
    ensures AllText(s'.disk.files, Named(s'))
  {
    hide Universal, Contains, ReplaceFirst;
    assert s'.disk.files == s.disk.files;
    if !s.proc.pc.Ready? { assert Named(s') <= Named(s); }
  }

  lemma StepKeepsText(s: State, a: Action, s': State)
    requires Next(s, a, s') && AllText(s.disk.files, Named(s)) && WritesText(s')
    ensures AllText(s'.disk.files, Named(s'))
  {
    hide WritesText, Universal, Contains, ReplaceFirst;
    if !a.Advance? {
      assert s'.disk == s.disk && Named(s') <= Named(s);
    } else if s.proc.pc.RecoverLoop? || s.proc.pc.RestoreLoop? || s.proc.pc.Mutating? {
      LoopKeepsText(s, s');
    } else if s.proc.pc.RecoverWrite? || s.proc.pc.RestoreWrite? || s.proc.pc.MutateWrite? {
      WrittenKeepsText(s, s');
    } else {
      QuietKeepsText(s, s');
    }
  }

  /**
   * While only ASCII texts are written, whatever is killed, raised or signalled and
   * whenever, the window included, `recover` can complete.
   */
  lemma {:induction false} AsciiNeverBlocks(orig: Files, t: seq<State>, acts: seq<Action>, i: nat)
    requires IsRun(t, acts) && Faithful(t) && WritesAscii(t) && t[0] == Fresh(orig) && i < |t|
    ensures AllText(t[i].disk.files, Named(t[i])) && AllReadable(t[i].disk)
  {
    if i > 0 {
      AsciiNeverBlocks(orig, t, acts, i - 1);
      StepKeepsText(t[i - 1], acts[i - 1], t[i]);
    }
  }
}
