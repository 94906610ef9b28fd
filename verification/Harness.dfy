// The harness itself (scripts/mutate.py, class Harness). Every assignment to a file,
// to the journal or to `_pending` is logged, and the log is shown to be a path of
// the journal protocol: what is proved of the protocol holds of this code.
module Harness {
  import opened Common
  import opened SourceText
  import opened JournalProtocol

  datatype Case = Case(rel: Path, pat: string, sub: string)

  /** What a test command says of a tree: its exit status, and whether its output shows a build failure. */
  datatype TestResult = TestResult(green: bool, build: bool)

  datatype Verdict = Killed | Survived | NotAKill | Skipped | NotShipped

  datatype Counts = Counts(killed: nat, survived: nat, notakill: nat, skipped: nat, notshipped: nat)

  function Count(c: Counts, v: Verdict): Counts {
    match v
    case Killed => c.(killed := c.killed + 1)
    case Survived => c.(survived := c.survived + 1)
    case NotAKill => c.(notakill := c.notakill + 1)
    case Skipped => c.(skipped := c.skipped + 1)
    case NotShipped => c.(notshipped := c.notshipped + 1)
  }

  const ZERO := Counts(0, 0, 0, 0, 0)

  datatype Applied = Patched | Unpatched | Failed

  predicate Patches(files: Files, c: Case) {
    ReadText(files, c.rel).Some? && Contains(ReadText(files, c.rel).value, c.pat)
  }

  function Patch(files: Files, c: Case): Files
    requires Patches(files, c)
  {
    files[c.rel := Text(ReplaceFirst(ReadText(files, c.rel).value, c.pat, c.sub))]
  }

  function Judge(files: Files, absent: set<Path>, c: Case, test: Files -> TestResult): Verdict {
    if Patches(files, c) then
      var r := test(Patch(files, c));
      if !r.green && r.build then NotAKill else if r.green then Survived else Killed
    else if c.rel !in files || c.rel in absent then NotShipped
    else Skipped
  }

  // What is tried, said of texts and positions and not of the functions above.

  /** The pattern of the case occurs in its file, as read. */
  ghost predicate Found(files: Files, c: Case) {
    ReadText(files, c.rel).Some? && exists i :: OccursAt(ReadText(files, c.rel).value, c.pat, i)
  }

  /** In `damaged` the first occurrence of the pattern, and nothing else of any file, has been replaced. */
  ghost predicate Damaged(files: Files, c: Case, damaged: Files) {
    ReadText(files, c.rel).Some? && exists i :: DamagedAt(files, c, damaged, i)
  }

  ghost predicate DamagedAt(files: Files, c: Case, damaged: Files, i: int)
    requires ReadText(files, c.rel).Some?
  {
    var src := ReadText(files, c.rel).value;
    FirstAt(src, c.pat, i) && damaged == files[c.rel := Text(src[..i] + c.sub + src[i + |c.pat|..])]
  }

  /**
   * `v` is what is said of a case: whether its file is there, whether the pattern is in
   * it, and, on the damaged tree, whether the tests stay green and else whether it builds.
   */
  ghost predicate IsVerdict(files: Files, absent: set<Path>, c: Case, test: Files -> TestResult, v: Verdict) {
    && (v.NotShipped? <==> !Found(files, c) && (c.rel !in files || c.rel in absent))
    && (v.Skipped? <==> !Found(files, c) && c.rel in files && c.rel !in absent)
    && (v.Survived? <==> exists damaged :: Damaged(files, c, damaged) && test(damaged).green)
    && (v.Killed? <==> exists damaged :: Damaged(files, c, damaged) && !test(damaged).green && !test(damaged).build)
    && (v.NotAKill? <==> exists damaged :: Damaged(files, c, damaged) && !test(damaged).green && test(damaged).build)
  }

  lemma PatchesIfFound(files: Files, c: Case)
    ensures Patches(files, c) <==> Found(files, c)
  {
    if ReadText(files, c.rel).Some? {
      hide OccursAt, Contains;
      FindIsFirst(ReadText(files, c.rel).value, c.pat);
    }
  }

  lemma PatchIsDamage(files: Files, c: Case)
    requires Patches(files, c)
    ensures Damaged(files, c, Patch(files, c))
  {
    hide ReadText, Contains, FirstAt, ReplaceFirst, Damaged;
    var src := ReadText(files, c.rel).value;
    var i := ReplacesTheFirst(src, c.pat, c.sub);
    DamagedByText(files, c, ReplaceFirst(src, c.pat, c.sub), i);
  }

  lemma DamagedByText(files: Files, c: Case, text: string, i: int)
    requires ReadText(files, c.rel).Some?
    requires var src := ReadText(files, c.rel).value;
             FirstAt(src, c.pat, i) && text == src[..i] + c.sub + src[i + |c.pat|..]
    ensures Damaged(files, c, files[c.rel := Text(text)])
  {
    hide ReadText, FirstAt;
    assert DamagedAt(files, c, files[c.rel := Text(text)], i);
  }

  lemma DamageIsOne(files: Files, c: Case, a: Files, b: Files)
    requires Damaged(files, c, a) && Damaged(files, c, b)
    ensures a == b && Found(files, c)
  {
    var src := ReadText(files, c.rel).value;
    var i :| DamagedAt(files, c, a, i);
    var j :| DamagedAt(files, c, b, j);
    FirstIsOne(src, c.pat, i, j);
    assert OccursAt(src, c.pat, i);
  }

  /** Every case that finds its pattern damages its file in one way. */
  lemma PatchDamages(files: Files, c: Case)
    ensures Patches(files, c) <==> Found(files, c)
    ensures Patches(files, c) ==> Damaged(files, c, Patch(files, c))
    ensures forall damaged :: Damaged(files, c, damaged) ==> Patches(files, c) && damaged == Patch(files, c)
  {
    hide Patches, Found, Damaged, Patch;
    PatchesIfFound(files, c);
    if Patches(files, c) { PatchIsDamage(files, c); }
    forall damaged | Damaged(files, c, damaged) ensures Patches(files, c) && damaged == Patch(files, c) {
      DamageIsOne(files, c, damaged, damaged);
      DamageIsOne(files, c, damaged, Patch(files, c));
    }
  }

  lemma JudgeIsVerdict(files: Files, absent: set<Path>, c: Case, test: Files -> TestResult)
    ensures IsVerdict(files, absent, c, test, Judge(files, absent, c, test))
  {
    PatchDamages(files, c);
    hide Damaged, Found, Patch, Patches;
  }

  /** The tree after a case has been tried and undone. */
  function After(files: Files, c: Case): Files {
    if Patches(files, c) then files[c.rel := Text(ReadText(files, c.rel).value)] else files
  }

  function AfterAll(files: Files, cases: seq<Case>): Files {
    if cases == [] then files else After(AfterAll(files, cases[..|cases| - 1]), cases[|cases| - 1])
  }

  function Tally(files: Files, absent: set<Path>, cases: seq<Case>, test: Files -> TestResult): Counts {
    if cases == [] then ZERO
    else
      var before := cases[..|cases| - 1];
      Count(Tally(files, absent, before, test), Judge(AfterAll(files, before), absent, cases[|cases| - 1], test))
  }

  /** What `recover` makes of the files: those that read otherwise than the journal says are rewritten. */
  function PutBack(files: Files, e: Entries): Files {
    map p | p in files.Keys + e.Keys ::
      if p in e && ReadText(files, p) != Some(e[p]) then Text(e[p]) else files[p]
  }

  /** What `_restore` makes of them: every file named is rewritten. */
  function Overwrite(files: Files, e: Entries): Files {
    map p | p in files.Keys + e.Keys :: if p in e then Text(e[p]) else files[p]
  }

  lemma PutBackStep(files: Files, e: Entries, todo: Entries, p: Path)
    requires p in todo && todo.Keys <= e.Keys
    ensures var before, after := PutBack(files, e - todo.Keys), PutBack(files, e - (todo - {p}).Keys);
            && ReadText(before, p) == ReadText(files, p) && (Unreadable(before, p) <==> Unreadable(files, p))
            && after == if ReadText(files, p) != Some(e[p]) then before[p := Text(e[p])] else before
  {
    assert (todo - {p}).Keys == todo.Keys - {p};
    assert e - (todo - {p}).Keys == (e - todo.Keys)[p := e[p]];
  }

  lemma OverwriteStep(files: Files, e: Entries, todo: Entries, p: Path)
    requires p in todo && todo.Keys <= e.Keys
    ensures Overwrite(files, e - (todo - {p}).Keys) == Overwrite(files, e - todo.Keys)[p := Text(e[p])]
  {
    assert (todo - {p}).Keys == todo.Keys - {p};
    assert e - (todo - {p}).Keys == (e - todo.Keys)[p := e[p]];
  }

  lemma NothingWritten(files: Files, e: Entries)
    ensures PutBack(files, e - e.Keys) == Overwrite(files, e - e.Keys) == files
  {
  }

  ghost predicate IsPath(t: seq<State>) {
    forall i :: 0 <= i < |t| - 1 ==> t[i].proc.Up? && AdvancesAt(t, i)
  }

  ghost predicate AdvancesAt(t: seq<State>, i: nat)
    requires i + 1 < |t| && t[i].proc.Up?
  {
    Advances(t[i], t[i + 1])
  }

  function Mended(d: Disk): Files {
    match d.journal
    case None => d.files
    case Some(e) => PutBack(d.files, e)
  }

  /** How `run` ends, started on `d`: exception, exit code, counts, and the files it leaves. */
  predicate RunResult(d: Disk, absent: set<Path>, strict: bool, cases: seq<Case>, test: Files -> TestResult,
                      raised: bool, rc: int, counts: Counts, files: Files)
  {
    var f := Mended(d);
    if !AllReadable(d) then raised
    else if !test(f).green then !raised && rc == 1 && counts == ZERO && files == f
    else if exists i :: 0 <= i < |cases| && Unreadable(f, cases[i].rel) then raised
    else
      && !raised && files == AfterAll(f, cases) && counts == Tally(f, absent, cases, test)
      && rc == if test(files).green && counts.survived == 0 && (strict ==> counts.skipped == 0) then 0 else 1
  }

  lemma {:induction false} PathKeepsInv(orig: Files, t: seq<State>, from: nat)
    requires IsPath(t) && from < |t| && Inv(orig, t[from])
    ensures forall i :: from <= i < |t| ==> Inv(orig, t[i])
    decreases |t| - from
  {
    if from + 1 < |t| {
      assert AdvancesAt(t, from);
      StepKeepsInv(orig, t[from], Advance, t[from + 1]);
      PathKeepsInv(orig, t, from + 1);
    }
  }

  // The steps of the protocol, as the code below takes them.

  lemma RecoverOpens(s: State, todo: Entries, p: Path, torn: Content)
    requires s.proc.Up? && s.proc.pc == RecoverLoop(todo) && p in todo
    requires !Unreadable(s.disk.files, p) && ReadText(s.disk.files, p) != Some(todo[p])
    ensures Advances(s, Write(At(s, RecoverWrite(todo, p)), p, torn))
  {
    var s' := Write(At(s, RecoverWrite(todo, p)), p, torn);
    assert exists c :: s' == Write(At(s, RecoverWrite(todo, p)), p, c);
  }

  lemma PatchBegins(s: State, c: Case)
    requires s.proc.Up? && s.proc.pc.Ready? && Patches(s.disk.files, c)
    ensures var src := ReadText(s.disk.files, c.rel).value;
            Advances(s, State(s.disk, Up(Journaling(c.rel, ReplaceFirst(src, c.pat, c.sub)), map[c.rel := src], s.proc.handlers)))
  {
    assert MayPatch(s.disk.files, c.rel, ReplaceFirst(ReadText(s.disk.files, c.rel).value, c.pat, c.sub));
  }

  lemma PatchOpens(s: State, rel: Path, mutated: string, torn: Content)
    requires s.proc.Up? && s.proc.pc == Mutating(rel, mutated)
    ensures Advances(s, Write(At(s, MutateWrite(rel, mutated)), rel, torn))
  {
    var s' := Write(At(s, MutateWrite(rel, mutated)), rel, torn);
    assert exists c :: s' == Write(At(s, MutateWrite(rel, mutated)), rel, c);
  }

  lemma RestoreOpens(s: State, todo: Entries, p: Path, torn: Content)
    requires s.proc.Up? && s.proc.pc == RestoreLoop(todo, false) && p in todo
    ensures Advances(s, Write(At(s, RestoreWrite(todo, p, false)), p, torn))
  {
    var s' := Write(At(s, RestoreWrite(todo, p, false)), p, torn);
    assert exists q, c | q in todo :: s' == Write(At(s, RestoreWrite(todo, q, false)), q, c);
  }

  class Harness {
    var files: Files
    var journal: Option<Entries>
    var pending: Entries
    var installed: bool
    var absent: set<Path>
    const strict: bool
    ghost var pc: Pc
    ghost var trace: seq<State>

    constructor (files: Files, journal: Option<Entries>, strict: bool)
      ensures Valid() && pc.Outside? && trace == [Now()]
      ensures this.files == files && this.journal == journal && pending == map[] && !installed && absent == {}
      ensures this.strict == strict
    {
      this.files, this.journal, this.strict := files, journal, strict;
      pending, installed, absent := map[], false, {};
      pc := Outside;
      trace := [State(Disk(files, journal), Up(Outside, map[], false))];
    }

    ghost function Now(): State
      reads this
    {
      State(Disk(files, journal), Up(pc, pending, installed))
    }

    /** The log is a path of the protocol that ends in `s`. */
    ghost predicate Logged(s: State)
      reads this`trace
    {
      trace != [] && trace[|trace| - 1] == s && IsPath(trace)
    }

    ghost predicate Valid()
      reads this
    {
      Logged(Now())
    }

    ghost method Log(before: State)
      requires Logged(before) && before.proc.Up? && Advances(before, Now())
      modifies this`trace
      ensures Valid() && old(trace) <= trace
    {
      trace := trace + [Now()];
      assert AdvancesAt(trace, |trace| - 2);
      forall i | 0 <= i < |trace| - 2 ensures AdvancesAt(trace, i) {
        assert AdvancesAt(old(trace), i);
      }
    }

    ghost method Step(next: Pc)
      requires Valid() && Advances(Now(), At(Now(), next))
      modifies this`pc, this`trace
      ensures Valid() && old(trace) <= trace && pc == next
    {
      ghost var s := Now();
      pc := next;
      Log(s);
    }

    /** `_clear_journal`, reached from `recover` or from `_restore`. */
    method ClearJournal()
      requires Valid() && (pc.RecoverClear? || pc == RestoreClear(false))
      modifies this
      ensures Valid() && old(trace) <= trace
      ensures pc == if old(pc).RecoverClear? then Installing else Ready
      ensures journal.None? && pending == map[]
      ensures unchanged(`files) && unchanged(`installed) && unchanged(`absent)
    {
      hide Harness.Logged;
      ghost var s := Now();
      pending, pc := map[], if pc.RecoverClear? then RecoverUnlink else RestoreUnlink(false);
      Log(s);
      s := Now();
      if journal.Some? {
        journal := None;
      }
      pc := if pc.RecoverUnlink? then Installing else Ready;
      Log(s);
    }

    /** `_write` from `recover`: the file holds anything at all until its text is written. */
    method RecoverFile(todo: Entries, p: Path)
      requires Valid() && pc == RecoverLoop(todo) && p in todo
      requires !Unreadable(files, p) && ReadText(files, p) != Some(todo[p])
      modifies this`files, this`pc, this`trace
      ensures Valid() && old(trace) <= trace && pc == RecoverLoop(todo - {p})
      ensures files == old(files)[p := Text(todo[p])]
    {
      hide Harness.Logged;
      var torn: Content := *;
      ghost var s := Now();
      RecoverOpens(s, todo, p, torn);
      files, pc := files[p := torn], RecoverWrite(todo, p);
      Log(s);
      s := Now();
      files, pc := files[p := Text(todo[p])], RecoverLoop(todo - {p});
      Log(s);
    }

    /** `recover`. `ok` is false when reading a file raised. */
    method Recover() returns (ok: bool, restored: seq<Path>)
      requires Valid() && pc.Starting?
      modifies this
      ensures Valid() && old(trace) <= trace
      ensures unchanged(`installed) && unchanged(`absent)
      ensures ok <==> AllReadable(Disk(old(files), old(journal)))
      ensures ok ==> pc.Installing? && journal.None?
      ensures ok ==> files == (if old(journal).None? then old(files) else PutBack(old(files), old(journal).value))
      ensures ok ==> pending == if old(journal).None? then old(pending) else map[]
      ensures ok ==> forall p :: p in restored <==>
                old(journal).Some? && p in old(journal).value && ReadText(old(files), p) != Some(old(journal).value[p])
      ensures !ok ==> journal == old(journal)
    {
      hide PutBack, Harness.Logged;
      ok, restored := true, [];
      if journal.None? {
        Step(Installing);
        return;
      }
      var entries := journal.value;
      var todo := entries;
      NothingWritten(files, entries);
      Step(RecoverLoop(todo));
      while todo != map[]
        invariant Valid() && old(trace) <= trace && pc == RecoverLoop(todo)
        invariant unchanged(`journal) && unchanged(`pending) && unchanged(`installed) && unchanged(`absent)
        invariant todo.Keys <= entries.Keys && forall p | p in todo :: todo[p] == entries[p]
        invariant files == PutBack(old(files), entries - todo.Keys)
        invariant forall p | p in entries && p !in todo :: !Unreadable(old(files), p)
        invariant forall p :: p in restored <==>
                    p in entries && p !in todo && ReadText(old(files), p) != Some(entries[p])
        decreases todo.Keys
      {
        var p :| p in todo;
        PutBackStep(old(files), entries, todo, p);
        if Unreadable(files, p) {
          return false, restored;
        }
        if ReadText(files, p) != Some(todo[p]) {
          RecoverFile(todo, p);
          restored := restored + [p];
        } else {
          Step(RecoverLoop(todo - {p}));
        }
        todo := todo - {p};
      }
      assert entries - todo.Keys == entries;
      Step(RecoverClear);
      ClearJournal();
    }

    /** `_write_journal`: the replace is atomic, so there is no state between the old journal and the new. */
    method WriteJournal(rel: Path, mutated: string)
      requires Valid() && pc == Journaling(rel, mutated)
      modifies this`journal, this`pc, this`trace
      ensures Valid() && old(trace) <= trace && pc == Mutating(rel, mutated) && journal == Some(pending)
    {
      hide Harness.Logged;
      ghost var s := Now();
      journal, pc := Some(pending), Mutating(rel, mutated);
      Log(s);
    }

    /** `_write` of the damaged text. */
    method PatchFile(rel: Path, mutated: string)
      requires Valid() && pc == Mutating(rel, mutated)
      modifies this`files, this`pc, this`trace
      ensures Valid() && old(trace) <= trace && pc.Testing? && files == old(files)[rel := Text(mutated)]
    {
      hide Harness.Logged;
      var torn: Content := *;
      ghost var s := Now();
      PatchOpens(s, rel, mutated, torn);
      files, pc := files[rel := torn], MutateWrite(rel, mutated);
      Log(s);
      s := Now();
      files, pc := files[rel := Text(mutated)], Testing;
      Log(s);
    }

    /** `_apply`. `Failed` stands for the exception `_read` raises. */
    method Apply(c: Case) returns (r: Applied)
      requires Valid() && pc.Ready?
      modifies this
      ensures Valid() && old(trace) <= trace && unchanged(`installed)
      ensures r.Patched? <==> Patches(old(files), c)
      ensures r.Failed? <==> Unreadable(old(files), c.rel)
      ensures r.Patched? <==> Found(old(files), c)
      ensures r.Patched? ==> pc.Testing? && files == Patch(old(files), c) && Damaged(old(files), c, files)
      ensures r.Patched? ==> pending == map[c.rel := ReadText(old(files), c.rel).value] && journal == Some(pending)
      ensures !r.Patched? ==> pc.Ready? && unchanged(`files) && unchanged(`pending) && unchanged(`journal)
      ensures absent == old(absent) + if c.rel in old(files) then {} else {c.rel}
    {
      hide Advances, Harness.Logged, Damaged, Found;
      PatchDamages(files, c);
      if c.rel !in files {
        absent := absent + {c.rel};
        return Unpatched;
      }
      if files[c.rel].Undecodable? {
        return Failed;
      }
      var src := Universal(files[c.rel].text);
      if !Contains(src, c.pat) {
        return Unpatched;
      }
      var mutated := ReplaceFirst(src, c.pat, c.sub);
      ghost var s := Now();
      PatchBegins(s, c);
      pending, pc := map[c.rel := src], Journaling(c.rel, mutated);
      Log(s);
      WriteJournal(c.rel, mutated);
      PatchFile(c.rel, mutated);
      r := Patched;
    }

    /** `_write` from `_restore`. */
    method RestoreFile(todo: Entries, p: Path)
      requires Valid() && pc == RestoreLoop(todo, false) && p in todo
      modifies this`files, this`pc, this`trace
      ensures Valid() && old(trace) <= trace && pc == RestoreLoop(todo - {p}, false)
      ensures files == old(files)[p := Text(todo[p])]
    {
      hide Harness.Logged;
      var torn: Content := *;
      ghost var s := Now();
      RestoreOpens(s, todo, p, torn);
      files, pc := files[p := torn], RestoreWrite(todo, p, false);
      Log(s);
      s := Now();
      files, pc := files[p := Text(todo[p])], RestoreLoop(todo - {p}, false);
      Log(s);
    }

    /** `_restore`, as the `finally` block runs it. */
    method Restore()
      requires Valid() && pc.Testing?
      modifies this
      ensures Valid() && old(trace) <= trace && pc.Ready?
      ensures files == Overwrite(old(files), old(pending))
      ensures journal.None? && pending == map[]
      ensures unchanged(`installed) && unchanged(`absent)
    {
      hide Overwrite, Harness.Logged;
      var todo := pending;
      NothingWritten(files, pending);
      Step(RestoreLoop(todo, false));
      while todo != map[]
        invariant Valid() && old(trace) <= trace && pc == RestoreLoop(todo, false)
        invariant unchanged(`journal) && unchanged(`pending) && unchanged(`installed) && unchanged(`absent)
        invariant todo.Keys <= pending.Keys && forall p | p in todo :: todo[p] == pending[p]
        invariant files == Overwrite(old(files), pending - todo.Keys)
        decreases todo.Keys
      {
        var p :| p in todo;
        OverwriteStep(old(files), pending, todo, p);
        RestoreFile(todo, p);
        todo := todo - {p};
      }
      assert pending - todo.Keys == pending;
      Step(RestoreClear(false));
      ClearJournal();
    }

    method InstallHandlers()
      requires Valid() && pc.Installing?
      modifies this
      ensures Valid() && old(trace) <= trace && pc.Ready? && installed
      ensures unchanged(`files) && unchanged(`journal) && unchanged(`pending) && unchanged(`absent)
    {
      hide Harness.Logged;
      ghost var s := Now();
      if !installed {
        installed := true;
      }
      pc := Ready;
      Log(s);
    }

    /** One case: damage, test, put back. `None` stands for an exception out of `_apply`. */
    method TryCase(c: Case, test: Files -> TestResult) returns (v: Option<Verdict>)
      requires Valid() && pc.Ready? && journal.None?
      modifies this
      ensures Valid() && old(trace) <= trace && pc.Ready? && journal.None? && unchanged(`installed)
      ensures old(pending) == map[] ==> pending == map[]
      ensures v.None? <==> Unreadable(old(files), c.rel)
      ensures v.Some? ==> v.value == Judge(old(files), old(absent), c, test) && files == After(old(files), c)
      ensures v.Some? ==> IsVerdict(old(files), old(absent), c, test, v.value)
      ensures absent == old(absent) + if c.rel in old(files) then {} else {c.rel}
    {
      hide Advances, Harness.Logged, Damaged, Found, IsVerdict;
      JudgeIsVerdict(files, absent, c, test);
      var r := Apply(c);
      match r
      case Failed =>
        v := None;
      case Unpatched =>
        v := Some(if c.rel in absent then NotShipped else Skipped);
      case Patched =>
        var result := test(files);
        v := Some(if !result.green && result.build then NotAKill else if result.green then Survived else Killed);
        Restore();
        assert files == After(old(files), c);
    }

    /**
     * The loop of `run` over the cases: the counts are those of trying each case on
     * the tree the earlier ones left. `raised` says an unreadable file ended the loop.
     */
    method RunCases(cases: seq<Case>, test: Files -> TestResult) returns (raised: bool, counts: Counts)
      requires Valid() && pc.Ready? && journal.None?
      modifies this
      ensures Valid() && old(trace) <= trace && pc.Ready? && journal.None? && unchanged(`installed)
      ensures old(pending) == map[] ==> pending == map[]
      ensures raised <==> exists i :: 0 <= i < |cases| && Unreadable(old(files), cases[i].rel)
      ensures !raised ==> files == AfterAll(old(files), cases)
      ensures !raised ==> counts == Tally(old(files), old(absent), cases, test)
    {
      hide Advances, Harness.Logged;
      counts := ZERO;
      for i := 0 to |cases|
        invariant Valid() && old(trace) <= trace && pc.Ready? && journal.None?
        invariant old(pending) == map[] ==> pending == map[]
        invariant unchanged(`installed)
        invariant forall k :: 0 <= k < i ==> !Unreadable(old(files), cases[k].rel)
        invariant files == AfterAll(old(files), cases[..i])
        invariant files.Keys == old(files).Keys && forall p | p in files :: files[p].Text? <==> old(files)[p].Text?
        invariant old(absent) <= absent && forall p | p in absent :: p in old(absent) || p !in files
        invariant counts == Tally(old(files), old(absent), cases[..i], test)
      {
        assert cases[..i + 1][..i] == cases[..i] && cases[..i + 1][i] == cases[i];
        var v := TryCase(cases[i], test);
        if v.None? {
          return true, counts;
        }
        counts := Count(counts, v.value);
      }
      assert cases[..|cases|] == cases;
      raised := false;
    }

    /** The statements of `run`; what they come to is said by `Run` below. */
    method RunBody(cases: seq<Case>, test: Files -> TestResult) returns (raised: bool, rc: int, counts: Counts)
      requires Valid() && pc.Outside?
      modifies this
      ensures Valid() && old(trace) <= trace
      ensures RunResult(Disk(old(files), old(journal)), old(absent), strict, cases, test, raised, rc, counts, files)
      ensures !raised ==> pc.Outside? && installed && journal.None?
    {
      hide Harness.Logged, AfterAll, Tally, Judge, PutBack;
      raised, rc, counts := false, 1, ZERO;
      Step(Starting);
      var ok, restored := Recover();
      if !ok {
        raised := true;
        return;
      }
      InstallHandlers();
      if !test(files).green {
        Step(Outside);
        return;
      }
      raised, counts := RunCases(cases, test);
      if raised {
        return;
      }
      var ok' := test(files).green;
      if ok' && counts.survived == 0 && !(strict && counts.skipped > 0) {
        rc := 0;
      }
      Step(Outside);
    }

    /**
     * `run`. `raised` stands for an exception out of it. A kill anywhere in between
     * leaves the disk of one of the logged states.
     */
    method Run(cases: seq<Case>, test: Files -> TestResult, ghost orig: Files) returns (raised: bool, rc: int, counts: Counts)
      requires Valid() && pc.Outside?
      modifies this
      ensures Valid() && old(trace) <= trace
      ensures RunResult(Disk(old(files), old(journal)), old(absent), strict, cases, test, raised, rc, counts, files)
      ensures Inv(orig, old(Now())) ==> forall i :: |old(trace)| <= i < |trace| ==> Inv(orig, trace[i])
      ensures Inv(orig, old(Now())) && !raised ==> Clean(orig, Disk(files, journal))
    {
      hide RunResult, Advances, PcInv;
      raised, rc, counts := RunBody(cases, test);
      if Inv(orig, old(Now())) {
        PathKeepsInv(orig, trace, |old(trace)| - 1);
      }
    }
  }
}
