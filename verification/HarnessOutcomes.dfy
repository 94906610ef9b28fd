// What the counts of a harness run mean, and when a run gives the tree back unchanged.
module HarnessOutcomes {
  import opened Common
  import opened SourceText
  import opened JournalProtocol
  import opened Harness

  ghost predicate Touched(files: Files, cases: seq<Case>, p: Path) {
    exists i :: 0 <= i < |cases| && cases[i].rel == p && Patches(files, cases[i])
  }

  /** `f` is `files` with the texts that some case patches rewritten as they read. */
  ghost predicate Rewritten(files: Files, cases: seq<Case>, f: Files) {
    && f.Keys == files.Keys
    && forall p | p in files ::
        f[p] == if Touched(files, cases, p) && files[p].Text? then Text(Universal(files[p].text)) else files[p]
  }

  lemma RewrittenReadsAlike(files: Files, cases: seq<Case>, f: Files, p: Path)
    requires Rewritten(files, cases, f)
    ensures ReadText(f, p) == ReadText(files, p)
  {
    if p in files && files[p].Text? { UniversalIdempotent(files[p].text); }
  }

  /** An unstopped run leaves every file as it was but for the line endings of those it patched. */
  lemma {:induction false} AfterAllIsRewritten(files: Files, cases: seq<Case>)
    ensures Rewritten(files, cases, AfterAll(files, cases))
  {
    if cases != [] {
      var n := |cases| - 1;
      var before, c := cases[..n], cases[n];
      var f := AfterAll(files, before);
      AfterAllIsRewritten(files, before);
      RewrittenReadsAlike(files, before, f, c.rel);
      forall p ensures Touched(files, cases, p) <==> Touched(files, before, p) || (c.rel == p && Patches(files, c)) {
        assert forall i :: 0 <= i < n ==> before[i] == cases[i];
      }
    }
  }

  /** A case that patches a file whose text has a carriage return in it. */
  predicate Rewrites(files: Files, c: Case) {
    Patches(files, c) && '\r' in files[c.rel].text
  }

  /**
   * A run that nothing stops gives back the very bytes it found exactly when no case
   * patches a file with a carriage return in it.
   */
  lemma UnchangedIff(files: Files, cases: seq<Case>)
    ensures AfterAll(files, cases) == files <==> forall i :: 0 <= i < |cases| ==> !Rewrites(files, cases[i])
  {
    var f := AfterAll(files, cases);
    AfterAllIsRewritten(files, cases);
    forall p | p in files && files[p].Text? ensures f[p] == files[p] <==> !Touched(files, cases, p) || '\r' !in files[p].text {
      UniversalFixedIff(files[p].text);
    }
    forall i | 0 <= i < |cases| && Rewrites(files, cases[i]) ensures f[cases[i].rel] != files[cases[i].rel] {
      assert Touched(files, cases, cases[i].rel);
    }
    if forall i :: 0 <= i < |cases| ==> !Rewrites(files, cases[i]) {
      forall p | p in files ensures f[p] == files[p] {}
    }
  }

  /**
   * What `recover` leaves reads as the journal says wherever the journal names a file,
   * and what reads so already, or is not named, keeps its bytes. Every text that was
   * read and put in the journal is without carriage returns.
   */
  lemma MendedReads(d: Disk, p: Path)
    requires d.journal.Some? ==> forall q | q in d.journal.value :: '\r' !in d.journal.value[q]
    ensures Mended(d).Keys == d.files.Keys + if d.journal.Some? then d.journal.value.Keys else {}
    ensures d.journal.Some? && p in d.journal.value ==> ReadText(Mended(d), p) == Some(d.journal.value[p])
    ensures (d.journal.Some? && p in d.journal.value ==> ReadText(d.files, p) == Some(d.journal.value[p])) && p in d.files
            ==> Mended(d)[p] == d.files[p]
  {
    if d.journal.Some? && p in d.journal.value { UniversalFixedIff(d.journal.value[p]); }
  }

  // ── the counts ────────────────────────────────────────────────────────────

  function JudgedAs(files: Files, absent: set<Path>, test: Files -> TestResult, v: Verdict): Case -> bool {
    c => Judge(files, absent, c, test) == v
  }

  function Of(c: Counts, v: Verdict): nat {
    match v
    case Killed => c.killed
    case Survived => c.survived
    case NotAKill => c.notakill
    case Skipped => c.skipped
    case NotShipped => c.notshipped
  }

  /**
   * On a tree whose patched files have no carriage return the cases do not disturb
   * each other: each is judged as if it were the only one, and each is counted once.
   */
  lemma {:induction false} CasesAreIndependent(files: Files, absent: set<Path>, cases: seq<Case>, test: Files -> TestResult)
    requires forall i :: 0 <= i < |cases| ==> !Rewrites(files, cases[i])
    ensures forall v :: Of(Tally(files, absent, cases, test), v) == CountIf(cases, JudgedAs(files, absent, test, v))
    ensures var t := Tally(files, absent, cases, test);
            t.killed + t.survived + t.notakill + t.skipped + t.notshipped == |cases|
  {
    if cases != [] {
      var before, c := cases[..|cases| - 1], cases[|cases| - 1];
      assert forall i :: 0 <= i < |before| ==> before[i] == cases[i];
      CasesAreIndependent(files, absent, before, test);
      UnchangedIff(files, before);
      var t, v := Tally(files, absent, before, test), Judge(files, absent, c, test);
      assert Tally(files, absent, cases, test) == Count(t, v);
      hide Judge, AfterAll, Rewrites, Tally, Count;
      CountAdds(t, v);
    }
  }

  lemma CountAdds(c: Counts, v: Verdict)
    ensures forall u :: Of(Count(c, v), u) == Of(c, u) + if u == v then 1 else 0
    ensures var t := Count(c, v);
            t.killed + t.survived + t.notakill + t.skipped + t.notshipped
            == c.killed + c.survived + c.notakill + c.skipped + c.notshipped + 1
  {
  }

  /** So the counts do not depend on the order of the cases. */
  lemma OrderDoesNotCount(files: Files, absent: set<Path>, a: seq<Case>, b: seq<Case>, test: Files -> TestResult)
    requires multiset(a) == multiset(b)
    requires forall c :: c in a ==> !Rewrites(files, c)
    ensures Tally(files, absent, a, test) == Tally(files, absent, b, test)
  {
    forall i | 0 <= i < |b| ensures !Rewrites(files, b[i]) { assert b[i] in multiset(a); }
    CasesAreIndependent(files, absent, a, test);
    CasesAreIndependent(files, absent, b, test);
    var s, t := Tally(files, absent, a, test), Tally(files, absent, b, test);
    forall v ensures Of(s, v) == Of(t, v) {
      CountIfPermutes(a, b, JudgedAs(files, absent, test, v));
    }
    assert Of(s, Killed) == s.killed && Of(s, Survived) == s.survived && Of(s, NotAKill) == s.notakill;
    assert Of(s, Skipped) == s.skipped && Of(s, NotShipped) == s.notshipped;
    assert Of(t, Killed) == t.killed && Of(t, Survived) == t.survived && Of(t, NotAKill) == t.notakill;
    assert Of(t, Skipped) == t.skipped && Of(t, NotShipped) == t.notshipped;
  }

  /**
   * How any run ends. It raises exactly when a file that the journal names does not decode, or, on a green baseline,
   * a file of a case does not. Otherwise it ends with 0 exactly when the baseline and the tree it leaves are green,
   * nothing survived and, if strict, nothing was skipped; on a red baseline nothing is tried.
   */
  lemma RunMeans(d: Disk, absent: set<Path>, strict: bool, cases: seq<Case>, test: Files -> TestResult,
                 raised: bool, rc: int, counts: Counts, files: Files)
    requires RunResult(d, absent, strict, cases, test, raised, rc, counts, files)
    ensures raised <==>
              || (d.journal.Some? && exists p :: p in d.journal.value && p in d.files && d.files[p].Undecodable?)
              || (test(Mended(d)).green && exists c :: c in cases && c.rel in Mended(d) && Mended(d)[c.rel].Undecodable?)
    ensures !raised ==> (rc == 0 <==> test(Mended(d)).green && test(files).green && counts.survived == 0 && (strict ==> counts.skipped == 0))
    ensures !raised && rc != 0 ==> rc == 1
    ensures !raised && !test(Mended(d)).green ==> files == Mended(d) && counts == Counts(0, 0, 0, 0, 0)
  {
    hide AfterAll, Tally, Mended;
    var f := Mended(d);
    assert (exists i :: 0 <= i < |cases| && Unreadable(f, cases[i].rel)) <==> exists c :: c in cases && c.rel in f && f[c.rel].Undecodable? by {
      if c :| c in cases && c.rel in f && f[c.rel].Undecodable? {
        var i :| 0 <= i < |cases| && cases[i] == c;
        assert Unreadable(f, cases[i].rel);
      }
    }
  }

  /**
   * The exit code of a run on such a tree: 0 exactly when the baseline is green, every
   * patch turns it red, and, if strict, every pattern was found. The final test runs
   * on the tree of the baseline, so the two cannot differ.
   */
  lemma ExitCodeMeans(d: Disk, absent: set<Path>, strict: bool, cases: seq<Case>, test: Files -> TestResult,
                      raised: bool, rc: int, counts: Counts, files: Files)
    requires RunResult(d, absent, strict, cases, test, raised, rc, counts, files) && !raised
    requires forall i :: 0 <= i < |cases| ==> !Rewrites(Mended(d), cases[i])
    ensures files == Mended(d)
    ensures rc == 0 <==>
              && test(files).green
              && forall i :: 0 <= i < |cases| ==>
                   var v := Judge(files, absent, cases[i], test);
                   v != Survived && (strict ==> v != Skipped)
  {
    var f := Mended(d);
    UnchangedIff(f, cases);
    CasesAreIndependent(f, absent, cases, test);
    CountIfZero(cases, JudgedAs(f, absent, test, Survived));
    CountIfZero(cases, JudgedAs(f, absent, test, Skipped));
    assert Of(Tally(f, absent, cases, test), Survived) == CountIf(cases, JudgedAs(f, absent, test, Survived));
    assert Of(Tally(f, absent, cases, test), Skipped) == CountIf(cases, JudgedAs(f, absent, test, Skipped));
  }
}
