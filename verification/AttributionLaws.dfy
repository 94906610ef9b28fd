// What a score depends on, and what it cannot do.
module AttributionLaws {
  import opened Common
  import opened Techniques
  import opened Attribution

  ghost predicate SameAlerts(a: seq<Alert>, b: seq<Alert>) {
    forall x :: x in a <==> x in b
  }

  ghost predicate AllIn(a: seq<Alert>, b: seq<Alert>) {
    forall x :: x in a ==> x in b
  }

  /** `t` measures like `s` with no smaller a window and no fewer events seen. */
  ghost predicate Wider(s: Setup, t: Setup) {
    && s.agentId == t.agentId && s.table == t.table && s.win <= t.win
    && forall r: RunEntry :: SawEvents(r, s) ==> SawEvents(r, t)
  }

  lemma CreditGrows(a: Alert, r: RunEntry, s: Setup, t: Setup)
    requires Wider(s, t)
    ensures Credit(a, r, s) <= Credit(a, r, t)
    ensures Credits(a, r, s) ==> Credit(a, r, s) == Credit(a, r, t)
  {
    hide TechniquesOf;
  }

  /** More alerts, a larger window, more events: no score gets worse. */
  lemma ScoresGrow(a: seq<Alert>, b: seq<Alert>, r: RunEntry, s: Setup, t: Setup, x: Result, y: Result)
    requires AllIn(a, b) && Wider(s, t) && ScoredBy(a, r, s, x) && ScoredBy(b, r, t, y)
    ensures x.rank <= y.rank && (x.blocked ==> y.blocked)
    ensures x.latency >= 0 ==> 0 <= y.latency <= x.latency
  {
    hide Credit, IsBlocking, ShortRef;
    if x.rank != RANK_NONE {
      var i :| 0 <= i < |a| && Credit(a[i], r, s) == x.rank;
      CreditGrows(a[i], r, s, t);
      assert a[i] in b;
    }
    if x.blocked {
      var i :| 0 <= i < |a| && Credits(a[i], r, s) && IsBlocking(a[i]);
      CreditGrows(a[i], r, s, t);
      assert a[i] in b;
    }
    if x.latency >= 0 {
      var i :| 0 <= i < |a| && Credits(a[i], r, s) && a[i].createdAt - r.start == x.latency;
      CreditGrows(a[i], r, s, t);
      assert a[i] in b;
    }
  }

  lemma ResultsGrow(a: seq<Alert>, b: seq<Alert>, r: RunEntry, s: Setup, t: Setup, x: Result, y: Result)
    requires AllIn(a, b) && Wider(s, t) && Scored(a, r, s, x) && Scored(b, r, t, y)
    ensures x.rank <= y.rank && (x.blocked ==> y.blocked)
    ensures x.latency >= 0 ==> 0 <= y.latency <= x.latency
  {
    hide ScoredBy;
    var u :| ScoredBy(a, r, s, u) && x == WithTelemetry(u, s);
    var v :| ScoredBy(b, r, t, v) && y == WithTelemetry(v, t);
    ScoresGrow(a, b, r, s, t, u, v);
    RunOfScore(a, r, s, u);
    RunOfScore(b, r, t, v);
  }

  /** Rank, latency and blocking depend only on which alerts there are: not on their order, nor on repeats. */
  lemma OrderDoesNotMatter(a: seq<Alert>, b: seq<Alert>, r: RunEntry, s: Setup, x: Result, y: Result)
    requires SameAlerts(a, b) && Scored(a, r, s, x) && Scored(b, r, s, y)
    ensures x.rank == y.rank && x.latency == y.latency && x.blocked == y.blocked
  {
    hide BestRank, BestMatch, Blocked, Credit, IsBlocking, ShortRef;
    ResultsGrow(a, b, r, s, s, x, y);
    ResultsGrow(b, a, r, s, s, y, x);
    assert x.latency >= -1 && y.latency >= -1;
  }

  /** The alert named as the match does depend on the order, and on nothing else: it is the first of the best. */
  lemma ScoreIsUnique(a: seq<Alert>, r: RunEntry, s: Setup, x: Result, y: Result)
    requires Scored(a, r, s, x) && Scored(a, r, s, y)
    ensures x == y
  {
    OrderDoesNotMatter(a, a, r, s, x, y);
    hide Credit, IsBlocking, ShortRef, LeastDelay, Blocked;
    var u :| ScoredBy(a, r, s, u) && x == WithTelemetry(u, s);
    var v :| ScoredBy(a, r, s, v) && y == WithTelemetry(v, s);
    assert u.rank == v.rank;
    hide BestRank;
    if u.rank != RANK_NONE {
      var i :| FirstBest(a, r, s, u.rank, i) && u.matchedBy == ShortRef(a[i]);
      var k :| FirstBest(a, r, s, v.rank, k) && v.matchedBy == ShortRef(a[k]);
      assert i == k;
    }
  }

  lemma CreditIsTacticOrTechnique(a: Alert, r: RunEntry, s: Setup)
    ensures Credit(a, r, s) in {RANK_NONE, RANK_TACTIC, RANK_TECHNIQUE}
  {
    hide TechniquesOf;
  }

  /**
   * The rank General is never given; what is blocked or has a latency is detected at
   * least at its tactic; what is only telemetry is neither.
   */
  lemma RanksGiven(a: seq<Alert>, r: RunEntry, s: Setup, x: Result)
    requires Scored(a, r, s, x)
    ensures x.rank in {RANK_NONE, RANK_TELEMETRY, RANK_TACTIC, RANK_TECHNIQUE}
    ensures x.blocked || x.latency >= 0 ==> x.rank >= RANK_TACTIC
    ensures x.matchedBy != "" ==> x.rank >= RANK_TACTIC
  {
    hide Credit, IsBlocking, ShortRef;
    var u :| ScoredBy(a, r, s, u) && x == WithTelemetry(u, s);
    forall i | 0 <= i < |a| ensures Credit(a[i], r, s) in {RANK_NONE, RANK_TACTIC, RANK_TECHNIQUE} {
      CreditIsTacticOrTechnique(a[i], r, s);
    }
  }

  ghost predicate AllScored(runs: seq<RunEntry>, alerts: seq<Alert>, s: Setup, res: seq<Result>) {
    |res| == |runs| && forall i :: 0 <= i < |runs| ==> Scored(alerts, runs[i], s, res[i])
  }

  /** Runs of one technique, with the alert in the window of each, all get the credit: not only the run started last. */
  lemma CreditIsShared(a: Alert, r: RunEntry, q: RunEntry, s: Setup)
    requires r.technique == q.technique && InWindow(a, r, s.win) && InWindow(a, q, s.win)
    ensures Credit(a, r, s) == Credit(a, q, s)
  {
    hide InWindow, Category, TechniquesOf;
  }

  // ── when one alert counts for two runs ────────────────────────────────────

  function Later(a: int, b: int): int {
    if a < b then b else a
  }

  function Earlier(a: int, b: int): int {
    if a < b then a else b
  }

  /** Some moment is in the windows of both runs, which open `early` before the runs do. */
  predicate Reached(r: RunEntry, q: RunEntry, win: int, early: int) {
    Later(r.start, q.start) - early <= Earlier(r.end, q.end) + win
  }

  function Tagged(tags: seq<string>, at: int, s: Setup): Alert {
    Alert("1", s.agentId, "t", "", None, tags, at)
  }

  lemma IdsMore(texts: seq<string>, t: string)
    requires t != "" && Scan(Canon(t)) == t
    ensures Ids(texts + [t]) == Ids(texts) + [t]
  {
    hide Scan, Canon;
    assert (texts + [t])[..|texts|] == texts;
  }

  lemma NoIds()
    ensures Ids([]) == []
  {
  }

  lemma TaggedTechniques(a: string, b: string, at: int, s: Setup)
    requires IsTechnique(a) && IsTechnique(b)
    ensures TechniquesOf(Tagged([a], at, s)) == [a] && TechniquesOf(Tagged([a, b], at, s)) == [a, b]
  {
    ExtractAgain(a);
    ExtractAgain(b);
    TechniqueNotEmpty(a);
    TechniqueNotEmpty(b);
    hide Scan, Canon, IsTechnique, Ids;
    NoIds();
    IdsMore([], a);
    IdsMore([a], b);
    assert [] + [a] == [a] && [a] + [b] == [a, b];
  }

  lemma TechniqueNotEmpty(t: string)
    requires IsTechnique(t)
    ensures t != ""
  {
  }

  lemma NamedIsCredited(a: Alert, i: nat, r: RunEntry, s: Setup)
    requires IsTechnique(r.technique) && i < |TechniquesOf(a)| && TechniquesOf(a)[i] == r.technique
    requires a.agentId == s.agentId && InWindow(a, r, s.win)
    ensures Credit(a, r, s) == RANK_TECHNIQUE
  {
    SameTechniqueIff(r.technique, r.technique);
    hide SameTechnique, Shares, IsTechnique, TechniquesOf;
    assert SameTechnique(TechniquesOf(a)[i], r.technique);
  }

  /** Of two runs of one technique: some alert that names it alone is credited to both exactly when the runs, each up to its end and the window, overlap. */
  lemma NamedAloneIff(t: string, r: RunEntry, q: RunEntry, s: Setup)
    requires IsTechnique(t) && r.technique == q.technique == t
    ensures (exists a :: TechniquesOf(a) == [t] && Credits(a, r, s) && Credits(a, q, s)) <==> Reached(r, q, s.win, 0)
  {
    hide Category, TechniquesOf, IsTechnique;
    if Reached(r, q, s.win, 0) {
      var a := Tagged([t], Later(r.start, q.start), s);
      TaggedTechniques(t, t, Later(r.start, q.start), s);
      NamedIsCredited(a, 0, r, s);
      NamedIsCredited(a, 0, q, s);
      assert TechniquesOf(a) == [t] && Credits(a, r, s) && Credits(a, q, s);
    }
  }

  /** Of any two runs: some alert with several techniques is credited to both exactly when the runs, widened by the window on both sides, overlap. */
  lemma NamedTogetherIff(r: RunEntry, q: RunEntry, s: Setup)
    requires IsTechnique(r.technique) && IsTechnique(q.technique)
    ensures (exists a :: |TechniquesOf(a)| > 1 && Credits(a, r, s) && Credits(a, q, s)) <==> Reached(r, q, s.win, s.win)
  {
    hide Category, TechniquesOf, IsTechnique;
    if Reached(r, q, s.win, s.win) {
      var at := Later(r.start, q.start) - s.win;
      var a := Tagged([r.technique, q.technique], at, s);
      TaggedTechniques(r.technique, q.technique, at, s);
      NamedIsCredited(a, 0, r, s);
      NamedIsCredited(a, 1, q, s);
      assert |TechniquesOf(a)| > 1 && Credits(a, r, s) && Credits(a, q, s);
    }
  }

  /** Scored with one alert, a run is detected exactly when the alert is credited to it. */
  lemma DetectedIffCredited(a: Alert, r: RunEntry, s: Setup, x: Result)
    requires Scored([a], r, s, x)
    ensures x.rank >= RANK_TACTIC <==> Credits(a, r, s)
  {
    hide IsBlocking, ShortRef, TechniquesOf, Category, InWindow, LeastDelay, Blocked;
    CreditIsTacticOrTechnique(a, r, s);
    var y :| ScoredBy([a], r, s, y) && x == WithTelemetry(y, s);
    assert [a][0] == a;
  }

  /** What `Attribute` gives for one alert. */
  function OneAlertScored(runs: seq<RunEntry>, a: Alert, s: Setup): (res: seq<Result>) {
    seq(|runs|, i requires 0 <= i < |runs| => WithTelemetry(Update(NoScore(runs[i]), a, Credit(a, runs[i], s)), s))
  }

  lemma OneAlertIsScored(runs: seq<RunEntry>, a: Alert, s: Setup)
    ensures AllScored(runs, [a], s, OneAlertScored(runs, a, s))
  {
    hide ScoredBy, Credit, Update, NoScore;
    forall i | 0 <= i < |runs| ensures Scored([a], runs[i], s, OneAlertScored(runs, a, s)[i]) {
      NoScoreIsScore(runs[i], s);
      UpdateKeepsScore([], runs[i], s, NoScore(runs[i]), a);
      assert [] + [a] == [a];
    }
  }

  /** Attributing the one alert `a` to the runs detects both the `i`-th and the `j`-th. */
  ghost predicate DetectsBoth(runs: seq<RunEntry>, a: Alert, s: Setup, i: nat, j: nat)
    requires i < |runs| && j < |runs|
  {
    exists res: seq<Result> :: AllScored(runs, [a], s, res) && res[i].rank >= RANK_TACTIC && res[j].rank >= RANK_TACTIC
  }

  lemma DetectsBothIff(runs: seq<RunEntry>, a: Alert, s: Setup, i: nat, j: nat)
    requires i < |runs| && j < |runs|
    ensures DetectsBoth(runs, a, s, i, j) <==> Credits(a, runs[i], s) && Credits(a, runs[j], s)
  {
    hide Scored, Credits, OneAlertScored;
    OneAlertIsScored(runs, a, s);
    forall res: seq<Result>, k | AllScored(runs, [a], s, res) && 0 <= k < |runs| ensures res[k].rank >= RANK_TACTIC <==> Credits(a, runs[k], s) {
      DetectedIffCredited(a, runs[k], s, res[k]);
    }
  }

  /** Two runs of one technique in a log: `attribute` gives both the detection of one alert of that technique, for some such alert, exactly when they overlap. */
  lemma DetectedTogetherIff(runs: seq<RunEntry>, i: nat, j: nat, t: string, s: Setup)
    requires i < |runs| && j < |runs| && IsTechnique(t) && runs[i].technique == runs[j].technique == t
    ensures (exists a :: TechniquesOf(a) == [t] && DetectsBoth(runs, a, s, i, j)) <==> Reached(runs[i], runs[j], s.win, 0)
  {
    hide TechniquesOf, DetectsBoth, Credits, IsTechnique, Reached;
    NamedAloneIff(t, runs[i], runs[j], s);
    forall a ensures DetectsBoth(runs, a, s, i, j) <==> Credits(a, runs[i], s) && Credits(a, runs[j], s) { DetectsBothIff(runs, a, s, i, j); }
  }

  ghost predicate OneRunEach(runs: seq<RunEntry>, s: Setup) {
    forall a, i: nat, j: nat :: i < j < |runs| ==> !DetectsBoth(runs, a, s, i, j)
  }

  /**
   * Over a whole log of runs: no alert whatever counts for two runs, as point 2 of the comment has it, exactly
   * when no two runs, widened by the window on both sides, overlap.
   */
  lemma OneRunEachIff(runs: seq<RunEntry>, s: Setup)
    requires s.win >= 0 && forall i :: 0 <= i < |runs| ==> IsTechnique(runs[i].technique)
    ensures OneRunEach(runs, s) <==> forall i, j :: 0 <= i < j < |runs| ==> !Reached(runs[i], runs[j], s.win, s.win)
  {
    hide TechniquesOf, DetectsBoth, IsTechnique, Category;
    forall a, i: nat, j: nat | i < j < |runs|
      ensures DetectsBoth(runs, a, s, i, j) <==> Credits(a, runs[i], s) && Credits(a, runs[j], s)
    {
      DetectsBothIff(runs, a, s, i, j);
    }
    forall i, j | 0 <= i < j < |runs| ensures (exists a :: DetectsBoth(runs, a, s, i, j)) <==> Reached(runs[i], runs[j], s.win, s.win) {
      NamedTogetherIff(runs[i], runs[j], s);
    }
  }
}
