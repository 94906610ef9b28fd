// How alerts are credited to the techniques that were run
// (agent/cmd/attack-scorer/main.go). Times are integers; the event count a server
// would give is a parameter, `None` standing for a failed request.
module Attribution {
  import opened Common
  import opened GoStrings
  import opened Techniques

  const RANK_NONE := 0
  const RANK_TELEMETRY := 1
  const RANK_GENERAL := 2
  const RANK_TACTIC := 3
  const RANK_TECHNIQUE := 4

  datatype Alert = Alert(id: string, agentId: string, title: string, description: string,
                         mitre: Option<string>, aiTags: seq<string>, createdAt: int)

  datatype RunEntry = RunEntry(technique: string, testName: string, start: int, end: int, exitCode: string, scenario: string)

  /** `latency` is -1 while nothing has been detected. */
  datatype Result = Result(run: RunEntry, rank: nat, matchedBy: string, latency: int, blocked: bool)

  /** What a measurement is made with: the window, the agent asked for (or ""), the table of tactics, the events. */
  datatype Setup = Setup(win: int, agentId: string, table: Table, events: (int, int) -> Option<int>)

  const BLOCK_MARKERS: seq<string> := ["拒否", "阻止", "剥奪", "-EPERM", "access denied", "blocked", "prevented"]

  /** `isBlocking` */
  predicate IsBlocking(a: Alert) {
    exists i :: 0 <= i < |BLOCK_MARKERS| && Contains(Lower(a.title + " " + a.description), Lower(BLOCK_MARKERS[i]))
  }

  function Ids(texts: seq<string>): seq<string> {
    if texts == [] then []
    else Ids(texts[..|texts| - 1]) + var t := Scan(Canon(texts[|texts| - 1])); if t == "" then [] else [t]
  }

  /** Every technique an alert points at, in the order of its fields. */
  function TechniquesOf(a: Alert): seq<string> {
    (if a.mitre.Some? then Ids([a.mitre.value]) else []) + Ids(a.aiTags)
  }

  /** `techniques` */
  method AlertTechniques(a: Alert) returns (out: seq<string>)
    ensures out == TechniquesOf(a)
  {
    hide Scan, Canon;
    out := [];
    if a.mitre.Some? {
      var c := ExtractTechnique(a.mitre.value);
      if c != "" { out := out + [c]; }
      assert [a.mitre.value][..0] == [] && Ids([]) == [];
    }
    ghost var first := out;
    for i := 0 to |a.aiTags|
      invariant out == first + Ids(a.aiTags[..i])
    {
      var c := ExtractTechnique(a.aiTags[i]);
      if c != "" { out := out + [c]; }
      assert a.aiTags[..i + 1][..i] == a.aiTags[..i];
    }
    assert a.aiTags[..|a.aiTags|] == a.aiTags;
  }

  /** What the ids of an alert say of a technique: the technique itself, its tactic, or nothing. */
  function Category(ids: seq<string>, technique: string, table: Table): nat {
    if exists i :: 0 <= i < |ids| && SameTechnique(ids[i], technique) then RANK_TECHNIQUE
    else if exists i :: 0 <= i < |ids| && Shares(ids[i], technique, table) then RANK_TACTIC
    else RANK_NONE
  }

  function Tactics(t: string, table: Table): set<string> {
    set x | x in TacticsOf(t, table)
  }

  predicate Shares(a: string, b: string, table: Table) {
    Tactics(a, table) * Tactics(b, table) != {}
  }

  lemma SharesIs(a: string, b: string, table: Table)
    ensures Shares(a, b, table) <==> HaveOneTacticInCommon(a, b, table)
  {
    if Shares(a, b, table) {
      var x :| x in Tactics(a, table) * Tactics(b, table);
    }
    if HaveOneTacticInCommon(a, b, table) {
      var x :| x in TacticsOf(a, table) && x in TacticsOf(b, table);
      assert x in Tactics(a, table) * Tactics(b, table);
    }
  }

  /** An alert with several techniques counts from `win` before the run, any other from the start of the run. */
  predicate InWindow(a: Alert, r: RunEntry, win: int) {
    && a.createdAt >= (if |TechniquesOf(a)| > 1 then r.start - win else r.start)
    && a.createdAt <= r.end + win
  }

  /** The rank an alert earns a run. */
  function Credit(a: Alert, r: RunEntry, s: Setup): nat {
    if s.agentId != "" && a.agentId != s.agentId then RANK_NONE
    else if !InWindow(a, r, s.win) then RANK_NONE
    else Category(TechniquesOf(a), r.technique, s.table)
  }

  predicate Credits(a: Alert, r: RunEntry, s: Setup) {
    Credit(a, r, s) != RANK_NONE
  }

  function ShortRef(a: Alert): string {
    (if |a.title| > 48 then a.title[..48] + "…" else a.title) + " (" + a.id + ")"
  }

  // ── what a score is ───────────────────────────────────────────────────────

  predicate BestRank(alerts: seq<Alert>, r: RunEntry, s: Setup, rank: nat) {
    && (forall i :: 0 <= i < |alerts| ==> Credit(alerts[i], r, s) <= rank)
    && (rank == RANK_NONE || exists i :: 0 <= i < |alerts| && Credit(alerts[i], r, s) == rank)
  }

  /** The first alert that earned the best rank, if any rank was earned. */
  ghost predicate BestMatch(alerts: seq<Alert>, r: RunEntry, s: Setup, rank: nat, matchedBy: string) {
    if rank == RANK_NONE then matchedBy == ""
    else exists i :: FirstBest(alerts, r, s, rank, i) && matchedBy == ShortRef(alerts[i])
  }

  predicate FirstBest(alerts: seq<Alert>, r: RunEntry, s: Setup, rank: nat, i: int) {
    0 <= i < |alerts| && Credit(alerts[i], r, s) == rank && forall k :: 0 <= k < i ==> Credit(alerts[k], r, s) < rank
  }

  predicate Blocked(alerts: seq<Alert>, r: RunEntry, s: Setup) {
    exists i :: 0 <= i < |alerts| && Credits(alerts[i], r, s) && IsBlocking(alerts[i])
  }

  /** `latency` is the least delay, not negative, of the alerts that credit the run; -1 without one. */
  predicate LeastDelay(alerts: seq<Alert>, r: RunEntry, s: Setup, latency: int) {
    && latency >= -1
    && (forall i :: 0 <= i < |alerts| && Credits(alerts[i], r, s) && alerts[i].createdAt >= r.start ==>
          0 <= latency <= alerts[i].createdAt - r.start)
    && (latency >= 0 ==> exists i :: 0 <= i < |alerts| && Credits(alerts[i], r, s) && alerts[i].createdAt - r.start == latency)
  }

  /** The score the alerts alone give. */
  ghost predicate ScoredBy(alerts: seq<Alert>, r: RunEntry, s: Setup, x: Result) {
    && x.run == r
    && BestRank(alerts, r, s, x.rank) && BestMatch(alerts, r, s, x.rank, x.matchedBy)
    && LeastDelay(alerts, r, s, x.latency) && (x.blocked <==> Blocked(alerts, r, s))
  }

  predicate SawEvents(r: RunEntry, s: Setup) {
    var n := s.events(r.start, r.end + s.win);
    n.Some? && n.value > 0
  }

  /** Without any credit, events recorded in the window still count as telemetry. */
  function WithTelemetry(x: Result, s: Setup): Result {
    if x.rank == RANK_NONE && SawEvents(x.run, s) then x.(rank := RANK_TELEMETRY) else x
  }

  ghost predicate Scored(alerts: seq<Alert>, r: RunEntry, s: Setup, x: Result) {
    exists y :: ScoredBy(alerts, r, s, y) && x == WithTelemetry(y, s)
  }

  // ── one alert at a time ───────────────────────────────────────────────────

  function NoScore(r: RunEntry): Result {
    Result(r, RANK_NONE, "", -1, false)
  }

  function Update(x: Result, a: Alert, cat: nat): Result {
    if cat == RANK_NONE then x
    else
      var y := if cat > x.rank then x.(rank := cat, matchedBy := ShortRef(a)) else x;
      var z := if IsBlocking(a) then y.(blocked := true) else y;
      var lat := a.createdAt - x.run.start;
      if lat >= 0 && (z.latency < 0 || lat < z.latency) then z.(latency := lat) else z
  }

  lemma NoScoreIsScore(r: RunEntry, s: Setup)
    ensures ScoredBy([], r, s, NoScore(r))
  {
  }

  lemma RankGrows(alerts: seq<Alert>, r: RunEntry, s: Setup, x: Result, a: Alert)
    requires BestRank(alerts, r, s, x.rank) && BestMatch(alerts, r, s, x.rank, x.matchedBy)
    ensures var c := Credit(a, r, s);
            && BestRank(alerts + [a], r, s, if c > x.rank then c else x.rank)
            && BestMatch(alerts + [a], r, s, if c > x.rank then c else x.rank, if c > x.rank then ShortRef(a) else x.matchedBy)
  {
    hide Credit, ShortRef;
    var more, n := alerts + [a], |alerts|;
    var c := Credit(a, r, s);
    assert more[n] == a && forall i :: 0 <= i < n ==> more[i] == alerts[i];
    if c > x.rank {
      assert FirstBest(more, r, s, c, n);
    } else if x.rank != RANK_NONE {
      var i :| FirstBest(alerts, r, s, x.rank, i) && x.matchedBy == ShortRef(alerts[i]);
      assert FirstBest(more, r, s, x.rank, i);
      assert Credit(more[i], r, s) == x.rank;
    }
  }

  lemma DelayShrinks(alerts: seq<Alert>, r: RunEntry, s: Setup, latency: int, a: Alert)
    requires LeastDelay(alerts, r, s, latency)
    ensures var lat := a.createdAt - r.start;
            LeastDelay(alerts + [a], r, s, if Credits(a, r, s) && lat >= 0 && (latency < 0 || lat < latency) then lat else latency)
  {
    hide Credit, Credits;
    var more, n := alerts + [a], |alerts|;
    assert more[n] == a && forall i :: 0 <= i < n ==> more[i] == alerts[i];
    if latency >= 0 {
      var i :| 0 <= i < n && Credits(alerts[i], r, s) && alerts[i].createdAt - r.start == latency;
      assert Credits(more[i], r, s) && more[i].createdAt - r.start == latency;
    }
  }

  lemma BlockedGrows(alerts: seq<Alert>, r: RunEntry, s: Setup, a: Alert)
    ensures Blocked(alerts + [a], r, s) <==> Blocked(alerts, r, s) || (Credits(a, r, s) && IsBlocking(a))
  {
    hide Credits, IsBlocking;
    var more, n := alerts + [a], |alerts|;
    assert more[n] == a && forall i :: 0 <= i < n ==> more[i] == alerts[i];
    if Blocked(alerts, r, s) {
      var i :| 0 <= i < n && Credits(alerts[i], r, s) && IsBlocking(alerts[i]);
      assert Credits(more[i], r, s) && IsBlocking(more[i]);
    }
    if Credits(a, r, s) && IsBlocking(a) {
      assert Credits(more[n], r, s) && IsBlocking(more[n]);
    }
  }

  lemma UpdateKeepsScore(alerts: seq<Alert>, r: RunEntry, s: Setup, x: Result, a: Alert)
    requires ScoredBy(alerts, r, s, x)
    ensures ScoredBy(alerts + [a], r, s, Update(x, a, Credit(a, r, s)))
  {
    hide BestRank, BestMatch, LeastDelay, Blocked, Credit, IsBlocking, ShortRef;
    RankGrows(alerts, r, s, x, a);
    DelayShrinks(alerts, r, s, x.latency, a);
    BlockedGrows(alerts, r, s, a);
    var cat, lat := Credit(a, r, s), a.createdAt - r.start;
    var y := Update(x, a, cat);
    assert y.run == r && y.rank == (if cat > x.rank then cat else x.rank);
    assert y.matchedBy == if cat > x.rank then ShortRef(a) else x.matchedBy;
    assert y.latency == if Credits(a, r, s) && lat >= 0 && (x.latency < 0 || lat < x.latency) then lat else x.latency;
    assert y.blocked <==> x.blocked || (Credits(a, r, s) && IsBlocking(a));
  }

  // ── attribute ─────────────────────────────────────────────────────────────

  /** The loop over the ids of one alert. */
  method Categorise(ids: seq<string>, technique: string, table: Table) returns (cat: nat)
    ensures cat == Category(ids, technique, table)
  {
    hide SameTechnique, Shares;
    cat := RANK_NONE;
    for i := 0 to |ids|
      invariant forall k :: 0 <= k < i ==> !SameTechnique(ids[k], technique)
      invariant cat == if exists k :: 0 <= k < i && Shares(ids[k], technique, table) then RANK_TACTIC else RANK_NONE
    {
      if SameTechnique(ids[i], technique) {
        return RANK_TECHNIQUE;
      }
      var shared := ShareTactic(ids[i], technique, table);
      SharesIs(ids[i], technique, table);
      if cat < RANK_TACTIC && shared {
        cat := RANK_TACTIC;
      }
    }
  }

  /** One alert against every run. */
  method CreditRuns(runs: seq<RunEntry>, a: Alert, s: Setup, res: array<Result>, ghost before: seq<Alert>)
    requires res.Length == |runs| && forall i :: 0 <= i < |runs| ==> ScoredBy(before, runs[i], s, res[i])
    modifies res
    ensures forall i :: 0 <= i < |runs| ==> ScoredBy(before + [a], runs[i], s, res[i])
  {
    hide ScoredBy, Category, TechniquesOf, IsBlocking;
    var ids := AlertTechniques(a);
    if (s.agentId != "" && a.agentId != s.agentId) || |ids| == 0 {
      forall i | 0 <= i < |runs| ensures ScoredBy(before + [a], runs[i], s, res[i]) {
        NoIdsNoCredit(a, runs[i], s);
        UpdateKeepsScore(before, runs[i], s, res[i], a);
      }
      return;
    }
    for i := 0 to |runs|
      invariant forall k :: 0 <= k < i ==> ScoredBy(before + [a], runs[k], s, res[k])
      invariant forall k :: i <= k < |runs| ==> ScoredBy(before, runs[k], s, res[k])
    {
      var r := runs[i];
      UpdateKeepsScore(before, r, s, res[i], a);
      assert res[i].run == r by { RunOfScore(before, r, s, res[i]); }
      var lowerBound := if |ids| > 1 then r.start - s.win else r.start;
      if a.createdAt < lowerBound || a.createdAt > r.end + s.win {
        continue;
      }
      var cat := Categorise(ids, r.technique, s.table);
      if cat == RANK_NONE {
        continue;
      }
      var x := res[i];
      if cat > x.rank {
        x := x.(rank := cat, matchedBy := ShortRef(a));
      }
      if IsBlocking(a) {
        x := x.(blocked := true);
      }
      var lat := a.createdAt - r.start;
      if lat >= 0 && (x.latency < 0 || lat < x.latency) {
        x := x.(latency := lat);
      }
      res[i] := x;
    }
  }

  lemma RunOfScore(alerts: seq<Alert>, r: RunEntry, s: Setup, x: Result)
    requires ScoredBy(alerts, r, s, x)
    ensures x.run == r
  {
  }

  lemma NoIdsNoCredit(a: Alert, r: RunEntry, s: Setup)
    ensures TechniquesOf(a) == [] || (s.agentId != "" && a.agentId != s.agentId) ==> Credit(a, r, s) == RANK_NONE
  {
  }

  /** `attribute` */
  method Attribute(runs: seq<RunEntry>, alerts: seq<Alert>, s: Setup) returns (res: array<Result>)
    ensures fresh(res) && res.Length == |runs|
    ensures forall i :: 0 <= i < |runs| ==> Scored(alerts, runs[i], s, res[i])
  {
    hide ScoredBy;
    res := new Result[|runs|](i requires 0 <= i < |runs| => NoScore(runs[i]));
    forall i | 0 <= i < |runs| ensures ScoredBy([], runs[i], s, res[i]) { NoScoreIsScore(runs[i], s); }
    for k := 0 to |alerts|
      invariant forall i :: 0 <= i < |runs| ==> ScoredBy(alerts[..k], runs[i], s, res[i])
    {
      CreditRuns(runs, alerts[k], s, res, alerts[..k]);
      assert alerts[..k + 1] == alerts[..k] + [alerts[k]];
    }
    assert alerts[..|alerts|] == alerts;
    for i := 0 to |runs|
      invariant forall k :: 0 <= k < i ==> Scored(alerts, runs[k], s, res[k])
      invariant forall k :: i <= k < |runs| ==> ScoredBy(alerts, runs[k], s, res[k])
    {
      RunOfScore(alerts, runs[i], s, res[i]);
      ghost var y := res[i];
      if res[i].rank == RANK_NONE {
        var n := s.events(runs[i].start, runs[i].end + s.win);
        if n.Some? && n.value > 0 {
          res[i] := res[i].(rank := RANK_TELEMETRY);
        }
      }
      assert res[i] == WithTelemetry(y, s);
    }
  }
}
