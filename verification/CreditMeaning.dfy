// What a result of `attribute` says, told of the texts of the alerts and of the table of
// tactics (agent/cmd/attack-scorer/main.go and tactics.go).
module CreditMeaning {
  import opened Common
  import opened Decimal
  import opened GoStrings
  import opened Techniques
  import opened Attribution
  import opened AttributionLaws

  // ── the ids in a text ─────────────────────────────────────────────────────

  /** `t` is the first id in `u`: at the first 'T' that a digit follows, as far as digits and dots go, the last dots left out. */
  ghost predicate FirstId(u: string, t: string, i: nat, n: nat) {
    && i + n <= |u| && Starts(u[i..]) && (forall k :: 0 <= k < i ==> !Starts(u[k..]))
    && (forall k :: i < k < i + n ==> IsDigit(u[k]) || u[k] == '.')
    && (i + n < |u| ==> !IsDigit(u[i + n]) && u[i + n] != '.')
    && t != "" && t <= u[i..i + n] && t[|t| - 1] != '.' && forall k :: i + |t| <= k < i + n ==> u[k] == '.'
  }

  lemma {:induction false} DotsDropped(s: string)
    ensures forall k :: |DropDots(s)| <= k < |s| ==> s[k] == '.'
  {
    if s != "" && s[|s| - 1] == '.' { DotsDropped(s[..|s| - 1]); }
  }

  lemma ScanHere(u: string) returns (n: nat)
    requires Starts(u)
    ensures FirstId(u, Scan(u), 0, n)
  {
    n := 1 + Run(u[1..]);
    assert u[0..] == u;
    assert forall k :: 1 <= k < |u| ==> u[k] == u[1..][k - 1];
    var raw := u[..n];
    assert raw == u[0..0 + n];
    DotsDropped(raw);
    DropDotsKeeps(raw);
    assert forall k :: 0 <= k < n ==> raw[k] == u[k];
    hide Run, DropDots;
  }

  lemma FirstIdLater(u: string, t: string, i: nat, n: nat)
    requires u != "" && !Starts(u) && FirstId(u[1..], t, i, n)
    ensures FirstId(u, t, i + 1, n)
  {
    hide Starts;
    var v := u[1..];
    assert u[0..] == u;
    assert v[i..] == u[i + 1..] && v[i..i + n] == u[i + 1..i + 1 + n];
    assert forall k :: 0 <= k < |v| ==> v[k] == u[k + 1];
    forall k | 0 <= k < i + 1 ensures !Starts(u[k..]) {
      if k > 0 { assert v[k - 1..] == u[k..]; }
    }
    forall k | i + 1 + |t| <= k < i + 1 + n ensures u[k] == '.' { assert v[k - 1] == '.'; }
    forall k | i + 1 < k < i + 1 + n ensures IsDigit(u[k]) || u[k] == '.' { assert IsDigit(v[k - 1]) || v[k - 1] == '.'; }
  }

  /** The scan stops at the first id, and finds one in every text that has a 'T' and a digit after it. */
  lemma {:induction false} ScanIsFirst(u: string) returns (i: nat, n: nat)
    ensures Scan(u) == "" <==> forall k :: 0 <= k < |u| ==> !Starts(u[k..])
    ensures Scan(u) != "" ==> FirstId(u, Scan(u), i, n)
  {
    i, n := 0, 0;
    assert u != "" ==> u[0..] == u;
    if Starts(u) {
      n := ScanHere(u);
      hide FirstId, Run, DropDots;
      assert Starts(u[0..]);
      assert Scan(u) != "" by { SomeId(u, Scan(u), 0, n); }
    } else if |u| >= 2 {
      assert Scan(u) == Scan(u[1..]);
      i, n := ScanIsFirst(u[1..]);
      hide FirstId, Run, DropDots, Scan;
      assert forall k :: 1 <= k < |u| ==> u[k..] == u[1..][k - 1..];
      if Scan(u[1..]) != "" {
        FirstIdLater(u, Scan(u), i, n);
        assert exists k :: 0 <= k < |u[1..]| && Starts(u[1..][k..]);
        i := i + 1;
      }
    }
  }

  lemma SomeId(u: string, t: string, i: nat, n: nat)
    requires FirstId(u, t, i, n)
    ensures t != ""
  {
  }

  /** `text` names the id `t`. */
  predicate Says(text: string, t: string) {
    t != "" && Scan(Canon(text)) == t
  }

  lemma {:induction false} IdsAppend(a: seq<string>, b: seq<string>)
    ensures Ids(a + b) == Ids(a) + Ids(b)
  {
    hide Scan, Canon;
    if b == [] {
      assert a + b == a;
    } else {
      assert (a + b)[..|a + b| - 1] == a + b[..|b| - 1];
      IdsAppend(a, b[..|b| - 1]);
    }
  }

  lemma {:induction false} IdsAreSaid(texts: seq<string>, t: string)
    ensures t in Ids(texts) <==> exists i :: 0 <= i < |texts| && Says(texts[i], t)
  {
    hide Scan, Canon;
    if texts != [] {
      var k := |texts| - 1;
      IdsAreSaid(texts[..k], t);
      assert texts == texts[..k] + [texts[k]];
    }
  }

  /** The ids of an alert are those its fields say, the mapped technique before the tags. */
  lemma TechniquesAreSaid(a: Alert, t: string)
    ensures TechniquesOf(a) == Ids((if a.mitre.Some? then [a.mitre.value] else []) + a.aiTags)
    ensures t in TechniquesOf(a) <==> (a.mitre.Some? && Says(a.mitre.value, t)) || exists i :: 0 <= i < |a.aiTags| && Says(a.aiTags[i], t)
  {
    hide Says;
    var fields := if a.mitre.Some? then [a.mitre.value] else [];
    IdsAppend(fields, a.aiTags);
    assert Ids([]) == [];
    IdsAreSaid(fields, t);
    IdsAreSaid(a.aiTags, t);
  }

  // ── the case of an id, and the space around it ────────────────────────────

  lemma SpaceHasNoCase(c: char)
    ensures IsSpace(UpperChar(c)) <==> IsSpace(c)
    ensures UpperChar(UpperChar(c)) == UpperChar(c) && UpperChar(LowerChar(c)) == UpperChar(c)
  {
  }

  lemma {:induction false} TrimLeftEnds(s: string)
    ensures TrimLeft(s) == "" || !IsSpace(TrimLeft(s)[0])
    ensures exists n :: 0 <= n <= |s| && TrimLeft(s) == s[n..]
  {
    if s != "" && IsSpace(s[0]) {
      TrimLeftEnds(s[1..]);
      var n :| 0 <= n <= |s[1..]| && TrimLeft(s[1..]) == s[1..][n..];
      assert s[1..][n..] == s[n + 1..];
    } else {
      assert s[0..] == s;
    }
  }

  lemma {:induction false} TrimRightEnds(s: string)
    ensures TrimRight(s) == "" || !IsSpace(TrimRight(s)[|TrimRight(s)| - 1])
    ensures TrimRight(s) <= s
  {
    if s != "" && IsSpace(s[|s| - 1]) { TrimRightEnds(s[..|s| - 1]); }
  }

  lemma CanonIsTrimmed(s: string)
    ensures Canon(Canon(s)) == Canon(s)
  {
    TrimLeftEnds(s);
    TrimRightEnds(TrimLeft(s));
    var t, c := TrimSpace(s), Canon(s);
    assert t != "" ==> t[0] == TrimLeft(s)[0];
    assert forall i :: 0 <= i < |c| ==> c[i] == UpperChar(t[i]);
    if c != "" {
      SpaceHasNoCase(t[0]);
      SpaceHasNoCase(t[|t| - 1]);
    }
    assert TrimSpace(c) == c;
    forall i | 0 <= i < |c| ensures Upper(c)[i] == c[i] { SpaceHasNoCase(t[i]); }
  }

  // ── same technique, common tactic ─────────────────────────────────────────

  /** One of two ids is the other or the part of it before the dot. */
  predicate Matches(t: string, u: string) {
    t == u || t == BeforeDot(u) || u == BeforeDot(t)
  }

  /** The table puts the parts of two ids before the dot under one tactic. */
  predicate Related(t: string, u: string, table: Table) {
    var x, y := BeforeDot(t), BeforeDot(u);
    x in table && y in table && exists tactic :: tactic in table[x] && tactic in table[y]
  }

  /** The tactics of a technique are those the table has for the part before the dot. */
  lemma TacticsOfIff(t: string, table: Table, x: string)
    ensures var b := BeforeDot(Canon(t)); x in TacticsOf(t, table) <==> b in table && x in table[b]
    ensures IsTechnique(t) ==> (x in TacticsOf(t, table) <==> BeforeDot(t) in table && x in table[BeforeDot(t)])
  {
    hide Canon, BeforeDot, IsTechnique;
    if IsTechnique(t) { ExtractAgain(t); }
  }

  /** An id of an alert and the technique of a run, however that is written. */
  lemma SharesIff(t: string, r: string, table: Table)
    requires IsTechnique(t)
    ensures Shares(t, r, table) <==> Related(t, Canon(r), table)
  {
    hide Canon, BeforeDot, IsTechnique, TacticsOf, BaseTechnique, Shares;
    SharesIs(t, r, table);
    forall x ensures (x in TacticsOf(t, table) <==> BeforeDot(t) in table && x in table[BeforeDot(t)]) &&
        var b := BeforeDot(Canon(r)); (x in TacticsOf(r, table) <==> b in table && x in table[b])
    {
      TacticsOfIff(t, table, x);
      TacticsOfIff(r, table, x);
    }
  }

  lemma SameIff(t: string, r: string)
    requires IsTechnique(t)
    ensures SameTechnique(t, r) <==> Matches(t, Canon(r))
  {
    var u := Canon(r);
    assert BeforeDot(t) != "" && t != "" && BeforeDot("") == "";
    ExtractAgain(t);
    CanonIsTrimmed(r);
    BaseOfBase(t);
    BaseOfBase(u);
    hide Canon, IsTechnique, BeforeDot;
  }

  /** A technique id reads the same in lower case, and with space around it. */
  lemma WrittenAnyWay(a: string, v: string, b: string, t: string)
    requires IsTechnique(t) && |v| == |t| && forall i :: 0 <= i < |v| ==> UpperChar(v[i]) == t[i]
    requires AllSpace(a) && AllSpace(b)
    ensures Canon(a + v + b) == t && Says(a + v + b, t)
  {
    assert UpperChar(v[0]) == 'T' && IsDigit(UpperChar(v[|v| - 1]));
    assert !IsSpace(v[0]) && !IsSpace(v[|v| - 1]);
    ExtractAgain(t);
    hide IsTechnique;
    assert Upper(v) == t;
    TrimmedBetween(a, v, b);
  }

  // ── what a result says ────────────────────────────────────────────────────

  /** The alert is of the agent asked for, and in time: an alert with several ids may come before the run by the window. */
  predicate InTime(a: Alert, r: RunEntry, s: Setup) {
    && (s.agentId == "" || a.agentId == s.agentId)
    && r.start - (if |TechniquesOf(a)| > 1 then s.win else 0) <= a.createdAt <= r.end + s.win
  }

  ghost predicate NamesTechnique(a: Alert, r: RunEntry) {
    exists t :: t in TechniquesOf(a) && Matches(t, Canon(r.technique))
  }

  ghost predicate NamesTactic(a: Alert, r: RunEntry, table: Table) {
    exists t :: t in TechniquesOf(a) && Related(t, Canon(r.technique), table)
  }

  lemma {:induction false} IdsAreTechniques(texts: seq<string>, t: string)
    requires t in Ids(texts)
    ensures IsTechnique(t)
  {
    hide Scan, Canon, IsTechnique;
    var k := |texts| - 1;
    if t in Ids(texts[..k]) {
      IdsAreTechniques(texts[..k], t);
    } else {
      ScanIsTechnique(Canon(texts[k]));
    }
  }

  lemma CategoryIs(a: Alert, r: RunEntry, table: Table)
    ensures Category(TechniquesOf(a), r.technique, table) ==
            if NamesTechnique(a, r) then RANK_TECHNIQUE else if NamesTactic(a, r, table) then RANK_TACTIC else RANK_NONE
  {
    var ids := TechniquesOf(a);
    forall t | t in ids
      ensures SameTechnique(t, r.technique) <==> Matches(t, Canon(r.technique))
      ensures Shares(t, r.technique, table) <==> Related(t, Canon(r.technique), table)
    {
      TechniquesAreSaid(a, t);
      IdsAreTechniques((if a.mitre.Some? then [a.mitre.value] else []) + a.aiTags, t);
      SameIff(t, r.technique);
      SharesIff(t, r.technique, table);
    }
    hide TechniquesOf, SameTechnique, Shares, Matches, Related, Canon;
    assert forall t :: t in ids <==> exists i :: 0 <= i < |ids| && ids[i] == t;
  }

  /**
   * What an alert earns a run, by the ids it names: the technique if one of them is that
   * of the run or one is the part before the dot of the other; else the tactic if the
   * table puts the parts before the dot of one of them and of the run under one tactic.
   */
  lemma CreditIs(a: Alert, r: RunEntry, s: Setup)
    ensures Credit(a, r, s) == RANK_TECHNIQUE <==> InTime(a, r, s) && NamesTechnique(a, r)
    ensures Credit(a, r, s) == RANK_TACTIC <==> InTime(a, r, s) && !NamesTechnique(a, r) && NamesTactic(a, r, s.table)
    ensures Credits(a, r, s) <==> InTime(a, r, s) && (NamesTechnique(a, r) || NamesTactic(a, r, s.table))
  {
    CategoryIs(a, r, s.table);
    hide Category, TechniquesOf, NamesTechnique, NamesTactic;
  }

  /** The alert counts for the run at all. */
  ghost predicate Detects(a: Alert, r: RunEntry, s: Setup) {
    InTime(a, r, s) && (NamesTechnique(a, r) || NamesTactic(a, r, s.table))
  }

  /** One of the markers stands in the title or the description, in whatever case. */
  ghost predicate SaysBlocked(a: Alert) {
    exists i, k :: 0 <= i < |BLOCK_MARKERS| && OccursAt(Lower(a.title + " " + a.description), Lower(BLOCK_MARKERS[i]), k)
  }

  lemma IsBlockingIs(a: Alert)
    ensures IsBlocking(a) <==> SaysBlocked(a)
  {
    hide OccursAt, Contains;
    var text := Lower(a.title + " " + a.description);
    forall i | 0 <= i < |BLOCK_MARKERS|
      ensures Contains(text, Lower(BLOCK_MARKERS[i])) <==> exists k :: OccursAt(text, Lower(BLOCK_MARKERS[i]), k)
    {
      FindIsFirst(text, Lower(BLOCK_MARKERS[i]));
    }
  }

  ghost predicate ByTechnique(alerts: seq<Alert>, r: RunEntry, s: Setup, i: nat) {
    i < |alerts| && InTime(alerts[i], r, s) && NamesTechnique(alerts[i], r)
  }

  ghost predicate Detected(alerts: seq<Alert>, r: RunEntry, s: Setup, i: nat) {
    i < |alerts| && Detects(alerts[i], r, s)
  }

  /** The rank, by what is among the alerts and by the events. */
  ghost predicate RankSays(alerts: seq<Alert>, r: RunEntry, s: Setup, rank: nat) {
    var n := s.events(r.start, r.end + s.win);
    if exists i: nat :: ByTechnique(alerts, r, s, i) then rank == RANK_TECHNIQUE
    else if exists i: nat :: Detected(alerts, r, s, i) then rank == RANK_TACTIC
    else if n.Some? && n.value > 0 then rank == RANK_TELEMETRY
    else rank == RANK_NONE
  }

  lemma RankMeans(alerts: seq<Alert>, r: RunEntry, s: Setup, x: Result)
    requires Scored(alerts, r, s, x)
    ensures RankSays(alerts, r, s, x.rank)
  {
    hide ShortRef, IsBlocking, Credit, BestMatch, LeastDelay, Blocked, InTime, NamesTechnique, NamesTactic;
    var y :| ScoredBy(alerts, r, s, y) && x == WithTelemetry(y, s);
    forall i: nat | i < |alerts|
      ensures Credit(alerts[i], r, s) == RANK_TECHNIQUE <==> ByTechnique(alerts, r, s, i)
      ensures Credit(alerts[i], r, s) != RANK_NONE <==> Detected(alerts, r, s, i)
      ensures Credit(alerts[i], r, s) in {RANK_NONE, RANK_TACTIC, RANK_TECHNIQUE}
    {
      CreditIs(alerts[i], r, s);
      CreditIsTacticOrTechnique(alerts[i], r, s);
    }
  }

  /**
   * The rest of a result. It is blocked exactly when some alert that detects the run says
   * so. Its latency is the least delay of those that detect it and do not come before it,
   * -1 if there are none. The match is the first of the alerts of the best rank.
   */
  lemma ResultMeans(alerts: seq<Alert>, r: RunEntry, s: Setup, x: Result)
    requires Scored(alerts, r, s, x)
    ensures x.run == r
    ensures x.blocked <==> exists i: nat :: Detected(alerts, r, s, i) && SaysBlocked(alerts[i])
    ensures forall i: nat :: Detected(alerts, r, s, i) && alerts[i].createdAt >= r.start ==> 0 <= x.latency <= alerts[i].createdAt - r.start
    ensures x.latency == -1 || exists i: nat :: Detected(alerts, r, s, i) && alerts[i].createdAt - r.start == x.latency
    ensures x.matchedBy == "" <==> forall i: nat :: !Detected(alerts, r, s, i)
    ensures x.matchedBy != "" ==> exists i: nat :: FirstOfBest(alerts, r, s, i) && Refers(x.matchedBy, alerts[i])
  {
    hide ShortRef, Refers, IsBlocking, Credit, InTime, NamesTechnique, NamesTactic, SaysBlocked;
    var y :| ScoredBy(alerts, r, s, y) && x == WithTelemetry(y, s);
    forall i: nat | i < |alerts|
      ensures Credit(alerts[i], r, s) == RANK_TECHNIQUE <==> ByTechnique(alerts, r, s, i)
      ensures Credits(alerts[i], r, s) <==> Detected(alerts, r, s, i)
      ensures Credit(alerts[i], r, s) in {RANK_NONE, RANK_TACTIC, RANK_TECHNIQUE}
      ensures (IsBlocking(alerts[i]) <==> SaysBlocked(alerts[i])) && ShortRef(alerts[i]) != "" && Refers(ShortRef(alerts[i]), alerts[i])
    {
      CreditIs(alerts[i], r, s);
      CreditIsTacticOrTechnique(alerts[i], r, s);
      IsBlockingIs(alerts[i]);
      RefIsNotEmpty(alerts[i]);
    }
  }

  /** The title of the alert, no more than 48 characters of it, and its id. */
  predicate Refers(ref: string, a: Alert) {
    ref == (if |a.title| <= 48 then a.title else a.title[..48] + "…") + " (" + a.id + ")"
  }

  lemma RefIsNotEmpty(a: Alert)
    ensures ShortRef(a) != "" && Refers(ShortRef(a), a)
  {
  }

  /** The first that detects the run, or, if some alert names its technique, the first that does. */
  ghost predicate FirstOfBest(alerts: seq<Alert>, r: RunEntry, s: Setup, i: nat) {
    if exists k: nat :: ByTechnique(alerts, r, s, k)
    then ByTechnique(alerts, r, s, i) && forall k: nat :: k < i ==> !ByTechnique(alerts, r, s, k)
    else Detected(alerts, r, s, i) && forall k: nat :: k < i ==> !Detected(alerts, r, s, k)
  }
}
