// Scoring attacks of several steps (agent/cmd/attack-scorer/main.go, scoreChains).
module Chains {
  import opened Common
  import opened Attribution
  import opened AttributionLaws

  datatype Chain = Chain(scenario: string, steps: nat, visible: nat, detected: nat, attributed: nat, prevented: nat,
                         broken: bool, firstHit: string)

  // ── what a chain is ───────────────────────────────────────────────────────

  /** The scenarios of the results, each once, in the order in which they first appear. */
  function Scenarios(results: seq<Result>): seq<string> {
    if results == [] then []
    else
      var names, name := Scenarios(results[..|results| - 1]), results[|results| - 1].run.scenario;
      if name == "" || name in names then names else names + [name]
  }

  function Step(name: string): Result -> bool {
    (r: Result) => r.run.scenario == name
  }

  function StepAtLeast(name: string, rank: nat): Result -> bool {
    (r: Result) => r.run.scenario == name && r.rank >= rank
  }

  function StepPrevented(name: string): Result -> bool {
    (r: Result) => r.run.scenario == name && r.blocked
  }

  function Label(r: Result): string {
    if r.run.testName == "" then r.run.technique else r.run.testName
  }

  /** The label of the first step of `name` that was detected, "" without one. */
  function FirstHit(results: seq<Result>, name: string): string {
    if results == [] then ""
    else
      var front, last := results[..|results| - 1], results[|results| - 1];
      if CountIf(front, StepAtLeast(name, RANK_TACTIC)) > 0 then FirstHit(front, name)
      else if StepAtLeast(name, RANK_TACTIC)(last) then Label(last)
      else ""
  }

  function ChainOf(results: seq<Result>, name: string): Chain {
    Chain(name, CountIf(results, Step(name)),
          CountIf(results, StepAtLeast(name, RANK_TELEMETRY)),
          CountIf(results, StepAtLeast(name, RANK_TACTIC)),
          CountIf(results, StepAtLeast(name, RANK_TECHNIQUE)),
          CountIf(results, StepPrevented(name)),
          CountIf(results, StepAtLeast(name, RANK_TACTIC)) > 0,
          FirstHit(results, name))
  }

  predicate AreChainsOf(chains: seq<Chain>, results: seq<Result>) {
    var names := Scenarios(results);
    |chains| == |names| && forall i :: 0 <= i < |names| ==> chains[i] == ChainOf(results, names[i])
  }

  lemma {:induction false} ScenariosAreDistinct(results: seq<Result>)
    ensures forall i, j :: 0 <= i < j < |Scenarios(results)| ==> Scenarios(results)[i] != Scenarios(results)[j]
    ensures forall name :: name in Scenarios(results) <==> name != "" && exists i :: 0 <= i < |results| && results[i].run.scenario == name
  {
    if results != [] {
      var n := |results| - 1;
      ScenariosAreDistinct(results[..n]);
      assert forall i :: 0 <= i < n ==> results[..n][i] == results[i];
      forall name ensures name in Scenarios(results) <==> name != "" && exists i :: 0 <= i < |results| && results[i].run.scenario == name {
        if name in Scenarios(results[..n]) {
          var i :| 0 <= i < n && results[..n][i].run.scenario == name;
          assert results[i].run.scenario == name;
        }
        assert results[n] in results;
      }
    }
  }

  /** Some result of `name` comes before all those of `other`. */
  predicate AppearsBefore(results: seq<Result>, name: string, other: string) {
    exists k :: 0 <= k < |results| && results[k].run.scenario == name && forall m :: 0 <= m <= k ==> results[m].run.scenario != other
  }

  /** They stand in the order in which they first appear. */
  lemma {:induction false} ScenariosInOrder(results: seq<Result>, i: nat, j: nat)
    requires i < j < |Scenarios(results)|
    ensures AppearsBefore(results, Scenarios(results)[i], Scenarios(results)[j])
  {
    var n := |results| - 1;
    var front, names := results[..n], Scenarios(results[..n]);
    ScenariosAreDistinct(front);
    ScenariosAreDistinct(results);
    if j < |names| {
      ScenariosInOrder(front, i, j);
      var k :| 0 <= k < n && front[k].run.scenario == names[i] && forall m :: 0 <= m <= k ==> front[m].run.scenario != names[j];
      assert forall m :: 0 <= m <= k ==> results[m] == front[m];
    } else {
      assert names[i] in names && Scenarios(results)[j] !in names;
      var k :| 0 <= k < n && front[k].run.scenario == names[i];
      forall m | 0 <= m <= k ensures results[m].run.scenario != Scenarios(results)[j] { assert results[m] == front[m]; }
    }
  }

  // ── scoreChains ───────────────────────────────────────────────────────────

  /** What one result adds to its chain. */
  function Advance(c: Chain, r: Result): Chain {
    var c1 := c.(steps := c.steps + 1);
    var c2 := if r.rank >= RANK_TELEMETRY then c1.(visible := c1.visible + 1) else c1;
    var c3 :=
      if r.rank >= RANK_TACTIC then
        var c4 := c2.(detected := c2.detected + 1);
        if c4.broken then c4 else c4.(broken := true, firstHit := Label(r))
      else c2;
    var c5 := if r.rank >= RANK_TECHNIQUE then c3.(attributed := c3.attributed + 1) else c3;
    if r.blocked then c5.(prevented := c5.prevented + 1) else c5
  }

  function NewChain(name: string): Chain {
    Chain(name, 0, 0, 0, 0, 0, false, "")
  }

  lemma {:induction false} AbsentIsEmpty(results: seq<Result>, name: string)
    requires name != "" && name !in Scenarios(results)
    ensures ChainOf(results, name) == NewChain(name)
  {
    if results != [] {
      AbsentIsEmpty(results[..|results| - 1], name);
    }
  }

  lemma ChainAdvances(results: seq<Result>, r: Result, name: string)
    ensures ChainOf(results + [r], name) ==
              if r.run.scenario == name then Advance(ChainOf(results, name), r) else ChainOf(results, name)
  {
    var more := results + [r];
    assert more[..|more| - 1] == results && more[|more| - 1] == r;
    if r.run.scenario != name && CountIf(results, StepAtLeast(name, RANK_TACTIC)) == 0 { NoHit(results, name); }
  }

  lemma NoHit(results: seq<Result>, name: string)
    requires CountIf(results, StepAtLeast(name, RANK_TACTIC)) == 0
    ensures FirstHit(results, name) == ""
  {
  }

  lemma NothingAdvances(was: seq<Result>, r: Result, chains: seq<Chain>)
    requires AreChainsOf(chains, was) && r.run.scenario == ""
    ensures Scenarios(was + [r]) == Scenarios(was) && AreChainsOf(chains, was + [r])
  {
    hide ChainOf, Advance;
    assert (was + [r])[..|was|] == was;
    ScenariosAreDistinct(was);
    forall i | 0 <= i < |chains| ensures chains[i] == ChainOf(was + [r], Scenarios(was)[i]) {
      assert Scenarios(was)[i] in Scenarios(was);
      ChainAdvances(was, r, Scenarios(was)[i]);
    }
  }

  lemma OneAdvances(was: seq<Result>, r: Result, chains: seq<Chain>, i: nat)
    requires AreChainsOf(chains, was) && r.run.scenario != "" && i < |chains| && Scenarios(was)[i] == r.run.scenario
    ensures Scenarios(was + [r]) == Scenarios(was) && AreChainsOf(chains[i := Advance(chains[i], r)], was + [r])
  {
    hide ChainOf, Advance;
    assert (was + [r])[..|was|] == was;
    ScenariosAreDistinct(was);
    forall k | 0 <= k < |chains| ensures chains[i := Advance(chains[i], r)][k] == ChainOf(was + [r], Scenarios(was)[k]) {
      ChainAdvances(was, r, Scenarios(was)[k]);
    }
  }

  lemma NewAdvances(was: seq<Result>, r: Result, chains: seq<Chain>)
    requires AreChainsOf(chains, was) && r.run.scenario != "" && r.run.scenario !in Scenarios(was)
    ensures Scenarios(was + [r]) == Scenarios(was) + [r.run.scenario]
    ensures AreChainsOf(chains + [Advance(NewChain(r.run.scenario), r)], was + [r])
  {
    hide ChainOf, Advance;
    assert (was + [r])[..|was|] == was;
    AbsentIsEmpty(was, r.run.scenario);
    ChainAdvances(was, r, r.run.scenario);
    forall k | 0 <= k < |chains| ensures chains[k] == ChainOf(was + [r], Scenarios(was)[k]) {
      assert Scenarios(was)[k] in Scenarios(was);
      ChainAdvances(was, r, Scenarios(was)[k]);
    }
  }

  lemma NoChains()
    ensures AreChainsOf([], []) && Scenarios([]) == []
  {
  }

  /** `scoreChains` */
  method ScoreChains(results: seq<Result>) returns (chains: seq<Chain>)
    ensures AreChainsOf(chains, results)
  {
    hide ChainOf, AreChainsOf, Scenarios;
    var idx: map<string, nat> := map[];
    chains := [];
    NoChains();
    for k := 0 to |results|
      invariant AreChainsOf(chains, results[..k]) && |chains| == |Scenarios(results[..k])|
      invariant forall name :: name in idx <==> name in Scenarios(results[..k])
      invariant forall name :: name in idx ==> idx[name] < |chains| && Scenarios(results[..k])[idx[name]] == name
    {
      var r, name := results[k], results[k].run.scenario;
      ghost var was, before := results[..k], chains;
      assert results[..k + 1] == was + [r];
      if name == "" {
        NothingAdvances(was, r, chains);
        continue;
      }
      if name !in idx {
        NewAdvances(was, r, chains);
        idx := idx[name := |chains|];
        chains := chains + [NewChain(name)];
      } else {
        OneAdvances(was, r, chains, idx[name]);
      }
      var i := idx[name];
      var c := chains[i];
      c := c.(steps := c.steps + 1);
      if r.rank >= RANK_TELEMETRY { c := c.(visible := c.visible + 1); }
      if r.rank >= RANK_TACTIC {
        c := c.(detected := c.detected + 1);
        if !c.broken {
          c := c.(broken := true, firstHit := r.run.testName);
          if c.firstHit == "" { c := c.(firstHit := r.run.technique); }
        }
      }
      if r.rank >= RANK_TECHNIQUE { c := c.(attributed := c.attributed + 1); }
      if r.blocked { c := c.(prevented := c.prevented + 1); }
      assert c == Advance(chains[i], r);
      chains := chains[i := c];
      assert chains == if |chains| == |before| then before[i := c] else before + [c];
    }
    assert results[..|results|] == results;
  }

  // ── what the chains say ───────────────────────────────────────────────────

  lemma ChainCounts(results: seq<Result>, chains: seq<Chain>, i: nat)
    requires AreChainsOf(chains, results) && i < |chains|
    ensures var c := chains[i]; c.attributed <= c.detected <= c.visible <= c.steps && 1 <= c.steps && (c.broken <==> c.detected >= 1)
    ensures forall k :: 0 <= k < |chains| && k != i ==> chains[k].scenario != chains[i].scenario
  {
    var name := Scenarios(results)[i];
    CountIfMonotone(results, StepAtLeast(name, RANK_TECHNIQUE), StepAtLeast(name, RANK_TACTIC));
    CountIfMonotone(results, StepAtLeast(name, RANK_TACTIC), StepAtLeast(name, RANK_TELEMETRY));
    CountIfMonotone(results, StepAtLeast(name, RANK_TELEMETRY), Step(name));
    ScenariosAreDistinct(results);
    assert name in Scenarios(results);
    CountIfZero(results, Step(name));
  }

  function StepRanked(name: string, rank: int): Result -> bool {
    (r: Result) => r.run.scenario == name && r.rank == rank
  }

  function StepUnblocked(name: string): Result -> bool {
    (r: Result) => r.run.scenario == name && !r.blocked
  }

  /** The counts of a chain by the ranks that were given to its steps. */
  lemma ChainByRank(runs: seq<RunEntry>, alerts: seq<Alert>, s: Setup, results: seq<Result>, chains: seq<Chain>, i: nat)
    requires AllScored(runs, alerts, s, results) && AreChainsOf(chains, results) && i < |chains|
    ensures var c := chains[i];
            && c.attributed == CountIf(results, StepRanked(c.scenario, RANK_TECHNIQUE))
            && c.detected == CountIf(results, StepRanked(c.scenario, RANK_TACTIC)) + c.attributed
            && c.visible == CountIf(results, StepRanked(c.scenario, RANK_TELEMETRY)) + c.detected
            && c.steps == CountIf(results, StepRanked(c.scenario, RANK_NONE)) + c.visible
            && c.steps == CountIf(results, StepUnblocked(c.scenario)) + c.prevented
  {
    hide Scored, CountIf, Scenarios, FirstHit;
    forall k | 0 <= k < |results| ensures results[k].rank in {RANK_NONE, RANK_TELEMETRY, RANK_TACTIC, RANK_TECHNIQUE} {
      RanksGiven(alerts, runs[k], s, results[k]);
    }
    var name := chains[i].scenario;
    CountIfSplits(results, StepAtLeast(name, RANK_TECHNIQUE), StepRanked(name, RANK_TECHNIQUE), StepRanked(name, 5));
    CountIfZero(results, StepRanked(name, 5));
    CountIfSplits(results, StepAtLeast(name, RANK_TACTIC), StepRanked(name, RANK_TACTIC), StepAtLeast(name, RANK_TECHNIQUE));
    CountIfSplits(results, StepAtLeast(name, RANK_TELEMETRY), StepRanked(name, RANK_TELEMETRY), StepAtLeast(name, RANK_TACTIC));
    CountIfSplits(results, Step(name), StepRanked(name, RANK_NONE), StepAtLeast(name, RANK_TELEMETRY));
    CountIfSplits(results, Step(name), StepUnblocked(name), StepPrevented(name));
  }

  /** On what `attribute` gives, a step that was prevented was detected. */
  lemma PreventedIsDetected(runs: seq<RunEntry>, alerts: seq<Alert>, s: Setup, results: seq<Result>, chains: seq<Chain>, i: nat)
    requires AllScored(runs, alerts, s, results) && AreChainsOf(chains, results) && i < |chains|
    ensures chains[i].prevented <= chains[i].detected
  {
    hide Scored;
    forall k | 0 <= k < |results| ensures results[k].blocked ==> results[k].rank >= RANK_TACTIC {
      RanksGiven(alerts, runs[k], s, results[k]);
    }
    var name := Scenarios(results)[i];
    CountIfMonotone(results, StepPrevented(name), StepAtLeast(name, RANK_TACTIC));
  }

  predicate EarliestDetected(results: seq<Result>, name: string, i: int) {
    && 0 <= i < |results| && StepAtLeast(name, RANK_TACTIC)(results[i])
    && forall k :: 0 <= k < i ==> !StepAtLeast(name, RANK_TACTIC)(results[k])
  }

  /** A chain is broken exactly when it has an earliest detected step, and that step is named. */
  lemma {:induction false} FirstHitIsEarliest(results: seq<Result>, name: string)
    ensures ChainOf(results, name).broken <==> exists i :: EarliestDetected(results, name, i)
    ensures ChainOf(results, name).broken ==>
              exists i :: EarliestDetected(results, name, i)
                && ChainOf(results, name).firstHit == if results[i].run.testName != "" then results[i].run.testName else results[i].run.technique
    ensures !ChainOf(results, name).broken ==> FirstHit(results, name) == ""
  {
    if results != [] {
      var n := |results| - 1;
      var front := results[..n];
      FirstHitIsEarliest(front, name);
      CountIfZero(results, StepAtLeast(name, RANK_TACTIC));
      CountIfZero(front, StepAtLeast(name, RANK_TACTIC));
      if ChainOf(front, name).broken {
        var i :| EarliestDetected(front, name, i) && FirstHit(front, name) == Label(front[i]);
        assert EarliestDetected(results, name, i) && results[i] == front[i];
      } else if ChainOf(results, name).broken {
        assert forall i :: 0 <= i < n ==> front[i] == results[i];
        assert EarliestDetected(results, name, n);
      }
    }
  }

  function StepsOf(chains: seq<Chain>): nat {
    if chains == [] then 0 else StepsOf(chains[..|chains| - 1]) + chains[|chains| - 1].steps
  }

  function InScenario(): Result -> bool {
    (r: Result) => r.run.scenario != ""
  }

  /** Every result of a scenario is a step of one chain, and of no other. */
  lemma {:induction false} StepsAddUp(results: seq<Result>, chains: seq<Chain>)
    requires AreChainsOf(chains, results)
    ensures StepsOf(chains) == CountIf(results, InScenario())
  {
    if results == [] {
      assert chains == [];
    } else {
      var n := |results| - 1;
      var was, r := results[..n], results[n];
      assert was + [r] == results;
      var names := Scenarios(was);
      var before := seq(|names|, i requires 0 <= i < |names| => ChainOf(was, names[i]));
      StepsAddUp(was, before);
      AdvanceIsStep(r);
      hide ChainOf, Advance, Scenarios;
      if r.run.scenario == "" {
        NothingAdvances(was, r, before);
        assert chains == before;
      } else if r.run.scenario in names {
        var i :| 0 <= i < |names| && names[i] == r.run.scenario;
        OneAdvances(was, r, before, i);
        assert chains == before[i := Advance(before[i], r)];
        OneMoreStep(before, i, Advance(before[i], r));
      } else {
        NewAdvances(was, r, before);
        assert chains == before + [Advance(NewChain(r.run.scenario), r)];
        assert chains[..|names|] == before;
      }
    }
  }

  lemma AdvanceIsStep(r: Result)
    ensures forall c: Chain :: Advance(c, r).steps == c.steps + 1
    ensures forall name :: NewChain(name).steps == 0
  {
  }

  lemma {:induction false} OneMoreStep(chains: seq<Chain>, i: nat, c: Chain)
    requires i < |chains| && c.steps == chains[i].steps + 1
    ensures StepsOf(chains[i := c]) == StepsOf(chains) + 1
  {
    var n := |chains| - 1;
    if i == n {
      assert chains[i := c][..n] == chains[..n];
    } else {
      assert chains[i := c][..n] == chains[..n][i := c];
      OneMoreStep(chains[..n], i, c);
    }
  }
}
