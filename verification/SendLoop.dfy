// How the simulated hosts send what they generate (agent/cmd/fleet-sim/main.go, runAgent).
// Every host runs its own loop; the steps of the loops are interleaved in any order, and a
// step is whole: the counters are atomic and the tally is under a lock. Whether a send
// fails is part of the step.
module SendLoop {
  import opened Common

  datatype Event = Event(kind: string, body: string)

  datatype Host = Host(pending: seq<Event>, seqId: nat)

  /** One call of the stream: what host `host` tried to send, and whether the stream took it. */
  datatype Attempt = Attempt(host: nat, seqId: nat, events: seq<Event>, ok: bool)

  /** What wakes a host: its ticker, with what the generator gives, or the flush ticker, or the end of the run. */
  datatype Wake = Generate(e: Option<Event>) | Flush | Done

  datatype Step = Step(host: nat, wake: Wake, fails: bool)

  // ── what the attempts amount to ───────────────────────────────────────────

  function Of(host: nat): Attempt -> bool {
    (a: Attempt) => a.host == host
  }

  function Succeeded(): Attempt -> bool {
    (a: Attempt) => a.ok
  }

  function Failed(): Attempt -> bool {
    (a: Attempt) => !a.ok
  }

  /** The events of `host` that the stream took, in order. */
  function Delivered(log: seq<Attempt>, host: nat): seq<Event> {
    if log == [] then []
    else
      var a := log[|log| - 1];
      Delivered(log[..|log| - 1], host) + if a.host == host && a.ok then a.events else []
  }

  function AllDelivered(log: seq<Attempt>): seq<Event> {
    if log == [] then []
    else
      var a := log[|log| - 1];
      AllDelivered(log[..|log| - 1]) + if a.ok then a.events else []
  }

  /** How many attempts of `host` have failed since its last success. */
  function Streak(log: seq<Attempt>, host: nat): nat {
    if log == [] then 0
    else
      var a := log[|log| - 1];
      if a.host != host then Streak(log[..|log| - 1], host)
      else if a.ok then 0 else Streak(log[..|log| - 1], host) + 1
  }

  function Generated(steps: seq<Step>, host: nat): seq<Event> {
    if steps == [] then []
    else
      var s := steps[|steps| - 1];
      Generated(steps[..|steps| - 1], host)
      + if s.host == host && s.wake.Generate? && s.wake.e.Some? then [s.wake.e.value] else []
  }

  function OfKind(k: string): Event -> bool {
    (e: Event) => e.kind == k
  }

  /** The tally holds the kinds that were delivered, each with how often it was. */
  ghost predicate Tallies(tally: map<string, nat>, events: seq<Event>) {
    forall k :: if k in tally then tally[k] == CountIf(events, OfKind(k)) > 0 else CountIf(events, OfKind(k)) == 0
  }

  /** The attempts of each host are numbered 1, 2, 3, ...; none is empty, and only failures make one larger than the batch size. */
  predicate WellSent(log: seq<Attempt>, batchSize: int) {
    forall t :: 0 <= t < |log| ==> SentAt(log, t, batchSize)
  }

  predicate SentAt(log: seq<Attempt>, t: nat, batchSize: int)
    requires t < |log|
  {
    var a := log[t];
    a.seqId == CountIf(log[..t], Of(a.host)) + 1 && 1 <= |a.events| <= batchSize + Streak(log[..t], a.host)
  }

  ghost predicate HostGood(h: Host, host: nat, log: seq<Attempt>, steps: seq<Step>, batchSize: int) {
    && Delivered(log, host) + h.pending == Generated(steps, host)
    && h.seqId == CountIf(log, Of(host))
    && |h.pending| < batchSize + Streak(log, host)
  }

  lemma LogMore(log: seq<Attempt>, a: Attempt, host: nat)
    ensures Delivered(log + [a], host) == Delivered(log, host) + if a.host == host && a.ok then a.events else []
    ensures AllDelivered(log + [a]) == AllDelivered(log) + if a.ok then a.events else []
    ensures Streak(log + [a], host) == if a.host != host then Streak(log, host) else if a.ok then 0 else Streak(log, host) + 1
    ensures CountIf(log + [a], Of(host)) == CountIf(log, Of(host)) + if a.host == host then 1 else 0
    ensures CountIf(log + [a], Succeeded()) == CountIf(log, Succeeded()) + if a.ok then 1 else 0
    ensures CountIf(log + [a], Failed()) == CountIf(log, Failed()) + if a.ok then 0 else 1
  {
    assert (log + [a])[..|log|] == log;
  }

  lemma AttemptIsWellSent(log: seq<Attempt>, a: Attempt, batchSize: int)
    requires WellSent(log, batchSize)
    requires a.seqId == CountIf(log, Of(a.host)) + 1 && 1 <= |a.events| <= batchSize + Streak(log, a.host)
    ensures WellSent(log + [a], batchSize)
  {
    hide Streak, CountIf;
    var more := log + [a];
    forall t | 0 <= t < |more| ensures SentAt(more, t, batchSize) {
      if t < |log| {
        assert SentAt(log, t, batchSize);
        assert more[..t] == log[..t];
      } else {
        assert more[..t] == log;
      }
    }
  }

  ghost predicate Counted(batches: nat, sendErrs: nat, tally: map<string, nat>, log: seq<Attempt>) {
    batches == CountIf(log, Succeeded()) && sendErrs == CountIf(log, Failed()) && Tallies(tally, AllDelivered(log))
  }

  // ── one turn of a host ────────────────────────────────────────────────────

  function Held(h: Host, wake: Wake): seq<Event> {
    h.pending + if wake.Generate? && wake.e.Some? then [wake.e.value] else []
  }

  predicate Sends(h: Host, wake: Wake, batchSize: int) {
    Held(h, wake) != [] && (wake.Generate? ==> |Held(h, wake)| >= batchSize)
  }

  function HostAfter(h: Host, wake: Wake, fails: bool, batchSize: int): Host {
    if !Sends(h, wake, batchSize) then Host(Held(h, wake), h.seqId)
    else Host(if fails then Held(h, wake) else [], h.seqId + 1)
  }

  function LogAfter(log: seq<Attempt>, h: Host, s: Step, batchSize: int): seq<Attempt> {
    if Sends(h, s.wake, batchSize) then log + [Attempt(s.host, h.seqId + 1, Held(h, s.wake), !s.fails)] else log
  }

  /** Hosts and log after some turns. */
  function Played(n: nat, batchSize: int, turns: seq<Step>): (r: (seq<Host>, seq<Attempt>))
    ensures |r.0| == n
  {
    if turns == [] then (seq(n, _ => Host([], 0)), [])
    else
      var (hosts, log), s := Played(n, batchSize, turns[..|turns| - 1]), turns[|turns| - 1];
      if s.host >= n then (hosts, log)
      else (hosts[s.host := HostAfter(hosts[s.host], s.wake, s.fails, batchSize)], LogAfter(log, hosts[s.host], s, batchSize))
  }

  // ── the runner ────────────────────────────────────────────────────────────

  class Runner {
    const batchSize: int
    var hosts: seq<Host>
    var batches: nat
    var sendErrs: nat
    var eventsSent: map<string, nat>
    /** Everything the streams were given, in order. */
    var log: seq<Attempt>
    ghost var steps: seq<Step>

    ghost predicate Valid()
      reads this
    {
      && (forall i :: 0 <= i < |hosts| ==> HostGood(hosts[i], i, log, steps, batchSize))
      && Counted(batches, sendErrs, eventsSent, log) && WellSent(log, batchSize) && batchSize > 0
    }

    constructor (n: nat, batchSize: int)
      requires batchSize > 0
      ensures Valid() && hosts == seq(n, _ => Host([], 0)) && log == [] && steps == [] && this.batchSize == batchSize
    {
      hosts := seq(n, i => Host([], 0));
      batches, sendErrs := 0, 0;
      eventsSent := map[];
      this.batchSize := batchSize;
      log, steps := [], [];
    }

    /** `record` */
    method Record(events: seq<Event>, ghost was: seq<Event>)
      requires Tallies(eventsSent, was)
      modifies this`eventsSent
      ensures Tallies(eventsSent, was + events)
    {
      hide Tallies;
      assert was + events[..0] == was;
      for n := 0 to |events|
        invariant Tallies(eventsSent, was + events[..n])
      {
        var k := events[n].kind;
        assert was + events[..n] + [events[n]] == was + events[..n + 1];
        TallyMore(eventsSent, was + events[..n], events[n]);
        eventsSent := eventsSent[k := (if k in eventsSent then eventsSent[k] else 0) + 1];
      }
      assert events[..|events|] == events;
    }

    /** `send`, by host `i`: what the stream does not take stays pending. */
    method Send(i: nat, fails: bool)
      requires i < |hosts| && Counted(batches, sendErrs, eventsSent, log) && WellSent(log, batchSize)
      requires hosts[i].seqId == CountIf(log, Of(i)) && |hosts[i].pending| <= batchSize + Streak(log, i)
      modifies this`hosts, this`batches, this`sendErrs, this`eventsSent, this`log
      ensures Counted(batches, sendErrs, eventsSent, log) && WellSent(log, batchSize)
      ensures var h := old(hosts)[i];
              if h.pending == [] then log == old(log) && hosts == old(hosts)
              else
                && log == old(log) + [Attempt(i, h.seqId + 1, h.pending, !fails)]
                && hosts == old(hosts)[i := Host(if fails then h.pending else [], h.seqId + 1)]
    {
      hide Tallies, WellSent, Streak, CountIf, AllDelivered;
      if |hosts[i].pending| == 0 {
        return;
      }
      hosts := hosts[i := hosts[i].(seqId := hosts[i].seqId + 1)];
      var a := Attempt(i, hosts[i].seqId, hosts[i].pending, !fails);
      LogMore(log, a, i);
      AttemptIsWellSent(log, a, batchSize);
      if fails {
        assert AllDelivered(log) + [] == AllDelivered(log);
        log := log + [a];
        sendErrs := sendErrs + 1;
        return;
      }
      log := log + [a];
      batches := batches + 1;
      Record(hosts[i].pending, AllDelivered(old(log)));
      hosts := hosts[i := hosts[i].(pending := [])];
    }

    /** One turn of the loop of host `i`. */
    method Turn(i: nat, wake: Wake, fails: bool)
      requires Valid() && i < |hosts|
      modifies this
      ensures Valid() && |hosts| == |old(hosts)| && steps == old(steps) + [Step(i, wake, fails)]
      ensures hosts == old(hosts)[i := HostAfter(old(hosts)[i], wake, fails, batchSize)]
      ensures log == LogAfter(old(log), old(hosts)[i], Step(i, wake, fails), batchSize)
    {
      hide Counted, WellSent, HostGood;
      ghost var s := Step(i, wake, fails);
      ghost var before, was := hosts, log;
      assert hosts[i].pending + [] == hosts[i].pending && hosts[i := hosts[i]] == hosts;
      Opened(hosts[i], i, log, steps, batchSize);
      steps := steps + [s];
      if wake.Generate? {
        if wake.e.Some? {
          hosts := hosts[i := hosts[i].(pending := hosts[i].pending + [wake.e.value])];
        }
        if |hosts[i].pending| >= batchSize {
          Send(i, fails);
        }
      } else {
        Send(i, fails);
      }
      forall k | 0 <= k < |hosts| ensures HostGood(hosts[k], k, log, steps, batchSize) {
        assert HostGood(before[k], k, was, old(steps), batchSize);
        if k == i {
          TurnOfHost(before[i], was, old(steps), s, batchSize);
        } else {
          TurnOfOther(before[k], k, before[i], was, old(steps), s, batchSize);
        }
      }
    }

    /** `Manifest`: the tally and its total. */
    method Manifest() returns (events: map<string, nat>, total: nat)
      requires Tallies(eventsSent, AllDelivered(log))
      ensures events == eventsSent && total == |AllDelivered(log)|
    {
      hide Tallies, AllDelivered, CountIf;
      events, total := map[], 0;
      ghost var all := AllDelivered(log);
      var keys := eventsSent.Keys;
      NoKinds(all);
      assert events.Keys == {};
      while keys != {}
        invariant keys <= eventsSent.Keys
        invariant events.Keys == eventsSent.Keys - keys && forall k :: k in events ==> events[k] == eventsSent[k]
        invariant total == CountIf(all, InKinds(events.Keys))
        decreases |keys|
      {
        var k :| k in keys;
        CountOneMore(all, events.Keys, k);
        TallyOf(eventsSent, all, k);
        assert events[k := eventsSent[k]].Keys == events.Keys + {k};
        events := events[k := eventsSent[k]];
        total := total + eventsSent[k];
        keys := keys - {k};
      }
      AllKindsSeen(all, eventsSent);
    }
  }

  /**
   * A whole run of `n` hosts, with their turns in any order. What each host has delivered,
   * followed by what it still holds, is what it generated; the manifest counts what was delivered.
   */
  method RunFleet(n: nat, batchSize: int, turns: seq<Step>)
      returns (hosts: seq<Host>, batches: nat, sendErrs: nat, events: map<string, nat>, total: nat, log: seq<Attempt>)
    requires batchSize > 0 && forall t :: 0 <= t < |turns| ==> turns[t].host < n
    ensures |hosts| == n && forall i :: 0 <= i < n ==> HostGood(hosts[i], i, log, turns, batchSize)
    ensures (hosts, log) == Played(n, batchSize, turns)
    ensures Counted(batches, sendErrs, events, log) && total == |AllDelivered(log)| && WellSent(log, batchSize)
  {
    hide HostGood, WellSent, CountIf, AllDelivered, Tallies, HostAfter, LogAfter;
    var r := new Runner(n, batchSize);
    for t := 0 to |turns|
      invariant fresh(r) && r.Valid() && |r.hosts| == n && r.steps == turns[..t] && r.batchSize == batchSize
      invariant (r.hosts, r.log) == Played(n, batchSize, turns[..t])
    {
      PlayedMore(n, batchSize, turns[..t], turns[t]);
      assert turns[..t + 1] == turns[..t] + [turns[t]];
      r.Turn(turns[t].host, turns[t].wake, turns[t].fails);
    }
    assert turns[..|turns|] == turns;
    events, total := r.Manifest();
    hosts, batches, sendErrs, log := r.hosts, r.batches, r.sendErrs, r.log;
  }

  lemma PlayedMore(n: nat, batchSize: int, turns: seq<Step>, s: Step)
    requires s.host < n
    ensures var (hosts, log) := Played(n, batchSize, turns);
            Played(n, batchSize, turns + [s]) ==
              (hosts[s.host := HostAfter(hosts[s.host], s.wake, s.fails, batchSize)], LogAfter(log, hosts[s.host], s, batchSize))
  {
    assert (turns + [s])[..|turns|] == turns;
  }

  function InKinds(kinds: set<string>): Event -> bool {
    (e: Event) => e.kind in kinds
  }

  lemma {:induction false} CountOneMore(es: seq<Event>, kinds: set<string>, k: string)
    requires k !in kinds
    ensures CountIf(es, InKinds(kinds + {k})) == CountIf(es, InKinds(kinds)) + CountIf(es, OfKind(k))
  {
    if es != [] { CountOneMore(es[..|es| - 1], kinds, k); }
  }

  lemma {:induction false} CountAll(es: seq<Event>, kinds: set<string>)
    requires forall i :: 0 <= i < |es| ==> es[i].kind in kinds
    ensures CountIf(es, InKinds(kinds)) == |es|
  {
    if es != [] { CountAll(es[..|es| - 1], kinds); }
  }

  lemma NoKinds(es: seq<Event>)
    ensures CountIf(es, InKinds({})) == 0
  {
    CountIfZero(es, InKinds({}));
  }

  lemma TallyOf(tally: map<string, nat>, es: seq<Event>, k: string)
    requires Tallies(tally, es) && k in tally
    ensures tally[k] == CountIf(es, OfKind(k))
  {
  }

  lemma AllKindsSeen(es: seq<Event>, tally: map<string, nat>)
    requires Tallies(tally, es)
    ensures CountIf(es, InKinds(tally.Keys)) == |es|
  {
    forall i | 0 <= i < |es| ensures es[i].kind in tally {
      CountIfZero(es, OfKind(es[i].kind));
    }
    CountAll(es, tally.Keys);
  }

  lemma TallyMore(tally: map<string, nat>, es: seq<Event>, e: Event)
    requires Tallies(tally, es)
    ensures Tallies(tally[e.kind := (if e.kind in tally then tally[e.kind] else 0) + 1], es + [e])
  {
    assert (es + [e])[..|es|] == es;
  }

  lemma Opened(h: Host, i: nat, log: seq<Attempt>, steps: seq<Step>, batchSize: int)
    requires HostGood(h, i, log, steps, batchSize)
    ensures h.seqId == CountIf(log, Of(i)) && |h.pending| < batchSize + Streak(log, i)
  {
  }

  lemma GeneratedMore(steps: seq<Step>, s: Step)
    ensures forall host :: Generated(steps + [s], host) ==
              Generated(steps, host) + if s.host == host && s.wake.Generate? && s.wake.e.Some? then [s.wake.e.value] else []
  {
    assert (steps + [s])[..|steps|] == steps;
  }

  lemma TurnOfHost(h: Host, log: seq<Attempt>, steps: seq<Step>, s: Step, batchSize: int)
    requires HostGood(h, s.host, log, steps, batchSize) && batchSize > 0
    ensures HostGood(HostAfter(h, s.wake, s.fails, batchSize), s.host, LogAfter(log, h, s, batchSize), steps + [s], batchSize)
  {
    GeneratedMore(steps, s);
    LogMore(log, Attempt(s.host, h.seqId + 1, Held(h, s.wake), !s.fails), s.host);
    hide CountIf, Delivered, Streak, Generated;
    HeldIsNext(Delivered(log, s.host), h, s.wake);
    assert Delivered(log, s.host) + Held(h, s.wake) == Generated(steps + [s], s.host);
    assert |Held(h, s.wake)| <= |h.pending| + 1;
    hide Held;
  }

  lemma HeldIsNext(d: seq<Event>, h: Host, wake: Wake)
    ensures d + Held(h, wake) == d + h.pending + if wake.Generate? && wake.e.Some? then [wake.e.value] else []
    ensures d + Held(h, wake) + [] == d + Held(h, wake)
  {
  }

  lemma TurnOfOther(h: Host, k: nat, g: Host, log: seq<Attempt>, steps: seq<Step>, s: Step, batchSize: int)
    requires HostGood(h, k, log, steps, batchSize) && k != s.host
    ensures HostGood(h, k, LogAfter(log, g, s, batchSize), steps + [s], batchSize)
  {
    GeneratedMore(steps, s);
    LogMore(log, Attempt(s.host, g.seqId + 1, Held(g, s.wake), !s.fails), k);
    hide CountIf, Delivered, Streak, Generated;
  }

  // ── what follows ──────────────────────────────────────────────────────────

  /** Everything a host generated was delivered exactly when nothing is pending. */
  lemma DeliveredAllIff(h: Host, host: nat, log: seq<Attempt>, steps: seq<Step>, batchSize: int)
    requires HostGood(h, host, log, steps, batchSize)
    ensures Delivered(log, host) == Generated(steps, host) <==> h.pending == []
  {
    hide Delivered, Generated, CountIf, Streak;
    assert |Delivered(log, host)| + |h.pending| == |Generated(steps, host)|;
  }

  // ── over whole runs ───────────────────────────────────────────────────────

  predicate Generates(s: Step) {
    s.wake.Generate? && s.wake.e.Some?
  }

  /** The last attempt of `host`, if it made any. */
  function LastOf(log: seq<Attempt>, host: nat): Option<Attempt> {
    if log == [] then None
    else if log[|log| - 1].host == host then Some(log[|log| - 1])
    else LastOf(log[..|log| - 1], host)
  }

  /** The last attempt of `host` failed, with a full batch or a larger one. */
  predicate FailedFull(log: seq<Attempt>, host: nat, batchSize: int) {
    var a := LastOf(log, host);
    a.Some? && !a.value.ok && |a.value.events| >= batchSize
  }

  predicate Overfull(log: seq<Attempt>, batchSize: int) {
    exists k :: 0 <= k < |log| && |log[k].events| > batchSize
  }

  lemma LastMore(log: seq<Attempt>, a: Attempt, host: nat)
    ensures LastOf(log + [a], host) == if a.host == host then Some(a) else LastOf(log, host)
  {
    assert (log + [a])[..|log|] == log;
  }

  lemma OverfullMore(log: seq<Attempt>, a: Attempt, batchSize: int)
    ensures Overfull(log + [a], batchSize) <==> Overfull(log, batchSize) || |a.events| > batchSize
  {
    var more := log + [a];
    if Overfull(log, batchSize) {
      var k :| 0 <= k < |log| && |log[k].events| > batchSize;
      assert |more[k].events| > batchSize;
    }
    assert more[|log|] == a;
  }

  /**
   * What a host holds tells how its last attempt went: it holds a full batch exactly when that failed with
   * one, and anything at all is left over from a failure or not yet a full batch; more than a full batch
   * was tried before.
   */
  predicate HoldsAsSent(h: Host, host: nat, log: seq<Attempt>, batchSize: int) {
    && (|h.pending| >= batchSize <==> FailedFull(log, host, batchSize))
    && (|h.pending| > batchSize ==> Overfull(log, batchSize))
    && (LastOf(log, host).Some? && !LastOf(log, host).value.ok ==> h.pending != [])
  }

  predicate AllHold(hosts: seq<Host>, log: seq<Attempt>, batchSize: int) {
    forall i :: 0 <= i < |hosts| ==> HoldsAsSent(hosts[i], i, log, batchSize)
  }

  lemma TurnHolds(hosts: seq<Host>, log: seq<Attempt>, s: Step, batchSize: int)
    requires s.host < |hosts| && batchSize > 0 && AllHold(hosts, log, batchSize)
    ensures AllHold(hosts[s.host := HostAfter(hosts[s.host], s.wake, s.fails, batchSize)], LogAfter(log, hosts[s.host], s, batchSize), batchSize)
  {
    hide LastOf, Overfull;
    var h := hosts[s.host];
    var a := Attempt(s.host, h.seqId + 1, Held(h, s.wake), !s.fails);
    assert |Held(h, s.wake)| == |h.pending| + if Generates(s) then 1 else 0;
    OverfullMore(log, a, batchSize);
    forall i: nat ensures LastOf(log + [a], i) == if i == s.host then Some(a) else LastOf(log, i) { LastMore(log, a, i); }
  }

  lemma PlayedLast(n: nat, batchSize: int, turns: seq<Step>)
    requires turns != []
    ensures var (hosts, log), s := Played(n, batchSize, turns[..|turns| - 1]), turns[|turns| - 1];
            Played(n, batchSize, turns) ==
              if s.host >= n then (hosts, log)
              else (hosts[s.host := HostAfter(hosts[s.host], s.wake, s.fails, batchSize)], LogAfter(log, hosts[s.host], s, batchSize))
  {
  }

  lemma {:induction false} PlayedHolds(n: nat, batchSize: int, turns: seq<Step>)
    requires batchSize > 0
    ensures AllHold(Played(n, batchSize, turns).0, Played(n, batchSize, turns).1, batchSize)
  {
    hide HostAfter, LogAfter;
    if turns != [] {
      var s := turns[|turns| - 1];
      var (hosts, log) := Played(n, batchSize, turns[..|turns| - 1]);
      PlayedHolds(n, batchSize, turns[..|turns| - 1]);
      if s.host < n { TurnHolds(hosts, log, s, batchSize); }
    }
  }

  /** At turn `t` an event is generated for a host whose last attempt had failed with a full batch. */
  predicate PilesUp(n: nat, batchSize: int, turns: seq<Step>, t: int) {
    && 0 <= t < |turns| && turns[t].host < n && Generates(turns[t])
    && FailedFull(Played(n, batchSize, turns[..t]).1, turns[t].host, batchSize)
  }

  /**
   * Over every run, some batch is larger than the batch size exactly when, at some turn, an event is
   * generated for a host whose last attempt failed with a full batch.
   */
  lemma {:induction false} OverfullIff(n: nat, batchSize: int, turns: seq<Step>)
    requires batchSize > 0
    ensures Overfull(Played(n, batchSize, turns).1, batchSize) <==> exists t :: PilesUp(n, batchSize, turns, t)
  {
    hide Played, FailedFull;
    if turns == [] {
      NothingPlayed(n, batchSize);
    } else {
      var m := |turns| - 1;
      var front, s := turns[..m], turns[m];
      OverfullIff(n, batchSize, front);
      PlayedLast(n, batchSize, turns);
      PlayedHolds(n, batchSize, front);
      forall t ensures PilesUp(n, batchSize, turns, t) <==> PilesUp(n, batchSize, front, t) || (t == m && PilesUp(n, batchSize, turns, m)) {
        if 0 <= t < m { assert front[..t] == turns[..t]; }
      }
      assert turns[..m] == front;
      var (hosts, log) := Played(n, batchSize, front);
      assert PilesUp(n, batchSize, turns, m) <==> s.host < n && Generates(s) && FailedFull(log, s.host, batchSize);
      if s.host < n { OverfullTurn(hosts, log, s, batchSize); }
      hide PilesUp, Overfull, HostAfter, LogAfter, Generates, AllHold;
      assert (exists t :: PilesUp(n, batchSize, turns, t))
             <==> (exists t :: PilesUp(n, batchSize, front, t)) || PilesUp(n, batchSize, turns, m);
    }
  }

  lemma NothingPlayed(n: nat, batchSize: int)
    ensures Played(n, batchSize, []) == (seq(n, _ => Host([], 0)), [])
  {
  }

  /** One turn makes a log overfull exactly when it generates an event for a host whose last attempt failed with a full batch. */
  lemma OverfullTurn(hosts: seq<Host>, log: seq<Attempt>, s: Step, batchSize: int)
    requires s.host < |hosts| && batchSize > 0 && AllHold(hosts, log, batchSize)
    ensures Overfull(LogAfter(log, hosts[s.host], s, batchSize), batchSize)
            <==> Overfull(log, batchSize) || (Generates(s) && FailedFull(log, s.host, batchSize))
  {
    hide Overfull, FailedFull, LastOf;
    var h := hosts[s.host];
    assert HoldsAsSent(h, s.host, log, batchSize);
    assert |Held(h, s.wake)| == |h.pending| + if Generates(s) then 1 else 0;
    OverfullMore(log, Attempt(s.host, h.seqId + 1, Held(h, s.wake), !s.fails), batchSize);
  }

  /** `m` times over, an event for `host` while its stream is broken. */
  function Broken(host: nat, e: Event, m: nat): seq<Step> {
    if m == 0 then [] else Broken(host, e, m - 1) + [Step(host, Generate(Some(e)), true)]
  }

  /** `log` ends with failures only, one event larger each time. */
  predicate Growing(log: seq<Attempt>, host: nat, batchSize: nat) {
    forall k :: 0 <= k < |log| ==> log[k].host == host && !log[k].ok && |log[k].events| == batchSize + k
  }

  lemma {:induction false} BrokenGrows(n: nat, host: nat, batchSize: nat, e: Event, m: nat)
    requires batchSize > 0 && host < n
    ensures var (hosts, log) := Played(n, batchSize, Broken(host, e, m));
            |hosts[host].pending| == m && |log| == (if m < batchSize then 0 else m - batchSize + 1)
            && Growing(log, host, batchSize)
  {
    hide Played;
    if m == 0 {
      NothingPlayed(n, batchSize);
    } else {
      BrokenGrows(n, host, batchSize, e, m - 1);
      PlayedMore(n, batchSize, Broken(host, e, m - 1), Step(host, Generate(Some(e)), true));
    }
  }

  lemma {:induction false} AllFailed(log: seq<Attempt>, host: nat, batchSize: nat)
    requires Growing(log, host, batchSize)
    ensures Streak(log, host) == |log|
  {
    if log != [] {
      AllFailed(log[..|log| - 1], host, batchSize);
    }
  }

  /**
   * Attempts of every size from the batch size on are made on some run: the bound on attempts, the batch size
   * and one for each failure in a row, is reached for any number of failures.
   */
  lemma EverySizeIsTried(n: nat, host: nat, batchSize: nat, e: Event, more: nat)
    requires batchSize > 0 && host < n
    ensures exists turns :: var log := Played(n, batchSize, turns).1;
              && |log| == more + 1 && log[more].host == host && |log[more].events| == batchSize + more
              && Streak(log[..more], host) == more && (Overfull(log, batchSize) <==> more > 0)
  {
    hide Played, Streak;
    var turns := Broken(host, e, batchSize + more);
    BrokenGrows(n, host, batchSize, e, batchSize + more);
    var log := Played(n, batchSize, turns).1;
    AllFailed(log[..more], host, batchSize);
  }

  /** What is held at a turn: what was pending, and the event if the turn generates one. */
  predicate Brings(s: Step, was: seq<Event>, now: seq<Event>) {
    match s.wake
    case Generate(Some(e)) => now == was + [e]
    case _ => now == was
  }

  /**
   * Over every run, a turn makes an attempt exactly when the host then holds something, and, if it is a turn to
   * generate, at least the batch size. The attempt is of all it holds. It stays pending unless the attempt goes through.
   */
  lemma TurnMeans(n: nat, batchSize: int, turns: seq<Step>, s: Step, held: seq<Event>)
    requires s.host < n && Brings(s, Played(n, batchSize, turns).0[s.host].pending, held)
    ensures var (hosts, log), (hosts', log') := Played(n, batchSize, turns), Played(n, batchSize, turns + [s]);
            && (held == [] || (s.wake.Generate? && |held| < batchSize) ==> log' == log && hosts'[s.host].pending == held)
            && (held != [] && (s.wake.Generate? ==> |held| >= batchSize) ==>
                  && |log'| == |log| + 1 && log <= log' && hosts'[s.host].pending == (if s.fails then held else [])
                  && log'[|log|].host == s.host && log'[|log|].events == held && (log'[|log|].ok <==> !s.fails))
            && forall i :: 0 <= i < n && i != s.host ==> hosts'[i] == hosts[i]
  {
    hide Played;
    PlayedMore(n, batchSize, turns, s);
    assert held + [] == held;
  }

  /** The last turn of `host` is of the flush ticker, or its end. */
  predicate EndsFlushed(turns: seq<Step>, host: nat) {
    turns != [] && var s := turns[|turns| - 1];
    if s.host == host then s.wake.Flush? || s.wake.Done? else EndsFlushed(turns[..|turns| - 1], host)
  }

  lemma {:induction false} PlayedConserves(n: nat, batchSize: int, turns: seq<Step>, host: nat)
    requires batchSize > 0 && host < n
    ensures var (hosts, log) := Played(n, batchSize, turns); HostGood(hosts[host], host, log, turns, batchSize)
  {
    hide HostGood, HostAfter, LogAfter;
    if turns == [] {
      GoodAtStart(host, batchSize);
    } else {
      var front, s := turns[..|turns| - 1], turns[|turns| - 1];
      var (hosts, log) := Played(n, batchSize, front);
      PlayedConserves(n, batchSize, front, host);
      assert turns == front + [s];
      if s.host == host {
        TurnOfHost(hosts[host], log, front, s, batchSize);
      } else if s.host < n {
        TurnOfOther(hosts[host], host, hosts[s.host], log, front, s, batchSize);
      } else {
        StrangeTurn(hosts[host], host, log, front, s, batchSize);
      }
    }
  }

  lemma GoodAtStart(host: nat, batchSize: int)
    requires batchSize > 0
    ensures HostGood(Host([], 0), host, [], [], batchSize)
  {
  }

  lemma StrangeTurn(h: Host, host: nat, log: seq<Attempt>, steps: seq<Step>, s: Step, batchSize: int)
    requires HostGood(h, host, log, steps, batchSize) && s.host != host
    ensures HostGood(h, host, log, steps + [s], batchSize)
  {
    GeneratedMore(steps, s);
    hide Generated, Delivered, CountIf, Streak;
  }

  /** Whether the last attempt of `host`, if any, went through. */
  predicate LastWentThrough(log: seq<Attempt>, host: nat) {
    LastOf(log, host).Some? ==> LastOf(log, host).value.ok
  }

  /** After such a turn nothing is pending exactly when the last attempt of the host, if any, went through. */
  lemma {:induction false} EndedHostHolds(n: nat, batchSize: int, turns: seq<Step>, host: nat)
    requires batchSize > 0 && host < n && EndsFlushed(turns, host)
    ensures var (hosts, log) := Played(n, batchSize, turns); hosts[host].pending == [] <==> LastWentThrough(log, host)
  {
    hide LastOf, Played;
    var front, s := turns[..|turns| - 1], turns[|turns| - 1];
    var (hosts, log) := Played(n, batchSize, front);
    PlayedLast(n, batchSize, turns);
    if s.host < n {
      var h := hosts[s.host];
      LastMore(log, Attempt(s.host, h.seqId + 1, Held(h, s.wake), !s.fails), host);
    }
    if s.host != host {
      EndedHostHolds(n, batchSize, front, host);
    } else {
      PlayedHolds(n, batchSize, front);
      assert HoldsAsSent(hosts[host], host, log, batchSize);
    }
  }

  /**
   * Over every run in which a host has come to its end or flushed last: everything it generated was delivered
   * exactly when its last attempt went through, whatever failed before.
   */
  lemma EndedHostDeliveredAllIff(n: nat, batchSize: int, turns: seq<Step>, host: nat)
    requires batchSize > 0 && host < n && EndsFlushed(turns, host)
    ensures var log := Played(n, batchSize, turns).1;
            Delivered(log, host) == Generated(turns, host) <==> LastWentThrough(log, host)
  {
    hide Played, Delivered, Generated, LastWentThrough, EndsFlushed;
    var (hosts, log) := Played(n, batchSize, turns);
    EndedHostHolds(n, batchSize, turns, host);
    PlayedConserves(n, batchSize, turns, host);
    DeliveredAllIff(hosts[host], host, log, turns, batchSize);
  }
}
