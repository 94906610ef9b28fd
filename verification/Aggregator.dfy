// The batching of collected events (agent/cmd/agent/main.go, runEventAggregator).
// What the select statement receives is a sequence of inputs in any order; a batch is
// sent when it is handed to the client. An event is opaque but for its kind.
module Aggregator {
  import opened AlertGate

  const MAX_BATCH := 10_000

  datatype Kind = Process | File | Network | Dns | Registry | Auth | ImageLoad | Script

  datatype Event = Event(kind: Kind, body: string)

  datatype Message = Message(seqId: nat, events: seq<Event>)

  datatype Input = Received(e: Event, localAlert: bool, now: int) | Tick | Done

  /** `batchState` */
  datatype Batch = Batch(processes: seq<Event>, files: seq<Event>, networks: seq<Event>, dns: seq<Event>,
                         registries: seq<Event>, auths: seq<Event>, imageLoads: seq<Event>, scripts: seq<Event>)
  {
    function Of(k: Kind): seq<Event> {
      match k
      case Process => processes case File => files case Network => networks case Dns => dns
      case Registry => registries case Auth => auths case ImageLoad => imageLoads case Script => scripts
    }

    function Size(): nat {
      |processes| + |files| + |networks| + |dns| + |registries| + |auths| + |imageLoads| + |scripts|
    }

    /** The events in the order in which they are sent. */
    function All(): seq<Event> {
      (processes + files + networks + dns) + (registries + auths + imageLoads + scripts)
    }

    predicate Sorted() {
      forall k, i :: 0 <= i < |Of(k)| ==> Of(k)[i].kind == k
    }
  }

  const EMPTY := Batch([], [], [], [], [], [], [], [])

  function Add(b: Batch, e: Event): Batch {
    match e.kind
    case Process => b.(processes := b.processes + [e])
    case File => b.(files := b.files + [e])
    case Network => b.(networks := b.networks + [e])
    case Dns => b.(dns := b.dns + [e])
    case Registry => b.(registries := b.registries + [e])
    case Auth => b.(auths := b.auths + [e])
    case ImageLoad => b.(imageLoads := b.imageLoads + [e])
    case Script => b.(scripts := b.scripts + [e])
  }

  lemma AddOf(b: Batch, e: Event, k: Kind)
    ensures Add(b, e).Of(k) == if k == e.kind then b.Of(k) + [e] else b.Of(k)
  {
  }

  lemma AddSize(b: Batch, e: Event)
    ensures Add(b, e).Size() == b.Size() + 1
  {
  }

  lemma AllSize(b: Batch)
    ensures |b.All()| == b.Size() && (b.Size() == 0 ==> b == EMPTY)
  {
  }

  lemma AllHolds(b: Batch, k: Kind, i: nat)
    requires i < |b.Of(k)|
    ensures b.Of(k)[i] in b.All()
  {
  }

  function Place(k: Kind): nat {
    match k
    case Process => 0 case File => 1 case Network => 2 case Dns => 3
    case Registry => 4 case Auth => 5 case ImageLoad => 6 case Script => 7
  }

  predicate KindByKind(es: seq<Event>) {
    forall i, j :: 0 <= i < j < |es| ==> Place(es[i].kind) <= Place(es[j].kind)
  }

  predicate Within(es: seq<Event>, low: nat, high: nat) {
    forall i :: 0 <= i < |es| ==> low <= Place(es[i].kind) <= high
  }

  lemma KindsJoin(a: seq<Event>, b: seq<Event>, low: nat, mid: nat, high: nat)
    requires KindByKind(a) && Within(a, low, mid) && KindByKind(b) && Within(b, mid, high) && low <= mid <= high
    ensures KindByKind(a + b) && Within(a + b, low, high)
  {
  }

  lemma OneKindInPlace(b: Batch, k: Kind)
    requires b.Sorted()
    ensures KindByKind(b.Of(k)) && Within(b.Of(k), Place(k), Place(k))
  {
  }

  lemma WithinMore(es: seq<Event>, a: nat, b: nat, low: nat, high: nat)
    requires Within(es, a, b) && low <= a && b <= high
    ensures Within(es, low, high)
  {
  }

  /** A batch is sent kind by kind, processes first and scripts last. */
  lemma SentKindByKind(b: Batch)
    requires b.Sorted()
    ensures KindByKind(b.All())
  {
    hide KindByKind, Within;
    forall k ensures KindByKind(b.Of(k)) && Within(b.Of(k), Place(k), Place(k)) { OneKindInPlace(b, k); }
    assert b.Of(Process) == b.processes && b.Of(File) == b.files && b.Of(Network) == b.networks && b.Of(Dns) == b.dns;
    assert b.Of(Registry) == b.registries && b.Of(Auth) == b.auths && b.Of(ImageLoad) == b.imageLoads && b.Of(Script) == b.scripts;
    WithinMore(b.files, 1, 1, 0, 1);
    WithinMore(b.networks, 2, 2, 1, 2);
    WithinMore(b.dns, 3, 3, 2, 3);
    WithinMore(b.auths, 5, 5, 4, 5);
    WithinMore(b.imageLoads, 6, 6, 5, 6);
    WithinMore(b.scripts, 7, 7, 6, 7);
    KindsJoin(b.processes, b.files, 0, 0, 1);
    KindsJoin(b.processes + b.files, b.networks, 0, 1, 2);
    KindsJoin(b.processes + b.files + b.networks, b.dns, 0, 2, 3);
    KindsJoin(b.registries, b.auths, 4, 4, 5);
    KindsJoin(b.registries + b.auths, b.imageLoads, 4, 5, 6);
    KindsJoin(b.registries + b.auths + b.imageLoads, b.scripts, 4, 6, 7);
    WithinMore(b.processes + b.files + b.networks + b.dns, 0, 3, 0, 4);
    KindsJoin(b.processes + b.files + b.networks + b.dns, b.registries + b.auths + b.imageLoads + b.scripts, 0, 4, 7);
  }

  // ── what is received and what is sent ─────────────────────────────────────

  function OfKind(es: seq<Event>, k: Kind): seq<Event> {
    if es == [] then []
    else OfKind(es[..|es| - 1], k) + if es[|es| - 1].kind == k then [es[|es| - 1]] else []
  }

  function Contents(sent: seq<Message>): seq<Event> {
    if sent == [] then [] else Contents(sent[..|sent| - 1]) + sent[|sent| - 1].events
  }

  function Events(inputs: seq<Input>): seq<Event> {
    if inputs == [] then []
    else Events(inputs[..|inputs| - 1]) + if inputs[|inputs| - 1].Received? then [inputs[|inputs| - 1].e] else []
  }

  /** Only processes, files and connections are scored. */
  predicate IsAlert(i: Input) {
    i.Received? && i.localAlert && i.e.kind in {Process, File, Network}
  }

  /** The clock readings at which an urgent send was asked for. */
  function AlertTimes(inputs: seq<Input>): seq<int> {
    if inputs == [] then []
    else AlertTimes(inputs[..|inputs| - 1]) + if IsAlert(inputs[|inputs| - 1]) then [inputs[|inputs| - 1].now] else []
  }

  function Ticks(inputs: seq<Input>): nat {
    if inputs == [] then 0 else Ticks(inputs[..|inputs| - 1]) + if inputs[|inputs| - 1].Tick? then 1 else 0
  }

  function FirstDone(inputs: seq<Input>): (n: nat)
    ensures n <= |inputs| && (forall i :: 0 <= i < n ==> !inputs[i].Done?) && (n < |inputs| ==> inputs[n].Done?)
  {
    if inputs == [] || inputs[0].Done? then 0 else 1 + FirstDone(inputs[1..])
  }

  lemma {:induction false} OfKindAppend(a: seq<Event>, b: seq<Event>, k: Kind)
    ensures OfKind(a + b, k) == OfKind(a, k) + OfKind(b, k)
  {
    if b == [] {
      assert a + b == a;
    } else {
      assert (a + b)[..|a + b| - 1] == a + b[..|b| - 1];
      OfKindAppend(a, b[..|b| - 1], k);
    }
  }

  lemma {:induction false} OfOneKind(es: seq<Event>, j: Kind, k: Kind)
    requires forall i :: 0 <= i < |es| ==> es[i].kind == j
    ensures OfKind(es, k) == if j == k then es else []
  {
    if es != [] {
      var front, last := es[..|es| - 1], es[|es| - 1];
      assert OfKind(es, k) == OfKind(front, k) + if j == k then [last] else [];
      hide OfKind;
      OfOneKind(front, j, k);
      assert front + [last] == es;
    }
  }

  lemma OfKind4(a: seq<Event>, b: seq<Event>, c: seq<Event>, d: seq<Event>, k: Kind)
    ensures OfKind(a + b + c + d, k) == OfKind(a, k) + OfKind(b, k) + OfKind(c, k) + OfKind(d, k)
  {
    OfKindAppend(a, b, k);
    OfKindAppend(a + b, c, k);
    OfKindAppend(a + b + c, d, k);
  }

  /** The events of one kind in a batch, as it is sent, are the ones collected, in order. */
  lemma BatchOfKind(b: Batch, k: Kind)
    requires b.Sorted()
    ensures OfKind(b.All(), k) == b.Of(k)
  {
    hide OfKind;
    PartOfKind(b, Process, k);
    PartOfKind(b, File, k);
    PartOfKind(b, Network, k);
    PartOfKind(b, Dns, k);
    PartOfKind(b, Registry, k);
    PartOfKind(b, Auth, k);
    PartOfKind(b, ImageLoad, k);
    PartOfKind(b, Script, k);
    hide Batch.Sorted;
    OfKind4(b.processes, b.files, b.networks, b.dns, k);
    OfKind4(b.registries, b.auths, b.imageLoads, b.scripts, k);
    OfKindAppend(b.processes + b.files + b.networks + b.dns, b.registries + b.auths + b.imageLoads + b.scripts, k);
  }

  lemma PartOfKind(b: Batch, j: Kind, k: Kind)
    requires b.Sorted()
    ensures OfKind(b.Of(j), k) == if j == k then b.Of(j) else []
  {
    OfOneKind(b.Of(j), j, k);
  }

  /** What is sent followed by what is held is what was received, kind by kind and in order. */
  ghost predicate Conserved(sent: seq<Message>, held: Batch, received: seq<Event>) {
    held.Sorted() && forall k :: OfKind(Contents(sent), k) + held.Of(k) == OfKind(received, k)
  }

  predicate WellSent(sent: seq<Message>) {
    forall i :: 0 <= i < |sent| ==> sent[i].seqId == i + 1 && 1 <= |sent[i].events| <= MAX_BATCH
  }

  lemma AddConserves(sent: seq<Message>, held: Batch, received: seq<Event>, e: Event)
    requires Conserved(sent, held, received)
    ensures Conserved(sent, Add(held, e), received + [e])
  {
    assert (received + [e])[..|received|] == received;
    forall k ensures OfKind(Contents(sent), k) + Add(held, e).Of(k) == OfKind(received + [e], k) {
      AddOf(held, e, k);
    }
    forall k, i | 0 <= i < |Add(held, e).Of(k)| ensures Add(held, e).Of(k)[i].kind == k { AddOf(held, e, k); }
    hide Add;
  }

  function Next(sent: seq<Message>, held: Batch): Message {
    Message(|sent| + 1, held.All())
  }

  lemma FlushConserves(sent: seq<Message>, held: Batch, received: seq<Event>)
    requires Conserved(sent, held, received)
    ensures Conserved(sent + [Next(sent, held)], EMPTY, received)
  {
    forall k ensures OfKind(Contents(sent + [Next(sent, held)]), k) + EMPTY.Of(k) == OfKind(received, k) {
      assert (sent + [Next(sent, held)])[..|sent|] == sent;
      OfKindAppend(Contents(sent), held.All(), k);
      BatchOfKind(held, k);
    }
  }

  /**
   * What holds after every step. `full` batches went out because they were full and
   * `early` ones for another reason: a tick, or an urgent event that was let through.
   */
  ghost predicate Good(sent: seq<Message>, held: Batch, heard: seq<Input>, gap: int, full: nat, early: nat) {
    && Conserved(sent, held, Events(heard)) && WellSent(sent) && held.Size() < MAX_BATCH
    && full + early == |sent| && MAX_BATCH * full + held.Size() <= |Events(heard)|
    && early <= Ticks(heard) + |Permitted(AlertTimes(heard), gap)|
  }

  lemma Hears(heard: seq<Input>, i: Input, gap: int)
    ensures Events(heard + [i]) == Events(heard) + if i.Received? then [i.e] else []
    ensures Ticks(heard + [i]) == Ticks(heard) + if i.Tick? then 1 else 0
    ensures var p := Permitted(AlertTimes(heard), gap);
            Permitted(AlertTimes(heard + [i]), gap) == p + if IsAlert(i) && Lets(Last(p), gap, i.now) then [i.now] else []
  {
    assert (heard + [i])[..|heard|] == heard;
    if IsAlert(i) { PermittedMore(AlertTimes(heard), gap, i.now); } else { assert AlertTimes(heard + [i]) == AlertTimes(heard); }
    hide Permitted;
  }

  function After(sent: seq<Message>, held: Batch, send: bool): (seq<Message>, Batch) {
    if send && held.Size() > 0 then (sent + [Next(sent, held)], EMPTY) else (sent, held)
  }

  lemma SendKeepsWell(sent: seq<Message>, b: Batch)
    requires WellSent(sent) && 1 <= b.Size() <= MAX_BATCH
    ensures WellSent(sent + [Next(sent, b)]) && EMPTY.Size() == 0
  {
    AllSize(b);
  }

  lemma ReceiveKeepsGood(sent: seq<Message>, held: Batch, heard: seq<Input>, gap: int, full: nat, early: nat, i: Input, urgent: bool)
    requires Good(sent, held, heard, gap, full, early) && i.Received?
    requires urgent <==> IsAlert(i) && Lets(Last(Permitted(AlertTimes(heard), gap)), gap, i.now)
    ensures var b := Add(held, i.e);
            var (s, h) := After(sent, b, urgent || b.Size() >= MAX_BATCH);
            Good(s, h, heard + [i], gap, if !urgent && b.Size() >= MAX_BATCH then full + 1 else full, if urgent then early + 1 else early)
  {
    var b := Add(held, i.e);
    Hears(heard, i, gap);
    AddConserves(sent, held, Events(heard), i.e);
    AddSize(held, i.e);
    FlushConserves(sent, b, Events(heard) + [i.e]);
    SendKeepsWell(sent, b);
    hide Conserved, Add, Permitted, IsAlert, Lets, Events, AlertTimes, Ticks, WellSent, Batch.Size, Batch.All;
  }

  lemma TickKeepsGood(sent: seq<Message>, held: Batch, heard: seq<Input>, gap: int, full: nat, early: nat)
    requires Good(sent, held, heard, gap, full, early)
    ensures var (s, h) := After(sent, held, true);
            h == EMPTY && Good(s, h, heard + [Tick], gap, full, if held.Size() > 0 then early + 1 else early)
  {
    Hears(heard, Tick, gap);
    FlushConserves(sent, held, Events(heard));
    AllSize(held);
    if held.Size() > 0 { SendKeepsWell(sent, held); }
    hide Conserved, Permitted, IsAlert, Lets, Events, AlertTimes, Ticks, WellSent;
    assert Events(heard) + [] == Events(heard);
  }

  /** The last flush, when the context is done. */
  lemma EndIsGood(sent: seq<Message>, held: Batch, heard: seq<Input>, gap: int, full: nat, early: nat)
    requires Good(sent, held, heard, gap, full, early)
    ensures var (s, h) := After(sent, held, true);
            h == EMPTY && Conserved(s, h, Events(heard)) && WellSent(s)
    ensures |sent| <= |Events(heard)| / MAX_BATCH + Ticks(heard) + |Permitted(AlertTimes(heard), gap)|
  {
    FlushConserves(sent, held, Events(heard));
    AllSize(held);
    hide Conserved, Permitted, Events, AlertTimes, Ticks;
  }

  // ── the aggregator ────────────────────────────────────────────────────────

  class Aggregator {
    const gate: Gate
    var current: Batch
    var seqId: nat
    /** What the client was given, in order. */
    var sent: seq<Message>
    ghost var heard: seq<Input>
    /** How many batches went out because they were full, and how many for another reason. */
    ghost var full: nat
    ghost var early: nat

    ghost predicate Valid()
      reads this, gate
    {
      && Good(sent, current, heard, gate.minGap, full, early) && seqId == |sent|
      && gate.last == Last(Permitted(AlertTimes(heard), gate.minGap))
    }

    constructor (minGap: int)
      ensures Valid() && fresh(gate) && gate.minGap == minGap
      ensures current == EMPTY && sent == [] && heard == []
    {
      gate := new Gate(minGap);
      current := EMPTY;
      seqId := 0;
      sent := [];
      heard := [];
      full, early := 0, 0;
    }

    /** `flush`: nothing is sent when nothing is held. */
    method Flush()
      requires seqId == |sent|
      modifies this`current, this`seqId, this`sent
      ensures current == EMPTY && (sent, EMPTY) == After(old(sent), old(current), true) && seqId == |sent|
    {
      AllSize(current);
      if |current.processes| + |current.files| + |current.networks| + |current.dns|
         + |current.registries| + |current.auths| + |current.imageLoads| + |current.scripts| == 0 {
        return;
      }
      seqId := seqId + 1;
      var events := current.processes;
      events := events + current.files;
      events := events + current.networks;
      events := events + current.dns;
      events := events + current.registries;
      events := events + current.auths;
      events := events + current.imageLoads;
      events := events + current.scripts;
      assert events == current.All();
      sent := sent + [Message(seqId, events)];
      current := EMPTY;
    }

    /**
     * The cases of the select statement that receive an event. An event whose urgent send is
     * let through is in the batch sent in this very step, and so is one that fills the batch.
     */
    method Receive(e: Event, localAlert: bool, now: int)
      requires Valid()
      modifies this, gate
      ensures Valid() && heard == old(heard) + [Received(e, localAlert, now)]
      ensures var urgent := IsAlert(Received(e, localAlert, now)) && Lets(old(gate.last), gate.minGap, now);
              var b := Add(old(current), e);
              && (sent, current) == After(old(sent), b, urgent || b.Size() >= MAX_BATCH)
              && (urgent || b.Size() >= MAX_BATCH ==> |sent| == |old(sent)| + 1 && e in sent[|sent| - 1].events)
      ensures var urgent := localAlert && (e.kind.Process? || e.kind.File? || e.kind.Network?) && Lets(old(gate.last), gate.minGap, now);
              && (|sent| == |old(sent)| + 1 <==> urgent || old(current).Size() + 1 >= MAX_BATCH)
              && gate.last == if urgent then now else old(gate.last)
    {
      hide Good, Permitted, AlertTimes, Events, Ticks, Batch.Size, Batch.All, Batch.Of, Lets;
      var urgent := false;
      ghost var input := Received(e, localAlert, now);
      Hears(heard, input, gate.minGap);
      match e.kind {
        case Process =>
          current := current.(processes := current.processes + [e]);
          urgent := gate.NoteAnomaly(now, localAlert);
        case File =>
          current := current.(files := current.files + [e]);
          urgent := gate.NoteAnomaly(now, localAlert);
        case Network =>
          current := current.(networks := current.networks + [e]);
          urgent := gate.NoteAnomaly(now, localAlert);
        case Dns => current := current.(dns := current.dns + [e]);
        case Registry => current := current.(registries := current.registries + [e]);
        case Auth => current := current.(auths := current.auths + [e]);
        case ImageLoad => current := current.(imageLoads := current.imageLoads + [e]);
        case Script => current := current.(scripts := current.scripts + [e]);
      }
      ghost var held := current;
      assert held == Add(old(current), e);
      ReceiveKeepsGood(sent, old(current), heard, gate.minGap, full, early, input, urgent);
      AddedIsHeld(old(current), e);
      heard := heard + [input];
      hide Add, IsAlert, Lets;
      if urgent || current.Size() >= MAX_BATCH {
        if urgent { early := early + 1; } else { full := full + 1; }
        Flush();
      }
    }

    /** The ticker fires. */
    method OnTick()
      requires Valid()
      modifies this
      ensures Valid() && heard == old(heard) + [Tick] && (sent, EMPTY) == After(old(sent), old(current), true) && current == EMPTY
    {
      hide Good, Permitted, AlertTimes, Events, Ticks;
      Hears(heard, Tick, gate.minGap);
      TickKeepsGood(sent, current, heard, gate.minGap, full, early);
      if current.Size() > 0 { early := early + 1; }
      heard := heard + [Tick];
      Flush();
    }
  }

  lemma AddedIsHeld(b: Batch, e: Event)
    ensures e in Add(b, e).All() && Add(b, e).Size() == b.Size() + 1
  {
    var c := Add(b, e);
    AddOf(b, e, e.kind);
    AddSize(b, e);
    AllHolds(c, e.kind, |c.Of(e.kind)| - 1);
    hide Add;
  }

  /** A whole run: until the context is done, or the inputs end. */
  method RunAggregator(inputs: seq<Input>, minGap: int) returns (sent: seq<Message>, held: Batch)
    ensures var heard := inputs[..FirstDone(inputs)];
            && Conserved(sent, held, Events(heard)) && WellSent(sent) && held.Size() < MAX_BATCH
            && (FirstDone(inputs) < |inputs| ==> held == EMPTY)
            && |sent| <= |Events(heard)| / MAX_BATCH + Ticks(heard) + |Permitted(AlertTimes(heard), minGap)| + 1
  {
    hide OfKind, Contents, Permitted, AlertTimes, Add, Lets, IsAlert, Conserved;
    var a := new Aggregator(minGap);
    var n := 0;
    while n < |inputs| && !inputs[n].Done?
      invariant n <= |inputs| && forall i :: 0 <= i < n ==> !inputs[i].Done?
      invariant a.Valid() && a.heard == inputs[..n] && fresh(a) && fresh(a.gate) && a.gate.minGap == minGap
    {
      match inputs[n] {
        case Received(e, localAlert, now) => a.Receive(e, localAlert, now);
        case Tick => a.OnTick();
      }
      n := n + 1;
    }
    assert n == FirstDone(inputs);
    EndIsGood(a.sent, a.current, a.heard, minGap, a.full, a.early);
    if n < |inputs| {
      a.Flush();
    }
    sent, held := a.sent, a.current;
  }

  lemma {:induction false} CountOfKind(es: seq<Event>, e: Event)
    ensures multiset(OfKind(es, e.kind))[e] == multiset(es)[e]
  {
    if es != [] {
      var front, last := es[..|es| - 1], es[|es| - 1];
      CountOfKind(front, e);
      assert OfKind(es, e.kind) == OfKind(front, e.kind) + if last.kind == e.kind then [last] else [];
      hide OfKind;
      assert es == front + [last];
    }
  }

  /** Nothing is lost, nothing is sent twice. */
  lemma ConservedIsExactlyOnce(sent: seq<Message>, held: Batch, received: seq<Event>)
    requires Conserved(sent, held, received)
    ensures multiset(Contents(sent)) + multiset(held.All()) == multiset(received)
  {
    forall e ensures (multiset(Contents(sent)) + multiset(held.All()))[e] == multiset(received)[e] {
      CountOfKind(Contents(sent), e);
      CountOfKind(held.All(), e);
      CountOfKind(received, e);
      BatchOfKind(held, e.kind);
    }
  }
}
