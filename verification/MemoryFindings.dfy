// Findings of the memory scanner, reported when first seen (agent/cmd/agent/memscan.go).
module MemoryFindings {
  import opened Common

  datatype Key = Key(pid: int, processName: string, address: string, size: nat, perms: string, yaraMatched: bool)

  /** `more` stands for the fields that do not tell regions apart. */
  datatype Finding = Finding(pid: int, processName: string, address: string, size: nat, perms: string, yaraMatched: bool, more: string)

  /** `memKeyOf` */
  function KeyOf(f: Finding): Key {
    Key(f.pid, f.processName, f.address, f.size, f.perms, f.yaraMatched)
  }

  function Keys(fs: seq<Finding>): set<Key> {
    set f | f in fs :: KeyOf(f)
  }

  /** The findings of a cycle whose keys are new. */
  function New(fs: seq<Finding>, seen: set<Key>): seq<Finding> {
    if fs == [] then []
    else
      var f := fs[|fs| - 1];
      New(fs[..|fs| - 1], seen) + if KeyOf(f) in seen then [] else [f]
  }

  class Suppressor {
    var seen: set<Key>

    constructor ()
      ensures seen == {}
    {
      seen := {};
    }

    /** `filter` */
    method Filter(findings: seq<Finding>) returns (reported: seq<Finding>, suppressed: nat)
      modifies this
      ensures reported == New(findings, old(seen)) && |reported| + suppressed == |findings|
      ensures seen == Keys(findings)
    {
      var current: set<Key> := {};
      reported, suppressed := [], 0;
      for i := 0 to |findings|
        invariant seen == old(seen) && current == Keys(findings[..i])
        invariant reported == New(findings[..i], seen) && |reported| + suppressed == i
      {
        var f := findings[i];
        assert findings[..i + 1] == findings[..i] + [f] && findings[..i + 1][..i] == findings[..i];
        var k := KeyOf(f);
        current := current + {k};
        if k in seen {
          suppressed := suppressed + 1;
          continue;
        }
        reported := reported + [f];
      }
      assert findings[..|findings|] == findings;
      seen := current;
    }
  }

  // ── over the cycles ───────────────────────────────────────────────────────

  type Cycles = seq<seq<Finding>>

  function KeysAt(cycles: Cycles, c: int): set<Key> {
    if 0 <= c < |cycles| then Keys(cycles[c]) else {}
  }

  /** `runMemoryScanService`: one suppressor for all cycles. */
  method ScanCycles(cycles: Cycles) returns (reports: Cycles)
    ensures AreReports(reports, cycles)
  {
    hide New, Keys;
    var s := new Suppressor();
    reports := [];
    for c := 0 to |cycles|
      invariant |reports| == c && fresh(s) && s.seen == KeysAt(cycles, c - 1)
      invariant forall i :: 0 <= i < c ==> reports[i] == New(cycles[i], KeysAt(cycles, i - 1))
    {
      var reported, suppressed := s.Filter(cycles[c]);
      reports := reports + [reported];
    }
  }

  predicate AreReports(reports: Cycles, cycles: Cycles) {
    |reports| == |cycles| && forall i :: 0 <= i < |cycles| ==> reports[i] == New(cycles[i], KeysAt(cycles, i - 1))
  }

  lemma {:induction false} NewIff(fs: seq<Finding>, seen: set<Key>, f: Finding)
    ensures f in New(fs, seen) <==> f in fs && KeyOf(f) !in seen
  {
    if fs != [] {
      NewIff(fs[..|fs| - 1], seen, f);
      assert fs == fs[..|fs| - 1] + [fs[|fs| - 1]];
    }
  }

  /** Two findings are of one region: of one process, at one place, with the same rights, and both or neither matched. */
  predicate SameRegion(f: Finding, g: Finding) {
    && f.pid == g.pid && f.processName == g.processName && f.address == g.address && f.size == g.size
    && f.perms == g.perms && f.yaraMatched == g.yaraMatched
  }

  /** A finding is reported exactly in the cycles that have it while the cycle before had none of the same region. */
  lemma ReportedIff(cycles: Cycles, reports: Cycles, c: nat, f: Finding)
    requires AreReports(reports, cycles) && c < |cycles|
    ensures f in reports[c] <==> f in cycles[c] && (c > 0 ==> forall g :: g in cycles[c - 1] ==> !SameRegion(f, g))
  {
    NewIff(cycles[c], KeysAt(cycles, c - 1), f);
    forall g ensures KeyOf(f) == KeyOf(g) <==> SameRegion(f, g) {}
  }

  /** The findings reported stand in the order in which they were found, and each as often. */
  lemma {:induction false} NewAppend(a: seq<Finding>, b: seq<Finding>, seen: set<Key>)
    ensures New(a + b, seen) == New(a, seen) + New(b, seen)
  {
    hide KeyOf;
    if b == [] {
      assert a + b == a;
    } else {
      assert (a + b)[..|a + b| - 1] == a + b[..|b| - 1];
      NewAppend(a, b[..|b| - 1], seen);
    }
  }

  lemma NewOne(f: Finding, seen: set<Key>)
    ensures New([f], seen) == if KeyOf(f) in seen then [] else [f]
  {
    assert [f][..0] == [];
  }

  function OfKey(k: Key): Finding -> bool {
    (f: Finding) => KeyOf(f) == k
  }

  /** How many findings with key `k` are reported. */
  function Reports(reports: Cycles, k: Key): nat {
    if reports == [] then 0 else Reports(reports[..|reports| - 1], k) + CountIf(reports[|reports| - 1], OfKey(k))
  }

  predicate DistinctKeys(fs: seq<Finding>) {
    forall i, j :: 0 <= i < j < |fs| ==> KeyOf(fs[i]) != KeyOf(fs[j])
  }

  predicate IsPresent(cycles: Cycles, k: Key, c: int) {
    k in KeysAt(cycles, c)
  }

  /** `k` is there in the cycles from `a` up to `b`, and neither just before nor just after. */
  predicate Maximal(cycles: Cycles, k: Key, a: int, b: int) {
    0 <= a < b <= |cycles| && (forall c :: a <= c < b ==> IsPresent(cycles, k, c))
    && !IsPresent(cycles, k, a - 1) && !IsPresent(cycles, k, b)
  }

  function Intervals(cycles: Cycles, k: Key): set<(nat, nat)> {
    set a: nat, b: nat | 0 <= a < |cycles| && 0 <= b <= |cycles| && Maximal(cycles, k, a, b) :: (a, b)
  }

  predicate IsStart(cycles: Cycles, k: Key, c: int) {
    IsPresent(cycles, k, c) && !IsPresent(cycles, k, c - 1)
  }

  function Starts(cycles: Cycles, k: Key, n: nat): set<nat> {
    set c: nat | 0 <= c < n && IsStart(cycles, k, c)
  }

  lemma {:induction false} CountOfKey(fs: seq<Finding>, seen: set<Key>, k: Key)
    requires DistinctKeys(fs)
    ensures CountIf(New(fs, seen), OfKey(k)) == if k in Keys(fs) && k !in seen then 1 else 0
  {
    hide New, Keys, CountIf, KeyOf;
    if fs != [] {
      var n := |fs| - 1;
      var last := if KeyOf(fs[n]) in seen then [] else [fs[n]];
      CountOfKey(fs[..n], seen, k);
      NewUnfolds(fs, seen);
      KeysUnfold(fs);
      CountIfAppend(New(fs[..n], seen), last, OfKey(k));
      CountIfOne(fs[n], OfKey(k));
    }
    NoneNew(seen);
    CountIfZero([], OfKey(k));
  }

  lemma NoneNew(seen: set<Key>)
    ensures New([], seen) == [] && Keys([]) == {}
  {
  }

  lemma NewUnfolds(fs: seq<Finding>, seen: set<Key>)
    requires fs != []
    ensures var f := fs[|fs| - 1]; New(fs, seen) == New(fs[..|fs| - 1], seen) + if KeyOf(f) in seen then [] else [f]
  {
  }

  lemma KeysUnfold(fs: seq<Finding>)
    requires fs != []
    ensures Keys(fs) == Keys(fs[..|fs| - 1]) + {KeyOf(fs[|fs| - 1])}
    ensures DistinctKeys(fs) ==> KeyOf(fs[|fs| - 1]) !in Keys(fs[..|fs| - 1])
  {
    hide KeyOf;
    var n := |fs| - 1;
    assert fs == fs[..n] + [fs[n]];
    assert forall f :: f in fs[..n] ==> exists i :: 0 <= i < n && fs[i] == f;
  }

  lemma CountOfCycle(cycles: Cycles, reports: Cycles, k: Key, c: nat)
    requires AreReports(reports, cycles) && c < |cycles| && DistinctKeys(cycles[c])
    ensures CountIf(reports[c], OfKey(k)) == if IsStart(cycles, k, c) then 1 else 0
  {
    hide DistinctKeys, Keys, New;
    CountOfKey(cycles[c], KeysAt(cycles, c - 1), k);
  }

  lemma {:induction false} ReportsAreStarts(cycles: Cycles, reports: Cycles, k: Key, n: nat)
    requires AreReports(reports, cycles) && n <= |cycles| && forall c :: 0 <= c < |cycles| ==> DistinctKeys(cycles[c])
    ensures Reports(reports[..n], k) == |Starts(cycles, k, n)|
  {
    hide DistinctKeys, KeysAt, New;
    if n > 0 {
      ReportsAreStarts(cycles, reports, k, n - 1);
      assert reports[..n][..n - 1] == reports[..n - 1];
      CountOfCycle(cycles, reports, k, n - 1);
      var before := Starts(cycles, k, n - 1);
      assert Starts(cycles, k, n) == if IsStart(cycles, k, n - 1) then before + {n - 1} else before;
    }
  }

  /** The end of the presence that has started. */
  function End(cycles: Cycles, k: Key, c: nat): (b: nat)
    ensures c <= b && (c <= |cycles| ==> b <= |cycles|)
    ensures (forall i :: c <= i < b ==> IsPresent(cycles, k, i)) && !IsPresent(cycles, k, b)
    decreases |cycles| - c
  {
    if IsPresent(cycles, k, c) then End(cycles, k, c + 1) else c
  }

  /** Each of the starts with its end. */
  function Pairs(cycles: Cycles, k: Key, starts: set<nat>): set<(nat, nat)> {
    set a | a in starts :: (a, End(cycles, k, a))
  }

  lemma {:induction false} Paired(cycles: Cycles, k: Key, starts: set<nat>)
    ensures |Pairs(cycles, k, starts)| == |starts|
  {
    if starts != {} {
      var x :| x in starts;
      Paired(cycles, k, starts - {x});
      assert Pairs(cycles, k, starts) == Pairs(cycles, k, starts - {x}) + {(x, End(cycles, k, x))};
    }
  }

  lemma LengthOfReports(cycles: Cycles, reports: Cycles)
    requires AreReports(reports, cycles)
    ensures |reports| == |cycles|
  {
  }

  /** When no cycle has a key twice, a region is reported once for each time it comes and stays. */
  lemma ReportedOncePerPresence(cycles: Cycles, reports: Cycles, k: Key)
    requires AreReports(reports, cycles) && forall c :: 0 <= c < |cycles| ==> DistinctKeys(cycles[c])
    ensures Reports(reports, k) == |Intervals(cycles, k)|
  {
    hide AreReports, DistinctKeys, Reports, KeysAt;
    var n := |cycles|;
    assert |reports| == n by { LengthOfReports(cycles, reports); }
    ReportsAreStarts(cycles, reports, k, n);
    assert reports[..n] == reports;
    var starts := Starts(cycles, k, n);
    Paired(cycles, k, starts);
    var pairs := Pairs(cycles, k, starts);
    forall a, b ensures (a, b) in Intervals(cycles, k) <==> (a, b) in pairs {
      if (a, b) in Intervals(cycles, k) {
        assert IsPresent(cycles, k, a) && a in starts;
        assert b <= End(cycles, k, a) && End(cycles, k, a) <= b;
      }
    }
    assert Intervals(cycles, k) == pairs;
  }
}
