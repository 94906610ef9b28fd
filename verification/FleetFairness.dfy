// What the allocation of hosts amounts to, computed in doubles as it is: every profile has its
// proportional share rounded down or up, and no list of hosts is closer to the proportions. All of
// it while the numbers stay below 2^53 (`Modest`).
module FleetFairness {
  import opened Common
  import opened Apportionment
  import opened FloatShares
  import opened FleetAllocation

  // ── the shares are served by remainder ────────────────────────────────────

  ghost predicate Served(order: seq<Remainder>, k: nat, i: nat) {
    exists a :: 0 <= a < k && a < |order| && order[a].idx == i
  }

  predicate Distinctly(order: seq<Remainder>) {
    forall a, b :: 0 <= a < b < |order| ==> order[a].idx != order[b].idx
  }

  /** With no more leftovers than profiles nothing goes round: the first in the order get one each. */
  lemma {:induction false} TurnsIsServed(order: seq<Remainder>, k: nat, i: nat)
    requires order != [] && k <= |order| && Distinctly(order)
    ensures Turns(order, k, i) == if Served(order, k, i) then 1 else 0
  {
    if k > 0 {
      TurnsIsServed(order, k - 1, i);
      FirstRound(k - 1, |order|);
      var idx := order[k - 1].idx;
      assert Served(order, k, i) <==> Served(order, k - 1, i) || i == idx by {
        if i == idx { assert order[k - 1].idx == i; }
      }
    }
  }

  lemma FirstRound(k: nat, n: nat)
    requires k < n
    ensures k % n == k
  {
  }

  /** All that is left over is given out, one at a time. */
  lemma {:induction false} TurnsAddUp(f: seq<nat>, order: seq<Remainder>, k: nat)
    requires |order| == |f| > 0 && forall j :: 0 <= j < |order| ==> order[j].idx < |f|
    ensures Sum(WithTurns(f, order, k)) == Sum(f) + k
  {
    hide Sum;
    if k == 0 {
      assert WithTurns(f, order, 0) == f;
    } else {
      TurnsAddUp(f, order, k - 1);
      IndexInRange(k - 1, |order|);
      var x, i := WithTurns(f, order, k - 1), order[(k - 1) % |order|].idx;
      SumBump(x, i);
      assert WithTurns(f, order, k) == x[i := x[i] + 1];
    }
  }

  lemma IndexInRange(k: nat, n: nat)
    requires n > 0
    ensures 0 <= k % n < n
  {
  }

  function WithTurns(f: seq<nat>, order: seq<Remainder>, k: nat): (x: seq<nat>)
    requires order != []
    ensures |x| == |f| && forall i :: 0 <= i < |x| ==> x[i] == f[i] + Turns(order, k, i)
  {
    seq(|f|, i requires 0 <= i < |f| => f[i] + Turns(order, k, i))
  }

  /** `order` holds the remainder of every profile once, largest first. */
  ghost predicate InOrder(fl: real -> real, w: seq<nat>, total: nat, hosts: nat, order: seq<Remainder>)
    requires Rounding(fl) && total > 0
  {
    && Ordered(order) && |order| == |w|
    && (forall k :: 0 <= k < |order| ==> order[k].idx < |w| && order[k].frac == Rest(fl, hosts, w[order[k].idx], total))
    && forall i :: 0 <= i < |w| ==> Served(order, |w|, i)
  }

  lemma SortedInOrder(fl: real -> real, w: seq<nat>, total: nat, hosts: nat)
    requires Rounding(fl) && total > 0
    ensures InOrder(fl, w, total, hosts, SortStable(Rests(fl, w, total, hosts)))
  {
    hide Rounding, Rest;
    var rems := Rests(fl, w, total, hosts);
    hide Rests;
    SortStableSorts(rems);
    var order := SortStable(rems);
    forall k | 0 <= k < |order|
      ensures order[k].idx < |w| && order[k].frac == Rest(fl, hosts, w[order[k].idx], total)
    {
      assert order[k] in rems;
    }
    forall i | 0 <= i < |w| ensures Served(order, |w|, i) {
      assert rems[i] in rems;
      assert rems[i] in order;
    }
  }

  lemma InOrderDistinctly(fl: real -> real, w: seq<nat>, total: nat, hosts: nat, order: seq<Remainder>)
    requires Rounding(fl) && total > 0 && InOrder(fl, w, total, hosts, order)
    ensures Distinctly(order)
  {
    hide Rounding, Rest;
    forall a, b | 0 <= a < b < |order| ensures order[a].idx != order[b].idx { assert Before(order[a], order[b]); }
  }

  /** Who is served is ahead of who is not. */
  lemma ServedAreAhead(fl: real -> real, w: seq<nat>, total: nat, hosts: nat, order: seq<Remainder>, left: nat, i: nat, j: nat)
    requires Rounding(fl) && total > 0 && InOrder(fl, w, total, hosts, order) && left <= |w| && i < |w| && j < |w|
    requires Served(order, left, i) && !Served(order, left, j)
    ensures FloatAhead(fl, w, total, hosts, i, j)
  {
    hide Rounding, Rest;
    var a :| 0 <= a < left && a < |order| && order[a].idx == i;
    assert Served(order, |w|, j);
    var b :| 0 <= b < |w| && b < |order| && order[b].idx == j;
    assert left <= b;
    assert Before(order[a], order[b]);
  }

  lemma WholesAreFloors(fl: real -> real, w: seq<nat>, total: nat, hosts: nat)
    requires Rounding(fl) && total > 0 && Moderate(w, total, hosts)
    ensures Wholes(fl, w, total, hosts) == Floors(w, total, hosts)
  {
    hide Rounding, Whole, Floor, Moderate;
    forall i | 0 <= i < |w| ensures Whole(fl, hosts, w[i], total) == Floor(hosts, w[i], total) { WholeIsFloor(fl, w, total, hosts, i); }
    hide Wholes, Floors;
  }

  /** What the loops compute gives the leftovers, all of them, to the largest remainders as computed. */
  lemma SharesAreServed(fl: real -> real, w: seq<nat>, total: nat, hosts: nat)
    requires Rounding(fl) && w != [] && total == Sum(w) > 0 && Moderate(w, total, hosts)
    ensures ServedByFloat(fl, w, total, hosts, Shares(fl, w, total, hosts))
  {
    hide Rounding, Whole, Rest, Moderate, Sum, Floor, SortStable, Rests, InOrder, FloatAhead, Turns, Ordered, Distinctly;
    var f, order := Wholes(fl, w, total, hosts), SortStable(Rests(fl, w, total, hosts));
    WholesAreFloors(fl, w, total, hosts);
    LeftoversAreFew(w, total, hosts);
    var left := hosts - Sum(f);
    SortedInOrder(fl, w, total, hosts);
    InOrderIs(fl, w, total, hosts, order);
    InOrderDistinctly(fl, w, total, hosts, order);
    TurnsAddUp(f, order, left);
    hide Wholes, Floors;
    var x := Shares(fl, w, total, hosts);
    assert x == WithTurns(f, order, left);
    forall i | 0 <= i < |w| ensures x[i] == f[i] + if Served(order, left, i) then 1 else 0 { TurnsIsServed(order, left, i); }
    hide Shares, WithTurns;
    forall i, j | 0 <= i < |w| && 0 <= j < |w| && Served(order, left, i) && !Served(order, left, j)
      ensures FloatAhead(fl, w, total, hosts, i, j)
    {
      ServedAreAhead(fl, w, total, hosts, order, left, i, j);
    }
    hide Served;
  }

  lemma InOrderIs(fl: real -> real, w: seq<nat>, total: nat, hosts: nat, order: seq<Remainder>)
    requires Rounding(fl) && total > 0 && InOrder(fl, w, total, hosts, order)
    ensures Ordered(order) && |order| == |w| && forall k :: 0 <= k < |order| ==> order[k].idx < |w|
  {
    hide Rounding, Ordered, Rest;
  }

  // ── the allocation ────────────────────────────────────────────────────────

  /** What each profile has above its floor. */
  function Above(counts: seq<nat>, base: nat): (x: seq<int>)
    ensures |x| == |counts| && forall i :: 0 <= i < |x| ==> x[i] == counts[i] - base
  {
    if counts == [] then [] else [counts[0] - base] + Above(counts[1..], base)
  }

  lemma {:induction false} SumAbove(counts: seq<nat>, base: nat)
    ensures Sum(counts) == Sum(Above(counts, base)) + base * |counts|
  {
    if counts != [] { SumAbove(counts[1..], base); }
  }

  /** Doubles hold every product of hosts and weights that is computed. */
  predicate Modest(ps: seq<Profile>, n: nat) {
    WeightsTotal(ps);
    Moderate(Weights(ps), Sum(Weights(ps)), Remaining(|ps|, n))
  }

  lemma {:induction false} TwoOfSum(w: seq<nat>, i: nat, j: nat)
    requires i < j < |w|
    ensures w[i] + w[j] <= Sum(w)
  {
    if i == 0 {
      SumOfBits(w[1..], j - 1);
    } else {
      TwoOfSum(w[1..], i - 1, j - 1);
    }
  }

  lemma ProductGrows(a: nat, b: nat, c: nat, d: nat)
    requires a <= c && b <= d
    ensures 0 <= a * b <= c * d
  {
    NoLess(c - a, d);
    NoLess(a, d - b);
    NoLess(a, b);
    assert c * d - a * b == (c - a) * d + a * (d - b);
  }

  /** It is enough that the hosts times the total weight are below 2^53. */
  lemma SmallIsModest(ps: seq<Profile>, n: nat)
    requires n > 0 && ps != [] && n * Sum(Weights(ps)) < TWO53
    ensures Modest(ps, n)
  {
    WeightsTotal(ps);
    hide Sum;
    var w, hosts, total := Weights(ps), Remaining(|ps|, n), Sum(Weights(ps));
    ProductGrows(1, total, n, total);
    ProductGrows(n, 1, n, total);
    forall i | 0 <= i < |w| ensures w[i] < TWO53 && hosts * w[i] < TWO53 {
      SumOfBits(w, i);
      ProductGrows(hosts, w[i], n, total);
    }
    forall i, j | 0 <= i < |w| && 0 <= j < |w| && i != j ensures hosts * w[i] + hosts * w[j] < TWO53 {
      TwoOfSum(w, if i < j then i else j, if i < j then j else i);
      ProductGrows(hosts, w[i] + w[j], n, total);
      Distribute(hosts, w[i], w[j]);
    }
  }

  lemma NothingShared(fl: real -> real, w: seq<nat>, total: nat, x: seq<int>)
    requires Rounding(fl) && total > 0 && Moderate(w, total, 0) && |x| == |w| && forall i :: 0 <= i < |x| ==> x[i] == 0
    ensures ServedByFloat(fl, w, total, 0, x)
  {
    hide Rounding, Whole, Rest, Moderate, Sum;
    SumOfZeros(x);
    forall i | 0 <= i < |w| ensures Whole(fl, 0, w[i], total) == 0 {
      WholeIsFloor(fl, w, total, 0, i);
      assert Floor(0, w[i], total) == 0;
    }
  }

  lemma {:induction false} SumOfZeros(x: seq<int>)
    requires forall i :: 0 <= i < |x| ==> x[i] == 0
    ensures Sum(x) == 0
  {
    if x != [] { SumOfZeros(x[1..]); }
  }

  /** Above its floor, every profile has its integer part, and the largest remainders as computed have one more. */
  lemma CountsAreServed(fl: real -> real, ps: seq<Profile>, n: nat)
    requires Rounding(fl) && ps != [] && Modest(ps, n)
    ensures Sum(Weights(ps)) > 0
    ensures ServedByFloat(fl, Weights(ps), Sum(Weights(ps)), Remaining(|ps|, n), Above(Counts(fl, ps, n), Base(|ps|, n)))
    ensures Sum(Counts(fl, ps, n)) == n
  {
    hide Rounding, Moderate, Sum, ServedByFloat;
    WeightsTotal(ps);
    var w, hosts, x := Weights(ps), Remaining(|ps|, n), Above(Counts(fl, ps, n), Base(|ps|, n));
    SumAbove(Counts(fl, ps, n), Base(|ps|, n));
    AboveIs(fl, ps, n);
    hide Above, Counts;
    if hosts == 0 {
      NothingShared(fl, w, Sum(w), x);
    } else {
      SharesAreServed(fl, w, Sum(w), hosts);
    }
    ServedSum(fl, w, Sum(w), hosts, x);
  }

  lemma AboveIs(fl: real -> real, ps: seq<Profile>, n: nat)
    requires Rounding(fl) && ps != []
    ensures Sum(Weights(ps)) > 0
    ensures var x, hosts := Above(Counts(fl, ps, n), Base(|ps|, n)), Remaining(|ps|, n);
            if hosts == 0 then |x| == |ps| && forall i :: 0 <= i < |x| ==> x[i] == 0
            else x == Shares(fl, Weights(ps), Sum(Weights(ps)), hosts)
  {
    hide Rounding, Sum, Shares;
    WeightsTotal(ps);
  }

  lemma ServedSum(fl: real -> real, w: seq<nat>, total: nat, hosts: nat, x: seq<int>)
    requires Rounding(fl) && total > 0 && ServedByFloat(fl, w, total, hosts, x)
    ensures Sum(x) == hosts && |x| == |w|
  {
    hide Rounding, Sum, Whole;
  }

  lemma {:induction false} DealtLength(ps: seq<Profile>, counts: seq<nat>)
    requires |counts| == |ps|
    ensures |Dealt(ps, counts)| == Sum(counts)
  {
    if ps != [] {
      var k := |ps| - 1;
      DealtLength(ps[..k], counts[..k]);
      assert counts == counts[..k] + [counts[k]];
      SumAppend(counts[..k], [counts[k]]);
      assert Sum([counts[k]]) == counts[k];
    }
  }

  /** Nothing is made up and nothing cut off: the list is the blocks of the counts. */
  lemma AllocationIsDealt(fl: real -> real, ps: seq<Profile>, n: int)
    requires Rounding(fl) && n > 0 && ps != [] && Modest(ps, n)
    ensures Allocation(fl, ps, n) == Dealt(ps, Counts(fl, ps, n))
  {
    hide Rounding, Modest, Sum, Counts, Dealt;
    CountsAreServed(fl, ps, n);
    DealtLength(ps, Counts(fl, ps, n));
  }

  /** `LoadProfiles` refuses two profiles of one name. */
  predicate Distinct(ps: seq<Profile>) {
    forall i, j :: 0 <= i < j < |ps| ==> ps[i] != ps[j]
  }

  function Is(p: Profile): Profile -> bool {
    q => q == p
  }

  function HostsOf(p: Profile, fleet: seq<Profile>): nat {
    CountIf(fleet, Is(p))
  }

  function Census(ps: seq<Profile>, fleet: seq<Profile>): (c: seq<nat>)
    ensures |c| == |ps| && forall i :: 0 <= i < |ps| ==> c[i] == HostsOf(ps[i], fleet)
  {
    if ps == [] then [] else [HostsOf(ps[0], fleet)] + Census(ps[1..], fleet)
  }

  lemma {:induction false} CountRepeated(p: Profile, q: Profile, k: nat)
    ensures HostsOf(p, seq(k, _ => q)) == if p == q then k else 0
  {
    if k > 0 {
      CountRepeated(p, q, k - 1);
      assert seq(k, _ => q)[..k - 1] == seq(k - 1, _ => q);
    }
  }

  lemma {:induction false} DealtHosts(ps: seq<Profile>, counts: seq<nat>, p: Profile)
    requires |counts| == |ps| && Distinct(ps)
    ensures p !in ps ==> HostsOf(p, Dealt(ps, counts)) == 0
    ensures forall i :: 0 <= i < |ps| && ps[i] == p ==> HostsOf(p, Dealt(ps, counts)) == counts[i]
  {
    if ps != [] {
      var k := |ps| - 1;
      DealtHosts(ps[..k], counts[..k], p);
      CountIfAppend(Dealt(ps[..k], counts[..k]), seq(counts[k], _ => ps[k]), Is(p));
      CountRepeated(p, ps[k], counts[k]);
      if p == ps[k] { assert p !in ps[..k]; }
      assert forall i :: 0 <= i < k && ps[i] == p ==> ps[..k][i] == p;
    }
  }

  lemma DealtCensus(ps: seq<Profile>, counts: seq<nat>)
    requires |counts| == |ps| && Distinct(ps)
    ensures Census(ps, Dealt(ps, counts)) == counts
  {
    forall i | 0 <= i < |ps| ensures HostsOf(ps[i], Dealt(ps, counts)) == counts[i] {
      DealtHosts(ps, counts, ps[i]);
    }
  }

  /** Counting the hosts of each profile in the list gives back the counts. */
  lemma AllocationCensus(fl: real -> real, ps: seq<Profile>, n: int)
    requires Rounding(fl) && n > 0 && ps != [] && Distinct(ps) && Modest(ps, n)
    ensures Census(ps, Allocation(fl, ps, n)) == Counts(fl, ps, n)
  {
    hide Rounding, Modest, Sum, Counts, Dealt, Allocation, Distinct;
    AllocationIsDealt(fl, ps, n);
    DealtCensus(ps, Counts(fl, ps, n));
  }

  /** The blocks stand one after the other, in the order of the profiles. */
  lemma {:induction false} DealtInOrder(ps: seq<Profile>, counts: seq<nat>, i: nat, k: nat)
    requires |counts| == |ps| && i < |ps| && Sum(counts[..i]) <= k < Sum(counts[..i + 1])
    ensures k < |Dealt(ps, counts)| && Dealt(ps, counts)[k] == ps[i]
  {
    var m := |ps| - 1;
    DealtLength(ps[..m], counts[..m]);
    SumPrefix(counts, m);
    assert counts[..m + 1] == counts;
    hide Sum;
    if i < m {
      assert counts[..m][..i] == counts[..i] && counts[..m][..i + 1] == counts[..i + 1];
      DealtInOrder(ps[..m], counts[..m], i, k);
    }
  }

  /**
   * Host `k` is of profile `i` when the hosts of the profiles before it are no more than
   * `k` and those up to it are: first all hosts of the first profile, then all of the next.
   */
  lemma HostsStandInOrder(fl: real -> real, ps: seq<Profile>, n: int, i: nat, k: nat)
    requires Rounding(fl) && n > 0 && Distinct(ps) && Modest(ps, n) && i < |ps|
    requires var c := Census(ps, Allocation(fl, ps, n)); Sum(c[..i]) <= k < Sum(c[..i + 1])
    ensures k < n && |Allocation(fl, ps, n)| == n && Allocation(fl, ps, n)[k] == ps[i]
  {
    hide Rounding, Modest, Sum, Counts, Dealt, Distinct;
    AllocationCensus(fl, ps, n);
    AllocationIsDealt(fl, ps, n);
    DealtInOrder(ps, Counts(fl, ps, n), i, k);
    CountsAreServed(fl, ps, n);
    DealtLength(ps, Counts(fl, ps, n));
  }

  lemma {:induction false} DealtFrom(ps: seq<Profile>, counts: seq<nat>, k: nat)
    requires |counts| == |ps| && k < |Dealt(ps, counts)|
    ensures Dealt(ps, counts)[k] in ps
  {
    var m := |ps| - 1;
    if k < |Dealt(ps[..m], counts[..m])| {
      DealtFrom(ps[..m], counts[..m], k);
      assert Dealt(ps, counts)[k] in ps[..m];
    } else {
      assert Dealt(ps, counts)[k] == ps[m];
    }
  }

  /** Whatever the numbers, there are as many hosts as asked for, each of one of the profiles. */
  lemma EveryHostHasAProfile(fl: real -> real, ps: seq<Profile>, n: int, k: nat)
    requires Rounding(fl)
    ensures |Allocation(fl, ps, n)| == if n <= 0 || ps == [] then 0 else n
    ensures k < |Allocation(fl, ps, n)| ==> Allocation(fl, ps, n)[k] in ps
  {
    hide Rounding, Counts, Dealt;
    if n > 0 && ps != [] && k < n {
      var out := Dealt(ps, Counts(fl, ps, n));
      if k < |out| {
        DealtFrom(ps, Counts(fl, ps, n), k);
      } else {
        IndexInRange(k, |ps|);
        assert |out| + (k - |out|) == k;
      }
    }
  }

  /** What the hosts of the list are above the floor: largest exact remainders are rounded up. */
  lemma AllocationRoundsLargest(fl: real -> real, ps: seq<Profile>, n: int)
    requires Rounding(fl) && n > 0 && ps != [] && Distinct(ps) && Modest(ps, n)
    ensures Sum(Weights(ps)) > 0
    ensures var x := Above(Census(ps, Allocation(fl, ps, n)), Base(|ps|, n));
            && ServedByFloat(fl, Weights(ps), Sum(Weights(ps)), Remaining(|ps|, n), x)
            && RoundsLargest(Weights(ps), Sum(Weights(ps)), Remaining(|ps|, n), x)
  {
    hide Rounding, Moderate, Sum, Counts, Allocation, Distinct, ServedByFloat, RoundsLargest, Above;
    AllocationCensus(fl, ps, n);
    CountsAreServed(fl, ps, n);
    var x := Above(Counts(fl, ps, n), Base(|ps|, n));
    FloatIsOptimal(fl, Weights(ps), Sum(Weights(ps)), Remaining(|ps|, n), x, x);
  }

  lemma {:induction false} BalanceAtLeast(w: seq<int>, total: int, hosts: nat, x: seq<int>, i: nat)
    requires |x| == |w| && total > 0
    requires forall k :: 0 <= k < |w| ==> total * x[k] >= hosts * w[k]
    ensures total * Sum(x) >= hosts * Sum(w)
    ensures i < |w| && total * x[i] >= hosts * w[i] + total ==> total * Sum(x) >= hosts * Sum(w) + total
  {
    if w != [] {
      BalanceAtLeast(w[1..], total, hosts, x[1..], if i > 0 then i - 1 else |w|);
      Distribute(total, x[0], Sum(x[1..]));
      Distribute(hosts, w[0], Sum(w[1..]));
    }
  }

  /** A share that is a whole number is not rounded up. */
  lemma WholeShareIsExact(w: seq<int>, total: int, hosts: nat, x: seq<int>, i: nat)
    requires total == Sum(w) > 0 && RoundsLargest(w, total, hosts, x) && i < |w|
    requires Frac(hosts, w[i], total) == 0
    ensures x[i] == Floor(hosts, w[i], total)
  {
    hide Floor, Frac, Sum;
    if x[i] != Floor(hosts, w[i], total) {
      forall k | 0 <= k < |w| ensures total * x[k] >= hosts * w[k] && (k == i ==> total * x[k] >= hosts * w[k] + total) {
        DivideShare(hosts, w[k], total);
        Distribute(total, Floor(hosts, w[k], total), 1);
      }
      BalanceAtLeast(w, total, hosts, x, i);
    }
  }

  /** `x` hosts are the exact share rounded down or up. */
  predicate WithinOne(hosts: nat, w: int, total: int, x: int) {
    total * (x - 1) < hosts * w < total * (x + 1)
  }

  lemma ShareWithinOne(w: seq<int>, total: int, hosts: nat, x: seq<int>, i: nat)
    requires total == Sum(w) > 0 && RoundsLargest(w, total, hosts, x) && i < |w|
    ensures WithinOne(hosts, w[i], total, x[i])
  {
    hide Floor, Frac, Sum;
    DivideShare(hosts, w[i], total);
    var f := Floor(hosts, w[i], total);
    Distribute(total, x[i], -1);
    Distribute(total, x[i], 1);
    Distribute(total, f, 1);
    if Frac(hosts, w[i], total) == 0 { WholeShareIsExact(w, total, hosts, x, i); }
  }

  /** Of two profiles of one weight the earlier gets no fewer: what is computed for them is the same. */
  lemma EarlierGetsNoFewer(fl: real -> real, w: seq<nat>, total: nat, hosts: nat, x: seq<int>, i: nat, j: nat)
    requires Rounding(fl) && total > 0 && ServedByFloat(fl, w, total, hosts, x) && i < j < |w| && w[i] == w[j]
    ensures x[i] >= x[j]
  {
    hide Rounding, Whole, Rest, Sum;
    assert !FloatAhead(fl, w, total, hosts, j, i);
  }

  /** Profile `i` is heavier than `j`, or as heavy and earlier. */
  predicate NoLighter(ps: seq<Profile>, i: nat, j: nat)
    requires i < |ps| && j < |ps|
  {
    Weight(ps[i]) > Weight(ps[j]) || (Weight(ps[i]) == Weight(ps[j]) && i < j)
  }

  lemma QuotaAbove(fl: real -> real, ps: seq<Profile>, n: int, i: nat, j: nat)
    requires Rounding(fl) && n > 0 && Distinct(ps) && Modest(ps, n) && i < |ps| && j < |ps|
    ensures Sum(Weights(ps)) > 0
    ensures var fleet := Allocation(fl, ps, n);
            HostsOf(ps[i], fleet) >= Base(|ps|, n)
            && WithinOne(Remaining(|ps|, n), Weight(ps[i]), Sum(Weights(ps)), HostsOf(ps[i], fleet) - Base(|ps|, n))
            && (NoLighter(ps, i, j) ==> HostsOf(ps[i], fleet) >= HostsOf(ps[j], fleet))
  {
    hide Rounding, Modest, Allocation, WithinOne, Distinct, Census, HostsOf;
    var x := SharesOfHosts(fl, ps, n);
    hide ServedByFloat, RoundsLargest, Sum;
    SharesKeepQuota(fl, Weights(ps), Sum(Weights(ps)), Remaining(|ps|, n), x, i, j);
    var above := HostsOf(ps[i], Allocation(fl, ps, n)) - Base(|ps|, n);
    assert above == x[i] && Weights(ps)[i] == Weight(ps[i]);
    assert WithinOne(Remaining(|ps|, n), Weight(ps[i]), Sum(Weights(ps)), above);
  }

  /**
   * Every profile is there when there are hosts enough, and has, beside that host, its exact share of the others
   * rounded down or up; else it has so of them all. A heavier profile, or an equal one that comes earlier, gets no
   * fewer hosts.
   */
  lemma QuotaHolds(fl: real -> real, ps: seq<Profile>, n: int, i: nat, j: nat)
    requires Rounding(fl) && n > 0 && Distinct(ps) && Modest(ps, n) && i < |ps| && j < |ps|
    ensures Sum(Weights(ps)) > 0
    ensures var hosts, w, total := HostsOf(ps[i], Allocation(fl, ps, n)), Weight(ps[i]), Sum(Weights(ps));
            if n >= |ps| then hosts >= 1 && WithinOne(n - |ps|, w, total, hosts - 1) else WithinOne(n, w, total, hosts)
    ensures NoLighter(ps, i, j) ==> HostsOf(ps[i], Allocation(fl, ps, n)) >= HostsOf(ps[j], Allocation(fl, ps, n))
  {
    hide Rounding, Modest, Allocation, WithinOne, Distinct, HostsOf, Sum, Weights, NoLighter;
    QuotaAbove(fl, ps, n, i, j);
    var hosts, base, rest := HostsOf(ps[i], Allocation(fl, ps, n)), Base(|ps|, n), Remaining(|ps|, n);
    var above := hosts - base;
    assert WithinOne(rest, Weight(ps[i]), Sum(Weights(ps)), above);
    if n >= |ps| {
      assert rest == n - |ps| && above == hosts - 1;
    } else {
      assert rest == n && above == hosts;
    }
  }

  lemma SharesOfHosts(fl: real -> real, ps: seq<Profile>, n: int) returns (x: seq<int>)
    requires Rounding(fl) && n > 0 && ps != [] && Distinct(ps) && Modest(ps, n)
    ensures Sum(Weights(ps)) > 0 && |x| == |ps|
    ensures ServedByFloat(fl, Weights(ps), Sum(Weights(ps)), Remaining(|ps|, n), x)
    ensures RoundsLargest(Weights(ps), Sum(Weights(ps)), Remaining(|ps|, n), x)
    ensures forall k :: 0 <= k < |ps| ==> HostsOf(ps[k], Allocation(fl, ps, n)) == Base(|ps|, n) + x[k]
  {
    hide Rounding, Modest, Allocation, RoundsLargest, ServedByFloat, Sum, Distinct, HostsOf;
    AllocationRoundsLargest(fl, ps, n);
    x := Above(Census(ps, Allocation(fl, ps, n)), Base(|ps|, n));
  }

  lemma SharesKeepQuota(fl: real -> real, w: seq<nat>, total: nat, hosts: nat, x: seq<int>, i: nat, j: nat)
    requires Rounding(fl) && total == Sum(w) > 0 && i < |w| && j < |w|
    requires ServedByFloat(fl, w, total, hosts, x) && RoundsLargest(w, total, hosts, x)
    ensures x[i] >= 0 && WithinOne(hosts, w[i], total, x[i])
    ensures w[i] > w[j] || (w[i] == w[j] && i < j) ==> x[i] >= x[j]
  {
    hide Rounding, ServedByFloat, Floor, Frac, Sum, WithinOne;
    ShareWithinOne(w, total, hosts, x, i);
    SharesNotNegative(w, total, hosts, x, i);
    if w[i] > w[j] {
      HeavierGetsNoFewer(w, total, hosts, x, i, j);
    } else if w[i] == w[j] && i < j {
      EarlierGetsNoFewer(fl, w, total, hosts, x, i, j);
    }
  }

  lemma SharesNotNegative(w: seq<int>, total: int, hosts: nat, x: seq<int>, i: nat)
    requires total > 0 && RoundsLargest(w, total, hosts, x) && i < |w| && w[i] >= 0
    ensures x[i] >= 0
  {
    hide Sum, Frac;
    assert hosts * w[i] >= 0;
    assert Floor(hosts, w[i], total) >= 0;
  }

  /**
   * Five hosts for profiles of weights 4, 1 and 1, shared out in IEEE doubles: the tie goes to the second profile, where
   * by position it would go to the first and leave 3, 1 and 1.
   */
  lemma TieMovesHost(fl: real -> real, ps: seq<Profile>)
    requires Rounding(fl) && Distinct(ps) && Weights(ps) == [4, 1, 1]
    requires Nearest(fl(8.0 / 6.0), 8.0 / 6.0, 0x10_0000_0000_0000, 6004799503160661)
    requires Nearest(fl(2.0 / 6.0), 2.0 / 6.0, 0x40_0000_0000_0000, 6004799503160661)
    ensures Census(ps, Allocation(fl, ps, 5)) == [2, 2, 1]
  {
    var x := TiedFleetShares(fl, ps);
    hide Rounding, Nearest, Sum, Distinct, Modest, Allocation, HostsOf, Weights, Census;
    var c := Census(ps, Allocation(fl, ps, 5));
    assert |c| == 3 && c[0] == 2 && c[1] == 2 && c[2] == 1;
  }

  lemma TiedIsModest(ps: seq<Profile>)
    requires Weights(ps) == [4, 1, 1]
    ensures |ps| == 3 && Sum(Weights(ps)) == 6 && Modest(ps, 5)
  {
    var w := Weights(ps);
    ThreeSum(w);
    assert |w| == 3 && w[0] == 4 && w[1] == w[2] == 1;
    hide Weights, Sum, Modest;
    SmallIsModest(ps, 5);
  }

  lemma TiedFleetShares(fl: real -> real, ps: seq<Profile>) returns (x: seq<int>)
    requires Rounding(fl) && Distinct(ps) && Weights(ps) == [4, 1, 1]
    requires Nearest(fl(8.0 / 6.0), 8.0 / 6.0, 0x10_0000_0000_0000, 6004799503160661)
    requires Nearest(fl(2.0 / 6.0), 2.0 / 6.0, 0x40_0000_0000_0000, 6004799503160661)
    ensures |x| == |ps| == 3 && x[0] == 1 && x[1] == 1 && x[2] == 0
    ensures forall k :: 0 <= k < |ps| ==> HostsOf(ps[k], Allocation(fl, ps, 5)) == 1 + x[k]
  {
    hide Rounding, Nearest, ServedByFloat, RoundsLargest, Sum, Distinct, Modest, Allocation, HostsOf, Weights;
    TiedIsModest(ps);
    x := SharesOfHosts(fl, ps, 5);
    TieOfShares(fl, Weights(ps), Sum(Weights(ps)), Remaining(|ps|, 5), x);
  }

  lemma TieOfShares(fl: real -> real, w: seq<nat>, total: nat, hosts: nat, x: seq<int>)
    requires Rounding(fl) && w == [4, 1, 1] && total == 6 && hosts == 2 && ServedByFloat(fl, w, total, hosts, x)
    requires Nearest(fl(8.0 / 6.0), 8.0 / 6.0, 0x10_0000_0000_0000, 6004799503160661)
    requires Nearest(fl(2.0 / 6.0), 2.0 / 6.0, 0x40_0000_0000_0000, 6004799503160661)
    ensures |x| == 3 && x[0] == 1 && x[1] == 1 && x[2] == 0
  {
    hide Rounding, Nearest, ServedByFloat;
    TieInDoubles(fl, x);
  }

  // ── no fleet is closer ────────────────────────────────────────────────────

  lemma {:induction false} CensusGrows(ps: seq<Profile>, fleet: seq<Profile>, p: Profile)
    requires Distinct(ps)
    ensures Sum(Census(ps, fleet + [p])) == Sum(Census(ps, fleet)) + if p in ps then 1 else 0
  {
    if ps != [] {
      assert (fleet + [p])[..|fleet|] == fleet;
      CensusGrows(ps[1..], fleet, p);
    }
  }

  /** Any list of hosts drawn from the profiles is fully accounted for by its census. */
  lemma {:induction false} CensusIsComplete(ps: seq<Profile>, fleet: seq<Profile>)
    requires Distinct(ps) && forall p :: p in fleet ==> p in ps
    ensures Sum(Census(ps, fleet)) == |fleet|
  {
    if fleet == [] {
      CensusOfNone(ps);
    } else {
      var k := |fleet| - 1;
      assert fleet == fleet[..k] + [fleet[k]];
      CensusIsComplete(ps, fleet[..k]);
      CensusGrows(ps, fleet[..k], fleet[k]);
    }
  }

  lemma {:induction false} CensusOfNone(ps: seq<Profile>)
    ensures Sum(Census(ps, [])) == 0
  {
    if ps != [] { CensusOfNone(ps[1..]); }
  }

  /** How far a fleet is, above the floor, from the exact proportions; in units of one over the total weight. */
  function Unfairness(ps: seq<Profile>, n: nat, fleet: seq<Profile>): int
  {
    Deviation(Weights(ps), Sum(Weights(ps)), Remaining(|ps|, n), Above(Census(ps, fleet), Base(|ps|, n)))
  }

  /** No other list of n hosts drawn from the profiles is closer to the proportions. */
  lemma NoFleetIsFairer(fl: real -> real, ps: seq<Profile>, n: int, other: seq<Profile>)
    requires Rounding(fl) && n > 0 && ps != [] && Distinct(ps) && Modest(ps, n)
    requires |other| == n && forall p :: p in other ==> p in ps
    ensures Unfairness(ps, n, Allocation(fl, ps, n)) <= Unfairness(ps, n, other)
  {
    hide Rounding, Modest, Allocation, RoundsLargest, ServedByFloat, Sum, Deviation, Distinct;
    AllocationRoundsLargest(fl, ps, n);
    CensusIsComplete(ps, other);
    var w, hosts, base := Weights(ps), Remaining(|ps|, n), Base(|ps|, n);
    SumAbove(Census(ps, other), base);
    RoundingLargestIsOptimal(w, Sum(w), hosts, Above(Census(ps, Allocation(fl, ps, n)), base), Above(Census(ps, other), base));
  }
}
