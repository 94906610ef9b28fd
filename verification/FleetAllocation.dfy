// How n simulated hosts are dealt to the profiles (agent/cmd/fleet-sim/profile.go). `fl`
// rounds to doubles; every operation of the code on doubles is there.
module FleetAllocation {
  import opened Common
  import opened Apportionment
  import opened FloatShares

  datatype Profile = Profile(name: string, fleetWeight: int)

  /** `fleetWeight`: a weight that is not set counts as 1. */
  function Weight(p: Profile): (w: nat)
    ensures if p.fleetWeight >= 1 then w == p.fleetWeight else w == 1
  {
    if p.fleetWeight <= 0 then 1 else p.fleetWeight
  }

  function Weights(ps: seq<Profile>): (w: seq<nat>)
    ensures |w| == |ps| && forall i :: 0 <= i < |ps| ==> w[i] == Weight(ps[i])
  {
    if ps == [] then [] else [Weight(ps[0])] + Weights(ps[1..])
  }

  lemma {:induction false} WeightsTotal(ps: seq<Profile>)
    ensures Sum(Weights(ps)) >= |ps|
  {
    if ps != [] { WeightsTotal(ps[1..]); }
  }

  // ── what the sharing loops compute ────────────────────────────────────────

  datatype Remainder = Remainder(idx: nat, frac: real)

  predicate Before(a: Remainder, b: Remainder) {
    a.frac > b.frac || (a.frac == b.frac && a.idx < b.idx)
  }

  predicate Ordered(s: seq<Remainder>) {
    forall a, b :: 0 <= a < b < |s| ==> Before(s[a], s[b])
  }

  /** `s` with `r` put after every remainder that is no smaller. */
  function Insert(s: seq<Remainder>, r: Remainder): seq<Remainder> {
    if s == [] then [r]
    else if s[0].frac >= r.frac then [s[0]] + Insert(s[1..], r)
    else [r] + s
  }

  /** `sort.SliceStable` by descending remainder. */
  function SortStable(s: seq<Remainder>): seq<Remainder> {
    if s == [] then [] else Insert(SortStable(s[..|s| - 1]), s[|s| - 1])
  }

  /** The integer parts of the shares. */
  function Wholes(fl: real -> real, w: seq<nat>, total: nat, hosts: nat): (f: seq<nat>)
    requires Rounding(fl) && total > 0
    ensures |f| == |w| && forall i :: 0 <= i < |w| ==> f[i] == Whole(fl, hosts, w[i], total)
  {
    hide Rounding;
    seq(|w|, i requires 0 <= i < |w| => Whole(fl, hosts, w[i], total))
  }

  /** What each profile is still owed, in the order of the profiles. */
  function Rests(fl: real -> real, w: seq<nat>, total: nat, hosts: nat): (r: seq<Remainder>)
    requires Rounding(fl) && total > 0
    ensures |r| == |w| && forall i :: 0 <= i < |w| ==> r[i] == Remainder(i, Rest(fl, hosts, w[i], total))
  {
    hide Rounding;
    seq(|w|, i requires 0 <= i < |w| => Remainder(i, Rest(fl, hosts, w[i], total)))
  }

  /** How many of the first `k` leftovers go to profile `i`, when they go round in this order. */
  function Turns(order: seq<Remainder>, k: nat, i: nat): nat
    requires order != []
  {
    if k == 0 then 0 else Turns(order, k - 1, i) + if order[(k - 1) % |order|].idx == i then 1 else 0
  }

  function Left(hosts: nat, given: int): nat {
    if hosts > given then hosts - given else 0
  }

  /** The floor every profile gets when there are hosts enough. */
  function Base(m: nat, n: nat): nat {
    if n >= m then 1 else 0
  }

  function Remaining(m: nat, n: nat): nat {
    if n >= m then n - m else n
  }

  /** What each profile gets above its floor. */
  function Shares(fl: real -> real, w: seq<nat>, total: nat, hosts: nat): (x: seq<nat>)
    requires Rounding(fl) && total > 0 && w != []
    ensures |x| == |w|
  {
    hide Rounding;
    var f, order := Wholes(fl, w, total, hosts), SortStable(Rests(fl, w, total, hosts));
    SortKeepsLength(Rests(fl, w, total, hosts));
    seq(|w|, i requires 0 <= i < |w| => f[i] + Turns(order, Left(hosts, Sum(f)), i))
  }

  /** `counts` of the code, when everything is shared out. */
  function Counts(fl: real -> real, ps: seq<Profile>, n: nat): (c: seq<nat>)
    requires Rounding(fl) && ps != []
    ensures |c| == |ps|
  {
    hide Rounding;
    WeightsTotal(ps);
    var base, hosts := Base(|ps|, n), Remaining(|ps|, n);
    if hosts == 0 then seq(|ps|, _ => base)
    else
      var x := Shares(fl, Weights(ps), Sum(Weights(ps)), hosts);
      seq(|ps|, i requires 0 <= i < |ps| => base + x[i])
  }

  /** The hosts block by block: `counts[0]` of the first profile, then `counts[1]` of the next, and so on. */
  function Dealt(ps: seq<Profile>, counts: seq<nat>): seq<Profile>
    requires |counts| == |ps|
  {
    if ps == [] then []
    else Dealt(ps[..|ps| - 1], counts[..|ps| - 1]) + seq(counts[|ps| - 1], _ => ps[|ps| - 1])
  }

  /** Too few hosts are made up from the profiles in turn, too many are cut off. */
  function Padded(out: seq<Profile>, ps: seq<Profile>, n: nat): (r: seq<Profile>)
    requires ps != []
    ensures |r| == n
  {
    if |out| >= n then out[..n] else out + seq(n - |out|, k requires 0 <= k < n - |out| => ps[(|out| + k) % |ps|])
  }

  /** What `AllocateFleet` returns. */
  function Allocation(fl: real -> real, ps: seq<Profile>, n: int): seq<Profile>
    requires Rounding(fl)
  {
    if n <= 0 || ps == [] then [] else Padded(Dealt(ps, Counts(fl, ps, n)), ps, n)
  }

  // ── the sort ──────────────────────────────────────────────────────────────

  lemma {:induction false} SortKeepsLength(s: seq<Remainder>)
    ensures |SortStable(s)| == |s|
    ensures forall x :: x in SortStable(s) <==> x in s
  {
    if s != [] {
      var n := |s| - 1;
      SortKeepsLength(s[..n]);
      InsertKeepsAll(SortStable(s[..n]), s[n]);
      assert s == s[..n] + [s[n]];
    }
  }

  lemma {:induction false} InsertKeepsAll(s: seq<Remainder>, r: Remainder)
    ensures |Insert(s, r)| == |s| + 1
    ensures forall x :: x in Insert(s, r) <==> x == r || x in s
  {
    if s != [] {
      InsertKeepsAll(s[1..], r);
      assert s == [s[0]] + s[1..];
    }
  }

  lemma {:induction false} InsertKeepsOrder(s: seq<Remainder>, r: Remainder)
    requires Ordered(s) && forall k :: 0 <= k < |s| ==> s[k].idx < r.idx
    ensures Ordered(Insert(s, r)) && |Insert(s, r)| == |s| + 1
    ensures forall x :: x in Insert(s, r) <==> x == r || x in s
  {
    if s != [] && s[0].frac >= r.frac {
      InsertKeepsOrder(s[1..], r);
      var t := Insert(s[1..], r);
      forall b | 0 <= b < |t| ensures Before(s[0], t[b]) {
        assert t[b] in t;
        if t[b] != r { assert t[b] in s[1..]; }
      }
    } else if s != [] {
      forall b | 0 <= b < |s| ensures Before(r, s[b]) {
        assert b > 0 ==> Before(s[0], s[b]);
      }
    }
  }

  lemma {:induction false} SortStableSorts(s: seq<Remainder>)
    requires forall k :: 0 <= k < |s| ==> s[k].idx == k
    ensures Ordered(SortStable(s)) && |SortStable(s)| == |s|
    ensures forall x :: x in SortStable(s) <==> x in s
  {
    if s != [] {
      var n := |s| - 1;
      SortStableSorts(s[..n]);
      forall k | 0 <= k < n ensures SortStable(s[..n])[k].idx < n {
        assert SortStable(s[..n])[k] in s[..n];
      }
      InsertKeepsOrder(SortStable(s[..n]), s[n]);
      assert s == s[..n] + [s[n]];
    }
  }

  // ── the loops ─────────────────────────────────────────────────────────────

  lemma SumPrefix(s: seq<int>, i: nat)
    requires i < |s|
    ensures Sum(s[..i + 1]) == Sum(s[..i]) + s[i]
  {
    assert s[..i + 1] == s[..i] + [s[i]];
    SumAppend(s[..i], [s[i]]);
    assert Sum([s[i]]) == s[i];
  }

  lemma SumOfNone(s: seq<int>)
    ensures Sum(s[..0]) == 0
  {
  }

  method TotalWeight(profiles: seq<Profile>) returns (totalW: int)
    ensures totalW == Sum(Weights(profiles))
  {
    ghost var w := Weights(profiles);
    totalW := 0;
    for i := 0 to |profiles|
      invariant totalW == Sum(w[..i])
    {
      totalW := totalW + Weight(profiles[i]);
      SumPrefix(w, i);
    }
    assert w[..|profiles|] == w;
  }

  lemma ShareParts(fl: real -> real, hosts: nat, w: nat, total: nat)
    requires Rounding(fl) && total > 0
    ensures var e := Computed(fl, hosts, w, total);
            && Whole(fl, hosts, w, total) == e.Floor
            && Rest(fl, hosts, w, total) == fl(e - fl(e.Floor as real))
  {
  }

  /** Every profile gets the integer part of its share; what each is still owed is noted. */
  method GiveWhole(fl: real -> real, profiles: seq<Profile>, counts: array<nat>, totalW: nat, remaining: nat)
      returns (given: nat, rems: seq<Remainder>)
    requires Rounding(fl) && counts.Length == |profiles| && totalW > 0
    modifies counts
    ensures var w := Weights(profiles);
            && given == Sum(Wholes(fl, w, totalW, remaining))
            && rems == Rests(fl, w, totalW, remaining)
            && forall i :: 0 <= i < |w| ==> counts[i] == old(counts[i]) + Whole(fl, remaining, w[i], totalW)
  {
    hide Rounding, Computed, Whole, Rest, Sum, Wholes, Rests;
    ghost var w := Weights(profiles);
    ghost var f := Wholes(fl, w, totalW, remaining);
    given, rems := 0, [];
    assert Sum(f[..0]) == 0 by { SumOfNone(f); }
    for i := 0 to |profiles|
      invariant |rems| == i && forall k :: 0 <= k < i ==> rems[k] == Remainder(k, Rest(fl, remaining, w[k], totalW))
      invariant given == Sum(f[..i])
      invariant forall k :: 0 <= k < i ==> counts[k] == old(counts[k]) + Whole(fl, remaining, w[k], totalW)
      invariant forall k :: i <= k < |w| ==> counts[k] == old(counts[k])
    {
      ShareParts(fl, remaining, w[i], totalW);
      var exact := Computed(fl, remaining, Weight(profiles[i]), totalW);
      var whole: nat := exact.Floor;
      counts[i] := counts[i] + whole;
      given := given + whole;
      rems := rems + [Remainder(i, fl(exact - fl(whole as real)))];
      SumPrefix(f, i);
    }
    assert f[..|profiles|] == f;
  }

  /** One more host to each in the order, round and round, until none is left. */
  method GiveLeftovers(counts: array<nat>, rems: seq<Remainder>, left: int)
    requires |rems| == counts.Length > 0 && forall k :: 0 <= k < |rems| ==> rems[k].idx < |rems|
    modifies counts
    ensures forall i :: 0 <= i < counts.Length ==> counts[i] == old(counts[i]) + Turns(rems, if left > 0 then left else 0, i)
  {
    var k: nat := 0;
    while k < left
      invariant k <= if left > 0 then left else 0
      invariant forall i :: 0 <= i < counts.Length ==> counts[i] == old(counts[i]) + Turns(rems, k, i)
    {
      InRange(k, |rems|);
      var idx := rems[k % |rems|].idx;
      counts[idx] := counts[idx] + 1;
      k := k + 1;
    }
  }

  lemma InRange(k: nat, n: nat)
    requires n > 0
    ensures 0 <= k % n < n
  {
  }

  lemma RestsSorted(fl: real -> real, w: seq<nat>, total: nat, hosts: nat)
    requires Rounding(fl) && total > 0
    ensures var order := SortStable(Rests(fl, w, total, hosts)); |order| == |w| && forall k :: 0 <= k < |order| ==> order[k].idx < |w|
  {
    hide Rounding, Rest, Rests, SortStable;
    var rems := Rests(fl, w, total, hosts);
    SortKeepsLength(rems);
    var order := SortStable(rems);
    forall k | 0 <= k < |order| ensures order[k].idx < |w| { assert order[k] in rems; }
  }

  lemma CountIs(fl: real -> real, ps: seq<Profile>, n: nat, i: nat)
    requires Rounding(fl) && i < |ps| && Remaining(|ps|, n) > 0
    ensures Sum(Weights(ps)) > 0 && SortStable(Rests(fl, Weights(ps), Sum(Weights(ps)), Remaining(|ps|, n))) != []
    ensures var w, hosts := Weights(ps), Remaining(|ps|, n);
            var f, order := Wholes(fl, w, Sum(w), hosts), SortStable(Rests(fl, w, Sum(w), hosts));
            Counts(fl, ps, n)[i] == Base(|ps|, n) + Whole(fl, hosts, w[i], Sum(w)) + Turns(order, Left(hosts, Sum(f)), i)
  {
    hide Rounding, Sum, Whole, Wholes, Rests, SortStable, Turns;
    WeightsTotal(ps);
    SortKeepsLength(Rests(fl, Weights(ps), Sum(Weights(ps)), Remaining(|ps|, n)));
  }

  /** The sharing out of `AllocateFleet`, once the floor is given. */
  method SharePart(fl: real -> real, profiles: seq<Profile>, ghost n: nat, counts: array<nat>, remaining: nat)
    requires Rounding(fl) && profiles != [] && counts.Length == |profiles| && remaining == Remaining(|profiles|, n) > 0
    requires forall i :: 0 <= i < counts.Length ==> counts[i] == Base(|profiles|, n)
    modifies counts
    ensures counts[..] == Counts(fl, profiles, n)
  {
    hide Rounding, Sum, Whole, Rest, Wholes, Rests, SortStable, Turns, Counts, Shares, Remaining;
    ghost var w := Weights(profiles);
    WeightsTotal(profiles);
    var totalW := TotalWeight(profiles);
    var given, rems := GiveWhole(fl, profiles, counts, totalW, remaining);
    RestsSorted(fl, w, totalW, remaining);
    rems := SortStable(rems);
    GiveLeftovers(counts, rems, remaining - given);
    forall i | 0 <= i < |profiles| ensures counts[i] == Counts(fl, profiles, n)[i] { CountIs(fl, profiles, n, i); }
  }

  method Deal(profiles: seq<Profile>, counts: array<nat>) returns (out: seq<Profile>)
    requires counts.Length == |profiles|
    ensures out == Dealt(profiles, counts[..])
  {
    out := [];
    for i := 0 to |profiles|
      invariant out == Dealt(profiles[..i], counts[..i])
    {
      ghost var before := out;
      for j := 0 to counts[i]
        invariant out == before + seq(j, _ => profiles[i])
      {
        out := out + [profiles[i]];
      }
      assert profiles[..i + 1][..i] == profiles[..i] && counts[..i + 1][..i] == counts[..i];
    }
    assert profiles[..|profiles|] == profiles && counts[..counts.Length] == counts[..];
  }

  /** The loop and the slice that end `AllocateFleet`. */
  method PadOrCut(profiles: seq<Profile>, out: seq<Profile>, n: nat) returns (r: seq<Profile>)
    requires profiles != []
    ensures r == Padded(out, profiles, n)
    ensures |r| == n && forall k :: 0 <= k < n ==> r[k] == if k < |out| then out[k] else profiles[k % |profiles|]
  {
    r := out;
    while |r| < n
      invariant out <= r && (|r| > |out| ==> |r| <= n)
      invariant forall k :: |out| <= k < |r| ==> r[k] == profiles[k % |profiles|]
      decreases n - |r|
    {
      r := r + [profiles[|r| % |profiles|]];
    }
    r := r[..n];
  }

  /** Whatever the weights, however many hosts, and however doubles are rounded. */
  method AllocateFleet(fl: real -> real, profiles: seq<Profile>, n: int) returns (out: seq<Profile>)
    requires Rounding(fl)
    ensures out == Allocation(fl, profiles, n)
  {
    hide Rounding, Shares, Sum;
    if n <= 0 || |profiles| == 0 {
      return [];
    }
    var counts := new nat[|profiles|](_ => 0);
    var remaining := n;
    if n >= |profiles| {
      for i := 0 to |profiles|
        invariant forall k :: 0 <= k < |profiles| ==> counts[k] == if k < i then 1 else 0
      {
        counts[i] := 1;
      }
      remaining := n - |profiles|;
    }
    if remaining > 0 {
      SharePart(fl, profiles, n, counts, remaining);
    }
    assert counts[..] == Counts(fl, profiles, n);
    out := Deal(profiles, counts);
    out := PadOrCut(profiles, out, n);
  }
}
