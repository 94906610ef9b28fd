// Largest-remainder apportionment: what the allocation of simulated hosts
// (agent/cmd/fleet-sim/profile.go, AllocateFleet) has to be, and what follows from
// being it. A share is the exact rational `hosts * w / total`, kept as its integer
// part and its remainder over `total`.
module Apportionment {
  import opened Common

  predicate Positive(w: seq<int>) {
    forall i :: 0 <= i < |w| ==> w[i] >= 1
  }

  function Floor(hosts: nat, w: int, total: int): int
    requires total > 0
  {
    hosts * w / total
  }

  function Frac(hosts: nat, w: int, total: int): int
    requires total > 0
  {
    hosts * w % total
  }

  /** `x` gives every share its integer part, and one more to some with the largest remainders. */
  predicate RoundsLargest(w: seq<int>, total: int, hosts: nat, x: seq<int>)
    requires total > 0
  {
    && |x| == |w| && Sum(x) == hosts
    && (forall i :: 0 <= i < |w| ==> x[i] == Floor(hosts, w[i], total) || x[i] == Floor(hosts, w[i], total) + 1)
    && forall i, j :: 0 <= i < |w| && 0 <= j < |w|
                      && x[i] == Floor(hosts, w[i], total) + 1 && x[j] == Floor(hosts, w[j], total)
                      ==> Frac(hosts, w[i], total) >= Frac(hosts, w[j], total)
  }

  /** The same, equal remainders being served first come first. */
  predicate LargestRemainder(w: seq<int>, total: int, hosts: nat, x: seq<int>)
    requires total > 0
  {
    && |x| == |w| && Sum(x) == hosts
    && (forall i :: 0 <= i < |w| ==> x[i] == Floor(hosts, w[i], total) || x[i] == Floor(hosts, w[i], total) + 1)
    && forall i, j :: 0 <= i < |w| && 0 <= j < |w|
                      && x[i] == Floor(hosts, w[i], total) + 1 && x[j] == Floor(hosts, w[j], total)
                      ==> Ahead(Frac(hosts, w[i], total), i, Frac(hosts, w[j], total), j)
  }

  predicate Ahead(f: int, i: int, g: int, j: int) {
    f > g || (f == g && i < j)
  }

  function Abs(x: int): int {
    if x < 0 then -x else x
  }

  /** `total` times the summed distance of `x` from the exact shares. */
  function Deviation(w: seq<int>, total: int, hosts: nat, x: seq<int>): int
    requires |x| == |w|
  {
    if w == [] then 0
    else Abs(total * x[0] - hosts * w[0]) + Deviation(w[1..], total, hosts, x[1..])
  }

  // ── optimality ────────────────────────────────────────────────────────────

  /** The least remainder among those rounded up; `total` when there is none. */
  function Threshold(w: seq<int>, total: int, hosts: nat, x: seq<int>): int
    requires |x| == |w| && total > 0
  {
    if w == [] then total
    else
      var n := |w| - 1;
      var t := Threshold(w[..n], total, hosts, x[..n]);
      if x[n] == Floor(hosts, w[n], total) + 1 && Frac(hosts, w[n], total) < t then Frac(hosts, w[n], total) else t
  }

  lemma {:induction false} ThresholdIsLeast(w: seq<int>, total: int, hosts: nat, x: seq<int>)
    requires |x| == |w| && total > 0
    ensures var t := Threshold(w, total, hosts, x);
            && 0 <= t <= total
            && (forall i :: 0 <= i < |w| && x[i] == Floor(hosts, w[i], total) + 1 ==> t <= Frac(hosts, w[i], total))
            && (t == total || exists i :: 0 <= i < |w| && x[i] == Floor(hosts, w[i], total) + 1 && t == Frac(hosts, w[i], total))
  {
    hide Floor, Frac;
    if w != [] {
      var n := |w| - 1;
      ThresholdIsLeast(w[..n], total, hosts, x[..n]);
      DivideShare(hosts, w[n], total);
      assert forall i :: 0 <= i < n ==> w[..n][i] == w[i] && x[..n][i] == x[i];
    }
  }

  lemma Distribute(a: int, b: int, c: int)
    ensures a * (b + c) == a * b + a * c
  {
  }

  lemma NoLess(a: int, b: int)
    requires a >= 0 && b >= 0
    ensures a * b >= 0
  {
  }

  lemma DivideShare(hosts: nat, w: int, total: int)
    requires total > 0
    ensures hosts * w == total * Floor(hosts, w, total) + Frac(hosts, w, total)
    ensures 0 <= Frac(hosts, w, total) < total
  {
  }

  lemma SlopeFromOne(total: int, r: int, t: int, k: int)
    requires 0 <= t <= r < total
    ensures Abs(total * (1 + k) - r) >= total - r + (total - 2 * t) * k
  {
    Distribute(total, 1, k);
    Distribute(k, total, -2 * t);
    assert (total - 2 * t) * k == total * k - 2 * (t * k);
    if k >= 0 {
      NoLess(total, k);
      NoLess(t, k);
    } else {
      NoLess(total, -1 - k);
      NoLess(total - t, -1 - k);
      assert (total - t) * (-1 - k) == -total - total * k + t + t * k;
    }
  }

  lemma SlopeFromZero(total: int, r: int, t: int, d: int)
    requires 0 <= r <= t <= total && r < total
    ensures Abs(total * d - r) >= r + (total - 2 * t) * d
  {
    assert (total - 2 * t) * d == total * d - 2 * (t * d);
    if d >= 1 {
      NoLess(total, d - 1);
      NoLess(t, d - 1);
      Distribute(total, d, -1);
      Distribute(t, d, -1);
    } else {
      NoLess(total, -d);
      NoLess(total - t, -d);
      assert (total - t) * -d == t * d - total * d;
    }
  }

  /**
   * One share: with remainder `r` and `c` extra, 0 or 1, chosen by the threshold `t`,
   * giving `d` extra instead costs at least `total - 2 * t` for each step of the move.
   */
  lemma SlopeBelow(total: int, r: int, t: int, c: int, d: int)
    requires 0 <= r < total && 0 <= t <= total
    requires (c == 1 && t <= r) || (c == 0 && r <= t)
    ensures Abs(total * d - r) >= Abs(total * c - r) + (total - 2 * t) * (d - c)
  {
    if c == 1 {
      SlopeFromOne(total, r, t, d - 1);
    } else {
      SlopeFromZero(total, r, t, d);
    }
  }

  /** The share is rounded up if its remainder is above `t`, down if below, and either way at `t`. */
  predicate ChosenBy(hosts: nat, w: int, total: int, t: int, x: int)
    requires total > 0
  {
    var c := x - Floor(hosts, w, total);
    (c == 1 && t <= Frac(hosts, w, total)) || (c == 0 && Frac(hosts, w, total) <= t)
  }

  lemma ThresholdChooses(w: seq<int>, total: int, hosts: nat, x: seq<int>)
    requires total > 0 && RoundsLargest(w, total, hosts, x)
    ensures var t := Threshold(w, total, hosts, x);
            0 <= t <= total && forall i :: 0 <= i < |w| ==> ChosenBy(hosts, w[i], total, t, x[i])
  {
    hide Floor, Frac, Threshold, Sum;
    var t := Threshold(w, total, hosts, x);
    ThresholdIsLeast(w, total, hosts, x);
    forall i | 0 <= i < |w| && x[i] == Floor(hosts, w[i], total) ensures Frac(hosts, w[i], total) <= t {
      DivideShare(hosts, w[i], total);
    }
  }

  lemma Subtract(a: int, b: int, c: int)
    ensures a * (b - c) == a * b - a * c
  {
  }

  lemma SlopeOfShare(hosts: nat, w: int, total: int, t: int, x: int, y: int)
    requires total > 0 && 0 <= t <= total
    requires ChosenBy(hosts, w, total, t, x)
    ensures Abs(total * y - hosts * w) >= Abs(total * x - hosts * w) + (total - 2 * t) * (y - x)
  {
    hide Floor, Frac, Abs;
    var f, r := Floor(hosts, w, total), Frac(hosts, w, total);
    DivideShare(hosts, w, total);
    Subtract(total, x, f);
    Subtract(total, y, f);
    SlopeBelow(total, r, t, x - f, y - f);
    assert y - f - (x - f) == y - x;
  }

  lemma {:induction false} SlopeBelowAll(w: seq<int>, total: int, hosts: nat, x: seq<int>, y: seq<int>, t: int)
    requires |x| == |w| == |y| && total > 0 && 0 <= t <= total
    requires forall i :: 0 <= i < |w| ==> ChosenBy(hosts, w[i], total, t, x[i])
    ensures Deviation(w, total, hosts, y) >= Deviation(w, total, hosts, x) + (total - 2 * t) * (Sum(y) - Sum(x))
  {
    hide ChosenBy, Abs;
    if w != [] {
      SlopeOfShare(hosts, w[0], total, t, x[0], y[0]);
      SlopeBelowAll(w[1..], total, hosts, x[1..], y[1..], t);
      Distribute(total - 2 * t, y[0] - x[0], Sum(y[1..]) - Sum(x[1..]));
    }
  }

  /**
   * No other way of dealing out the same hosts is closer to the exact shares, however
   * equal remainders are served.
   */
  lemma RoundingLargestIsOptimal(w: seq<int>, total: int, hosts: nat, x: seq<int>, y: seq<int>)
    requires total > 0 && RoundsLargest(w, total, hosts, x)
    requires |y| == |w| && Sum(y) == hosts
    ensures Deviation(w, total, hosts, x) <= Deviation(w, total, hosts, y)
  {
    ThresholdChooses(w, total, hosts, x);
    assert |x| == |w| && Sum(x) == hosts;
    hide ChosenBy, Deviation, Sum, Threshold, RoundsLargest;
    var t := Threshold(w, total, hosts, x);
    SlopeBelowAll(w, total, hosts, x, y, t);
    TimesNothing(total - 2 * t, Sum(y) - Sum(x));
  }

  lemma TimesNothing(a: int, b: int)
    requires b == 0
    ensures a * b == 0
  {
  }

  // ── uniqueness, order ─────────────────────────────────────────────────────

  lemma {:induction false} SumMonotone(x: seq<int>, y: seq<int>)
    requires |x| == |y| && forall i :: 0 <= i < |x| ==> x[i] <= y[i]
    ensures Sum(x) <= Sum(y)
    ensures Sum(x) == Sum(y) ==> x == y
  {
    if x != [] {
      SumMonotone(x[1..], y[1..]);
      if Sum(x) == Sum(y) {
        assert x == [x[0]] + x[1..] && y == [y[0]] + y[1..];
      }
    }
  }

  /** Ties going to the earlier profile, there is only one such allocation. */
  lemma LargestRemainderIsUnique(w: seq<int>, total: int, hosts: nat, x: seq<int>, y: seq<int>)
    requires total > 0 && LargestRemainder(w, total, hosts, x) && LargestRemainder(w, total, hosts, y)
    ensures x == y
  {
    if i, j :| 0 <= i < |w| && 0 <= j < |w| && x[i] > y[i] && x[j] < y[j] {
      assert false;
    } else if forall i :: 0 <= i < |w| ==> x[i] <= y[i] {
      SumMonotone(x, y);
    } else {
      SumMonotone(y, x);
    }
  }

  lemma HeavierHasMore(hosts: nat, w: int, v: int, total: int)
    requires total > 0 && v <= w
    ensures Floor(hosts, v, total) <= Floor(hosts, w, total)
    ensures Floor(hosts, v, total) == Floor(hosts, w, total) ==> Frac(hosts, v, total) <= Frac(hosts, w, total)
    ensures Floor(hosts, v, total) == Floor(hosts, w, total) && Frac(hosts, v, total) == Frac(hosts, w, total) ==> hosts == 0 || v == w
  {
    hide Floor, Frac;
    var p, q := Floor(hosts, v, total), Floor(hosts, w, total);
    DivideShare(hosts, v, total);
    DivideShare(hosts, w, total);
    NoLess(hosts, w - v);
    Distribute(hosts, w, -v);
    if q < p {
      NoLess(total, p - q - 1);
      Distribute(total, p - q, -1);
      Distribute(total, p, -q);
    }
    if p == q && hosts > 0 && v < w {
      NoLess(hosts - 1, w - v - 1);
      assert hosts * (w - v) == (hosts - 1) * (w - v - 1) + hosts - 1 + (w - v - 1) + 1;
    }
  }

  /** A heavier profile never gets fewer hosts, however equal remainders are served. */
  lemma HeavierGetsNoFewer(w: seq<int>, total: int, hosts: nat, x: seq<int>, i: nat, j: nat)
    requires total > 0 && RoundsLargest(w, total, hosts, x) && i < |w| && j < |w| && w[i] > w[j]
    ensures x[i] >= x[j]
  {
    HeavierHasMore(hosts, w[i], w[j], total);
    hide Floor, Frac;
    if hosts == 0 {
      NothingToGive(w, total, x, i, j);
    }
  }

  lemma NothingToGive(w: seq<int>, total: int, x: seq<int>, i: nat, j: nat)
    requires total > 0 && RoundsLargest(w, total, 0, x) && i < |w| && j < |w|
    ensures x[i] == x[j] == 0
  {
    assert forall k :: 0 <= k < |w| ==> Floor(0, w[k], total) == 0;
    SumOfBits(x, i);
    SumOfBits(x, j);
  }

  lemma {:induction false} SumOfBits(x: seq<int>, j: nat)
    requires j < |x| && forall i :: 0 <= i < |x| ==> x[i] >= 0
    ensures Sum(x) >= x[j]
  {
    if j == 0 {
      SumNonNegative(x[1..]);
    } else {
      SumOfBits(x[1..], j - 1);
    }
  }

  lemma {:induction false} SumNonNegative(x: seq<int>)
    requires forall i :: 0 <= i < |x| ==> x[i] >= 0
    ensures Sum(x) >= 0
  {
    if x != [] { SumNonNegative(x[1..]); }
  }

  // ── the leftovers ─────────────────────────────────────────────────────────

  function Floors(w: seq<int>, total: int, hosts: nat): (f: seq<int>)
    requires total > 0
    ensures |f| == |w| && forall i :: 0 <= i < |w| ==> f[i] == Floor(hosts, w[i], total)
  {
    if w == [] then [] else [Floor(hosts, w[0], total)] + Floors(w[1..], total, hosts)
  }

  lemma {:induction false} FloorsFallShort(w: seq<int>, total: int, hosts: nat)
    requires total > 0
    ensures total * Sum(Floors(w, total, hosts)) <= hosts * Sum(w)
    ensures hosts * Sum(w) <= total * Sum(Floors(w, total, hosts)) + |w| * (total - 1)
  {
    hide Floor, Frac;
    if w != [] {
      FloorsFallShort(w[1..], total, hosts);
      DivideShare(hosts, w[0], total);
      Distribute(hosts, w[0], Sum(w[1..]));
      Distribute(total, Floor(hosts, w[0], total), Sum(Floors(w[1..], total, hosts)));
      Distribute(total - 1, 1, |w[1..]|);
    }
  }

  /** The hosts left once every share has its integer part are fewer than the profiles. */
  lemma LeftoversAreFew(w: seq<int>, total: int, hosts: nat)
    requires w != [] && total == Sum(w) > 0
    ensures 0 <= hosts - Sum(Floors(w, total, hosts)) < |w|
  {
    hide Floors, Sum;
    FloorsFallShort(w, total, hosts);
    var given := Sum(Floors(w, total, hosts));
    var left := hosts - given;
    Distribute(total, given, left);
    Distribute(|w|, total, -1);
    if left < 0 {
      NoLess(total, -left - 1);
      Distribute(total, left, 1);
    }
    if left >= |w| {
      NoLess(total, left - |w|);
      Distribute(total, left, -|w|);
    }
  }
}
