// The shares of AllocateFleet in floating point (agent/cmd/fleet-sim/profile.go): how far
// rounding can move the allocation. `fl` rounds a real number to a double.
module FloatShares {
  import opened Common
  import opened Apportionment

  const TWO53 := 9007199254740992

  /** Rounding to doubles keeps the order, whole numbers below 2^53, 53 bits of anything of middle size, and parts. */
  ghost predicate Rounding(fl: real -> real) {
    && (forall x, y :: KeepsOrder(fl, x, y))
    && (forall k: nat :: KeepsWhole(fl, k))
    && (forall x :: IsNear(fl, x))
    && (forall x :: KeepsParts(fl, x))
  }

  /** None, or between one part in 2^53 and 2^53. */
  predicate MiddleSize(x: real) {
    x == 0.0 || (1.0 <= x * TWO53 as real && x <= TWO53 as real)
  }

  predicate IsNear(fl: real -> real, x: real) {
    MiddleSize(x) ==> -x <= (fl(x) - x) * TWO53 as real <= x
  }

  predicate KeepsOrder(fl: real -> real, x: real, y: real) {
    0.0 <= x <= y ==> fl(x) <= fl(y)
  }

  predicate KeepsWhole(fl: real -> real, k: nat) {
    k < TWO53 ==> fl(k as real) == k as real
  }

  /** The integer part of a double is a double, and so is what is left without it. */
  predicate KeepsParts(fl: real -> real, x: real) {
    var d, k := fl(x), fl(x).Floor as real;
    x >= 0.0 ==> fl(k) == k && fl(d - k) == d - k
  }

  /** The share, rounded once. */
  function Share(fl: real -> real, hosts: nat, w: nat, total: nat): real
    requires total > 0
  {
    fl(Exact(hosts * w, total))
  }

  // ── the share as it is computed ───────────────────────────────────────────

  lemma SignStays(fl: real -> real, x: real)
    requires Rounding(fl) && x >= 0.0
    ensures fl(x) >= 0.0 && (x >= 1.0 ==> fl(x) > 0.0)
  {
    assert KeepsWhole(fl, 0) && KeepsWhole(fl, 1);
    assert KeepsOrder(fl, 0 as real, x) && KeepsOrder(fl, 1 as real, x);
  }

  lemma NotNegative(a: real, b: real)
    requires a >= 0.0 && b >= 0.0
    ensures a * b >= 0.0 && (b > 0.0 ==> a / b >= 0.0)
  {
    if b > 0.0 { QuotientGrows(0.0, a, b); }
  }

  /** A product, and a quotient, of doubles. */
  function Times(fl: real -> real, a: real, b: real): real {
    fl(a * b)
  }

  function Over(fl: real -> real, a: real, b: real): real
    requires b > 0.0
  {
    fl(a / b)
  }

  /** `exact`, an operation at a time. */
  function Computed(fl: real -> real, hosts: nat, w: nat, total: nat): (e: real)
    requires Rounding(fl) && total > 0
    ensures e >= 0.0
  {
    SignStays(fl, total as real);
    var product := Times(fl, fl(hosts as real), fl(w as real));
    ProductNotNegative(fl, hosts, w);
    QuotientNotNegative(fl, product, fl(total as real));
    Over(fl, product, fl(total as real))
  }

  lemma ProductNotNegative(fl: real -> real, hosts: nat, w: nat)
    requires Rounding(fl)
    ensures Times(fl, fl(hosts as real), fl(w as real)) >= 0.0
  {
    SignStays(fl, hosts as real);
    SignStays(fl, w as real);
    NotNegative(fl(hosts as real), fl(w as real));
    SignStays(fl, fl(hosts as real) * fl(w as real));
  }

  lemma QuotientNotNegative(fl: real -> real, a: real, b: real)
    requires Rounding(fl) && a >= 0.0 && b > 0.0
    ensures Over(fl, a, b) >= 0.0
  {
    NotNegative(a, b);
    SignStays(fl, a / b);
  }

  /** `whole` */
  function Whole(fl: real -> real, hosts: nat, w: nat, total: nat): nat
    requires Rounding(fl) && total > 0
  {
    Computed(fl, hosts, w, total).Floor
  }

  /** `frac` */
  function Rest(fl: real -> real, hosts: nat, w: nat, total: nat): real
    requires Rounding(fl) && total > 0
  {
    fl(Computed(fl, hosts, w, total) - fl(Whole(fl, hosts, w, total) as real))
  }

  lemma Product(a: nat, b: nat)
    ensures a * b >= 0 && (a * b) as real == a as real * b as real
  {
  }

  /** While the numbers and the product are whole numbers that doubles hold, only the quotient is rounded. */
  lemma OnlyQuotientRounds(fl: real -> real, hosts: nat, w: nat, total: nat)
    requires Rounding(fl) && 0 < total < TWO53 && hosts < TWO53 && w < TWO53 && hosts * w < TWO53
    ensures Computed(fl, hosts, w, total) == Share(fl, hosts, w, total)
    ensures Rest(fl, hosts, w, total) == Share(fl, hosts, w, total) - Whole(fl, hosts, w, total) as real
  {
    hide Rounding, Computed;
    ComputedIsShare(fl, hosts, w, total);
    NotNegative((hosts * w) as real, total as real);
    PartsStay(fl, Exact(hosts * w, total));
    hide Exact;
  }

  lemma ComputedIsShare(fl: real -> real, hosts: nat, w: nat, total: nat)
    requires Rounding(fl) && 0 < total < TWO53 && hosts < TWO53 && w < TWO53 && hosts * w < TWO53
    ensures Computed(fl, hosts, w, total) == Share(fl, hosts, w, total)
  {
    hide Rounding;
    Product(hosts, w);
    WholeStays(fl, hosts);
    WholeStays(fl, w);
    WholeStays(fl, total);
    WholeStays(fl, hosts * w);
    assert Times(fl, hosts as real, w as real) == (hosts * w) as real;
    assert Over(fl, (hosts * w) as real, total as real) == fl(Exact(hosts * w, total));
    hide Times, Over;
  }

  lemma WholeStays(fl: real -> real, k: nat)
    requires Rounding(fl) && k < TWO53
    ensures fl(k as real) == k as real
  {
    assert KeepsWhole(fl, k);
  }

  lemma PartsStay(fl: real -> real, x: real)
    requires Rounding(fl) && x >= 0.0
    ensures KeepsParts(fl, x)
  {
    assert KeepsParts(fl, x);
  }

  lemma OverSum(a: real, b: real, t: real)
    requires t > 0.0
    ensures (a + b) / t == a / t + b / t
  {
  }

  lemma QuotientGrows(a: real, b: real, t: real)
    requires t > 0.0 && a <= b
    ensures a / t <= b / t && t / t == 1.0 && 0.0 / t == 0.0
  {
  }

  lemma Scale(a: real, b: real, t: real)
    requires a <= b && t > 0.0
    ensures a * t <= b * t
  {
    assert (b - a) * t >= 0.0;
  }

  lemma ScaleStrictly(a: real, b: real, t: real)
    requires t > 0.0
    ensures a < b <==> a * t < b * t
  {
    assert (b - a) * t == b * t - a * t;
    if a < b { assert (b - a) * t > 0.0; } else { assert (a - b) * t >= 0.0; }
  }

  /** An error of at most one part in 2^53 of a share `n / t`. */
  lemma ErrorIsSmall(n: real, t: real, d: real)
    requires t > 0.0 && n >= 0.0 && -(n / t) <= d * TWO53 as real <= n / t
    ensures Slight(d, t, n)
  {
    var q, p := n / t, TWO53 as real;
    assert q * t == n;
    Scale(-q, d * p, t);
    Scale(d * p, q, t);
    assert (-q) * t == -(q * t);
    Swaps(d, p, t);
  }

  lemma Swaps(a: real, b: real, c: real)
    ensures a * b * c == a * c * b
  {
  }

  lemma BelowOneOver(d: real, t: real, n: real)
    requires t > 0.0 && n < TWO53 as real && Slight(d, t, n)
    ensures d < 1.0 / t
  {
    ScaleStrictly(d * t, 1.0, TWO53 as real);
    var o := 1.0 / t;
    assert o * t == 1.0;
    ScaleStrictly(d, o, t);
  }

  function Exact(n: int, total: int): real
    requires total > 0
  {
    n as real / total as real
  }

  predicate Divided(n: int, q: int, r: int, total: int) {
    0 <= r < total && n == total * q + r
  }

  lemma RealParts(n: int, q: int, r: int, total: int)
    requires Divided(n, q, r, total)
    ensures total > 0 && Exact(n, total) == q as real + Exact(r, total)
  {
  }

  lemma RestBetween(r: int, total: int)
    requires 0 <= r < total
    ensures 0.0 <= Exact(r, total) <= 1.0 - Exact(1, total)
  {
    var t := total as real;
    QuotientGrows(0.0, r as real, t);
    QuotientGrows(r as real + 1.0, t, t);
    OverSum(r as real, 1.0, t);
  }

  lemma Parts(n: nat, total: nat)
    requires total > 0
    ensures Divided(n, n / total, n % total, total) && n / total >= 0
  {
  }

  lemma NoMore(n: nat, total: nat)
    requires total > 0
    ensures 0 <= n / total <= n
  {
    Parts(n, total);
    var k := n / total;
    assert (total - 1) * k == total * k - k;
    NoLess(total - 1, k);
  }

  /** The error `d` of a share, times the total, is at most `n` in 2^53. */
  predicate Slight(d: real, t: real, n: real) {
    -n <= d * t * TWO53 as real <= n
  }

  lemma QuotientIsMiddleSize(n: nat, total: nat)
    requires 0 < total < TWO53 && n < TWO53
    ensures MiddleSize(Exact(n, total))
  {
    if n == 0 {
      QuotientGrows(0.0, 0.0, total as real);
    } else {
      var q, t := Exact(n, total), total as real;
      assert q * t == n as real;
      MiddleQuotient(q, t, n as real, TWO53 as real);
    }
  }

  lemma MiddleQuotient(q: real, t: real, n: real, top: real)
    requires q * t == n && 1.0 <= n < top && 1.0 <= t < top
    ensures 1.0 <= q * top && q <= top
  {
    if q <= 0.0 {
      Scale(q, 0.0, t);
      assert false;
    }
    Scale(t, top, q);
    ScaleStrictly(top, q, t);
    Scale(1.0, t, top);
  }

  lemma ShareError(fl: real -> real, n: nat, total: nat)
    requires Rounding(fl) && 0 < total < TWO53 && n < TWO53
    ensures Exact(n, total) >= 0.0 && Slight(fl(Exact(n, total)) - Exact(n, total), total as real, n as real)
  {
    var q := Exact(n, total);
    QuotientGrows(0.0, n as real, total as real);
    QuotientIsMiddleSize(n, total);
    assert IsNear(fl, q);
    hide Rounding;
    ErrorIsSmall(n as real, total as real, fl(q) - q);
  }

  lemma ErrorBelow(fl: real -> real, n: nat, total: nat)
    requires Rounding(fl) && 0 < total < TWO53 && n < TWO53
    ensures fl(Exact(n, total)) - Exact(n, total) < Exact(1, total)
  {
    ShareError(fl, n, total);
    assert Exact(1, total) == 1.0 / total as real;
    hide Rounding, Exact, Slight;
    BelowOneOver(fl(Exact(n, total)) - Exact(n, total), total as real, n as real);
  }

  /** A share is at least its integer part and less than one more. */
  lemma ShareIsBetween(fl: real -> real, n: nat, total: nat)
    requires Rounding(fl) && 0 < total < TWO53 && n < TWO53
    ensures (n / total) as real <= fl(Exact(n, total)) < (n / total) as real + 1.0
  {
    hide Exact, Divided;
    var q, r := n / total, n % total;
    NoMore(n, total);
    Parts(n, total);
    RealParts(n, q, r, total);
    RestBetween(r, total);
    ErrorBelow(fl, n, total);
    assert KeepsWhole(fl, q) && KeepsOrder(fl, q as real, Exact(n, total));
  }

  /** The integer part is the exact one. */
  lemma IntegerPartIsExact(fl: real -> real, hosts: nat, w: nat, total: nat)
    requires Rounding(fl) && 0 < total < TWO53 && hosts * w < TWO53
    ensures Share(fl, hosts, w, total).Floor == Floor(hosts, w, total)
  {
    ShareIsBetween(fl, hosts * w, total);
    hide Rounding, Exact;
  }

  /** A larger remainder stays larger. */
  lemma RemaindersKeepOrder(fl: real -> real, hosts: nat, w: nat, v: nat, total: nat)
    requires Rounding(fl) && 0 < total < TWO53 && hosts * w + hosts * v < TWO53
    requires Frac(hosts, w, total) > Frac(hosts, v, total)
    ensures Share(fl, hosts, w, total) - Floor(hosts, w, total) as real > Share(fl, hosts, v, total) - Floor(hosts, v, total) as real
  {
    var n, m := hosts * w, hosts * v;
    Parts(n, total);
    Parts(m, total);
    hide Divided;
    PartsKeepOrder(fl, n, n / total, n % total, m, m / total, m % total, total);
    hide Rounding;
  }

  lemma PartsKeepOrder(fl: real -> real, n: nat, q: int, a: int, m: nat, p: int, b: int, total: nat)
    requires Rounding(fl) && 0 < total < TWO53 && n + m < TWO53 && Divided(n, q, a, total) && Divided(m, p, b, total) && a > b
    ensures fl(Exact(n, total)) - q as real > fl(Exact(m, total)) - p as real
  {
    RealParts(n, q, a, total);
    RealParts(m, p, b, total);
    ShareError(fl, n, total);
    ShareError(fl, m, total);
    var d, e := fl(Exact(n, total)) - Exact(n, total), fl(Exact(m, total)) - Exact(m, total);
    assert Exact(a, total) == a as real / total as real && Exact(b, total) == b as real / total as real;
    hide Rounding, Exact, Slight, Divided;
    Apart(a as real, b as real, d, e, total as real, n as real, m as real);
  }

  lemma Distributes(a: real, b: real, t: real)
    ensures (a + b) * t == a * t + b * t && (a - b) * t == a * t - b * t
  {
  }

  lemma Apart(a: real, b: real, d: real, e: real, t: real, n: real, m: real)
    requires t > 0.0 && a >= b + 1.0 && n + m < TWO53 as real && Slight(d, t, n) && Slight(e, t, m)
    ensures a / t + d > b / t + e
  {
    var u, v := a / t, b / t;
    assert u * t == a && v * t == b;
    var x, y := d * t, e * t;
    Distributes(y, x, TWO53 as real);
    ScaleStrictly(y - x, 1.0, TWO53 as real);
    Distributes(v, e, t);
    Distributes(u, d, t);
    ScaleStrictly(v + e, u + d, t);
  }

  // ── what the order of the computed remainders gives ───────────────────────

  /** The numbers, their products, and the sum of any two of these are whole numbers that doubles hold. */
  predicate Moderate(w: seq<nat>, total: nat, hosts: nat) {
    && total < TWO53 && hosts < TWO53
    && (forall i :: 0 <= i < |w| ==> w[i] < TWO53 && hosts * w[i] < TWO53)
    && forall i, j :: 0 <= i < |w| && 0 <= j < |w| && i != j ==> hosts * w[i] + hosts * w[j] < TWO53
  }

  /** The integer part, as computed, is the exact one. */
  lemma WholeIsFloor(fl: real -> real, w: seq<nat>, total: nat, hosts: nat, i: nat)
    requires Rounding(fl) && total > 0 && Moderate(w, total, hosts) && i < |w|
    ensures Whole(fl, hosts, w[i], total) == Floor(hosts, w[i], total)
  {
    hide Rounding, Computed, Rest, Floor;
    OnlyQuotientRounds(fl, hosts, w[i], total);
    IntegerPartIsExact(fl, hosts, w[i], total);
  }

  /** A larger remainder is larger as computed. */
  lemma RestKeepsOrder(fl: real -> real, w: seq<nat>, total: nat, hosts: nat, i: nat, j: nat)
    requires Rounding(fl) && total > 0 && Moderate(w, total, hosts) && i < |w| && j < |w|
    requires Frac(hosts, w[i], total) > Frac(hosts, w[j], total)
    ensures Rest(fl, hosts, w[i], total) > Rest(fl, hosts, w[j], total)
  {
    hide Rounding, Computed, Rest, Whole, Floor;
    OnlyQuotientRounds(fl, hosts, w[i], total);
    OnlyQuotientRounds(fl, hosts, w[j], total);
    WholeIsFloor(fl, w, total, hosts, i);
    WholeIsFloor(fl, w, total, hosts, j);
    RemaindersKeepOrder(fl, hosts, w[i], w[j], total);
  }

  /**
   * `x` gives every share its integer part as computed, and one more to those whose remainders as computed are
   * the larger ones, or equal and earlier.
   */
  ghost predicate ServedByFloat(fl: real -> real, w: seq<nat>, total: nat, hosts: nat, x: seq<int>)
    requires Rounding(fl) && total > 0
  {
    && |x| == |w| && Sum(x) == hosts
    && (forall i :: 0 <= i < |w| ==> x[i] - Whole(fl, hosts, w[i], total) in {0, 1})
    && forall i, j :: 0 <= i < |w| && 0 <= j < |w|
                      && x[i] > Whole(fl, hosts, w[i], total) && x[j] == Whole(fl, hosts, w[j], total)
                      ==> FloatAhead(fl, w, total, hosts, i, j)
  }

  ghost predicate FloatAhead(fl: real -> real, w: seq<nat>, total: nat, hosts: nat, i: nat, j: nat)
    requires Rounding(fl) && total > 0 && i < |w| && j < |w|
  {
    var f, g := Rest(fl, hosts, w[i], total), Rest(fl, hosts, w[j], total);
    f > g || (f == g && i < j)
  }

  /** So some largest exact remainders are rounded up, and no other way of dealing out the hosts is closer. */
  lemma FloatIsOptimal(fl: real -> real, w: seq<nat>, total: nat, hosts: nat, x: seq<int>, y: seq<int>)
    requires Rounding(fl) && total > 0 && Moderate(w, total, hosts) && ServedByFloat(fl, w, total, hosts, x)
    ensures RoundsLargest(w, total, hosts, x)
    ensures |y| == |w| && Sum(y) == hosts ==> Deviation(w, total, hosts, x) <= Deviation(w, total, hosts, y)
  {
    hide Sum, Rounding, Deviation, Whole, Rest, Floor, Frac;
    forall i | 0 <= i < |w| ensures Whole(fl, hosts, w[i], total) == Floor(hosts, w[i], total) { WholeIsFloor(fl, w, total, hosts, i); }
    forall i, j | 0 <= i < |w| && 0 <= j < |w| && Frac(hosts, w[j], total) > Frac(hosts, w[i], total)
      ensures Rest(fl, hosts, w[j], total) > Rest(fl, hosts, w[i], total)
    {
      RestKeepsOrder(fl, w, total, hosts, j, i);
    }
    hide Moderate;
    if |y| == |w| && Sum(y) == hosts { RoundingLargestIsOptimal(w, total, hosts, x, y); }
  }

  // ── ties ──────────────────────────────────────────────────────────────────

  /** No share that is rounded up has the remainder of one that is not. */
  predicate NoTie(w: seq<int>, total: int, hosts: nat, x: seq<int>)
    requires total > 0 && |x| == |w|
  {
    forall i, j :: 0 <= i < |w| && 0 <= j < |w| && RoundedUp(w, total, hosts, x, i) && !RoundedUp(w, total, hosts, x, j)
                   ==> Frac(hosts, w[i], total) != Frac(hosts, w[j], total)
  }

  predicate RoundedUp(w: seq<int>, total: int, hosts: nat, x: seq<int>, i: nat)
    requires total > 0 && |x| == |w| && i < |w|
  {
    x[i] == Floor(hosts, w[i], total) + 1
  }

  /** The allocation is the only one that rounds the largest remainders up, so rounding cannot move it, exactly when there is no such tie. */
  lemma OnlyAllocationIff(w: seq<int>, total: int, hosts: nat, x: seq<int>)
    requires total > 0 && RoundsLargest(w, total, hosts, x)
    ensures (forall y :: RoundsLargest(w, total, hosts, y) ==> y == x) <==> NoTie(w, total, hosts, x)
  {
    hide Floor, Frac, Sum;
    if NoTie(w, total, hosts, x) {
      forall y | RoundsLargest(w, total, hosts, y) ensures y == x { SameWithoutTie(w, total, hosts, x, y); }
    } else {
      var i, j :| 0 <= i < |w| && 0 <= j < |w| && RoundedUp(w, total, hosts, x, i) && !RoundedUp(w, total, hosts, x, j)
                  && Frac(hosts, w[i], total) == Frac(hosts, w[j], total);
      Swapped(x, i, j);
      var y := x[i := x[i] - 1][j := x[j] + 1];
      assert y[i] != x[i];
      assert RoundsLargest(w, total, hosts, y);
    }
  }

  lemma Swapped(x: seq<int>, i: nat, j: nat)
    requires i < |x| && j < |x| && i != j
    ensures Sum(x[i := x[i] - 1][j := x[j] + 1]) == Sum(x)
  {
    var z := x[i := x[i] - 1];
    SumBump(z, i);
    assert z[i := z[i] + 1] == x;
    SumBump(z, j);
    assert z[j] == x[j];
  }

  lemma TiedShares(w: seq<int>, total: int, hosts: nat, x: seq<int>, i: nat, j: nat)
    requires total > 0 && |x| == |w| && NoTie(w, total, hosts, x) && i < |w| && j < |w|
    requires x[i] == Floor(hosts, w[i], total) + 1 && x[j] == Floor(hosts, w[j], total)
    ensures Frac(hosts, w[i], total) != Frac(hosts, w[j], total)
  {
    assert RoundedUp(w, total, hosts, x, i) && !RoundedUp(w, total, hosts, x, j);
  }

  lemma SameWithoutTie(w: seq<int>, total: int, hosts: nat, x: seq<int>, y: seq<int>)
    requires total > 0 && RoundsLargest(w, total, hosts, x) && RoundsLargest(w, total, hosts, y) && NoTie(w, total, hosts, x)
    ensures x == y
  {
    hide Floor, Frac, Sum;
    if i, j :| 0 <= i < |w| && 0 <= j < |w| && x[i] > y[i] && x[j] < y[j] {
      TiedShares(w, total, hosts, x, i, j);
      assert false;
    } else if forall i :: 0 <= i < |w| ==> x[i] <= y[i] {
      SumMonotone(x, y);
    } else {
      SumMonotone(y, x);
    }
  }

  /** Among shares tied on the border of `y`, no later one has the larger computed remainder. */
  ghost predicate TiesInOrder(fl: real -> real, w: seq<nat>, total: nat, hosts: nat, y: seq<int>)
    requires Rounding(fl) && total > 0 && |y| == |w|
  {
    forall i, j :: 0 <= i < |w| && 0 <= j < |w| && RoundedUp(w, total, hosts, y, i) && !RoundedUp(w, total, hosts, y, j)
                   && Frac(hosts, w[i], total) == Frac(hosts, w[j], total)
                   ==> Rest(fl, hosts, w[i], total) >= Rest(fl, hosts, w[j], total)
  }

  /** The allocation in doubles is the exact one, ties by position, exactly when that holds. */
  lemma PositionDecidesIff(fl: real -> real, w: seq<nat>, total: nat, hosts: nat, x: seq<int>, y: seq<int>)
    requires Rounding(fl) && total > 0 && Moderate(w, total, hosts)
    requires ServedByFloat(fl, w, total, hosts, x) && LargestRemainder(w, total, hosts, y)
    ensures x == y <==> TiesInOrder(fl, w, total, hosts, y)
  {
    hide Sum, Rounding, Whole, Rest, Floor, Frac;
    forall i | 0 <= i < |w| ensures Whole(fl, hosts, w[i], total) == Floor(hosts, w[i], total) { WholeIsFloor(fl, w, total, hosts, i); }
    forall i, j | 0 <= i < |w| && 0 <= j < |w| && Frac(hosts, w[j], total) > Frac(hosts, w[i], total)
      ensures Rest(fl, hosts, w[j], total) > Rest(fl, hosts, w[i], total)
    {
      RestKeepsOrder(fl, w, total, hosts, j, i);
    }
    hide Moderate;
    if TiesInOrder(fl, w, total, hosts, y) {
      if i, j :| 0 <= i < |w| && 0 <= j < |w| && y[i] > x[i] && y[j] < x[j] {
        NotSwapped(fl, w, total, hosts, x, y, i, j);
        assert false;
      } else if forall i :: 0 <= i < |w| ==> y[i] <= x[i] {
        SumMonotone(y, x);
      } else {
        SumMonotone(x, y);
      }
    }
  }

  lemma NotSwapped(fl: real -> real, w: seq<nat>, total: nat, hosts: nat, x: seq<int>, y: seq<int>, i: nat, j: nat)
    requires Rounding(fl) && total > 0
    requires ServedByFloat(fl, w, total, hosts, x) && LargestRemainder(w, total, hosts, y) && i < |w| && j < |w|
    requires forall k :: 0 <= k < |w| ==> Whole(fl, hosts, w[k], total) == Floor(hosts, w[k], total)
    requires Frac(hosts, w[i], total) > Frac(hosts, w[j], total) ==> Rest(fl, hosts, w[i], total) > Rest(fl, hosts, w[j], total)
    requires TiesInOrder(fl, w, total, hosts, y)
    ensures !(y[i] > x[i] && y[j] < x[j])
  {
    hide Rounding, Whole, Rest, Floor, Frac, Sum;
    assert y[i] == Floor(hosts, w[i], total) + 1 <==> RoundedUp(w, total, hosts, y, i);
    assert y[j] == Floor(hosts, w[j], total) + 1 <==> RoundedUp(w, total, hosts, y, j);
  }

  /** What the code computes leaves one allocation only. */
  lemma ServedByFloatIsUnique(fl: real -> real, w: seq<nat>, total: nat, hosts: nat, x: seq<int>, y: seq<int>)
    requires Rounding(fl) && total > 0
    requires ServedByFloat(fl, w, total, hosts, x) && ServedByFloat(fl, w, total, hosts, y)
    ensures x == y
  {
    hide Rounding, Whole, Rest, Sum;
    if i, j :| 0 <= i < |w| && 0 <= j < |w| && x[i] > y[i] && x[j] < y[j] {
      assert false;
    } else if forall i :: 0 <= i < |w| ==> x[i] <= y[i] {
      SumMonotone(x, y);
    } else {
      SumMonotone(y, x);
    }
  }

  /** `x` is no further from `q` than half the distance `1 / grid` between doubles of its size, and is such a double. */
  predicate Nearest(x: real, q: real, grid: int, numerator: int)
    requires grid > 0
  {
    x == numerator as real / grid as real && -1.0 <= (x - q) * (2 * grid) as real <= 1.0
  }

  /**
   * Ties are not broken by position: with weights 4, 1, 1 and two hosts to share, the three remainders are equal,
   * yet the doubles nearest to 4/3 and 1/3 leave the second the larger one. It gets the host that the first would get.
   */
  lemma TieMoves(fl: real -> real, x: seq<int>, y: seq<int>)
    requires Rounding(fl)
    requires Nearest(fl(8.0 / 6.0), 8.0 / 6.0, 0x10_0000_0000_0000, 6004799503160661)
    requires Nearest(fl(2.0 / 6.0), 2.0 / 6.0, 0x40_0000_0000_0000, 6004799503160661)
    requires ServedByFloat(fl, [4, 1, 1], 6, 2, x) && LargestRemainder([4, 1, 1], 6, 2, y)
    ensures x == [1, 1, 0] && y == [2, 0, 0]
  {
    hide Rounding, Nearest;
    TieInDoubles(fl, x);
    TieByPosition(y);
  }

  lemma TieByPosition(y: seq<int>)
    requires LargestRemainder([4, 1, 1], 6, 2, y)
    ensures y == [2, 0, 0]
  {
    assert Floor(2, 4, 6) == 1 && Floor(2, 1, 6) == 0 && Frac(2, 4, 6) == Frac(2, 1, 6) == 2;
    hide Floor, Frac, Sum;
    ThreeSum(y);
    var w: seq<int> := [4, 1, 1];
    assert w[0] == 4 && w[1] == 1 && w[2] == 1;
    assert Sum(y) == 2;
    assert y[0] == 2;
  }

  lemma TieInDoubles(fl: real -> real, x: seq<int>)
    requires Rounding(fl)
    requires Nearest(fl(8.0 / 6.0), 8.0 / 6.0, 0x10_0000_0000_0000, 6004799503160661)
    requires Nearest(fl(2.0 / 6.0), 2.0 / 6.0, 0x40_0000_0000_0000, 6004799503160661)
    requires ServedByFloat(fl, [4, 1, 1], 6, 2, x)
    ensures x == [1, 1, 0]
  {
    TiedRests(fl);
    hide Rounding, Nearest, Whole, Rest;
    SecondIsServed(fl, x);
  }

  lemma SecondIsServed(fl: real -> real, x: seq<int>)
    requires Rounding(fl) && ServedByFloat(fl, [4, 1, 1], 6, 2, x)
    requires Whole(fl, 2, 4, 6) == 1 && Whole(fl, 2, 1, 6) == 0 && Rest(fl, 2, 4, 6) < Rest(fl, 2, 1, 6)
    ensures x == [1, 1, 0]
  {
    hide Rounding, Whole, Rest, Sum;
    var w: seq<nat> := [4, 1, 1];
    assert w[0] == 4 && w[1] == 1 && w[2] == 1;
    assert !FloatAhead(fl, w, 6, 2, 0, 1) && !FloatAhead(fl, w, 6, 2, 0, 2) && !FloatAhead(fl, w, 6, 2, 2, 1);
    ServedPair(fl, w, 6, 2, x, 0, 1);
    ServedPair(fl, w, 6, 2, x, 0, 2);
    ServedPair(fl, w, 6, 2, x, 2, 1);
    ThreeSum(x);
    hide ServedByFloat, FloatAhead;
    assert x[0] == 1;
  }

  lemma ServedPair(fl: real -> real, w: seq<nat>, total: nat, hosts: nat, x: seq<int>, i: nat, j: nat)
    requires Rounding(fl) && total > 0 && ServedByFloat(fl, w, total, hosts, x) && i < |w| && j < |w|
    ensures |x| == |w| && Sum(x) == hosts
    ensures Whole(fl, hosts, w[i], total) <= x[i] <= Whole(fl, hosts, w[i], total) + 1
    ensures Whole(fl, hosts, w[j], total) <= x[j] <= Whole(fl, hosts, w[j], total) + 1
    ensures x[i] > Whole(fl, hosts, w[i], total) && x[j] == Whole(fl, hosts, w[j], total) ==> FloatAhead(fl, w, total, hosts, i, j)
  {
    hide Rounding, Whole, Sum, FloatAhead;
  }

  lemma ThreeSum(x: seq<int>)
    requires |x| == 3
    ensures Sum(x) == x[0] + x[1] + x[2]
  {
    assert x == [x[0]] + ([x[1]] + [x[2]]);
    SumAppend([x[0]], [x[1]] + [x[2]]);
    SumAppend([x[1]], [x[2]]);
    assert forall k :: 0 <= k < 3 ==> Sum([x[k]]) == x[k];
  }

  lemma TiedRests(fl: real -> real)
    requires Rounding(fl)
    requires Nearest(fl(8.0 / 6.0), 8.0 / 6.0, 0x10_0000_0000_0000, 6004799503160661)
    requires Nearest(fl(2.0 / 6.0), 2.0 / 6.0, 0x40_0000_0000_0000, 6004799503160661)
    ensures Whole(fl, 2, 4, 6) == 1 && Whole(fl, 2, 1, 6) == 0 && Rest(fl, 2, 4, 6) < Rest(fl, 2, 1, 6)
  {
    hide Rounding, Computed, Rest;
    OnlyQuotientRounds(fl, 2, 4, 6);
    OnlyQuotientRounds(fl, 2, 1, 6);
    assert Exact(2 * 4, 6) == 8.0 / 6.0 && Exact(2 * 1, 6) == 2.0 / 6.0;
  }
}
