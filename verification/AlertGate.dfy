// The gate that spaces out urgent sends (agent/cmd/agent/localalert.go). A clock
// reading is an integer; 0 is Go's zero time.
module AlertGate {

  /** Whether a reading is let through after the last one that was, and what is then remembered. */
  predicate Lets(last: int, gap: int, now: int) {
    last == 0 || now - last >= gap
  }

  class Gate {
    const minGap: int
    var last: int

    constructor (minGap: int)
      ensures this.minGap == minGap && last == 0
    {
      this.minGap := minGap;
      last := 0;
    }

    /** `allow` */
    method Allow(now: int) returns (ok: bool)
      modifies this
      ensures ok <==> Lets(old(last), minGap, now)
      ensures last == if ok then now else old(last)
    {
      if last != 0 && now - last < minGap {
        return false;
      }
      last := now;
      return true;
    }

    /** `noteAnomaly`; logging is left out. */
    method NoteAnomaly(now: int, localAlert: bool) returns (urgent: bool)
      modifies this
      ensures urgent <==> localAlert && Lets(old(last), minGap, now)
      ensures last == if urgent then now else old(last)
    {
      if !localAlert {
        return false;
      }
      urgent := Allow(now);
    }
  }

  /** The readings let through, of all that were asked about. */
  function Permitted(times: seq<int>, gap: int): (p: seq<int>)
    ensures |p| <= |times| && forall t :: t in p ==> t in times
  {
    if times == [] then []
    else
      var p, now := Permitted(times[..|times| - 1], gap), times[|times| - 1];
      if Lets(Last(p), gap, now) then p + [now] else p
  }

  function Last(p: seq<int>): int {
    if p == [] then 0 else p[|p| - 1]
  }

  lemma PermittedMore(times: seq<int>, gap: int, now: int)
    ensures Permitted(times + [now], gap) == Permitted(times, gap) + if Lets(Last(Permitted(times, gap)), gap, now) then [now] else []
  {
    assert (times + [now])[..|times|] == times;
  }

  predicate Spaced(p: seq<int>, gap: int) {
    forall i, j :: 0 <= i < j < |p| ==> p[j] - p[i] >= (j - i) * gap
  }

  lemma SpacedMore(p: seq<int>, gap: int, now: int)
    requires Spaced(p, gap) && (p == [] || now - Last(p) >= gap)
    ensures Spaced(p + [now], gap)
  {
    var n := |p|;
    forall i, j | 0 <= i < j <= n ensures (p + [now])[j] - (p + [now])[i] >= (j - i) * gap {
      if j == n && i < n - 1 {
        assert p[n - 1] - p[i] >= (n - 1 - i) * gap;
        assert (n - i) * gap == (n - 1 - i) * gap + gap;
      }
    }
  }

  /** Without a zero among the readings, k of them let through span at least k - 1 gaps, even if the clock jumps back. */
  lemma {:induction false} RateBound(times: seq<int>, gap: int)
    requires 0 !in times
    ensures Spaced(Permitted(times, gap), gap)
  {
    if times != [] {
      var front := times[..|times| - 1];
      RateBound(front, gap);
      var p, now := Permitted(front, gap), times[|times| - 1];
      if Lets(Last(p), gap, now) { SpacedMore(p, gap, now); }
    }
  }

  /** A reading that comes a gap after the last one let through is never refused. */
  lemma NeverRefusedAfterGap(times: seq<int>, gap: int, now: int)
    requires var p := Permitted(times, gap); p == [] || now - Last(p) >= gap
    ensures Permitted(times + [now], gap) == Permitted(times, gap) + [now]
  {
    PermittedMore(times, gap, now);
  }

  /**
   * With a gap that is not 0, spacing survives every next reading exactly when the last reading let
   * through is not the zero time: that one is forgotten, and the next reading passes however soon it comes.
   */
  lemma SpacingSurvivesIff(times: seq<int>, gap: int)
    requires gap > 0 && Spaced(Permitted(times, gap), gap)
    ensures (forall now :: Spaced(Permitted(times + [now], gap), gap)) <==>
              Permitted(times, gap) == [] || Last(Permitted(times, gap)) != 0
  {
    var p := Permitted(times, gap);
    if p == [] || Last(p) != 0 {
      forall now ensures Spaced(Permitted(times + [now], gap), gap) {
        PermittedMore(times, gap, now);
        if Lets(Last(p), gap, now) { SpacedMore(p, gap, now); }
      }
    } else {
      var q, n := Permitted(times + [0], gap), |p|;
      PermittedMore(times, gap, 0);
      assert q == p + [0] && q[n] - q[n - 1] == 0;
      assert !Spaced(q, gap) by { assert (n - (n - 1)) * gap == gap; }
    }
  }
}
