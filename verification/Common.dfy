// Small definitions shared by the other modules.
module Common {

  datatype Option<+T> = None | Some(value: T)

  function Sum(s: seq<int>): int {
    if s == [] then 0 else s[0] + Sum(s[1..])
  }

  lemma {:induction false} SumAppend(s: seq<int>, t: seq<int>)
    ensures Sum(s + t) == Sum(s) + Sum(t)
  {
    if s == [] {
      assert s + t == t;
    } else {
      assert (s + t)[1..] == s[1..] + t;
      SumAppend(s[1..], t);
    }
  }

  lemma {:induction false} SumBump(x: seq<int>, i: nat)
    requires i < |x|
    ensures Sum(x[i := x[i] + 1]) == Sum(x) + 1
  {
    var y := x[i := x[i] + 1];
    if i == 0 {
      assert y[1..] == x[1..];
    } else {
      assert y[1..] == x[1..][i - 1 := x[i] + 1];
      SumBump(x[1..], i - 1);
    }
  }

  function CountIf<T>(s: seq<T>, p: T -> bool): nat {
    if s == [] then 0 else CountIf(s[..|s| - 1], p) + if p(s[|s| - 1]) then 1 else 0
  }

  lemma {:induction false} CountIfAppend<T>(a: seq<T>, b: seq<T>, p: T -> bool)
    ensures CountIf(a + b, p) == CountIf(a, p) + CountIf(b, p)
  {
    if b == [] {
      assert a + b == a;
    } else {
      assert (a + b)[..|a + b| - 1] == a + b[..|b| - 1];
      CountIfAppend(a, b[..|b| - 1], p);
    }
  }

  lemma Associates<T>(a: seq<T>, b: seq<T>, c: seq<T>, d: seq<T>)
    ensures a + (b + c + d) == a + b + c + d
  {
  }

  lemma MultisetRemove<T>(s: seq<T>, k: nat)
    requires k < |s|
    ensures multiset(s[..k] + s[k + 1..]) == multiset(s) - multiset{s[k]}
  {
    assert s == s[..k] + [s[k]] + s[k + 1..];
    assert multiset(s) == multiset(s[..k] + [s[k]]) + multiset(s[k + 1..]);
  }

  lemma CountIfRemove<T>(s: seq<T>, k: nat, p: T -> bool)
    requires k < |s|
    ensures CountIf(s, p) == CountIf(s[..k] + s[k + 1..], p) + if p(s[k]) then 1 else 0
  {
    hide CountIf;
    assert s == s[..k] + [s[k]] + s[k + 1..];
    CountIfAppend(s[..k] + [s[k]], s[k + 1..], p);
    CountIfAppend(s[..k], [s[k]], p);
    CountIfAppend(s[..k], s[k + 1..], p);
    CountIfOne(s[k], p);
  }

  lemma CountIfOne<T>(x: T, p: T -> bool)
    ensures CountIf([x], p) == if p(x) then 1 else 0
  {
    assert [x][..0] == [];
  }

  lemma {:induction false} CountIfPermutes<T>(a: seq<T>, b: seq<T>, p: T -> bool)
    requires multiset(a) == multiset(b)
    ensures CountIf(a, p) == CountIf(b, p)
    decreases |a|
  {
    if a == [] {
      assert |multiset(b)| == 0;
    } else {
      assert a[0] in multiset(b);
      hide CountIf;
      var k :| 0 <= k < |b| && b[k] == a[0];
      CountIfRemove(a, 0, p);
      CountIfRemove(b, k, p);
      MultisetRemove(a, 0);
      MultisetRemove(b, k);
      CountIfPermutes(a[..0] + a[1..], b[..k] + b[k + 1..], p);
    }
  }

  lemma {:induction false} CountIfZero<T>(s: seq<T>, p: T -> bool)
    ensures CountIf(s, p) == 0 <==> forall i :: 0 <= i < |s| ==> !p(s[i])
  {
    if s != [] {
      CountIfZero(s[..|s| - 1], p);
      assert forall i :: 0 <= i < |s| - 1 ==> s[..|s| - 1][i] == s[i];
    }
  }

  lemma {:induction false} CountIfMonotone<T>(s: seq<T>, p: T -> bool, q: T -> bool)
    requires forall i :: 0 <= i < |s| && p(s[i]) ==> q(s[i])
    ensures CountIf(s, p) <= CountIf(s, q) <= |s|
  {
    if s != [] {
      assert forall i :: 0 <= i < |s| - 1 ==> s[..|s| - 1][i] == s[i];
      CountIfMonotone(s[..|s| - 1], p, q);
    }
  }

  /** What `p` takes is taken by one of `q` and `r`, and never by both. */
  lemma {:induction false} CountIfSplits<T>(s: seq<T>, p: T -> bool, q: T -> bool, r: T -> bool)
    requires forall i :: 0 <= i < |s| ==> (p(s[i]) <==> q(s[i]) || r(s[i])) && !(q(s[i]) && r(s[i]))
    ensures CountIf(s, p) == CountIf(s, q) + CountIf(s, r)
  {
    if s != [] {
      var n := |s| - 1;
      assert forall i :: 0 <= i < n ==> s[..n][i] == s[i];
      CountIfSplits(s[..n], p, q, r);
    }
  }

  lemma {:induction false} CountIfPairwise<T>(a: seq<T>, b: seq<T>, p: T -> bool)
    requires |a| == |b| && forall i :: 0 <= i < |a| && p(a[i]) ==> p(b[i])
    ensures CountIf(a, p) <= CountIf(b, p)
  {
    if a != [] {
      var n := |a| - 1;
      assert forall i :: 0 <= i < n ==> a[..n][i] == a[i] && b[..n][i] == b[i];
      CountIfPairwise(a[..n], b[..n], p);
    }
  }

  /** The first position where `pat` occurs in `s`, as Python's `str.find` and Go's `strings.Index` give it. */
  function Find(s: string, pat: string): (r: Option<nat>)
    ensures r.Some? ==> r.value + |pat| <= |s|
  {
    if pat <= s then Some(0)
    else if s == "" then None
    else
      match Find(s[1..], pat)
      case None => None
      case Some(i) => Some(i + 1)
  }

  predicate Contains(s: string, pat: string) {
    Find(s, pat).Some?
  }

  /** `s` with the first occurrence of `pat` replaced, as `replace(pat, sub, 1)` does. */
  function ReplaceFirst(s: string, pat: string, sub: string): string {
    match Find(s, pat)
    case None => s
    case Some(i) => s[..i] + sub + s[i + |pat|..]
  }

  predicate OccursAt(s: string, pat: string, i: int) {
    0 <= i <= i + |pat| <= |s| && s[i..i + |pat|] == pat
  }

  lemma {:induction false} FindIsFirst(s: string, pat: string)
    ensures Contains(s, pat) <==> exists i :: OccursAt(s, pat, i)
    ensures Contains(s, pat) ==> OccursAt(s, pat, Find(s, pat).value)
    ensures Contains(s, pat) ==> forall i :: OccursAt(s, pat, i) ==> Find(s, pat).value <= i
  {
    if pat <= s {
      assert OccursAt(s, pat, 0);
    } else if s == "" {
    } else {
      FindIsFirst(s[1..], pat);
      forall i | OccursAt(s, pat, i)
        ensures 0 < i && OccursAt(s[1..], pat, i - 1)
      {
        assert pat != s[..|pat|];
        assert s[1..][i - 1..i - 1 + |pat|] == s[i..i + |pat|];
      }
      if Contains(s, pat) {
        var j := Find(s[1..], pat).value;
        assert s[1..][j..j + |pat|] == s[j + 1..j + 1 + |pat|];
        assert OccursAt(s, pat, j + 1);
      }
    }
  }

  /** `pat` occurs at `i`, and nowhere before it. */
  ghost predicate FirstAt(s: string, pat: string, i: int) {
    OccursAt(s, pat, i) && forall j :: OccursAt(s, pat, j) ==> i <= j
  }

  lemma FirstIsOne(s: string, pat: string, i: int, j: int)
    requires FirstAt(s, pat, i) && FirstAt(s, pat, j)
    ensures i == j
  {
  }

  lemma ReplacesTheFirst(s: string, pat: string, sub: string) returns (i: int)
    requires Contains(s, pat)
    ensures FirstAt(s, pat, i) && ReplaceFirst(s, pat, sub) == s[..i] + sub + s[i + |pat|..]
  {
    FindIsFirst(s, pat);
    i := Find(s, pat).value;
  }
}
