// Which placeholders can be left when a text of a profile has been expanded
// (agent/cmd/fleet-sim/generate.go, expand).
module ExpansionLeftovers {
  import opened Common
  import opened Decimal
  import opened Expansion

  /** Two opening braces, a name, two closing ones. */
  predicate Braced(p: string) {
    && |p| >= 4 && p[0] == '{' && p[1] == '{' && p[|p| - 2] == '}' && p[|p| - 1] == '}'
    && forall i :: 2 <= i < |p| - 2 ==> p[i] != '{' && p[i] != '}'
  }

  // ── texts that can take part in a placeholder ─────────────────────────────

  /** The last `k` characters of `u` are the first of `p`. */
  predicate Begins(u: string, p: string, k: nat) {
    0 < k <= |u| && k <= |p| && u[|u| - k..] == p[..k]
  }

  /** The first `k` characters of `u` are the last of `p`. */
  predicate Finishes(u: string, p: string, k: nat) {
    0 < k <= |u| && k <= |p| && u[..k] == p[|p| - k..]
  }

  /** `u`, put into a text, can be part of an occurrence of `p`, or hold one. */
  ghost predicate Touches(u: string, p: string) {
    Contains(p, u) || Contains(u, p) || (exists k :: Begins(u, p, k)) || exists k :: Finishes(u, p, k)
  }

  lemma EqualChars(s: string, t: string)
    requires |s| == |t| && forall k :: 0 <= k < |s| ==> s[k] == t[k]
    ensures s == t
  {
  }

  lemma OccursIff(s: string, p: string, i: int)
    ensures OccursAt(s, p, i) <==> 0 <= i && i + |p| <= |s| && forall k :: 0 <= k < |p| ==> s[i + k] == p[k]
  {
    if 0 <= i && i + |p| <= |s| {
      var t := s[i..i + |p|];
      assert forall k :: 0 <= k < |p| ==> t[k] == s[i + k];
    }
  }

  lemma NoneIff(s: string, p: string)
    ensures !Contains(s, p) <==> forall i :: !OccursAt(s, p, i)
  {
    FindIsFirst(s, p);
  }

  lemma EmptyTouches(p: string)
    ensures Touches("", p)
  {
    assert Find(p, "") == Some(0);
  }

  /** A text that does not touch `p` makes no occurrence of it. */
  lemma UntouchedMakesNone(a: string, u: string, c: string, p: string)
    requires p != "" && !Touches(u, p) && !Contains(a, p) && !Contains(c, p)
    ensures !Contains(a + u + c, p)
  {
    EmptyTouches(p);
    hide Find;
    NoneIff(a, p);
    NoneIff(c, p);
    FindIsFirst(a + u + c, p);
    if Contains(a + u + c, p) {
      var i := Find(a + u + c, p).value;
      OccurrenceTouches(a, u, c, p, i);
      assert false;
    }
  }

  lemma OccurrenceTouches(a: string, u: string, c: string, p: string, i: int)
    requires p != "" && u != "" && OccursAt(a + u + c, p, i)
    ensures Touches(u, p) || OccursAt(a, p, i) || OccursAt(c, p, i - |a| - |u|)
  {
    hide Find;
    var s, n, m, e := a + u + c, |a|, |a| + |u|, i + |p|;
    OccursIff(s, p, i);
    hide OccursAt;
    OccursIff(a, p, i);
    OccursIff(c, p, i - m);
    if n < e && i < m {
      if n <= i && e <= m {
        OccursIff(u, p, i - n);
        NoneIff(u, p);
      } else if i <= n && m <= e {
        OccursIff(p, u, n - i);
        NoneIff(p, u);
      } else if i < n {
        var k := e - n;
        EqualChars(u[..k], p[|p| - k..]);
        assert Finishes(u, p, k);
      } else {
        var k := m - i;
        EqualChars(u[|u| - k..], p[..k]);
        assert Begins(u, p, k);
      }
    }
  }

  ghost predicate NoneTouch(texts: Texts, p: string) {
    forall n: nat :: !Touches(texts(n), p)
  }

  /** A pass whose texts do not touch `p` brings no `p` in, and one that is for `p` leaves none. */
  lemma {:induction false} PassLeavesNone(s: string, q: string, texts: Texts, k: nat, p: string)
    requires p != "" && q != "" && NoneTouch(texts, p) && (q == p || !Contains(s, p))
    ensures !Contains(Pass(s, q, texts, k), p)
    decreases |s|
  {
    hide Touches, Find, Pass;
    PassUnfolds(s, q, texts, k);
    if Find(s, q).Some? {
      var i := Find(s, q).value;
      var a, b := s[..i], s[i + |q|..];
      assert s[0..i] == a && s[i + |q|..|s|] == b;
      if q == p {
        BeforeFirst(s, p, i);
      } else {
        PartHasNone(s, 0, i, p);
        PartHasNone(s, i + |q|, |s|, p);
      }
      PassLeavesNone(b, q, texts, k + 1, p);
      UntouchedMakesNone(a, texts(k), Pass(b, q, texts, k + 1), p);
    }
  }

  lemma BeforeFirst(s: string, p: string, i: nat)
    requires p != "" && Find(s, p) == Some(i)
    ensures !Contains(s[..i], p)
  {
    hide Find;
    FindIsFirst(s, p);
    FindIsFirst(s[..i], p);
    assert s[0..i] == s[..i];
    if Contains(s[..i], p) {
      OccursInPart(s, 0, i, p, Find(s[..i], p).value);
      assert false;
    }
  }

  // ── placeholders do not overlap ───────────────────────────────────────────

  /** Two placeholders in a text are apart, unless they are one and the same. */
  lemma Disjoint(s: string, p: string, q: string, i: int, j: int)
    requires Braced(p) && Braced(q) && OccursAt(s, p, i) && OccursAt(s, q, j)
    ensures i + |p| <= j || j + |q| <= i || (i == j && p == q)
  {
    OccursIff(s, p, i);
    OccursIff(s, q, j);
    hide OccursAt;
    if i < j < i + |p| { NoStartInside(s, p, i, j); }
    if j < i < j + |q| { NoStartInside(s, q, j, i); }
    if i == j { SameStart(s, p, q, i); }
  }

  /** No placeholder starts inside another. */
  lemma NoStartInside(s: string, p: string, i: int, j: int)
    requires Braced(p) && 0 <= i && i + |p| <= |s| && (forall k :: 0 <= k < |p| ==> s[i + k] == p[k]) && i < j < i + |p|
    ensures s[j] != '{' || j + 1 == |s| || s[j + 1] != '{'
  {
    assert s[i + (j - i)] == p[j - i];
    assert j + 1 - i < |p| ==> s[i + (j + 1 - i)] == p[j + 1 - i];
  }

  lemma NotShorter(p: string, q: string)
    requires Braced(p) && Braced(q) && forall k :: 0 <= k < |p| && k < |q| ==> p[k] == q[k]
    ensures |p| >= |q|
  {
  }

  lemma SameStart(s: string, p: string, q: string, i: int)
    requires Braced(p) && Braced(q) && 0 <= i && i + |p| <= |s| && i + |q| <= |s|
    requires (forall k :: 0 <= k < |p| ==> s[i + k] == p[k]) && forall k :: 0 <= k < |q| ==> s[i + k] == q[k]
    ensures p == q
  {
    forall k | 0 <= k < |p| && k < |q| ensures p[k] == q[k] { assert s[i + k] == p[k]; }
    NotShorter(p, q);
    NotShorter(q, p);
    EqualChars(p, q);
  }

  lemma FindSome(s: string, p: string)
    ensures Contains(s, p) <==> Find(s, p).Some?
  {
  }

  /** A pass for one placeholder keeps an occurrence of another. */
  lemma {:induction false} PassKeepsIn(s: string, q: string, texts: Texts, k: nat, p: string)
    requires Braced(p) && Braced(q) && p != q && Contains(s, p)
    ensures Contains(Pass(s, q, texts, k), p)
    decreases |s|
  {
    assert q != "";
    hide Find, Pass, Braced, Contains;
    if Find(s, q).Some? {
      var a, b := KeptOutside(s, q, texts, k, p);
      if Contains(b, p) { PassKeepsIn(b, q, texts, k + 1, p); }
      KeptAround(a, texts(k), Pass(b, q, texts, k + 1), p);
    } else {
      NothingFound(s, q, texts, k);
    }
  }

  lemma NothingFound(s: string, q: string, texts: Texts, k: nat)
    requires q != "" && Find(s, q) == None
    ensures Pass(s, q, texts, k) == s
  {
  }

  /** An occurrence of `p` is in front of the `q` that is replaced, or behind it. */
  lemma KeptOutside(s: string, q: string, texts: Texts, k: nat, p: string) returns (a: string, b: string)
    requires Braced(p) && Braced(q) && p != q && Contains(s, p) && Find(s, q).Some?
    ensures |b| < |s| && Pass(s, q, texts, k) == a + texts(k) + Pass(b, q, texts, k + 1)
    ensures Contains(a, p) || Contains(b, p)
  {
    assert |q| >= 4;
    hide Find, Pass, Braced, OccursAt, Contains;
    var j := Find(s, q).value;
    a, b := s[..j], s[j + |q|..];
    PassUnfolds(s, q, texts, k);
    FoundOccurs(s, q);
    KeptBeside(s, q, j, p);
  }

  lemma KeptBeside(s: string, q: string, j: nat, p: string)
    requires Braced(p) && Braced(q) && p != q && Contains(s, p) && OccursAt(s, q, j) && j + |q| <= |s|
    ensures Contains(s[..j], p) || Contains(s[j + |q|..], p)
  {
    hide Find, Braced, OccursAt, Contains;
    var i := SomeOccurs(s, p);
    Disjoint(s, p, q, i, j);
    if i + |p| <= j { KeptInFront(s, p, i, j); } else { KeptBehind(s, p, i, j + |q|); }
  }

  lemma SomeOccurs(s: string, p: string) returns (i: nat)
    requires Contains(s, p)
    ensures OccursAt(s, p, i)
  {
    hide Find;
    FindIsFirst(s, p);
    i := Find(s, p).value;
  }

  lemma FoundOccurs(s: string, p: string)
    requires Find(s, p).Some?
    ensures OccursAt(s, p, Find(s, p).value)
  {
    hide Find;
    FindIsFirst(s, p);
  }

  lemma KeptAround(a: string, t: string, c: string, p: string)
    requires Contains(a, p) || Contains(c, p)
    ensures Contains(a + t + c, p)
  {
    hide Contains;
    if Contains(a, p) {
      Appended(a, t, p);
      Appended(a + t, c, p);
    } else {
      Prepended(a + t, c, p);
    }
  }

  lemma Appended(a: string, c: string, p: string)
    requires Contains(a, p)
    ensures Contains(a + c, p)
  {
    hide Find;
    FindIsFirst(a, p);
    var i := Find(a, p).value;
    OccursIff(a, p, i);
    OccursIff(a + c, p, i);
    NoneIff(a + c, p);
  }

  lemma KeptInFront(s: string, p: string, i: int, j: nat)
    requires OccursAt(s, p, i) && i + |p| <= j <= |s|
    ensures Contains(s[..j], p)
  {
    hide Find;
    OccursIff(s, p, i);
    OccursIff(s[..j], p, i);
    NoneIff(s[..j], p);
  }

  lemma KeptBehind(s: string, p: string, i: int, j: nat)
    requires OccursAt(s, p, i) && j <= i
    ensures Contains(s[j..], p)
  {
    hide Find;
    OccursIff(s, p, i);
    OccursIff(s[j..], p, i - j);
    NoneIff(s[j..], p);
  }

  lemma Prepended(a: string, c: string, p: string)
    requires Contains(c, p)
    ensures Contains(a + c, p)
  {
    hide Find;
    FindIsFirst(c, p);
    var i := Find(c, p).value;
    OccursIff(c, p, i);
    OccursIff(a + c, p, |a| + i);
    NoneIff(a + c, p);
  }

  // ── a text in which one placeholder, filled in, makes another ─────────────

  /** Too little of `p` in front, `q`, too little of `p` behind. */
  function Framed(p: string, a: nat, q: string, b: nat): string
    requires a < |p| && 0 < b <= |p|
  {
    p[..a] + q + p[b..]
  }

  lemma PartIsNoPlaceholder(p: string, from: nat, to: nat, r: string)
    requires Braced(p) && Braced(r) && from <= to <= |p| && (0 < from || to < |p|)
    ensures !Contains(p[from..to], r)
  {
    hide Find;
    OccursIff(p, p, 0);
    FindIsFirst(p[from..to], r);
    if Contains(p[from..to], r) {
      var i := Find(p[from..to], r).value;
      OccursInPart(p, from, to, r, i);
      Disjoint(p, r, p, from + i, 0);
      assert false;
    }
  }

  /** The only placeholder in it is the one put there. */
  lemma OnlyFramed(p: string, a: nat, q: string, b: nat, r: string, i: int)
    requires Braced(p) && Braced(q) && Braced(r) && a < |p| && 0 < b <= |p|
    ensures OccursAt(Framed(p, a, q, b), r, i) <==> r == q && i == a
  {
    var s := Framed(p, a, q, b);
    assert p[0..a] == p[..a] && p[b..|p|] == p[b..];
    PartIsNoPlaceholder(p, 0, a, r);
    PartIsNoPlaceholder(p, b, |p|, r);
    NoneIff(p[..a], r);
    NoneIff(p[b..], r);
    OccursIff(s, q, a);
    OccursIff(s, r, i);
    OccursIff(p[..a], r, i);
    OccursIff(p[b..], r, i - a - |q|);
    hide OccursAt, Find, Contains;
    if OccursAt(s, r, i) {
      Disjoint(s, r, q, i, a);
    }
  }

  lemma FramedFind(p: string, a: nat, q: string, b: nat, r: string)
    requires Braced(p) && Braced(q) && Braced(r) && a < |p| && 0 < b <= |p|
    ensures Find(Framed(p, a, q, b), r) == if r == q then Some(a) else None
  {
    hide Find, Braced, OccursAt;
    var s := Framed(p, a, q, b);
    FindIsFirst(s, r);
    OnlyFramed(p, a, q, b, r, a);
    if Find(s, r).Some? { OnlyFramed(p, a, q, b, r, Find(s, r).value); }
    hide Framed;
  }

  lemma FramedSlices(p: string, a: nat, q: string, b: nat)
    requires a < |p| && 0 < b <= |p|
    ensures Framed(p, a, q, b)[..a] == p[..a] && Framed(p, a, q, b)[a + |q|..] == p[b..]
  {
  }

  lemma FramedPass(p: string, a: nat, q: string, b: nat, r: string, u: string)
    requires Braced(p) && Braced(q) && Braced(r) && a < |p| && 0 < b <= |p|
    ensures ReplaceAll(Framed(p, a, q, b), r, u) == if r == q then p[..a] + u + p[b..] else Framed(p, a, q, b)
  {
    assert r != "";
    hide Find, Pass, Braced, Framed;
    FramedFind(p, a, q, b, r);
    FramedSlices(p, a, q, b);
    PassUnfolds(Framed(p, a, q, b), r, Constant(u), 0);
    if r == q {
      PartIsNoPlaceholder(p, b, |p|, r);
      assert p[b..|p|] == p[b..];
      PassUnfolds(p[b..], r, Constant(u), 1);
    }
  }

  /** A text that touches `p` completes it between some too little in front and some too little behind. */
  lemma TouchingCompletes(u: string, p: string) returns (a: nat, b: nat)
    requires Braced(p) && Touches(u, p)
    ensures a < |p| && 0 < b <= |p| && Contains(p[..a] + u + p[b..], p)
  {
    FindSome(p, u);
    FindIsFirst(p, u);
    Itself(p);
    assert |p| >= 4;
    hide Find, Contains, Braced, OccursAt;
    if u == "" {
      a, b := 1, 1;
      assert p[..1] + u + p[1..] == p;
    } else if Contains(p, u) {
      a := Find(p, u).value;
      b := a + |u|;
      Filled(p, u, a);
    } else if Contains(u, p) {
      a, b := 0, |p|;
      assert p[..a] + u + p[b..] == u;
    } else if k: nat :| Begins(u, p, k) {
      a, b := 0, k;
      BeginningCompleted(u, p, k);
      Prepended(u[..|u| - k], p, p);
    } else {
      var k: nat :| Finishes(u, p, k);
      a, b := |p| - k, |p|;
      EndCompleted(u, p, k);
      Appended(p, u[k..], p);
    }
  }

  lemma Filled(p: string, u: string, a: nat)
    requires OccursAt(p, u, a)
    ensures p[..a] + u + p[a + |u|..] == p
  {
  }

  lemma BeginningCompleted(u: string, p: string, k: nat)
    requires Begins(u, p, k)
    ensures p[..0] + u + p[k..] == u[..|u| - k] + p
  {
    assert u == u[..|u| - k] + p[..k];
  }

  lemma EndCompleted(u: string, p: string, k: nat)
    requires Finishes(u, p, k)
    ensures p[..|p| - k] + u + p[|p|..] == p + u[k..]
  {
    assert u == p[|p| - k..] + u[k..];
  }

  lemma Itself(p: string)
    ensures Contains(p, p)
  {
  }

  // ── what can be left ──────────────────────────────────────────────────────

  lemma ConstantTouches(u: string, p: string)
    ensures NoneTouch(Constant(u), p) <==> !Touches(u, p)
  {
    hide Touches;
    assert Constant(u)(0) == u;
  }

  /** One pass can leave a placeholder, on some text, exactly when what it puts in touches it. */
  lemma ReplaceAllLeavesIff(p: string, u: string)
    requires Braced(p)
    ensures (exists s :: Contains(ReplaceAll(s, p, u), p)) <==> Touches(u, p)
  {
    assert p != "";
    hide Touches, Find, Pass;
    if Touches(u, p) {
      var a, b := TouchingCompletes(u, p);
      FramedPass(p, a, p, b, p, u);
      assert Contains(ReplaceAll(Framed(p, a, p, b), p, u), p);
    } else {
      ConstantTouches(u, p);
      forall s ensures !Contains(ReplaceAll(s, p, u), p) { PassLeavesNone(s, p, Constant(u), 0, p); }
    }
  }

  lemma AllBraced()
    ensures Braced(USER) && Braced(HOST) && Braced(SRCIP) && Braced(RAND) && Braced(RANDINT) && Braced(DATE)
  {
  }

  /** Names of hosts and users and the like: short, and without a digit. */
  predicate Named(p: string) {
    Braced(p) && |p| < 12 && NoDigit(p) && p != RAND && p != RANDINT && p != DATE
  }

  lemma ThreeNamed()
    ensures Named(USER) && Named(HOST) && Named(SRCIP)
    ensures USER != HOST && USER != SRCIP && HOST != SRCIP
  {
    assert USER[2] == 'u' && HOST[2] == 'h' && SRCIP[2] == 's' && RAND[2] == 'r' && RANDINT[2] == 'r' && DATE[2] == 'd';
  }

  lemma NoBraceTouchesIff(t: string, p: string)
    requires Braced(p) && NoBrace(t)
    ensures Touches(t, p) <==> Contains(p, t)
  {
    hide Find;
    FindIsFirst(t, p);
    if Contains(t, p) {
      HoldsFirst(t, p, Find(t, p).value);
      assert false;
    }
    forall k: nat ensures !Begins(t, p, k) && !Finishes(t, p, k) {
      if Begins(t, p, k) {
        BeginsWith(t, p, k);
        assert false;
      }
      if Finishes(t, p, k) {
        FinishesWith(t, p, k);
        assert false;
      }
    }
  }

  lemma HoldsFirst(u: string, p: string, i: int)
    requires p != "" && OccursAt(u, p, i)
    ensures p[0] in u
  {
    OccursIff(u, p, i);
    assert u[i + 0] == p[0];
  }

  lemma BeginsWith(u: string, p: string, k: nat)
    requires Begins(u, p, k)
    ensures p[0] in u
  {
    assert u[|u| - k] == u[|u| - k..][0];
  }

  lemma FinishesWith(u: string, p: string, k: nat)
    requires Finishes(u, p, k)
    ensures p[|p| - 1] in u
  {
    assert u[k - 1] == u[..k][k - 1] && p[|p| - 1] == p[|p| - k..][k - 1];
  }

  lemma BracesAround(p: string, t: string, i: int)
    requires Braced(p) && NoBrace(t) && t != "" && OccursAt(p, t, i)
    ensures 2 <= i && i + |t| <= |p| - 2
  {
    OccursIff(p, t, i);
    assert p[i + 0] == t[0] && p[i + (|t| - 1)] == t[|t| - 1];
  }

  lemma HexTouchesNone(t: string, p: string)
    requires Named(p) && |t| == 8 && forall i :: 0 <= i < |t| ==> IsHexDigit(t[i])
    ensures !Touches(t, p)
  {
    hide Find;
    NoBraceTouchesIff(t, p);
    FindIsFirst(p, t);
    if Contains(p, t) {
      BracesAround(p, t, Find(p, t).value);
      assert false;
    }
  }

  lemma NumberTouchesNone(t: string, p: string)
    requires Named(p) && AllDigits(t)
    ensures !Touches(t, p)
  {
    hide Find;
    NumberIsInert(t, p);
    NoBraceTouchesIff(t, p);
  }

  lemma DrawsTouchNone(rands: nat -> nat, ints: nat -> nat, days: nat -> nat, p: string)
    requires Named(p)
    ensures NoneTouch(Hexes(rands), p) && NoneTouch(Ints(ints), p) && NoneTouch(Dates(days), p)
  {
    hide Touches, Named, AllDigits;
    AreNumbers(ints);
    AreNumbers(days);
    forall n: nat ensures !Touches(Hexes(rands)(n), p) {
      HexTouchesNone(RandText(rands(n)), p);
    }
    forall n: nat ensures !Touches(Ints(ints)(n), p) && !Touches(Dates(days)(n), p) {
      NumberTouchesNone(Ints(ints)(n), p);
      NumberTouchesNone(Dates(days)(n), p);
    }
  }

  /** The random numbers and the dates neither bring such a placeholder in nor take one away. */
  lemma DrawsDoNotMatter(s: string, rands: nat -> nat, ints: nat -> nat, days: nat -> nat, p: string)
    requires Named(p)
    ensures var t := Pass(Pass(Pass(s, RAND, Hexes(rands), 0), RANDINT, Ints(ints), 0), DATE, Dates(days), 0);
            Contains(t, p) <==> Contains(s, p)
  {
    AllBraced();
    DrawsTouchNone(rands, ints, days, p);
    assert p != "" && Braced(p) && p != RAND && p != RANDINT && p != DATE;
    hide Find, Pass, Named, Braced, NoneTouch, Hexes, Ints, Dates;
    var t1 := Pass(s, RAND, Hexes(rands), 0);
    var t2 := Pass(t1, RANDINT, Ints(ints), 0);
    if Contains(s, p) {
      PassKeepsIn(s, RAND, Hexes(rands), 0, p);
      PassKeepsIn(t1, RANDINT, Ints(ints), 0, p);
      PassKeepsIn(t2, DATE, Dates(days), 0, p);
    } else {
      PassLeavesNone(s, RAND, Hexes(rands), 0, p);
      PassLeavesNone(t1, RANDINT, Ints(ints), 0, p);
      PassLeavesNone(t2, DATE, Dates(days), 0, p);
    }
  }

  lemma LeavesNone(s: string, q: string, u: string, p: string)
    requires Braced(p) && Braced(q) && !Touches(u, p) && (q == p || !Contains(s, p))
    ensures !Contains(ReplaceAll(s, q, u), p)
  {
    assert p != "" && q != "";
    hide Touches, Find, Pass;
    ConstantTouches(u, p);
    PassLeavesNone(s, q, Constant(u), 0, p);
  }

  lemma KeepsIn(s: string, q: string, u: string, p: string)
    requires Braced(p) && Braced(q) && p != q && Contains(s, p)
    ensures Contains(ReplaceAll(s, q, u), p)
  {
    hide Find, Pass;
    PassKeepsIn(s, q, Constant(u), 0, p);
  }

  ghost predicate CanBeLeft(p: string, user: string, host: string, srcIp: string, rands: nat -> nat, ints: nat -> nat, days: nat -> nat) {
    exists s :: Contains(Expanded(s, user, host, srcIp, rands, ints, days), p)
  }

  lemma LeftOver(s: string, user: string, host: string, srcIp: string, rands: nat -> nat, ints: nat -> nat, days: nat -> nat, p: string)
    requires Named(p)
    ensures Contains(Known(s, user, host, srcIp), p) ==> CanBeLeft(p, user, host, srcIp, rands, ints, days)
    ensures Contains(Expanded(s, user, host, srcIp, rands, ints, days), p) <==> Contains(Known(s, user, host, srcIp), p)
  {
    hide Find, Pass, Known, Named, Contains, Hexes, Ints, Dates;
    DrawsDoNotMatter(Known(s, user, host, srcIp), rands, ints, days, p);
    assert Contains(Expanded(s, user, host, srcIp, rands, ints, days), p) <==> Contains(Known(s, user, host, srcIp), p);
    hide Expanded;
  }

  /** The witness: `p` is completed by what replaces `q`, at its own pass or at a later one. */
  lemma CompletedIsLeft(p: string, q: string, u: string, user: string, host: string, srcIp: string) returns (s: string)
    requires Named(p) && Touches(u, p)
    requires (q == USER && u == user && p == USER) || (q == HOST && u == host && p != SRCIP) || (q == SRCIP && u == srcIp)
    requires p in [USER, HOST, SRCIP]
    ensures Contains(Known(s, user, host, srcIp), p)
  {
    AllBraced();
    ThreeNamed();
    hide Find, Pass, Touches, ReplaceAll, Named, Braced;
    var a, b := TouchingCompletes(u, p);
    s := Framed(p, a, q, b);
    FramedPass(p, a, q, b, USER, user);
    FramedPass(p, a, q, b, HOST, host);
    FramedPass(p, a, q, b, SRCIP, srcIp);
    var done := p[..a] + u + p[b..];
    if q == USER {
      KeepsIn(done, HOST, host, p);
      KeepsIn(ReplaceAll(done, HOST, host), SRCIP, srcIp, p);
    } else if q == HOST {
      KeepsIn(done, SRCIP, srcIp, p);
    }
  }

  /**
   * Exactly when a placeholder can be left by the whole expansion: `{{user}}` when the user, the host or the
   * address touches it, `{{host}}` when the host or the address does, `{{srcip}}` when the address does. What an
   * earlier pass makes of a later placeholder is still filled in.
   */
  lemma LeftIff(user: string, host: string, srcIp: string, rands: nat -> nat, ints: nat -> nat, days: nat -> nat)
    ensures CanBeLeft(USER, user, host, srcIp, rands, ints, days) <==> Touches(user, USER) || Touches(host, USER) || Touches(srcIp, USER)
    ensures CanBeLeft(HOST, user, host, srcIp, rands, ints, days) <==> Touches(host, HOST) || Touches(srcIp, HOST)
    ensures CanBeLeft(SRCIP, user, host, srcIp, rands, ints, days) <==> Touches(srcIp, SRCIP)
  {
    UserLeftIff(user, host, srcIp, rands, ints, days);
    HostLeftIff(user, host, srcIp, rands, ints, days);
    AddressLeftIff(user, host, srcIp, rands, ints, days);
  }

  lemma UserLeftIff(user: string, host: string, srcIp: string, rands: nat -> nat, ints: nat -> nat, days: nat -> nat)
    ensures CanBeLeft(USER, user, host, srcIp, rands, ints, days) <==> Touches(user, USER) || Touches(host, USER) || Touches(srcIp, USER)
  {
    AllBraced();
    ThreeNamed();
    hide Touches, Find, Pass, ReplaceAll, Named, Braced, Expanded;
    if Touches(user, USER) || Touches(host, USER) || Touches(srcIp, USER) {
      var s;
      if Touches(user, USER) {
        s := CompletedIsLeft(USER, USER, user, user, host, srcIp);
      } else if Touches(host, USER) {
        s := CompletedIsLeft(USER, HOST, host, user, host, srcIp);
      } else {
        s := CompletedIsLeft(USER, SRCIP, srcIp, user, host, srcIp);
      }
      LeftOver(s, user, host, srcIp, rands, ints, days, USER);
    } else {
      forall s ensures !Contains(Expanded(s, user, host, srcIp, rands, ints, days), USER) {
        LeavesNone(s, USER, user, USER);
        LeavesNone(ReplaceAll(s, USER, user), HOST, host, USER);
        LeavesNone(ReplaceAll(ReplaceAll(s, USER, user), HOST, host), SRCIP, srcIp, USER);
        LeftOver(s, user, host, srcIp, rands, ints, days, USER);
      }
    }
  }

  lemma HostLeftIff(user: string, host: string, srcIp: string, rands: nat -> nat, ints: nat -> nat, days: nat -> nat)
    ensures CanBeLeft(HOST, user, host, srcIp, rands, ints, days) <==> Touches(host, HOST) || Touches(srcIp, HOST)
  {
    AllBraced();
    ThreeNamed();
    hide Touches, Find, Pass, ReplaceAll, Named, Braced, Expanded;
    if Touches(host, HOST) || Touches(srcIp, HOST) {
      var s;
      if Touches(host, HOST) {
        s := CompletedIsLeft(HOST, HOST, host, user, host, srcIp);
      } else {
        s := CompletedIsLeft(HOST, SRCIP, srcIp, user, host, srcIp);
      }
      LeftOver(s, user, host, srcIp, rands, ints, days, HOST);
    } else {
      forall s ensures !Contains(Expanded(s, user, host, srcIp, rands, ints, days), HOST) {
        LeavesNone(ReplaceAll(s, USER, user), HOST, host, HOST);
        LeavesNone(ReplaceAll(ReplaceAll(s, USER, user), HOST, host), SRCIP, srcIp, HOST);
        LeftOver(s, user, host, srcIp, rands, ints, days, HOST);
      }
    }
  }

  lemma AddressLeftIff(user: string, host: string, srcIp: string, rands: nat -> nat, ints: nat -> nat, days: nat -> nat)
    ensures CanBeLeft(SRCIP, user, host, srcIp, rands, ints, days) <==> Touches(srcIp, SRCIP)
  {
    AllBraced();
    ThreeNamed();
    hide Touches, Find, Pass, ReplaceAll, Named, Braced, Expanded;
    if Touches(srcIp, SRCIP) {
      var s := CompletedIsLeft(SRCIP, SRCIP, srcIp, user, host, srcIp);
      LeftOver(s, user, host, srcIp, rands, ints, days, SRCIP);
    } else {
      forall s ensures !Contains(Expanded(s, user, host, srcIp, rands, ints, days), SRCIP) {
        LeavesNone(ReplaceAll(ReplaceAll(s, USER, user), HOST, host), SRCIP, srcIp, SRCIP);
        LeftOver(s, user, host, srcIp, rands, ints, days, SRCIP);
      }
    }
  }
}
