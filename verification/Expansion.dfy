// The placeholders of a profile (agent/cmd/fleet-sim/generate.go, expand). The random
// source and the clock are functions from the number of the draw to what is drawn.
module Expansion {
  import opened Common
  import opened Decimal

  const OPEN := "{{"
  const USER := "{{user}}"
  const HOST := "{{host}}"
  const SRCIP := "{{srcip}}"
  const RAND := "{{rand}}"
  const RANDINT := "{{randint}}"
  const DATE := "{{date}}"

  type Texts = nat -> string

  /** `s` with every occurrence of `pat`, from left to right, replaced by the texts from the `k`-th on. */
  function Pass(s: string, pat: string, texts: Texts, k: nat): string
    requires pat != ""
    decreases |s|
  {
    match Find(s, pat)
    case None => s
    case Some(i) => s[..i] + texts(k) + Pass(s[i + |pat|..], pat, texts, k + 1)
  }

  function Constant(text: string): Texts {
    (k: nat) => text
  }

  /** Go's `strings.ReplaceAll`. */
  function ReplaceAll(s: string, pat: string, sub: string): string
    requires pat != ""
  {
    Pass(s, pat, Constant(sub), 0)
  }

  function HexDigit(n: nat): char
    requires n < 16
  {
    if n < 10 then '0' + n as char else 'a' + (n - 10) as char
  }

  predicate IsHexDigit(c: char) {
    '0' <= c <= '9' || 'a' <= c <= 'f'
  }

  /** `n` in `width` hexadecimal digits. */
  function Hex(n: nat, width: nat): (s: string)
    ensures |s| == width && forall i :: 0 <= i < |s| ==> IsHexDigit(s[i])
  {
    if width == 0 then "" else Hex(n / 16, width - 1) + [HexDigit(n % 16)]
  }

  /** `%08x` of a random 32-bit number. */
  function RandText(n: nat): (s: string)
    ensures |s| == 8 && forall i :: 0 <= i < |s| ==> IsHexDigit(s[i])
  {
    Hex(n % 0x1_0000_0000, 8)
  }

  /** `%d` of a random number from 1 to 99999. */
  function IntText(n: nat): (s: string)
    ensures AllDigits(s)
  {
    Dec(n % 99999 + 1)
  }

  function Hexes(rands: nat -> nat): Texts {
    (k: nat) => RandText(rands(k))
  }

  function Ints(rands: nat -> nat): Texts {
    (k: nat) => IntText(rands(k))
  }

  function Dates(days: nat -> nat): Texts {
    (k: nat) => Dec(days(k))
  }

  // ── texts that cannot make a placeholder ──────────────────────────────────

  predicate Placeholder(pat: string) {
    |pat| >= 4 && pat[0] == '{' && pat[1] == '{' && pat[|pat| - 1] == '}'
  }

  predicate NoBrace(s: string) {
    '{' !in s && '}' !in s
  }

  /** Put anywhere, `sub` is no part of an occurrence of `pat`. */
  predicate Inert(sub: string, pat: string) {
    NoBrace(sub) && !Contains(pat, sub)
  }

  lemma OccursInPart(s: string, from: nat, to: nat, pat: string, i: int)
    requires from <= to <= |s| && OccursAt(s[from..to], pat, i)
    ensures OccursAt(s, pat, from + i)
  {
    SliceOfSlice(s, from, to, from + i, from + i + |pat|);
  }

  lemma PartHasNone(s: string, from: nat, to: nat, pat: string)
    requires from <= to <= |s| && !Contains(s, pat)
    ensures !Contains(s[from..to], pat)
  {
    FindIsFirst(s, pat);
    FindIsFirst(s[from..to], pat);
    if Contains(s[from..to], pat) {
      OccursInPart(s, from, to, pat, Find(s[from..to], pat).value);
      assert false;
    }
  }

  lemma OccursChar(s: string, pat: string, i: int, k: nat)
    requires OccursAt(s, pat, i) && k < |pat|
    ensures s[i + k] == pat[k]
  {
    assert s[i..i + |pat|][k] == s[i + k];
  }

  lemma SliceOfSlice(s: string, i: nat, e: nat, a: nat, b: nat)
    requires i <= a <= b <= e <= |s|
    ensures s[i..e][a - i..b - i] == s[a..b]
  {
    var t := s[i..e];
    var x, y := t[a - i..b - i], s[a..b];
    assert forall k :: 0 <= k < b - a ==> x[k] == t[a - i + k] && y[k] == s[a + k];
  }

  lemma OccurrenceAvoids(a: string, sub: string, b: string, pat: string, i: int)
    requires Placeholder(pat) && Inert(sub, pat) && OccursAt(a + sub + b, pat, i)
    ensures OccursAt(a, pat, i) || (i >= |a| + |sub| && OccursAt(b, pat, i - |a| - |sub|))
  {
    hide Contains;
    var s, n, e := a + sub + b, |a| + |sub|, i + |pat|;
    OccursChar(s, pat, i, 0);
    OccursChar(s, pat, i, |pat| - 1);
    assert forall p :: |a| <= p < n ==> s[p] == sub[p - |a|];
    assert forall p :: |a| <= p < n ==> s[p] != '{' && s[p] != '}';
    if e <= |a| {
      assert a[i..e] == s[i..e];
    } else if i >= n {
      assert b[i - n..e - n] == s[i..e];
    } else {
      assert i < |a| && e > n;
      var j := |a| - i;
      assert s[|a|..n] == sub;
      SliceOfSlice(s, i, e, |a|, n);
      assert OccursAt(pat, sub, j);
      FindIsFirst(pat, sub);
      assert false;
    }
  }

  lemma NoneAround(a: string, sub: string, b: string, pat: string)
    requires Placeholder(pat) && Inert(sub, pat) && !Contains(a, pat) && !Contains(b, pat)
    ensures !Contains(a + sub + b, pat)
  {
    hide Inert, Find;
    FindIsFirst(a, pat);
    FindIsFirst(b, pat);
    FindIsFirst(a + sub + b, pat);
    if Contains(a + sub + b, pat) {
      OccurrenceAvoids(a, sub, b, pat, Find(a + sub + b, pat).value);
      assert false;
    }
  }

  lemma PartsHaveNone(s: string, i: nat, n: nat, pat: string)
    requires i + n <= |s| && !Contains(s, pat)
    ensures !Contains(s[..i], pat) && !Contains(s[i + n..], pat)
  {
    hide Contains;
    PartHasNone(s, 0, i, pat);
    PartHasNone(s, i + n, |s|, pat);
    assert s[0..i] == s[..i] && s[i + n..|s|] == s[i + n..];
  }

  lemma {:induction false} PassKeepsOut(s: string, pat: string, texts: Texts, k: nat, q: string)
    requires Placeholder(pat) && Placeholder(q) && AllInert(texts, q)
    requires !Contains(s, q)
    ensures !Contains(Pass(s, pat, texts, k), q)
    decreases |s|
  {
    assert pat != "" && Inert(texts(k), q);
    hide Inert, AllInert, Contains, Find, Pass, Placeholder;
    PassUnfolds(s, pat, texts, k);
    if Find(s, pat).Some? {
      var i := Find(s, pat).value;
      PartsHaveNone(s, i, |pat|, q);
      PassKeepsOut(s[i + |pat|..], pat, texts, k + 1, q);
      NoneAround(s[..i], texts(k), Pass(s[i + |pat|..], pat, texts, k + 1), q);
    }
  }

  /**
   * A loop of `expand`: replace the first occurrence until there is none. It ends, and amounts to one
   * pass from left to right, although what is put in may be as long as what is taken out.
   */
  method ReplaceWhileFound(s0: string, pat: string, texts: Texts) returns (s: string)
    requires Placeholder(pat) && AllInert(texts, pat)
    ensures s == Pass(s0, pat, texts, 0) && !Contains(s, pat)
  {
    assert pat != "";
    hide Inert, AllInert, ReplaceFirst, Find, Contains, Placeholder, Pass, Underway;
    s := s0;
    ghost var done, rest := "", s0;
    var k: nat := 0;
    UnderwayAtStart(s0, pat, texts);
    while Contains(s, pat)
      invariant Underway(s0, s, done, rest, pat, texts, k)
      decreases |rest|
    {
      done, rest := StepIsUnderway(s0, s, done, rest, pat, texts, k);
      s := ReplaceFirst(s, pat, texts(k));
      k := k + 1;
    }
    UnderwayAtEnd(s0, s, done, rest, pat, texts, k);
  }

  /** The loop has got as far as `rest`, with `k` texts used up. */
  ghost predicate Underway(s0: string, s: string, done: string, rest: string, pat: string, texts: Texts, k: nat) {
    pat != "" && s == done + rest && Clear(done, pat, rest) && Pass(s0, pat, texts, 0) == done + Pass(rest, pat, texts, k)
  }

  lemma UnderwayAtStart(s0: string, pat: string, texts: Texts)
    requires pat != ""
    ensures Underway(s0, s0, "", s0, pat, texts, 0)
  {
    ClearAtStart(s0, pat);
    hide Pass, Clear;
  }

  lemma StepIsUnderway(s0: string, s: string, done: string, rest: string, pat: string, texts: Texts, k: nat)
      returns (further: string, left: string)
    requires Underway(s0, s, done, rest, pat, texts, k) && Contains(s, pat) && Placeholder(pat) && AllInert(texts, pat)
    ensures |left| < |rest| && Underway(s0, ReplaceFirst(s, pat, texts(k)), further, left, pat, texts, k + 1)
  {
    hide Inert, ReplaceFirst, Find, Pass, Clear;
    ReplaceInRest(done, rest, pat, texts(k));
    PassUnfolds(rest, pat, texts, k);
    var i := Find(rest, pat).value;
    further, left := done + rest[..i] + texts(k), rest[i + |pat|..];
    Associates(done, rest[..i], texts(k), Pass(left, pat, texts, k + 1));
  }

  lemma UnderwayAtEnd(s0: string, s: string, done: string, rest: string, pat: string, texts: Texts, k: nat)
    requires Underway(s0, s, done, rest, pat, texts, k) && !Contains(s, pat)
    ensures s == Pass(s0, pat, texts, 0)
  {
    hide Find, Pass, Clear;
    ContainedInRest(done, rest, pat);
    PassUnfolds(rest, pat, texts, k);
  }

  lemma PassUnfolds(s: string, pat: string, texts: Texts, k: nat)
    requires pat != ""
    ensures match Find(s, pat)
            case None => Pass(s, pat, texts, k) == s
            case Some(i) => Pass(s, pat, texts, k) == s[..i] + texts(k) + Pass(s[i + |pat|..], pat, texts, k + 1)
  {
    hide Find;
  }

  /** No occurrence in `done + rest` begins in `done`. */
  ghost predicate Clear(done: string, pat: string, rest: string) {
    forall i :: OccursAt(done + rest, pat, i) ==> i >= |done|
  }

  lemma ClearAtStart(s: string, pat: string)
    ensures Clear("", pat, s) && "" + s == s
  {
  }

  lemma ContainedInRest(done: string, rest: string, pat: string)
    requires Clear(done, pat, rest)
    ensures Contains(done + rest, pat) <==> Contains(rest, pat)
    ensures Contains(rest, pat) ==> Find(done + rest, pat) == Some(|done| + Find(rest, pat).value)
  {
    hide Find, OccursAt;
    OccursWithDone(done, rest, pat);
    FindIsFirst(done + rest, pat);
    FindIsFirst(rest, pat);
    if Find(done + rest, pat).Some? {
      assert OccursAt(rest, pat, Find(done + rest, pat).value - |done|);
    }
    if Find(rest, pat).Some? {
      assert OccursAt(done + rest, pat, |done| + Find(rest, pat).value);
    }
  }

  lemma OccursWithDone(done: string, rest: string, pat: string)
    requires Clear(done, pat, rest)
    ensures forall i :: OccursAt(rest, pat, i) ==> OccursAt(done + rest, pat, |done| + i)
    ensures forall i :: OccursAt(done + rest, pat, i) ==> i >= |done| && OccursAt(rest, pat, i - |done|)
  {
    hide OccursAt;
    assert (done + rest)[|done|..|done + rest|] == rest;
    forall i | OccursAt(rest, pat, i) ensures OccursAt(done + rest, pat, |done| + i) {
      OccursInPart(done + rest, |done|, |done + rest|, pat, i);
    }
    forall i | OccursAt(done + rest, pat, i) ensures i >= |done| && OccursAt(rest, pat, i - |done|) {
      OccursInRest(done, rest, pat, i);
    }
  }

  lemma OccursInRest(done: string, rest: string, pat: string, i: int)
    requires OccursAt(done + rest, pat, i) && i >= |done|
    ensures OccursAt(rest, pat, i - |done|)
  {
    assert rest[i - |done|..i - |done| + |pat|] == (done + rest)[i..i + |pat|];
  }

  lemma SlicesOfJoin(done: string, rest: string, i: nat, n: nat)
    requires i + n <= |rest|
    ensures (done + rest)[..|done| + i] == done + rest[..i]
    ensures (done + rest)[|done| + i + n..] == rest[i + n..]
  {
  }

  lemma ReplaceInRest(done: string, rest: string, pat: string, sub: string)
    requires Placeholder(pat) && Inert(sub, pat) && Clear(done, pat, rest) && Contains(done + rest, pat)
    ensures Find(rest, pat).Some?
    ensures var i := Find(rest, pat).value;
            ReplaceFirst(done + rest, pat, sub) == done + rest[..i] + sub + rest[i + |pat|..]
            && Clear(done + rest[..i] + sub, pat, rest[i + |pat|..])
  {
    hide Inert, Find, Clear, OccursAt, Placeholder;
    ContainedInRest(done, rest, pat);
    var i, s := Find(rest, pat).value, done + rest;
    SlicesOfJoin(done, rest, i, |pat|);
    FindIsFirst(s, pat);
    ClearAfter(s, |done| + i, pat, sub, rest[i + |pat|..]);
  }

  lemma ClearAfter(s: string, i: nat, pat: string, sub: string, b: string)
    requires Placeholder(pat) && Inert(sub, pat) && i <= |s| && forall j :: OccursAt(s, pat, j) ==> i <= j
    ensures Clear(s[..i] + sub, pat, b)
  {
    hide Inert, OccursAt;
    assert s[0..i] == s[..i];
    forall j | OccursAt(s[..i] + sub + b, pat, j) ensures j >= i + |sub| {
      OccurrenceAvoids(s[..i], sub, b, pat, j);
      if OccursAt(s[..i], pat, j) {
        OccursInPart(s, 0, i, pat, j);
        FitsIn(s[..i], pat, j);
        assert false;
      }
    }
  }

  lemma FitsIn(s: string, pat: string, j: int)
    requires OccursAt(s, pat, j)
    ensures 0 <= j <= j + |pat| <= |s|
  {
  }

  lemma NumberIsInert(s: string, pat: string)
    requires AllDigits(s) && NoDigit(pat)
    ensures Inert(s, pat)
  {
    FindIsFirst(pat, s);
    if Contains(pat, s) {
      OccursChar(pat, s, Find(pat, s).value, 0);
      assert false;
    }
  }

  lemma HexIsInert(s: string)
    requires |s| == 8 && forall i :: 0 <= i < |s| ==> IsHexDigit(s[i])
    ensures Inert(s, RAND)
  {
    FindIsFirst(RAND, s);
    if Contains(RAND, s) {
      assert Find(RAND, s) == Some(0);
      OccursChar(RAND, s, 0, 0);
      assert false;
    }
  }

  // ── expand ────────────────────────────────────────────────────────────────

  function Known(s: string, user: string, host: string, srcIp: string): string {
    ReplaceAll(ReplaceAll(ReplaceAll(s, USER, user), HOST, host), SRCIP, srcIp)
  }

  function Expanded(s: string, user: string, host: string, srcIp: string, rands: nat -> nat, ints: nat -> nat, days: nat -> nat): string {
    Pass(Pass(Pass(Known(s, user, host, srcIp), RAND, Hexes(rands), 0), RANDINT, Ints(ints), 0), DATE, Dates(days), 0)
  }

  lemma OpenThere(s: string, pat: string, i: int)
    requires Placeholder(pat) && OccursAt(s, pat, i)
    ensures OccursAt(s, OPEN, i)
  {
    OccursChar(s, pat, i, 0);
    OccursChar(s, pat, i, 1);
    assert s[i..i + 2] == OPEN;
  }

  lemma NoOpenNoChange(s: string, pat: string, texts: Texts)
    requires Placeholder(pat) && !Contains(s, OPEN)
    ensures Pass(s, pat, texts, 0) == s && !Contains(s, pat)
  {
    hide Find;
    FindIsFirst(s, OPEN);
    FindIsFirst(s, pat);
    if Contains(s, pat) {
      var i := Find(s, pat).value;
      OpenThere(s, pat, i);
      assert false;
    }
  }

  ghost predicate AllInert(texts: Texts, pat: string) {
    forall n: nat :: Inert(texts(n), pat)
  }

  lemma HexesAreInert(rands: nat -> nat)
    ensures AllInert(Hexes(rands), RAND)
  {
    hide Inert;
    forall n: nat ensures Inert(Hexes(rands)(n), RAND) {
      HexIsInert(RandText(rands(n)));
    }
  }

  lemma NumbersAreInert(texts: Texts, pat: string)
    requires (forall n: nat :: AllDigits(texts(n))) && NoDigit(pat)
    ensures AllInert(texts, pat)
  {
    hide Inert, AllDigits;
    forall n: nat ensures Inert(texts(n), pat) { NumberIsInert(texts(n), pat); }
  }

  lemma PlaceholdersHaveNoDigit()
    ensures Placeholder(RAND) && Placeholder(RANDINT) && Placeholder(DATE)
    ensures NoDigit(RAND) && NoDigit(RANDINT) && NoDigit(DATE)
  {
  }

  lemma NumbersAreSafe(texts: Texts)
    requires forall n: nat :: AllDigits(texts(n))
    ensures AllInert(texts, RAND) && AllInert(texts, RANDINT) && AllInert(texts, DATE)
  {
    hide AllInert, NoDigit, AllDigits;
    PlaceholdersHaveNoDigit();
    NumbersAreInert(texts, RAND);
    NumbersAreInert(texts, RANDINT);
    NumbersAreInert(texts, DATE);
  }

  lemma AreNumbers(ns: nat -> nat)
    ensures forall n: nat :: AllDigits(Ints(ns)(n)) && AllDigits(Dates(ns)(n))
  {
    forall n: nat ensures AllDigits(Ints(ns)(n)) && AllDigits(Dates(ns)(n)) {
      assert Ints(ns)(n) == IntText(ns(n)) && Dates(ns)(n) == Dec(ns(n));
    }
  }

  /** `expand`: no random number and no date is left to fill in. */
  method Expand(s0: string, user: string, host: string, srcIp: string, rands: nat -> nat, ints: nat -> nat, days: nat -> nat) returns (s: string)
    ensures s == Expanded(s0, user, host, srcIp, rands, ints, days)
    ensures !Contains(s, RAND) && !Contains(s, RANDINT) && !Contains(s, DATE)
  {
    hide Inert, AllInert, Pass, Contains, ReplaceAll, Find, NoDigit, AllDigits, Placeholder;
    if !Contains(s0, OPEN) {
      NothingToExpand(s0, user, host, srcIp, rands, ints, days);
      return s0;
    }
    PlaceholdersHaveNoDigit();
    HexesAreInert(rands);
    AreNumbers(ints);
    AreNumbers(days);
    NumbersAreSafe(Ints(ints));
    NumbersAreSafe(Dates(days));
    hide Hexes, Ints, Dates;
    s := ReplaceAll(s0, USER, user);
    s := ReplaceAll(s, HOST, host);
    s := ReplaceAll(s, SRCIP, srcIp);
    s := ReplaceWhileFound(s, RAND, Hexes(rands));
    PassKeepsOut(s, RANDINT, Ints(ints), 0, RAND);
    s := ReplaceWhileFound(s, RANDINT, Ints(ints));
    PassKeepsOut(s, DATE, Dates(days), 0, RAND);
    PassKeepsOut(s, DATE, Dates(days), 0, RANDINT);
    s := ReplaceWhileFound(s, DATE, Dates(days));
  }

  lemma NothingToExpand(s: string, user: string, host: string, srcIp: string, rands: nat -> nat, ints: nat -> nat, days: nat -> nat)
    requires !Contains(s, OPEN)
    ensures Expanded(s, user, host, srcIp, rands, ints, days) == s
    ensures !Contains(s, RAND) && !Contains(s, RANDINT) && !Contains(s, DATE)
  {
    hide Pass, Contains, Hexes, Ints, Dates;
    NoOpenNoChange(s, USER, Constant(user));
    NoOpenNoChange(s, HOST, Constant(host));
    NoOpenNoChange(s, SRCIP, Constant(srcIp));
    NoOpenNoChange(s, RAND, Hexes(rands));
    NoOpenNoChange(s, RANDINT, Ints(ints));
    NoOpenNoChange(s, DATE, Dates(days));
  }
}
