// The total line of the hand-over document: the pattern TOTAL_LINE of
// scripts/handover_timeouts.py, searched for and substituted. Each run of digits in the
// pattern is followed by a space, so taking digits greedily is what the regular
// expression does.
module TotalLine {
  import opened Common
  import opened Decimal
  import opened PythonText

  datatype Token = Lit(text: string) | Digits

  const TOTAL: seq<Token> :=
    [Lit("job "), Digits, Lit(" + step "), Digits, Lit(" ＝ "), Digits, Lit(" 件")]

  /** The number of digits `s` starts with. */
  function DigitRun(s: string): (n: nat)
    ensures n <= |s|
  {
    if s != "" && IsDecimal(s[0]) then 1 + DigitRun(s[1..]) else 0
  }

  /** How much of the front of `s` one token matches. */
  function Step(t: Token, s: string): (r: Option<nat>)
    ensures r.Some? ==> r.value <= |s|
  {
    match t
    case Lit(l) => if l <= s then Some(|l|) else None
    case Digits => if DigitRun(s) > 0 then Some(DigitRun(s)) else None
  }

  function Match(ts: seq<Token>, s: string): (r: Option<nat>)
    ensures r.Some? ==> r.value <= |s|
  {
    if ts == [] then Some(0)
    else
      match Step(ts[0], s)
      case None => None
      case Some(k) =>
        match Match(ts[1..], s[k..])
        case None => None
        case Some(n) => Some(k + n)
  }

  function MatchAt(s: string): (r: Option<nat>)
    ensures r.Some? ==> 0 < r.value <= |s| && s[0] == 'j'
  {
    Match(TOTAL, s)
  }

  /** The first match in `s`. */
  function Search(s: string): Option<string> {
    if s == "" then None
    else
      match MatchAt(s)
      case Some(n) => Some(s[..n])
      case None => Search(s[1..])
  }

  /** `s` with every match replaced. */
  function Sub(s: string, r: string): string {
    if s == "" then ""
    else
      match MatchAt(s)
      case Some(n) => r + Sub(s[n..], r)
      case None => [s[0]] + Sub(s[1..], r)
  }

  // ── numbers in the text ───────────────────────────────────────────────────

  lemma {:induction false} DigitRunOf(d: string, t: string)
    requires forall i :: 0 <= i < |d| ==> IsDecimal(d[i])
    requires t == "" || !IsDecimal(t[0])
    ensures DigitRun(d + t) == |d|
  {
    if d == "" {
      assert d + t == t;
    } else {
      assert (d + t)[1..] == d[1..] + t;
      DigitRunOf(d[1..], t);
    }
  }

  lemma {:induction false} DigitRunIsDigits(s: string)
    ensures forall i :: 0 <= i < DigitRun(s) ==> IsDecimal(s[i])
    ensures DigitRun(s) < |s| ==> !IsDecimal(s[DigitRun(s)])
  {
    if s != "" && IsDecimal(s[0]) {
      DigitRunIsDigits(s[1..]);
      assert forall i :: 1 <= i < |s| ==> s[i] == s[1..][i - 1];
    }
  }

  /** `re.findall(r'\d+', s)`, read as numbers. */
  function Numbers(s: string): seq<nat>
    decreases |s|
  {
    if s == "" then []
    else
      var k := DigitRun(s);
      if k == 0 then Numbers(s[1..])
      else
        DigitRunIsDigits(s);
        [IntOf(s[..k])] + Numbers(s[k..])
  }

  /** Some number in `s` has more digits than `int` takes. */
  predicate HasLong(s: string)
    decreases |s|
  {
    s != "" &&
    var k := DigitRun(s);
    if k == 0 then HasLong(s[1..]) else k > LIMIT || HasLong(s[k..])
  }

  /** The line as it is written. */
  function Total(jobs: nat, steps: nat): (s: string)
    ensures s != "" && s[0] == 'j'
  {
    "job " + (Dec(jobs) + (" + step " + (Dec(steps) + (" ＝ " + (Dec(jobs + steps) + " 件")))))
  }

  lemma MatchLit(ts: seq<Token>, l: string, t: string)
    ensures Match([Lit(l)] + ts, l + t) == match Match(ts, t) case None => None case Some(n) => Some(|l| + n)
  {
    assert ([Lit(l)] + ts)[1..] == ts;
    assert (l + t)[|l|..] == t;
  }

  lemma MatchNothing(s: string)
    ensures Match([], s) == Some(0)
  {
  }

  /** What the pattern matches: three numbers of one digit or more between its words. */
  ghost predicate IsTotal(s: string) {
    exists a, b, c :: AllDecimal(a) && AllDecimal(b) && AllDecimal(c) && s == TotalOf(a, b, c)
  }

  function TotalOf(a: string, b: string, c: string): string {
    "job " + (a + (" + step " + (b + (" ＝ " + (c + " 件")))))
  }

  lemma RunStep(d: string, t: string)
    requires AllDecimal(d) && (t == "" || !IsDecimal(t[0]))
    ensures Step(Digits, d + t) == Some(|d|)
  {
    hide IsDecimal;
    DigitRunOf(d, t);
  }

  lemma MatchRun(ts: seq<Token>, d: string, t: string)
    requires AllDecimal(d) && (t == "" || !IsDecimal(t[0]))
    ensures Match([Digits] + ts, d + t) == match Match(ts, t) case None => None case Some(k) => Some(|d| + k)
  {
    hide Match, Step, AllDecimal, DigitRun;
    RunStep(d, t);
    assert ([Digits] + ts)[1..] == ts && ([Digits] + ts)[0] == Digits;
    assert (d + t)[|d|..] == t;
    MatchUnfolds([Digits] + ts, d + t);
  }

  lemma TotalOfMatches(a: string, b: string, c: string, rest: string)
    requires AllDecimal(a) && AllDecimal(b) && AllDecimal(c)
    ensures MatchAt(TotalOf(a, b, c) + rest) == Some(|TotalOf(a, b, c)|)
  {
    hide Match, AllDecimal;
    var t0 := " 件" + rest;
    var t1 := " ＝ " + (c + t0);
    var t2 := " + step " + (b + t1);
    var t3 := "job " + (a + t2);
    assert TotalOf(a, b, c) + rest == t3;
    var p0 := [Lit(" 件")] + [];
    var p1 := [Lit(" ＝ ")] + ([Digits] + p0);
    var p2 := [Lit(" + step ")] + ([Digits] + p1);
    assert [Lit("job ")] + ([Digits] + p2) == TOTAL;
    assert Match([], rest) == Some(0) by { MatchNothing(rest); }
    MatchLit([], " 件", rest);
    MatchRun(p0, c, t0);
    MatchLit([Digits] + p0, " ＝ ", c + t0);
    MatchRun(p1, b, t1);
    MatchLit([Digits] + p1, " + step ", b + t1);
    MatchRun(p2, a, t2);
    MatchLit([Digits] + p2, "job ", a + t2);
  }

  /** The written line is matched, whole, wherever it stands. */
  lemma TotalMatches(jobs: nat, steps: nat, rest: string)
    ensures MatchAt(Total(jobs, steps) + rest) == Some(|Total(jobs, steps)|)
  {
    hide Dec;
    TotalOfMatches(Dec(jobs), Dec(steps), Dec(jobs + steps), rest);
  }

  lemma LitTaken(ts: seq<Token>, l: string, s: string) returns (t: string)
    requires ts != [] && ts[0] == Lit(l) && Match(ts, s).Some?
    ensures s == l + t && Match(ts[1..], t) == Some(Match(ts, s).value - |l|)
  {
    t := s[|l|..];
    assert s == s[..|l|] + t;
  }

  lemma DigitsTaken(ts: seq<Token>, s: string) returns (d: string, t: string)
    requires ts != [] && ts[0] == Digits && Match(ts, s).Some?
    ensures s == d + t && AllDecimal(d) && Match(ts[1..], t) == Some(Match(ts, s).value - |d|)
  {
    var k := DigitRun(s);
    DigitRunIsDigits(s);
    d, t := s[..k], s[k..];
  }

  /** The pattern matches the front of a text exactly where it begins with such a line. */
  lemma MatchAtIff(s: string)
    ensures MatchAt(s).Some? <==> exists n :: 0 <= n <= |s| && IsTotal(s[..n])
    ensures forall n :: 0 <= n <= |s| && IsTotal(s[..n]) ==> MatchAt(s) == Some(n)
  {
    forall n | 0 <= n <= |s| && IsTotal(s[..n]) ensures MatchAt(s) == Some(n) {
      var a, b, c :| AllDecimal(a) && AllDecimal(b) && AllDecimal(c) && s[..n] == TotalOf(a, b, c);
      hide AllDecimal, Match, TotalOf;
      TotalOfMatches(a, b, c, s[n..]);
      assert s == s[..n] + s[n..];
    }
    if MatchAt(s).Some? {
      hide IsTotal;
      var n := MatchedIsTotal(s);
    }
  }

  lemma MatchedIsTotal(s: string) returns (n: nat)
    requires MatchAt(s).Some?
    ensures n <= |s| && IsTotal(s[..n])
  {
    hide Match, AllDecimal;
    var t1 := LitTaken(TOTAL, "job ", s);
    var a, t2 := DigitsTaken(TOTAL[1..], t1);
    var t3 := LitTaken(TOTAL[1..][1..], " + step ", t2);
    var b, t4 := DigitsTaken(TOTAL[1..][1..][1..], t3);
    var t5 := LitTaken(TOTAL[1..][1..][1..][1..], " ＝ ", t4);
    var c, t6 := DigitsTaken(TOTAL[1..][1..][1..][1..][1..], t5);
    var t7 := LitTaken(TOTAL[1..][1..][1..][1..][1..][1..], " 件", t6);
    n := |TotalOf(a, b, c)|;
    FrontIs(s, TotalOf(a, b, c), t7) by {
      assert s == "job " + (a + (" + step " + (b + (" ＝ " + (c + (" 件" + t7))))));
      assert s == TotalOf(a, b, c) + t7;
    }
  }

  lemma FrontIs(s: string, f: string, t: string)
    requires s == f + t
    ensures |f| <= |s| && s[..|f|] == f
  {
  }

  lemma {:induction false} NumbersSkip(l: string, t: string)
    requires NoDecimal(l)
    ensures Numbers(l + t) == Numbers(t)
  {
    if l == "" {
      assert l + t == t;
    } else {
      assert (l + t)[1..] == l[1..] + t;
      NumbersSkip(l[1..], t);
    }
  }

  lemma NumbersTake(l: string, n: nat, t: string)
    requires NoDecimal(l) && t != "" && !IsDecimal(t[0])
    ensures Numbers(l + (Dec(n) + t)) == [n] + Numbers(t)
  {
    var d := Dec(n);
    NumbersSkip(l, d + t);
    DigitRunOf(d, t);
    IntOfDec(n);
    assert (d + t)[..|d|] == d && (d + t)[|d|..] == t;
  }

  lemma NoneBetween()
    ensures NoDecimal("job ") && NoDecimal(" + step ") && NoDecimal(" ＝ ") && NoDecimal(" 件")
  {
  }

  lemma TotalNumbers(jobs: nat, steps: nat)
    ensures Numbers(Total(jobs, steps)) == [jobs, steps, jobs + steps]
  {
    NoneBetween();
    var t0 := " 件";
    assert t0 + "" == t0 && Numbers("") == [];
    hide Numbers, Dec, NoDecimal;
    var t1 := " ＝ " + (Dec(jobs + steps) + t0);
    var t2 := " + step " + (Dec(steps) + t1);
    NumbersTake("job ", jobs, t2);
    NumbersTake(" + step ", steps, t1);
    NumbersTake(" ＝ ", jobs + steps, t0);
    NumbersSkip(t0, "");
  }

  lemma {:induction false} LongSkip(l: string, t: string)
    requires NoDecimal(l)
    ensures HasLong(l + t) == HasLong(t)
  {
    if l == "" {
      assert l + t == t;
    } else {
      assert (l + t)[1..] == l[1..] + t;
      LongSkip(l[1..], t);
    }
  }

  lemma LongTake(l: string, n: nat, t: string)
    requires NoDecimal(l) && t != "" && !IsDecimal(t[0])
    ensures HasLong(l + (Dec(n) + t)) <==> !Short(n) || HasLong(t)
  {
    var d := Dec(n);
    LongSkip(l, d + t);
    IntOfDec(n);
    DigitRunOf(d, t);
    assert (d + t)[|d|..] == t;
  }

  /** The numbers in the line can be read exactly when their sum can. */
  lemma TotalHasLongIff(jobs: nat, steps: nat)
    ensures HasLong(Total(jobs, steps)) <==> !Short(jobs + steps)
  {
    NoneBetween();
    DecGrows(jobs, jobs + steps);
    DecGrows(steps, jobs + steps);
    var t0 := " 件";
    assert t0 + "" == t0 && !HasLong("");
    hide HasLong, Dec, NoDecimal;
    var t1 := " ＝ " + (Dec(jobs + steps) + t0);
    var t2 := " + step " + (Dec(steps) + t1);
    LongTake("job ", jobs, t2);
    LongTake(" + step ", steps, t1);
    LongTake(" ＝ ", jobs + steps, t0);
    LongSkip(t0, "");
  }

  // ── no match depends on what follows the next 'j' ─────────────────────────

  /** `s` up to and including its first 'j'. */
  function Cut(s: string): string {
    if s == "" then "" else if s[0] == 'j' then "j" else [s[0]] + Cut(s[1..])
  }

  lemma {:induction false} CutDrop(s: string, k: nat)
    requires k <= |s| && 'j' !in s[..k]
    ensures Cut(s) == s[..k] + Cut(s[k..])
  {
    if k > 0 {
      assert s[0] == s[..k][0];
      assert 'j' !in s[1..][..k - 1] by {
        forall i | 0 <= i < k - 1 ensures s[1..][i] != 'j' { assert s[..k][i + 1] == s[i + 1]; }
      }
      CutDrop(s[1..], k - 1);
      assert s[1..][k - 1..] == s[k..];
      assert s[..k] == [s[0]] + s[1..][..k - 1];
    } else {
      assert s[..0] + Cut(s[0..]) == Cut(s);
    }
  }

  lemma {:induction false} CutIsPrefix(s: string)
    ensures Cut(s) <= s
    ensures Cut(s) != s ==> Cut(s) != "" && Cut(s)[|Cut(s)| - 1] == 'j'
  {
    if s != "" && s[0] != 'j' {
      CutIsPrefix(s[1..]);
    }
  }

  predicate Free(ts: seq<Token>, c: char) {
    !IsDecimal(c) && forall i :: 0 <= i < |ts| ==> ts[i].Lit? ==> c !in ts[i].text
  }

  /** A prefix with no 'j' in it is the same prefix of everything with the same cut. */
  lemma SameFront(s: string, t: string, k: nat)
    requires Cut(s) == Cut(t) && k <= |s| && 'j' !in s[..k]
    ensures k <= |t| && s[..k] == t[..k] && Cut(s[k..]) == Cut(t[k..])
  {
    CutDrop(s, k);
    CutIsPrefix(t);
    assert Cut(t)[..k] == s[..k];
    assert t[..k] == Cut(t)[..k];
    CutDrop(t, k);
    assert Cut(s)[k..] == Cut(s[k..]);
    assert Cut(t)[k..] == Cut(t[k..]);
  }

  lemma DigitRunSame(s: string, t: string)
    requires Cut(s) == Cut(t)
    ensures DigitRun(s) <= DigitRun(t)
  {
    var k := DigitRun(s);
    DigitRunIsDigits(s);
    DigitRunIsDigits(t);
    forall i | 0 <= i < k ensures s[..k][i] != 'j' { assert IsDecimal(s[i]); }
    SameFront(s, t, k);
    forall i | 0 <= i < k ensures IsDecimal(t[i]) { assert s[..k][i] == t[..k][i]; }
  }

  predicate FreeOf(t: Token, c: char) {
    !IsDecimal(c) && (t.Lit? ==> c !in t.text)
  }

  lemma StepSame(tok: Token, s: string, t: string)
    requires FreeOf(tok, 'j') && Cut(s) == Cut(t)
    ensures Step(tok, s) == Step(tok, t)
    ensures Step(tok, s).Some? ==> Cut(s[Step(tok, s).value..]) == Cut(t[Step(tok, s).value..])
  {
    match tok
    case Lit(l) =>
      if l <= s {
        assert s[..|l|] == l;
        SameFront(s, t, |l|);
      } else if l <= t {
        assert t[..|l|] == l;
        SameFront(t, s, |l|);
      }
    case Digits =>
      DigitRunSame(s, t);
      DigitRunSame(t, s);
      var k := DigitRun(s);
      DigitRunIsDigits(s);
      forall i | 0 <= i < k ensures s[..k][i] != 'j' { assert IsDecimal(s[i]); }
      SameFront(s, t, k);
  }

  lemma {:induction false} MatchSame(ts: seq<Token>, s: string, t: string)
    requires Free(ts, 'j') && Cut(s) == Cut(t)
    ensures Match(ts, s) == Match(ts, t)
  {
    hide Step, Cut;
    if ts != [] {
      StepSame(ts[0], s, t);
      if Step(ts[0], s).Some? {
        var k := Step(ts[0], s).value;
        MatchSame(ts[1..], s[k..], t[k..]);
      }
    }
  }

  const AFTER_J: seq<Token> := [Lit("ob ")] + TOTAL[1..]

  lemma MatchAtAfterJ(s: string)
    ensures MatchAt(s).Some? <==> s != "" && s[0] == 'j' && Match(AFTER_J, s[1..]).Some?
    ensures MatchAt(s).Some? ==> MatchAt(s).value == 1 + Match(AFTER_J, s[1..]).value
  {
    assert AFTER_J[1..] == TOTAL[1..];
    if s != "" && s[0] == 'j' && "ob " <= s[1..] {
      assert s[..4] == [s[0]] + s[1..][..3];
      assert s[1..][3..] == s[4..];
    }
  }

  lemma AfterJFree(c: char)
    requires !IsDecimal(c) && c !in "ob  + step  ＝  件"
    ensures Free(AFTER_J, c)
  {
    assert AFTER_J == [Lit("ob "), Digits, Lit(" + step "), Digits, Lit(" ＝ "), Digits, Lit(" 件")];
    var all := "ob  + step  ＝  件";
    assert all == "ob " + " + step " + " ＝ " + " 件";
  }

  /** Substituting does not change what comes before the next 'j'. */
  lemma {:induction false} SubKeepsCut(s: string, r: string)
    requires r != "" && r[0] == 'j'
    ensures Cut(Sub(s, r)) == Cut(s)
    decreases |s|
  {
    if s != "" && MatchAt(s).None? && s[0] != 'j' {
      SubKeepsCut(s[1..], r);
      assert ([s[0]] + Sub(s[1..], r))[1..] == Sub(s[1..], r);
    }
  }

  /** So it makes no new match. */
  lemma NoNewMatch(s: string, r: string)
    requires s != "" && MatchAt(s).None? && r != "" && r[0] == 'j'
    ensures MatchAt([s[0]] + Sub(s[1..], r)).None?
  {
    var t := [s[0]] + Sub(s[1..], r);
    assert t[1..] == Sub(s[1..], r);
    SubKeepsCut(s[1..], r);
    AfterJFree('j');
    MatchSame(AFTER_J, s[1..], t[1..]);
    MatchAtAfterJ(s);
    MatchAtAfterJ(t);
  }

  /** Only the last substitution counts, whatever total the earlier one wrote. */
  lemma {:induction false} SubAgain(s: string, jobs: nat, steps: nat, r: string)
    ensures Sub(Sub(s, Total(jobs, steps)), r) == Sub(s, r)
    decreases |s|
  {
    var was := Total(jobs, steps);
    if s != "" {
      match MatchAt(s)
      case Some(n) =>
        var rest := Sub(s[n..], was);
        TotalMatches(jobs, steps, rest);
        assert (was + rest)[|was|..] == rest;
        SubAgain(s[n..], jobs, steps, r);
      case None =>
        NoNewMatch(s, was);
        var rest := Sub(s[1..], was);
        assert ([s[0]] + rest)[1..] == rest;
        SubAgain(s[1..], jobs, steps, r);
    }
  }

  /** After substituting, the first match is the total written, if there was any match at all. */
  lemma {:induction false} SearchAfterSub(s: string, jobs: nat, steps: nat)
    ensures Search(Sub(s, Total(jobs, steps))) == if Search(s).None? then None else Some(Total(jobs, steps))
    ensures Search(s).None? ==> Sub(s, Total(jobs, steps)) == s
    decreases |s|
  {
    var r := Total(jobs, steps);
    if s != "" {
      match MatchAt(s)
      case Some(n) =>
        var rest := Sub(s[n..], r);
        TotalMatches(jobs, steps, rest);
        assert (r + rest)[..|r|] == r;
      case None =>
        NoNewMatch(s, r);
        var rest := Sub(s[1..], r);
        assert ([s[0]] + rest)[1..] == rest;
        SearchAfterSub(s[1..], jobs, steps);
        assert [s[0]] + s[1..] == s;
    }
  }

  // ── matches stay within what a foreign character separates ────────────────

  lemma StepBefore(tok: Token, a: string, c: char, b: string)
    requires FreeOf(tok, c)
    ensures Step(tok, a + [c] + b) == Step(tok, a)
  {
    DigitRunBefore(a, c, b);
    if tok.Lit? && |a| < |tok.text| {
      assert tok.text[|a|] != c == (a + [c] + b)[|a|];
    }
  }

  lemma {:induction false} MatchBefore(ts: seq<Token>, a: string, c: char, b: string)
    requires Free(ts, c)
    ensures Match(ts, a + [c] + b) == Match(ts, a)
  {
    hide Step;
    if ts != [] {
      StepBefore(ts[0], a, c, b);
      if Step(ts[0], a).Some? {
        var k := Step(ts[0], a).value;
        assert (a + [c] + b)[k..] == a[k..] + [c] + b;
        MatchBefore(ts[1..], a[k..], c, b);
      }
    }
  }

  lemma {:induction false} DigitRunBefore(a: string, c: char, b: string)
    requires !IsDecimal(c)
    ensures DigitRun(a + [c] + b) == DigitRun(a)
  {
    if a != "" {
      assert (a + [c] + b)[1..] == a[1..] + [c] + b;
      DigitRunBefore(a[1..], c, b);
    }
  }

  predicate Foreign(c: char) {
    !IsDecimal(c) && c !in "job  + step  ＝  件"
  }

  lemma MatchAtBefore(a: string, c: char, b: string)
    requires Foreign(c)
    ensures a != "" ==> MatchAt(a + [c] + b) == MatchAt(a)
    ensures MatchAt([c] + b).None?
  {
    assert "job  + step  ＝  件" == "j" + "ob  + step  ＝  件";
    AfterJFree(c);
    MatchAtAfterJ([c] + b);
    if a != "" {
      var s := a + [c] + b;
      assert s[1..] == a[1..] + [c] + b;
      MatchBefore(AFTER_J, a[1..], c, b);
      MatchAtAfterJ(a);
      MatchAtAfterJ(s);
    }
  }

  lemma SubUnfolds(s: string, r: string)
    ensures Sub(s, r) ==
              if s == "" then ""
              else if MatchAt(s).Some? then r + Sub(s[MatchAt(s).value..], r) else [s[0]] + Sub(s[1..], r)
  {
  }

  lemma {:induction false} SubApart(a: string, c: char, b: string, r: string)
    requires Foreign(c)
    ensures Sub(a + [c] + b, r) == Sub(a, r) + [c] + Sub(b, r)
    decreases |a|
  {
    hide Sub, MatchAt, Foreign;
    var s := a + [c] + b;
    MatchAtBefore(a, c, b);
    SubUnfolds(a, r);
    SubUnfolds(s, r);
    if a == "" {
      assert s == [c] + b && s[1..] == b;
    } else {
      match MatchAt(a)
      case Some(n) =>
        assert s[n..] == a[n..] + [c] + b;
        SubApart(a[n..], c, b, r);
        Associates(r, Sub(a[n..], r), [c], Sub(b, r));
      case None =>
        assert s[1..] == a[1..] + [c] + b;
        SubApart(a[1..], c, b, r);
        Associates([a[0]], Sub(a[1..], r), [c], Sub(b, r));
    }
  }

  lemma {:induction false} SearchApart(a: string, c: char, b: string)
    requires Foreign(c)
    ensures Search(a + [c] + b) == if Search(a).Some? then Search(a) else Search(b)
  {
    var s := a + [c] + b;
    MatchAtBefore(a, c, b);
    if a == "" {
      assert s == [c] + b && s[1..] == b;
    } else {
      match MatchAt(a)
      case Some(n) =>
        assert s[..n] == a[..n];
      case None =>
        assert s[1..] == a[1..] + [c] + b;
        SearchApart(a[1..], c, b);
    }
  }

  // ── a match does not end in a space ───────────────────────────────────────

  predicate EndsFirmly(ts: seq<Token>) {
    && ts != [] && ts[|ts| - 1].Lit? && (forall i :: 0 <= i < |ts| && ts[i].Lit? ==> ts[i].text != "")
    && var l := ts[|ts| - 1].text; l[|l| - 1] != ' '
  }

  lemma StepTrailing(tok: Token, s: string)
    ensures Step(tok, s + " ") == Step(tok, s) ||
            (tok.Lit? && tok.text == s + " " && Step(tok, s + " ") == Some(|s| + 1) && Step(tok, s).None?)
  {
    DigitRunBefore(s, ' ', "");
    assert s + [' '] + "" == s + " ";
    if tok.Lit? && tok.text <= s + " " && |tok.text| <= |s| {
      assert tok.text == (s + " ")[..|tok.text|] == s[..|tok.text|];
    }
  }

  lemma MatchUnfolds(ts: seq<Token>, s: string)
    requires ts != []
    ensures Match(ts, s) ==
              match Step(ts[0], s)
              case None => None
              case Some(k) => match Match(ts[1..], s[k..]) case None => None case Some(n) => Some(k + n)
  {
    hide Step;
  }

  lemma NoStepOnNothing(tok: Token)
    requires tok.Lit? ==> tok.text != ""
    ensures Step(tok, "").None?
  {
  }

  lemma {:induction false} MatchTrailing(ts: seq<Token>, s: string)
    requires EndsFirmly(ts)
    ensures Match(ts, s + " ") == Match(ts, s)
  {
    hide Match, Step;
    StepTrailing(ts[0], s);
    MatchUnfolds(ts, s);
    MatchUnfolds(ts, s + " ");
    MatchNothing(s);
    if Step(ts[0], s) == Step(ts[0], s + " ") {
      if Step(ts[0], s).Some? {
        var k := Step(ts[0], s).value;
        assert (s + " ")[k..] == s[k..] + " ";
        if |ts| > 1 {
          MatchTrailing(ts[1..], s[k..]);
        } else {
          assert ts[1..] == [];
          MatchNothing(s[k..]);
          MatchNothing(s[k..] + " ");
        }
      }
    } else {
      assert (s + " ")[|s| + 1..] == "";
      MatchUnfolds(ts[1..], "");
      NoStepOnNothing(ts[1]);
    }
  }

  lemma {:induction false} SearchTrailing(s: string)
    ensures Search(s + " ") == Search(s)
  {
    if s == "" {
      assert s + " " == " " && " "[1..] == "";
      MatchAtAfterJ(" ");
    } else {
      assert (s + " ")[1..] == s[1..] + " ";
      MatchTrailing(TOTAL, s);
      SearchTrailing(s[1..]);
      if MatchAt(s).Some? { assert (s + " ")[..MatchAt(s).value] == s[..MatchAt(s).value]; }
    }
  }

  lemma {:induction false} SubTrailing(s: string, r: string)
    ensures Sub(s + " ", r) == Sub(s, r) + " "
    decreases |s|
  {
    hide MatchAt, Sub;
    SubUnfolds(s, r);
    SubUnfolds(s + " ", r);
    if s == "" {
      assert s + " " == " " && " "[1..] == "";
      NoMatchAtSpace(" ");
    } else {
      TotalTrailing(s);
      match MatchAt(s)
      case Some(n) =>
        assert (s + " ")[n..] == s[n..] + " ";
        SubTrailing(s[n..], r);
      case None =>
        assert (s + " ")[1..] == s[1..] + " ";
        SubTrailing(s[1..], r);
    }
  }

  lemma NoMatchAtSpace(s: string)
    requires s != "" && s[0] == ' '
    ensures MatchAt(s).None?
  {
    MatchAtAfterJ(s);
  }

  lemma TotalTrailing(s: string)
    ensures MatchAt(s + " ") == MatchAt(s)
  {
    MatchTrailing(TOTAL, s);
  }

  lemma SubPadded(s: string, r: string)
    ensures Sub(" " + (s + " "), r) == " " + (Sub(s, r) + " ")
  {
    hide MatchAt, Sub;
    var t := " " + (s + " ");
    assert t[0] == ' ' && t[1..] == s + " ";
    NoMatchAtSpace(t);
    SubUnfolds(t, r);
    SubTrailing(s, r);
  }

  /** A character that neither `s` nor the total has is in neither after substituting. */
  lemma {:induction false} SubHolds(s: string, r: string, c: char)
    requires c !in s && c !in r
    ensures c !in Sub(s, r)
    decreases |s|
  {
    hide MatchAt, Sub;
    SubUnfolds(s, r);
    if s != "" {
      match MatchAt(s)
      case Some(n) => SubHolds(s[n..], r, c);
      case None => SubHolds(s[1..], r, c);
    }
  }

  lemma SearchPadded(s: string)
    ensures Search(" " + (s + " ")) == Search(s)
  {
    var t := " " + (s + " ");
    assert t[0] == ' ' && t[1..] == s + " ";
    MatchAtAfterJ(t);
    SearchTrailing(s);
  }
}
