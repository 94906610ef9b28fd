// A text as its lines: `split('\n')` and `'\n'.join`, and what the total line's
// pattern makes of them.
module TextLines {
  import opened TotalLine

  function Split(s: string): (ls: seq<string>)
    ensures ls != []
  {
    if s == "" then [""]
    else
      var rest := Split(s[1..]);
      if s[0] == '\n' then [""] + rest else [[s[0]] + rest[0]] + rest[1..]
  }

  function Join(ls: seq<string>): string
    requires ls != []
  {
    if |ls| == 1 then ls[0] else ls[0] + ['\n'] + Join(ls[1..])
  }

  predicate OneLine(s: string) {
    '\n' !in s
  }

  predicate OneLineEach(ls: seq<string>) {
    forall i :: 0 <= i < |ls| ==> OneLine(ls[i])
  }

  lemma {:induction false} SplitIsLines(s: string)
    ensures OneLineEach(Split(s))
    ensures Join(Split(s)) == s
  {
    if s != "" {
      var rest := Split(s[1..]);
      SplitIsLines(s[1..]);
      if s[0] == '\n' {
        assert ([""] + rest)[1..] == rest;
        assert s == [s[0]] + s[1..];
      } else {
        var first := [s[0]] + rest[0];
        assert ([first] + rest[1..])[1..] == rest[1..];
        assert OneLine(first);
        if |rest| > 1 {
          assert first + ['\n'] + Join(rest[1..]) == [s[0]] + (rest[0] + ['\n'] + Join(rest[1..]));
        }
      }
    }
  }

  lemma {:induction false} SplitLine(l: string, t: string)
    requires OneLine(l)
    ensures Split(l) == [l]
    ensures Split(l + ['\n'] + t) == [l] + Split(t)
  {
    var s := l + ['\n'] + t;
    if l == "" {
      assert s[1..] == t;
    } else {
      assert s[1..] == l[1..] + ['\n'] + t;
      SplitLine(l[1..], t);
      assert [l[0]] + l[1..] == l;
      assert ([l[1..]] + Split(t))[1..] == Split(t);
    }
  }

  lemma {:induction false} SplitJoin(ls: seq<string>)
    requires ls != [] && OneLineEach(ls)
    ensures Split(Join(ls)) == ls
  {
    if |ls| == 1 {
      SplitLine(ls[0], "");
    } else {
      SplitLine(ls[0], Join(ls[1..]));
      SplitJoin(ls[1..]);
    }
  }

  /** Every line with every total in it replaced. */
  function SubEach(ls: seq<string>, r: string): (t: seq<string>)
    ensures |t| == |ls| && forall i :: 0 <= i < |ls| ==> t[i] == Sub(ls[i], r)
  {
    if ls == [] then [] else [Sub(ls[0], r)] + SubEach(ls[1..], r)
  }

  lemma NewlineIsForeign()
    ensures Foreign('\n')
  {
  }

  lemma {:induction false} SubJoin(ls: seq<string>, r: string)
    requires ls != []
    ensures Sub(Join(ls), r) == Join(SubEach(ls, r))
  {
    NewlineIsForeign();
    if |ls| > 1 {
      SubApart(ls[0], '\n', Join(ls[1..]), r);
      SubJoin(ls[1..], r);
      assert SubEach(ls, r)[1..] == SubEach(ls[1..], r);
    }
  }

  predicate HasTotal(s: string) {
    Search(s).Some?
  }

  lemma {:induction false} SearchJoin(ls: seq<string>)
    requires ls != []
    ensures HasTotal(Join(ls)) <==> exists i :: 0 <= i < |ls| && HasTotal(ls[i])
  {
    NewlineIsForeign();
    if |ls| > 1 {
      SearchApart(ls[0], '\n', Join(ls[1..]));
      SearchJoin(ls[1..]);
    }
  }

  lemma {:induction false} SubIsOneLine(s: string, r: string)
    requires OneLine(s) && OneLine(r)
    ensures OneLine(Sub(s, r))
    decreases |s|
  {
    if s != "" {
      var n := if MatchAt(s).Some? then MatchAt(s).value else 1;
      assert OneLine(s[n..]) by { forall i | n <= i < |s| ensures s[i] != '\n' {} }
      SubIsOneLine(s[n..], r);
    }
  }

  lemma CutFirst(s: string)
    ensures Cut(s) == "" <==> s == ""
    ensures s != "" ==> Cut(s)[0] == s[0]
  {
  }
}
