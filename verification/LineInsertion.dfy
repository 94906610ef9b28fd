// How lines are put into a workflow file from back to front
// (scripts/handover_timeouts.py, the end of `restore`).
module LineInsertion {

  /** A line to go right after line `at` of the file. */
  datatype Insert = Insert(at: nat, text: string)

  /** Python's order on strings: by code point, a proper prefix first. */
  predicate TextLess(a: string, b: string) {
    if b == "" then false
    else if a == "" then true
    else a[0] < b[0] || (a[0] == b[0] && TextLess(a[1..], b[1..]))
  }

  /** Python's order on the pairs. */
  predicate Less(a: Insert, b: Insert) {
    a.at < b.at || (a.at == b.at && TextLess(a.text, b.text))
  }

  predicate Descending(s: seq<Insert>) {
    forall i, j :: 0 <= i < j < |s| ==> !Less(s[i], s[j])
  }

  function Place(s: seq<Insert>, x: Insert): seq<Insert> {
    if s == [] then [x] else if Less(s[0], x) then [x] + s else [s[0]] + Place(s[1..], x)
  }

  /** `sorted(inserts, reverse=True)`. */
  function SortedDown(s: seq<Insert>): seq<Insert> {
    if s == [] then [] else Place(SortedDown(s[..|s| - 1]), s[|s| - 1])
  }

  lemma {:induction false} TextLessTransitive(a: string, b: string, c: string)
    ensures TextLess(a, b) && TextLess(b, c) ==> TextLess(a, c)
    ensures !TextLess(a, b) && !TextLess(b, c) ==> !TextLess(a, c)
  {
    if a != "" && b != "" && c != "" { TextLessTransitive(a[1..], b[1..], c[1..]); }
  }

  lemma {:induction false} TextLessOneWay(a: string, b: string)
    ensures TextLess(a, b) ==> !TextLess(b, a)
    ensures !TextLess(a, b) && !TextLess(b, a) ==> a == b
  {
    if a != "" && b != "" {
      TextLessOneWay(a[1..], b[1..]);
      assert a == [a[0]] + a[1..] && b == [b[0]] + b[1..];
    }
  }

  lemma {:induction false} PlaceKeepsOrder(s: seq<Insert>, x: Insert)
    requires Descending(s)
    ensures Descending(Place(s, x)) && multiset(Place(s, x)) == multiset(s) + multiset{x}
  {
    if s == [] {
    } else if Less(s[0], x) {
      LessBefore(s, x);
      hide Less;
    } else {
      PlaceKeepsOrder(s[1..], x);
      hide Place, Less;
      assert s == [s[0]] + s[1..];
      PlaceAfter(s[0], s[1..], x, Place(s[1..], x));
    }
  }

  lemma LessBefore(s: seq<Insert>, x: Insert)
    requires s != [] && Descending(s) && Less(s[0], x)
    ensures Descending([x] + s)
  {
    forall j | 0 <= j < |s| ensures !Less(x, s[j]) {
      TextLessOneWay(s[0].text, x.text);
      TextLessTransitive(x.text, s[0].text, s[j].text);
      assert j > 0 ==> !Less(s[0], s[j]);
    }
    hide Less;
  }

  lemma PlaceAfter(first: Insert, rest: seq<Insert>, x: Insert, t: seq<Insert>)
    requires Descending([first] + rest) && !Less(first, x) && Descending(t) && multiset(t) == multiset(rest) + multiset{x}
    ensures Descending([first] + t)
  {
    hide Less;
    forall j | 0 <= j < |t| ensures !Less(first, t[j]) {
      assert t[j] in multiset(t);
      if t[j] != x {
        var k :| 0 <= k < |rest| && rest[k] == t[j];
        assert ([first] + rest)[k + 1] == t[j] && ([first] + rest)[0] == first;
      }
    }
  }

  lemma {:induction false} SortedDownSorts(s: seq<Insert>)
    ensures Descending(SortedDown(s)) && multiset(SortedDown(s)) == multiset(s)
  {
    if s != [] {
      var n := |s| - 1;
      SortedDownSorts(s[..n]);
      PlaceKeepsOrder(SortedDown(s[..n]), s[n]);
      assert s == s[..n] + [s[n]];
    }
  }

  lemma LessIsTotal(a: Insert, b: Insert)
    ensures !Less(a, b) && !Less(b, a) ==> a == b
  {
    TextLessOneWay(a.text, b.text);
  }

  lemma SameFirst(s: seq<Insert>, t: seq<Insert>)
    requires Descending(s) && Descending(t) && multiset(s) == multiset(t) && s != [] && t != []
    ensures s[0] == t[0]
  {
    assert s[0] in multiset(t) && t[0] in multiset(s);
    var i :| 0 <= i < |t| && t[i] == s[0];
    var j :| 0 <= j < |s| && s[j] == t[0];
    assert i == 0 || !Less(t[0], s[0]);
    assert j == 0 || !Less(s[0], t[0]);
    LessIsTotal(s[0], t[0]);
  }

  lemma RestOf(s: seq<Insert>)
    requires s != []
    ensures multiset(s[1..]) == multiset(s) - multiset{s[0]}
  {
    assert s == [s[0]] + s[1..];
  }

  lemma {:induction false} OneWayDown(s: seq<Insert>, t: seq<Insert>)
    requires Descending(s) && Descending(t) && multiset(s) == multiset(t)
    ensures s == t
  {
    hide Less;
    if s == [] {
      assert |multiset(t)| == 0;
    } else {
      assert s[0] in multiset(t);
      SameFirst(s, t);
      RestOf(s);
      RestOf(t);
      OneWayDown(s[1..], t[1..]);
      assert s == [s[0]] + s[1..] && t == [t[0]] + t[1..];
    }
  }

  /** So the order in which the insertions were collected makes no difference. */
  lemma CollectedInAnyOrder(a: seq<Insert>, b: seq<Insert>)
    requires multiset(a) == multiset(b)
    ensures SortedDown(a) == SortedDown(b)
  {
    hide SortedDown, Descending;
    SortedDownSorts(a);
    SortedDownSorts(b);
    OneWayDown(SortedDown(a), SortedDown(b));
  }

  // ── what the file should come to ──────────────────────────────────────────

  /** A line of the result: an old one, or one put in. */
  datatype Line = Old(text: string) | New(text: string)

  function Marked(lines: seq<string>): (r: seq<Line>)
    ensures |r| == |lines| && forall i :: 0 <= i < |lines| ==> r[i] == Old(lines[i])
  {
    if lines == [] then [] else [Old(lines[0])] + Marked(lines[1..])
  }

  function Texts(r: seq<Line>): (t: seq<string>)
    ensures |t| == |r| && forall i :: 0 <= i < |r| ==> t[i] == r[i].text
  {
    if r == [] then [] else [r[0].text] + Texts(r[1..])
  }

  /** The lines to go after line `at`, in ascending order of their text. */
  function At(down: seq<Insert>, at: nat): seq<Line> {
    if down == [] then []
    else At(down[1..], at) + if down[0].at == at then [New(down[0].text)] else []
  }

  /** Every old line, and right after it the lines that go there: all put in at once. */
  function Woven(lines: seq<string>, down: seq<Insert>): seq<Line> {
    if lines == [] then []
    else
      var n := |lines| - 1;
      Woven(lines[..n], down) + [Old(lines[n])] + At(down, n)
  }

  function OldOnly(r: seq<Line>): seq<string> {
    if r == [] then [] else (if r[0].Old? then [r[0].text] else []) + OldOnly(r[1..])
  }

  lemma {:induction false} OldOnlyAppend(a: seq<Line>, b: seq<Line>)
    ensures OldOnly(a + b) == OldOnly(a) + OldOnly(b)
  {
    if a == [] {
      assert a + b == b;
    } else {
      assert (a + b)[1..] == a[1..] + b;
      OldOnlyAppend(a[1..], b);
    }
  }

  lemma {:induction false} AtIsNew(down: seq<Insert>, at: nat)
    ensures OldOnly(At(down, at)) == []
  {
    if down != [] {
      AtIsNew(down[1..], at);
      OldOnlyAppend(At(down[1..], at), if down[0].at == at then [New(down[0].text)] else []);
    }
  }

  /** Taking the new lines out gives the file back. */
  lemma {:induction false} WovenErases(lines: seq<string>, down: seq<Insert>)
    ensures OldOnly(Woven(lines, down)) == lines
  {
    if lines != [] {
      var n := |lines| - 1;
      WovenErases(lines[..n], down);
      AtIsNew(down, n);
      OldOnlyAppend(Woven(lines[..n], down) + [Old(lines[n])], At(down, n));
      OldOnlyAppend(Woven(lines[..n], down), [Old(lines[n])]);
      assert lines == lines[..n] + [lines[n]];
    }
  }

  /** Right after the line `at` of the file come the lines that go there, and then what followed. */
  lemma {:induction false} WovenParts(lines: seq<string>, down: seq<Insert>, at: nat) returns (a: seq<Line>, b: seq<Line>)
    requires at < |lines|
    ensures Woven(lines, down) == a + ([Old(lines[at])] + At(down, at)) + b
    ensures OldOnly(a) == lines[..at] && OldOnly(b) == lines[at + 1..]
  {
    hide At, OldOnly;
    var n := |lines| - 1;
    var last := [Old(lines[n])] + At(down, n);
    assert Woven(lines, down) == Woven(lines[..n], down) + last;
    if at == n {
      a, b := Woven(lines[..n], down), [];
      WovenErases(lines[..n], down);
      NoLines();
    } else {
      a, b := WovenParts(lines[..n], down, at);
      hide Woven;
      b := b + last;
      OldOnlyOfLast(lines[n], At(down, n), b[..|b| - |last|]) by { AtIsNew(down, n); }
      assert lines[..n][at + 1..] + [lines[n]] == lines[at + 1..];
      assert lines[..n][..at] == lines[..at];
    }
  }

  lemma NoLines()
    ensures OldOnly([]) == []
  {
  }

  lemma OldOnlyOfLast(line: string, more: seq<Line>, b: seq<Line>)
    requires OldOnly(more) == []
    ensures OldOnly(b + ([Old(line)] + more)) == OldOnly(b) + [line]
  {
    OldOnlyAppend(b, [Old(line)] + more);
    OldOnlyAppend([Old(line)], more);
  }

  /** They are the lines to go there, each as often as it was to be put in, and in ascending order. */
  lemma {:induction false} LinesAtAnchor(down: seq<Insert>, at: nat, text: string)
    requires Descending(down)
    ensures multiset(At(down, at))[New(text)] == multiset(down)[Insert(at, text)]
    ensures forall i, j :: 0 <= i < j < |At(down, at)| ==> !TextLess(At(down, at)[j].text, At(down, at)[i].text)
    ensures forall l :: l in At(down, at) ==> l.New? && Insert(at, l.text) in down
  {
    if down != [] {
      var first, rest := down[0], down[1..];
      assert down == [first] + rest;
      assert forall i :: 0 <= i < |rest| ==> rest[i] == down[i + 1];
      LinesAtAnchor(rest, at, text);
      assert multiset(down) == multiset{first} + multiset(rest);
      var was := At(rest, at);
      if first.at == at {
        var now := was + [New(first.text)];
        assert At(down, at) == now;
        hide TextLess;
        forall i | 0 <= i < |was| ensures !TextLess(first.text, was[i].text) {
          assert was[i] in was;
          LastIsLeast(down, at, was[i].text);
        }
      }
    }
  }

  lemma LastIsLeast(down: seq<Insert>, at: nat, text: string)
    requires Descending(down) && down != [] && down[0].at == at && Insert(at, text) in down[1..]
    ensures !TextLess(down[0].text, text)
  {
    var k :| 0 <= k < |down[1..]| && down[1..][k] == Insert(at, text);
    assert !Less(down[0], down[k + 1]);
  }

  // ── back to front ─────────────────────────────────────────────────────────

  function PutIn<T>(lines: seq<T>, at: nat, x: T): seq<T>
    requires at < |lines|
  {
    lines[..at + 1] + [x] + lines[at + 1..]
  }

  predicate AllWithin(down: seq<Insert>, n: nat) {
    forall i :: 0 <= i < |down| ==> down[i].at < n
  }

  lemma {:induction false} AtNone(down: seq<Insert>, at: nat)
    requires forall i :: 0 <= i < |down| ==> down[i].at != at
    ensures At(down, at) == []
  {
    if down != [] { AtNone(down[1..], at); }
  }

  lemma {:induction false} AtAppend(down: seq<Insert>, x: Insert, at: nat)
    ensures At(down + [x], at) == (if x.at == at then [New(x.text)] else []) + At(down, at)
  {
    if down == [] {
      assert [] + [x] == [x] && At([x][1..], at) == [];
    } else {
      assert (down + [x])[1..] == down[1..] + [x];
      AtAppend(down[1..], x, at);
    }
  }

  lemma {:induction false} MarkedAppend(a: seq<string>, b: seq<string>)
    ensures Marked(a + b) == Marked(a) + Marked(b)
  {
    if a == [] {
      assert a + b == b;
    } else {
      assert (a + b)[1..] == a[1..] + b;
      MarkedAppend(a[1..], b);
    }
  }

  lemma MarkedOne(line: string)
    ensures Marked([line]) == [Old(line)]
  {
  }

  lemma MarkedSnoc(lines: seq<string>)
    requires lines != []
    ensures Marked(lines) == Marked(lines[..|lines| - 1]) + [Old(lines[|lines| - 1])]
  {
    hide Marked;
    var front, last := lines[..|lines| - 1], lines[|lines| - 1];
    assert lines == front + [last];
    MarkedAppend(front, [last]);
    MarkedOne(last);
  }

  lemma {:induction false} WovenNone(lines: seq<string>, down: seq<Insert>)
    requires forall i :: 0 <= i < |down| ==> |lines| <= down[i].at
    ensures Woven(lines, down) == Marked(lines)
  {
    hide Marked;
    if lines == [] {
      assert Marked([]) == [];
    } else {
      WovenNone(lines[..|lines| - 1], down);
      AtNone(down, |lines| - 1);
      MarkedSnoc(lines);
    }
  }

  lemma PutInLeft<T>(a: seq<T>, b: seq<T>, at: nat, x: T)
    requires at < |a|
    ensures PutIn(a + b, at, x) == PutIn(a, at, x) + b
  {
    assert (a + b)[..at + 1] == a[..at + 1];
    assert (a + b)[at + 1..] == a[at + 1..] + b;
  }

  lemma PutInAfter<T>(a: seq<T>, b: seq<T>, x: T)
    requires a != []
    ensures PutIn(a + b, |a| - 1, x) == a + ([x] + b)
  {
    assert (a + b)[..|a|] == a;
    assert (a + b)[|a|..] == b;
  }

  lemma {:induction false} WovenLength(lines: seq<string>, down: seq<Insert>)
    ensures |Woven(lines, down)| >= |lines|
  {
    if lines != [] { WovenLength(lines[..|lines| - 1], down); }
  }

  /** One more line, anchored no later than all the others: it goes in right after its anchor. */
  lemma {:induction false} WovenOneMore(lines: seq<string>, down: seq<Insert>, x: Insert)
    requires x.at < |lines| && forall i :: 0 <= i < |down| ==> x.at <= down[i].at
    ensures |Woven(lines, down)| > x.at
    ensures Woven(lines, down + [x]) == PutIn(Woven(lines, down), x.at, New(x.text))
    decreases |lines|
  {
    hide PutIn, At, Marked;
    var n := |lines| - 1;
    AtAppend(down, x, n);
    WovenLength(lines, down);
    if n == x.at {
      WovenNone(lines[..n], down);
      WovenNone(lines[..n], down + [x]);
      PutInAfter(Marked(lines[..n]) + [Old(lines[n])], At(down, n), New(x.text));
    } else {
      WovenOneMore(lines[..n], down, x);
      PutInLeft(Woven(lines[..n], down), [Old(lines[n])] + At(down, n), x.at, New(x.text));
      assert Woven(lines, down) == Woven(lines[..n], down) + ([Old(lines[n])] + At(down, n));
      assert Woven(lines, down + [x]) == Woven(lines[..n], down + [x]) + ([Old(lines[n])] + At(down, n));
    }
  }

  lemma {:induction false} TextsAppend(a: seq<Line>, b: seq<Line>)
    ensures Texts(a + b) == Texts(a) + Texts(b)
  {
    if a == [] {
      assert a + b == b;
    } else {
      assert (a + b)[1..] == a[1..] + b;
      TextsAppend(a[1..], b);
    }
  }

  lemma TextsOfOne(x: string)
    ensures Texts([New(x)]) == [x]
  {
  }

  lemma TextsAround(a: seq<Line>, b: seq<Line>, x: string)
    requires a != []
    ensures Texts(PutIn(a + b, |a| - 1, New(x))) == PutIn(Texts(a + b), |a| - 1, x)
  {
    hide Texts, PutIn;
    PutInAfter(a, b, New(x));
    TextsJoin(a, b, x);
    TextsAppend(a, b);
    PutInAfter(Texts(a), Texts(b), x);
  }

  lemma TextsJoin(a: seq<Line>, b: seq<Line>, x: string)
    ensures Texts(a + ([New(x)] + b)) == Texts(a) + ([x] + Texts(b))
  {
    hide Texts;
    TextsOfOne(x);
    TextsAppend(a, [New(x)] + b);
    TextsAppend([New(x)], b);
  }

  lemma TextsOfPutIn(r: seq<Line>, at: nat, x: string)
    requires at < |r|
    ensures Texts(PutIn(r, at, New(x))) == PutIn(Texts(r), at, x)
  {
    hide Texts, PutIn;
    var a, b := r[..at + 1], r[at + 1..];
    assert r == a + b && |a| == at + 1;
    TextsAround(a, b, x);
  }

  lemma DescendingAnchors(s: seq<Insert>, i: nat, j: nat)
    requires Descending(s) && i < j < |s|
    ensures s[j].at <= s[i].at
  {
    assert !Less(s[i], s[j]);
  }

  /** The insertion loop of `restore`. */
  method InsertLines(lines: seq<string>, inserts: seq<Insert>) returns (r: seq<string>)
    requires AllWithin(inserts, |lines|)
    ensures r == Texts(Woven(lines, SortedDown(inserts)))
  {
    hide Woven, Texts, SortedDown, Marked;
    r := lines;
    var down := SortedDown(inserts);
    SortedDownSorts(inserts);
    AllWithinSorted(inserts, |lines|);
    WovenOfNone(lines);
    for k := 0 to |down|
      invariant r == Texts(Woven(lines, down[..k]))
    {
      var x := down[k];
      forall i | 0 <= i < k ensures x.at <= down[..k][i].at { DescendingAnchors(down, i, k); }
      assert down[..k + 1] == down[..k] + [x];
      WovenOneMore(lines, down[..k], x);
      TextsOfPutIn(Woven(lines, down[..k]), x.at, x.text);
      r := r[..x.at + 1] + [x.text] + r[x.at + 1..];
    }
    assert down[..|down|] == down;
  }

  lemma WovenOfNone(lines: seq<string>)
    ensures Texts(Woven(lines, [])) == lines
  {
    WovenNone(lines, []);
  }

  lemma AllWithinSorted(inserts: seq<Insert>, n: nat)
    requires AllWithin(inserts, n)
    ensures AllWithin(SortedDown(inserts), n)
  {
    hide SortedDown;
    SortedDownSorts(inserts);
    var down := SortedDown(inserts);
    forall i | 0 <= i < |down| ensures down[i].at < n {
      assert down[i] in multiset(down);
      assert down[i] in inserts;
    }
  }
}
