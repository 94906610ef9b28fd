// Where the tables of the hand-over document are (scripts/handover_timeouts.py,
// `find_heading` and `table_at`). Only what kind of line each line is decides that,
// so it is worked out on kinds alone.
module HandoverShape {
  import opened Common

  /** A table line starts with '|'; every heading starts with '#'. */
  datatype Kind = Bar | JobHeading | StepHeading | OtherHeading | Plain {
    predicate Heading() {
      JobHeading? || StepHeading? || OtherHeading?
    }
  }

  function FindKind(ks: seq<Kind>, k: Kind): (r: Option<nat>)
    ensures r.Some? ==> r.value < |ks|
  {
    if ks == [] then None
    else if ks[0] == k then Some(0)
    else
      match FindKind(ks[1..], k)
      case None => None
      case Some(i) => Some(i + 1)
  }

  /** The first table line from `i` on, no heading but at `start` itself being in between. */
  function FirstBar(ks: seq<Kind>, start: nat, i: nat): (r: Option<nat>)
    requires start <= i
    ensures r.Some? ==> i <= r.value < |ks| && ks[r.value].Bar?
    decreases |ks| - i
  {
    if i >= |ks| then None
    else if ks[i].Bar? then Some(i)
    else if ks[i].Heading() && i > start then None
    else FirstBar(ks, start, i + 1)
  }

  function LastBar(ks: seq<Kind>, i: nat): (j: nat)
    requires i <= |ks|
    ensures i <= j <= |ks|
    decreases |ks| - i
  {
    if i < |ks| && ks[i].Bar? then LastBar(ks, i + 1) else i
  }

  /** `table_at`: the table from `start` on, as [first line, one past the last). */
  function TableFrom(ks: seq<Kind>, start: nat): (r: Option<(nat, nat)>)
    ensures r.Some? ==> start <= r.value.0 <= r.value.1 <= |ks|
  {
    match FirstBar(ks, start, start)
    case None => None
    case Some(s) => Some((s, LastBar(ks, s)))
  }

  datatype Place = NoHeading | NoTable(h: nat) | Table(h: nat, s: nat, e: nat)

  /** Where the heading of kind `k` and its table are. */
  function Locate(ks: seq<Kind>, k: Kind): (p: Place)
    ensures p.NoTable? ==> p.h < |ks|
    ensures p.Table? ==> p.h < p.s <= p.e <= |ks|
  {
    match FindKind(ks, k)
    case None => NoHeading
    case Some(h) =>
      match TableFrom(ks, h + 1)
      case None => NoTable(h)
      case Some((s, e)) => Table(h, s, e)
  }

  // ── what these functions find ─────────────────────────────────────────────

  lemma {:induction false} FindKindIs(ks: seq<Kind>, k: Kind)
    ensures FindKind(ks, k).None? <==> k !in ks
    ensures FindKind(ks, k).Some? ==>
              var h := FindKind(ks, k).value; h < |ks| && ks[h] == k && k !in ks[..h]
  {
    if ks != [] && ks[0] != k {
      FindKindIs(ks[1..], k);
      if FindKind(ks, k).Some? {
        var h := FindKind(ks, k).value;
        assert ks[..h] == [ks[0]] + ks[1..][..h - 1];
      }
    }
  }

  lemma FindKindAt(ks: seq<Kind>, k: Kind, h: nat)
    requires h < |ks| && ks[h] == k && forall i :: 0 <= i < h ==> ks[i] != k
    ensures FindKind(ks, k) == Some(h)
  {
    FindKindIs(ks, k);
    assert ks[h] in ks;
    var g := FindKind(ks, k).value;
    assert forall i :: 0 <= i < g ==> ks[..g][i] == ks[i] != k;
  }

  /** No table line and no heading but at `start` from `start` up to `m`. */
  predicate Bare(ks: seq<Kind>, start: nat, m: nat) {
    forall i :: start <= i < m && i < |ks| ==> !ks[i].Bar? && (i > start ==> !ks[i].Heading())
  }

  predicate IsTable(ks: seq<Kind>, start: nat, s: nat, e: nat) {
    && start <= s < e <= |ks| && Bare(ks, start, s)
    && (forall i :: s <= i < e ==> ks[i].Bar?) && (e < |ks| ==> !ks[e].Bar?)
  }

  /** Nothing but bare lines up to the next heading, or to the end. */
  predicate IsBarren(ks: seq<Kind>, start: nat, m: nat) {
    start <= m && Bare(ks, start, m) && (m >= |ks| || (m > start && ks[m].Heading()))
  }

  lemma {:induction false} FirstBarIs(ks: seq<Kind>, start: nat, i: nat) returns (m: nat)
    requires start <= i && Bare(ks, start, i)
    ensures FirstBar(ks, start, i).Some? ==> Bare(ks, start, FirstBar(ks, start, i).value)
    ensures FirstBar(ks, start, i).None? ==> IsBarren(ks, start, m)
    decreases |ks| - i
  {
    m := i;
    if i < |ks| && !ks[i].Bar? && !(ks[i].Heading() && i > start) {
      m := FirstBarIs(ks, start, i + 1);
    }
  }

  lemma {:induction false} LastBarIs(ks: seq<Kind>, i: nat)
    requires i <= |ks|
    ensures var j := LastBar(ks, i); (forall k :: i <= k < j ==> ks[k].Bar?) && (j < |ks| ==> !ks[j].Bar?)
    decreases |ks| - i
  {
    if i < |ks| && ks[i].Bar? { LastBarIs(ks, i + 1); }
  }

  lemma TableFromIs(ks: seq<Kind>, start: nat) returns (m: nat)
    ensures match TableFrom(ks, start) case Some((s, e)) => IsTable(ks, start, s, e) case None => IsBarren(ks, start, m)
  {
    m := FirstBarIs(ks, start, start);
    if FirstBar(ks, start, start).Some? { LastBarIs(ks, FirstBar(ks, start, start).value); }
  }

  lemma TableFromAt(ks: seq<Kind>, start: nat, s: nat, e: nat)
    requires IsTable(ks, start, s, e)
    ensures TableFrom(ks, start) == Some((s, e))
  {
    var m := TableFromIs(ks, start);
    assert ks[s].Bar?;
    if TableFrom(ks, start).Some? {
      var (a, b) := TableFrom(ks, start).value;
      assert ks[a].Bar?;
      assert b < |ks| ==> !ks[b].Bar?;
      assert e < |ks| ==> !ks[e].Bar?;
    }
  }

  lemma TableFromNone(ks: seq<Kind>, start: nat, m: nat)
    requires IsBarren(ks, start, m)
    ensures TableFrom(ks, start).None?
  {
    var _ := TableFromIs(ks, start);
    if TableFrom(ks, start).Some? {
      assert false;
    }
  }

  /** What `Locate` says, spelled out. */
  ghost predicate Located(ks: seq<Kind>, k: Kind, p: Place) {
    match p
    case NoHeading => k !in ks
    case NoTable(h) => FirstOfKind(ks, k, h) && NothingFrom(ks, h + 1)
    case Table(h, s, e) => FirstOfKind(ks, k, h) && IsTable(ks, h + 1, s, e)
  }

  ghost predicate NothingFrom(ks: seq<Kind>, start: nat) {
    exists m :: IsBarren(ks, start, m)
  }

  predicate FirstOfKind(ks: seq<Kind>, k: Kind, h: nat) {
    h < |ks| && ks[h] == k && forall i :: 0 <= i < h ==> ks[i] != k
  }

  lemma LocateIs(ks: seq<Kind>, k: Kind)
    ensures Located(ks, k, Locate(ks, k))
  {
    FindKindIs(ks, k);
    if FindKind(ks, k).Some? {
      var h := FindKind(ks, k).value;
      forall i | 0 <= i < h ensures ks[i] != k { assert ks[i] == ks[..h][i]; }
      var m := TableFromIs(ks, h + 1);
    }
  }

  lemma LocateAt(ks: seq<Kind>, k: Kind, p: Place)
    requires Located(ks, k, p)
    ensures Locate(ks, k) == p
  {
    match p
    case NoHeading => FindKindIs(ks, k);
    case NoTable(h) =>
      FindKindAt(ks, k, h);
      var m :| IsBarren(ks, h + 1, m);
      TableFromNone(ks, h + 1, m);
    case Table(h, s, e) =>
      FindKindAt(ks, k, h);
      TableFromAt(ks, h + 1, s, e);
  }

  // ── replacing a table by one of another length ────────────────────────────

  function Resized(ks: seq<Kind>, s: nat, e: nat, n: nat): seq<Kind>
    requires s <= e <= |ks|
  {
    ks[..s] + seq(n, _ => Bar) + ks[e..]
  }

  /** Where a line outside the replaced ones goes. */
  function Moved(i: nat, s: nat, e: nat, n: nat): nat {
    if i >= e >= s then i - e + s + n else i
  }

  function MovedPlace(p: Place, s: nat, e: nat, n: nat): Place {
    match p
    case NoHeading => NoHeading
    case NoTable(h) => NoTable(Moved(h, s, e, n))
    case Table(h, a, b) =>
      if a == s then Table(Moved(h, s, e, n), s, s + n) else Table(Moved(h, s, e, n), Moved(a, s, e, n), Moved(b, s, e, n))
  }

  /** [s, e) is a run of table lines, as long as it gets. */
  predicate Block(ks: seq<Kind>, s: nat, e: nat) {
    && s < e <= |ks| && (forall i :: s <= i < e ==> ks[i].Bar?)
    && (s > 0 ==> !ks[s - 1].Bar?) && (e < |ks| ==> !ks[e].Bar?)
  }

  lemma TableIsBlock(ks: seq<Kind>, k: Kind)
    requires Locate(ks, k).Table? && k.Heading()
    ensures Block(ks, Locate(ks, k).s, Locate(ks, k).e) && Locate(ks, k).h < Locate(ks, k).s
  {
    LocateIs(ks, k);
  }

  lemma ResizedAt(ks: seq<Kind>, s: nat, e: nat, n: nat)
    requires s <= e <= |ks|
    ensures var r := Resized(ks, s, e, n);
            && |r| == |ks| - (e - s) + n
            && (forall i :: 0 <= i < s ==> r[i] == ks[i])
            && (forall i :: s <= i < s + n ==> r[i].Bar?)
            && (forall i :: s + n <= i < |r| ==> r[i] == ks[i - n - s + e])
  {
  }

  lemma FirstResized(ks: seq<Kind>, s: nat, e: nat, n: nat, q: Kind, h: nat)
    requires Block(ks, s, e) && n > 0 && !q.Bar? && FirstOfKind(ks, q, h)
    ensures FirstOfKind(Resized(ks, s, e, n), q, Moved(h, s, e, n))
    ensures h < s || h >= e
  {
    ResizedAt(ks, s, e, n);
  }

  lemma TableResized(ks: seq<Kind>, s: nat, e: nat, n: nat, start: nat, a: nat, b: nat)
    requires Block(ks, s, e) && n > 0 && IsTable(ks, start, a, b) && (start <= s || e <= start)
    ensures a == s ==> IsTable(Resized(ks, s, e, n), start, s, s + n)
    ensures a != s ==>
              IsTable(Resized(ks, s, e, n), if start <= s then start else Moved(start, s, e, n), Moved(a, s, e, n), Moved(b, s, e, n))
  {
    ResizedAt(ks, s, e, n);
    if a == s {
      assert b < |ks| ==> !ks[b].Bar?;
      assert e < |ks| ==> !ks[e].Bar?;
      assert b == e;
    } else if a < s {
      assert !ks[s - 1].Bar?;
      assert b < s;
    } else {
      assert ks[s].Bar?;
      assert a > e && start >= e;
    }
  }

  lemma BarrenResized(ks: seq<Kind>, s: nat, e: nat, n: nat, start: nat, m: nat)
    requires Block(ks, s, e) && n > 0 && IsBarren(ks, start, m) && (start <= s || e <= start)
    ensures NothingFrom(Resized(ks, s, e, n), if start <= s then start else Moved(start, s, e, n))
  {
    ResizedAt(ks, s, e, n);
    var r := Resized(ks, s, e, n);
    if start <= s {
      assert ks[s].Bar?;
      assert IsBarren(r, start, m);
    } else {
      assert IsBarren(r, Moved(start, s, e, n), Moved(m, s, e, n));
    }
  }

  lemma TablePlaceMoves(ks: seq<Kind>, s: nat, e: nat, n: nat, q: Kind, h: nat, a: nat, b: nat)
    requires Block(ks, s, e) && n > 0 && !q.Bar? && FirstOfKind(ks, q, h) && IsTable(ks, h + 1, a, b)
    ensures Located(Resized(ks, s, e, n), q, MovedPlace(Table(h, a, b), s, e, n))
  {
    hide Resized, IsTable, FirstOfKind;
    FirstResized(ks, s, e, n, q, h);
    TableResized(ks, s, e, n, h + 1, a, b);
    assert a > h by { InOrderThere(ks, h + 1, a, b); }
  }

  lemma InOrderThere(ks: seq<Kind>, start: nat, a: nat, b: nat)
    requires IsTable(ks, start, a, b)
    ensures start <= a < b
  {
  }

  lemma NoTablePlaceMoves(ks: seq<Kind>, s: nat, e: nat, n: nat, q: Kind, h: nat)
    requires Block(ks, s, e) && n > 0 && !q.Bar? && FirstOfKind(ks, q, h) && NothingFrom(ks, h + 1)
    ensures Located(Resized(ks, s, e, n), q, MovedPlace(NoTable(h), s, e, n))
  {
    hide Resized, IsBarren, FirstOfKind;
    FirstResized(ks, s, e, n, q, h);
    var m :| IsBarren(ks, h + 1, m);
    BarrenResized(ks, s, e, n, h + 1, m);
  }

  lemma NoHeadingStays(ks: seq<Kind>, s: nat, e: nat, n: nat, q: Kind)
    requires Block(ks, s, e) && !q.Bar? && q !in ks
    ensures q !in Resized(ks, s, e, n)
  {
    var r := Resized(ks, s, e, n);
    ResizedAt(ks, s, e, n);
    forall i | 0 <= i < |r| ensures r[i] != q {}
  }

  /** Resizing one table moves the others, and changes neither which headings nor which tables there are. */
  lemma LocateResized(ks: seq<Kind>, s: nat, e: nat, n: nat, q: Kind)
    requires Block(ks, s, e) && n > 0 && q.Heading()
    ensures Locate(Resized(ks, s, e, n), q) == MovedPlace(Locate(ks, q), s, e, n)
  {
    hide Resized, Locate, IsTable, FirstOfKind;
    var p := Locate(ks, q);
    LocateIs(ks, q);
    match p {
      case NoHeading => NoHeadingStays(ks, s, e, n, q);
      case NoTable(h) => NoTablePlaceMoves(ks, s, e, n, q, h);
      case Table(h, a, b) => TablePlaceMoves(ks, s, e, n, q, h, a, b);
    }
    LocateAt(Resized(ks, s, e, n), q, MovedPlace(p, s, e, n));
  }

  /** Two headings have one and the same table exactly when one stands right under the other. */
  lemma SharedIffAdjacent(ks: seq<Kind>, k: Kind, q: Kind)
    requires k.Heading() && q.Heading() && k != q && Locate(ks, k).Table? && Locate(ks, q).Table?
    ensures var a, b := Locate(ks, k), Locate(ks, q);
            && a.h != b.h
            && (a.s == b.s <==> a.h == b.h + 1 || b.h == a.h + 1)
            && (a.s == b.s ==> a.e == b.e)
            && (a.s != b.s ==> (a.e <= b.h && a.e < b.s) || (b.e <= a.h && b.e < a.s))
  {
    LocateIs(ks, k);
    LocateIs(ks, q);
    TableIsBlock(ks, k);
    TableIsBlock(ks, q);
    if Locate(ks, k).h < Locate(ks, q).h { Apart(ks, k, q); } else { Apart(ks, q, k); }
  }

  lemma Apart(ks: seq<Kind>, k: Kind, q: Kind)
    requires k.Heading() && q.Heading() && Locate(ks, k).Table? && Locate(ks, q).Table?
    requires Locate(ks, k).h < Locate(ks, q).h
    ensures var a, b := Locate(ks, k), Locate(ks, q);
            if b.h == a.h + 1 then a.s == b.s && a.e == b.e else a.e <= b.h && a.e < b.s
  {
    LocateIs(ks, k);
    LocateIs(ks, q);
    var a, b := Locate(ks, k), Locate(ks, q);
    if b.h == a.h + 1 {
      assert IsTable(ks, a.h + 1, b.s, b.e);
      TableFromAt(ks, a.h + 1, b.s, b.e);
      TableFromAt(ks, a.h + 1, a.s, a.e);
    } else {
      assert ks[b.h].Heading();
      assert a.s < b.h;
      assert a.e <= b.h;
    }
  }
}
