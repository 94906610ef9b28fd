// Writing the tables into the hand-over document and reading them back.
module HandoverRoundTrip {
  import opened Common
  import opened TotalLine
  import opened TextLines
  import opened HandoverShape
  import opened HandoverDoc

  function Spot(lines: seq<string>, k: Kind, w: char -> bool): Place {
    Locate(Kinds(lines, w), k)
  }

  /** The lines of the table of a heading. */
  function TableText(lines: seq<string>, k: Kind, w: char -> bool): Option<seq<string>> {
    match Spot(lines, k, w)
    case Table(h, s, e) => Some(lines[s..e])
    case _ => None
  }

  /** A table and a heading fit to be written for `k`. */
  predicate Writable(k: Kind, table: seq<string>, heading: string, w: char -> bool) {
    && (k.JobHeading? || k.StepHeading?) && table != []
    && (forall i :: 0 <= i < |table| ==> KindOf(table[i], w).Bar?) && KindOf(heading, w) == k
  }

  // ── one rewriting ─────────────────────────────────────────────────────────

  function KindsAfter(ks: seq<Kind>, p: Place, n: nat): seq<Kind>
    requires p.Table? ==> p.s <= p.e <= |ks|
  {
    if p.Table? then Resized(ks, p.s, p.e, n) else ks
  }

  lemma RewriteKinds(lines: seq<string>, k: Kind, table: seq<string>, heading: string, w: char -> bool)
    requires Writable(k, table, heading, w)
    ensures Kinds(Rewrite(lines, k, table, heading, w), w) == KindsAfter(Kinds(lines, w), Spot(lines, k, w), |table|)
  {
    var ks := Kinds(lines, w);
    LocateIs(ks, k);
    hide KindOf, Locate, Kinds;
    var r := Rewrite(lines, k, table, heading, w);
    match Locate(ks, k)
    case NoHeading =>
    case NoTable(h) =>
      assert Kinds(r, w) == ks;
    case Table(h, s, e) => SplicedKinds(lines, h, s, e, table, heading, w);
  }

  lemma SplicedKinds(lines: seq<string>, h: nat, s: nat, e: nat, table: seq<string>, heading: string, w: char -> bool)
    requires h < s <= e <= |lines| && KindOf(heading, w) == Kinds(lines, w)[h]
    requires forall i :: 0 <= i < |table| ==> KindOf(table[i], w).Bar?
    ensures Kinds((lines[..s] + table + lines[e..])[h := heading], w) == Resized(Kinds(lines, w), s, e, |table|)
  {
    hide KindOf, Kinds;
    var ks, r := Kinds(lines, w), (lines[..s] + table + lines[e..])[h := heading];
    var kr, z := Kinds(r, w), Resized(ks, s, e, |table|);
    ResizedAt(ks, s, e, |table|);
    forall i | 0 <= i < |r| ensures kr[i] == z[i] {
      if i >= s + |table| { assert r[i] == lines[i - |table| - s + e]; }
    }
    assert kr == z;
  }

  function After(p: Place, rewritten: Place, n: nat): Place {
    match rewritten
    case Table(h, s, e) => MovedPlace(p, s, e, n)
    case _ => p
  }

  lemma RewriteMoves(lines: seq<string>, k: Kind, table: seq<string>, heading: string, w: char -> bool, q: Kind)
    requires Writable(k, table, heading, w) && q.Heading()
    ensures Spot(Rewrite(lines, k, table, heading, w), q, w) == After(Spot(lines, q, w), Spot(lines, k, w), |table|)
  {
    var ks := Kinds(lines, w);
    hide Locate, Rewrite, Resized;
    RewriteKinds(lines, k, table, heading, w);
    if Locate(ks, k).Table? {
      var Table(h, s, e) := Locate(ks, k);
      TableIsBlock(ks, k);
      LocateResized(ks, s, e, |table|, q);
    }
  }

  predicate Replaced(lines: seq<string>, h: nat, s: nat, e: nat, table: seq<string>, heading: string, r: seq<string>) {
    && h < s <= e <= |lines| && |r| == |lines| - (e - s) + |table| && r[h] == heading
    && (forall i :: 0 <= i < s && i != h ==> r[i] == lines[i])
    && (forall i :: s <= i < s + |table| ==> r[i] == table[i - s])
    && (forall i :: s + |table| <= i < |r| ==> r[i] == lines[i - s - |table| + e])
    && r[s..s + |table|] == table
  }

  /** Where the lines of a rewritten document come from. */
  lemma RewriteAt(lines: seq<string>, k: Kind, table: seq<string>, heading: string, w: char -> bool)
    ensures var p, r := Spot(lines, k, w), Rewrite(lines, k, table, heading, w);
            && (p.NoHeading? ==> r == lines)
            && (p.NoTable? ==> p.h < |lines| && r == lines[p.h := heading])
            && (p.Table? ==> Replaced(lines, p.h, p.s, p.e, table, heading, r))
  {
    hide Locate;
    var r := Rewrite(lines, k, table, heading, w);
    match Spot(lines, k, w)
    case Table(h, s, e) =>
      var t := lines[..s] + table + lines[e..];
      assert t[s..s + |table|] == table;
      assert r[s..s + |table|] == table;
    case _ =>
  }

  lemma TextAfterOwn(lines: seq<string>, k: Kind, table: seq<string>, heading: string, w: char -> bool)
    requires Writable(k, table, heading, w)
    ensures var r := Rewrite(lines, k, table, heading, w);
            TableText(r, k, w) == if Spot(lines, k, w).Table? then Some(table) else None
  {
    hide Locate, Rewrite;
    RewriteMoves(lines, k, table, heading, w, k);
    RewriteAt(lines, k, table, heading, w);
  }

  /** What a slice clear of the replaced lines comes to. */
  lemma SliceKept(lines: seq<string>, h: nat, s: nat, e: nat, table: seq<string>, heading: string, r: seq<string>, a: nat, b: nat)
    requires Replaced(lines, h, s, e, table, heading, r) && a <= b <= |lines| && !(a <= h < b) && (b <= s || e <= a)
    ensures if b <= s then r[a..b] == lines[a..b]
            else r[a - e + s + |table|..b - e + s + |table|] == lines[a..b]
  {
  }

  /** The other table is untouched, unless the two headings share one. */
  lemma TextAfterOther(lines: seq<string>, k: Kind, table: seq<string>, heading: string, w: char -> bool, q: Kind)
    requires Writable(k, table, heading, w) && q.Heading() && q != k
    ensures var r, a, b := Rewrite(lines, k, table, heading, w), Spot(lines, k, w), Spot(lines, q, w);
            TableText(r, q, w) == if a.Table? && b.Table? && a.s == b.s then Some(table) else TableText(lines, q, w)
  {
    hide Locate, Rewrite, Replaced, KindOf, Writable, Kinds, MovedPlace, Moved;
    var a, b := Spot(lines, k, w), Spot(lines, q, w);
    Bars(k, table, heading, w);
    if a.Table? && b.Table? {
      TextAfterTable(lines, k, table, heading, w, q);
    } else {
      RewriteMoves(lines, k, table, heading, w, q);
      RewriteAt(lines, k, table, heading, w);
      TableIsOfBars(lines, q, w);
      TableIsOfBars(lines, k, w);
      if a.NoTable? && b.Table? {
        assert Kinds(lines, w)[a.h].Heading();
        assert Rewrite(lines, k, table, heading, w)[b.s..b.e] == lines[b.s..b.e];
      } else if a.Table? {
        NotATable(b, a.s, a.e, |table|);
      }
    }
  }

  lemma NotATable(p: Place, s: nat, e: nat, n: nat)
    requires !p.Table?
    ensures !MovedPlace(p, s, e, n).Table?
  {
  }

  lemma MovedTable(p: Place, s: nat, e: nat, n: nat)
    requires p.Table? && s <= e
    ensures p.s == s ==> MovedPlace(p, s, e, n).Table? && MovedPlace(p, s, e, n).s == s && MovedPlace(p, s, e, n).e == s + n
    ensures p.s != s && p.h <= p.s <= p.e < s ==> MovedPlace(p, s, e, n) == p
    ensures p.s != s && e <= p.h <= p.s <= p.e ==> MovedPlace(p, s, e, n) == Table(p.h - e + s + n, p.s - e + s + n, p.e - e + s + n)
  {
  }

  lemma TextAfterTable(lines: seq<string>, k: Kind, table: seq<string>, heading: string, w: char -> bool, q: Kind)
    requires Writable(k, table, heading, w) && q.Heading() && q != k && Spot(lines, k, w).Table? && Spot(lines, q, w).Table?
    ensures var r, a, b := Rewrite(lines, k, table, heading, w), Spot(lines, k, w), Spot(lines, q, w);
            TableText(r, q, w) == if a.s == b.s then Some(table) else TableText(lines, q, w)
  {
    hide Locate, Rewrite, Replaced, KindOf, Writable, Kinds, MovedPlace, Moved;
    var ks, r, a, b := Kinds(lines, w), Rewrite(lines, k, table, heading, w), Spot(lines, k, w), Spot(lines, q, w);
    Bars(k, table, heading, w);
    RewriteMoves(lines, k, table, heading, w, q);
    RewriteAt(lines, k, table, heading, w);
    TableIsOfBars(lines, q, w);
    TableIsOfBars(lines, k, w);
    SharedIffAdjacent(ks, k, q);
    MovedTable(b, a.s, a.e, |table|);
    assert ks[a.h].Heading();
    if a.s == b.s {
      OwnSlice(lines, a.h, a.s, a.e, table, heading, r);
    } else {
      SliceKept(lines, a.h, a.s, a.e, table, heading, r, b.s, b.e);
    }
  }

  lemma Bars(k: Kind, table: seq<string>, heading: string, w: char -> bool)
    requires Writable(k, table, heading, w)
    ensures k.Heading() && |table| > 0
  {
  }

  lemma OwnSlice(lines: seq<string>, h: nat, s: nat, e: nat, table: seq<string>, heading: string, r: seq<string>)
    requires Replaced(lines, h, s, e, table, heading, r)
    ensures s + |table| <= |r| && r[s..s + |table|] == table
  {
  }

  /** No heading is inside a table. */
  lemma TableIsOfBars(lines: seq<string>, q: Kind, w: char -> bool)
    requires q.Heading()
    ensures var b := Spot(lines, q, w);
            b.Table? ==> b.h < b.s < b.e <= |lines| && forall i :: b.s <= i < b.e ==> !Kinds(lines, w)[i].Heading()
    ensures var b := Spot(lines, q, w); b.NoTable? || b.Table? ==> b.h < |lines| && Kinds(lines, w)[b.h] == q
  {
    hide Kinds, KindOf, Locate;
    LocateIs(Kinds(lines, w), q);
  }

  // ── the total line ────────────────────────────────────────────────────────

  /** A line that rewriting the table and the heading at `p` leaves alone. */
  predicate Outside(i: nat, p: Place) {
    match p
    case NoHeading => true
    case NoTable(h) => i != h
    case Table(h, s, e) => i != h && !(s <= i < e)
  }

  /** A total stands on a line outside both places. */
  predicate TotalOutside(lines: seq<string>, p: Place, q: Place) {
    exists i :: 0 <= i < |lines| && HasTotal(lines[i]) && Outside(i, p) && Outside(i, q)
  }

  lemma OutsideMoves(ks: seq<Kind>, k: Kind, b: Place, n: nat, i: nat)
    requires k.Heading() && Locate(ks, k).Table? && n > 0
    requires b.NoHeading? || exists q: Kind :: q.Heading() && b == Locate(ks, q)
    requires Outside(i, Locate(ks, k))
    ensures var a := Locate(ks, k); Outside(Moved(i, a.s, a.e, n), MovedPlace(b, a.s, a.e, n)) <==> Outside(i, b)
  {
    hide Locate;
    LocateIs(ks, k);
    if b != NoHeading {
      var q: Kind :| q.Heading() && b == Locate(ks, q);
      LocateIs(ks, q);
      if b.Table? && q != k { SharedIffAdjacent(ks, k, q); }
    }
  }

  predicate NoTotals(table: seq<string>, heading: string) {
    (forall i :: 0 <= i < |table| ==> !HasTotal(table[i])) && !HasTotal(heading)
  }

  /** Rewriting loses exactly the totals that stood where it wrote. */
  lemma TotalsAfter(lines: seq<string>, k: Kind, table: seq<string>, heading: string, w: char -> bool, b: Place)
    requires Writable(k, table, heading, w) && NoTotals(table, heading)
    requires b.NoHeading? || exists q: Kind :: q.Heading() && b == Spot(lines, q, w)
    ensures var r, a := Rewrite(lines, k, table, heading, w), Spot(lines, k, w);
            TotalOutside(r, After(b, a, |table|), NoHeading) <==> TotalOutside(lines, a, b)
  {
    hide Locate, Rewrite, Search, KindOf;
    var r, a := Rewrite(lines, k, table, heading, w), Spot(lines, k, w);
    RewriteAt(lines, k, table, heading, w);
    if a.Table? {
      TotalsAfterTable(lines, k, table, heading, w, b);
    } else {
      assert |r| == |lines| && forall i :: 0 <= i < |r| && Outside(i, a) ==> r[i] == lines[i];
    }
  }

  lemma LineKept(lines: seq<string>, h: nat, s: nat, e: nat, table: seq<string>, heading: string, r: seq<string>, i: nat)
    requires Replaced(lines, h, s, e, table, heading, r) && i < |lines| && i != h && !(s <= i < e)
    ensures var j := Moved(i, s, e, |table|); j < |r| && r[j] == lines[i]
  {
  }

  lemma LineWas(lines: seq<string>, h: nat, s: nat, e: nat, table: seq<string>, heading: string, r: seq<string>, j: nat) returns (i: nat)
    requires Replaced(lines, h, s, e, table, heading, r) && NoTotals(table, heading) && j < |r| && HasTotal(r[j])
    ensures i < |lines| && i != h && !(s <= i < e) && lines[i] == r[j] && Moved(i, s, e, |table|) == j
  {
    hide Search;
    assert j < s || s + |table| <= j;
    i := if j < s then j else j - s - |table| + e;
  }

  lemma TotalKept(lines: seq<string>, k: Kind, table: seq<string>, heading: string, w: char -> bool, b: Place, i: nat)
    requires Writable(k, table, heading, w) && Spot(lines, k, w).Table?
    requires b.NoHeading? || exists q: Kind :: q.Heading() && b == Spot(lines, q, w)
    requires i < |lines| && HasTotal(lines[i]) && Outside(i, Spot(lines, k, w)) && Outside(i, b)
    ensures TotalOutside(Rewrite(lines, k, table, heading, w), After(b, Spot(lines, k, w), |table|), NoHeading)
  {
    hide Locate, Rewrite, Search, KindOf, MovedPlace, Replaced, Moved;
    var a := Spot(lines, k, w);
    RewriteAt(lines, k, table, heading, w);
    OutsideMoves(Kinds(lines, w), k, b, |table|, i);
    LineKept(lines, a.h, a.s, a.e, table, heading, Rewrite(lines, k, table, heading, w), i);
  }

  lemma TotalWas(lines: seq<string>, k: Kind, table: seq<string>, heading: string, w: char -> bool, b: Place, j: nat)
    requires Writable(k, table, heading, w) && NoTotals(table, heading) && Spot(lines, k, w).Table?
    requires b.NoHeading? || exists q: Kind :: q.Heading() && b == Spot(lines, q, w)
    requires var r := Rewrite(lines, k, table, heading, w);
             j < |r| && HasTotal(r[j]) && Outside(j, After(b, Spot(lines, k, w), |table|))
    ensures TotalOutside(lines, Spot(lines, k, w), b)
  {
    hide Locate, Rewrite, Search, KindOf, MovedPlace, Replaced, Moved;
    var a := Spot(lines, k, w);
    RewriteAt(lines, k, table, heading, w);
    var i := LineWas(lines, a.h, a.s, a.e, table, heading, Rewrite(lines, k, table, heading, w), j);
    OutsideMoves(Kinds(lines, w), k, b, |table|, i);
  }

  lemma TotalsAfterTable(lines: seq<string>, k: Kind, table: seq<string>, heading: string, w: char -> bool, b: Place)
    requires Writable(k, table, heading, w) && NoTotals(table, heading) && Spot(lines, k, w).Table?
    requires b.NoHeading? || exists q: Kind :: q.Heading() && b == Spot(lines, q, w)
    ensures var r, a := Rewrite(lines, k, table, heading, w), Spot(lines, k, w);
            TotalOutside(r, After(b, a, |table|), NoHeading) <==> TotalOutside(lines, a, b)
  {
    hide Locate, Rewrite, Search, Writable, NoTotals, After, Outside;
    var r, a := Rewrite(lines, k, table, heading, w), Spot(lines, k, w);
    var c := After(b, a, |table|);
    if TotalOutside(lines, a, b) {
      var i :| 0 <= i < |lines| && HasTotal(lines[i]) && Outside(i, a) && Outside(i, b);
      TotalKept(lines, k, table, heading, w, b, i);
    }
    if TotalOutside(r, c, NoHeading) {
      var j :| 0 <= j < |r| && HasTotal(r[j]) && Outside(j, c) && Outside(j, NoHeading);
      TotalWas(lines, k, table, heading, w, b, j);
    }
  }

  // ── substituting the totals ───────────────────────────────────────────────

  lemma FrontSame(s: string, t: string, k: nat)
    requires Cut(s) == Cut(t) && k <= |s| && 'j' !in s[..k]
    ensures k <= |t| && t[..k] == s[..k] && (k < |s| <==> k < |t|) && (k < |s| ==> s[k] == t[k])
  {
    SameFront(s, t, k);
    CutFirst(s[k..]);
    CutFirst(t[k..]);
  }

  lemma TitledSame(s: string, t: string, title: string, w: char -> bool)
    requires Cut(s) == Cut(t) && 'j' !in title
    ensures Titled(s, title, w) <==> Titled(t, title, w)
  {
    if title <= s {
      assert s[..|title|] == title;
      FrontSame(s, t, |title|);
    } else if title <= t {
      assert t[..|title|] == title;
      FrontSame(t, s, |title|);
    }
  }

  /** Substituting totals leaves every line the kind of line it was. */
  lemma SubKeepsKind(l: string, r: string, w: char -> bool)
    requires r != "" && r[0] == 'j'
    ensures KindOf(Sub(l, r), w) == KindOf(l, w)
  {
    SubKeepsCut(l, r);
    TitledSame(l, Sub(l, r), JOB, w);
    TitledSame(l, Sub(l, r), STEP, w);
    CutFirst(l);
    CutFirst(Sub(l, r));
  }

  lemma SubEachKinds(lines: seq<string>, r: string, w: char -> bool)
    requires r != "" && r[0] == 'j'
    ensures Kinds(SubEach(lines, r), w) == Kinds(lines, w)
  {
    hide KindOf, Sub;
    forall i | 0 <= i < |lines| ensures KindOf(SubEach(lines, r)[i], w) == KindOf(lines[i], w) {
      SubKeepsKind(lines[i], r, w);
    }
  }

  lemma SubEachText(lines: seq<string>, r: string, k: Kind, w: char -> bool)
    requires r != "" && r[0] == 'j'
    ensures var a, b := TableText(lines, k, w), TableText(SubEach(lines, r), k, w);
            (a.None? <==> b.None?) && (a.Some? ==> b.value == SubEach(a.value, r))
  {
    hide KindOf, Sub, Locate, Kinds, SubEach;
    SubEachKinds(lines, r, w);
    var all := SubEach(lines, r);
    match Spot(lines, k, w)
    case Table(h, s, e) => assert all[s..e] == SubEach(lines[s..e], r);
    case _ =>
  }
}
