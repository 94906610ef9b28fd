// One row of a Markdown table, written and read (scripts/handover_timeouts.py,
// `cell`, `uncell`, `split_row` and the row templates of `render_jobs` and
// `render_steps`).
module MarkdownRow {
  import opened PythonText
  import opened TotalLine

  function TrimLeft(s: string, p: char -> bool): string {
    if s != "" && p(s[0]) then TrimLeft(s[1..], p) else s
  }

  function TrimRight(s: string, p: char -> bool): string {
    if s != "" && p(s[|s| - 1]) then TrimRight(s[..|s| - 1], p) else s
  }

  /** `strip()`. */
  function Strip(s: string): string {
    TrimRight(TrimLeft(s, IsSpace), IsSpace)
  }

  function IsBar(): char -> bool {
    c => c == '|'
  }

  /** `strip('|')`. */
  function StripBars(s: string): string {
    TrimRight(TrimLeft(s, IsBar()), IsBar())
  }

  /** `cell`: every bar is written with a backslash before it. */
  function Cell(text: string): string {
    if text == "" then "" else CellChar(text[0]) + Cell(text[1..])
  }

  function CellChar(c: char): string {
    if c == '|' then "\\|" else [c]
  }

  /** `uncell`: left to right, a backslash and a bar become a bar. */
  function Uncell(text: string): string {
    if text == "" then ""
    else if "\\|" <= text then "|" + Uncell(text[2..])
    else [text[0]] + Uncell(text[1..])
  }

  /** `re.split(r'(?<!\\)\|', s)`; `escaped` says the character before `s` is a backslash. */
  function SplitBars(s: string, escaped: bool): (cells: seq<string>)
    ensures cells != []
  {
    if s == "" then [""]
    else if s[0] == '|' && !escaped then [""] + SplitBars(s[1..], false)
    else
      var rest := SplitBars(s[1..], s[0] == '\\');
      [[s[0]] + rest[0]] + rest[1..]
  }

  function ReadCells(cells: seq<string>): (r: seq<string>)
    ensures |r| == |cells| && forall i :: 0 <= i < |r| ==> r[i] == Uncell(Strip(cells[i]))
  {
    if cells == [] then [] else [Uncell(Strip(cells[0]))] + ReadCells(cells[1..])
  }

  /** `split_row`. */
  function SplitRow(row: string): seq<string> {
    ReadCells(SplitBars(StripBars(Strip(row)), false))
  }

  /** The row as the templates write it. */
  function RenderRow(cells: seq<string>): string {
    "|" + RenderCells(cells)
  }

  function RenderCells(cells: seq<string>): string {
    if cells == [] then "" else " " + (Cell(cells[0]) + (" |" + RenderCells(cells[1..])))
  }

  function StripAll(cells: seq<string>): (r: seq<string>)
    ensures |r| == |cells| && forall i :: 0 <= i < |r| ==> r[i] == Strip(cells[i])
  {
    if cells == [] then [] else [Strip(cells[0])] + StripAll(cells[1..])
  }

  // ── escaping ──────────────────────────────────────────────────────────────

  lemma CellStart(text: string)
    ensures Cell(text) == "" <==> text == ""
    ensures text != "" ==> Cell(text)[0] != '|' && (Cell(text)[0] == text[0] || (text[0] == '|' && Cell(text)[0] == '\\'))
  {
  }

  /** Reading an escaped cell gives the text back, backslashes and bars and all. */
  lemma {:induction false} UncellCell(text: string)
    ensures Uncell(Cell(text)) == text
  {
    if text != "" {
      UncellCell(text[1..]);
      CellStart(text[1..]);
      var rest := Cell(text[1..]);
      if text[0] == '|' {
        assert ("\\|" + rest)[2..] == rest;
      } else {
        assert ([text[0]] + rest)[1..] == rest;
        assert rest != "" ==> ([text[0]] + rest)[1] == rest[0] != '|';
      }
    }
  }

  /** Escaping puts a backslash before every bar, and changes nothing else. */
  lemma BarsAreEscaped(a: string, b: string)
    requires '|' !in a
    ensures Cell(a) == a && Cell(a + "|" + b) == a + "\\|" + Cell(b)
  {
    CellOfNoBar(a);
    CellAppend(a, "|" + b);
    assert a + "|" + b == a + ("|" + b) && ("|" + b)[1..] == b;
  }

  lemma {:induction false} CellOfNoBar(a: string)
    requires '|' !in a
    ensures Cell(a) == a
  {
    if a != "" { CellOfNoBar(a[1..]); }
  }

  lemma {:induction false} CellAppend(a: string, b: string)
    ensures Cell(a + b) == Cell(a) + Cell(b)
  {
    if a == "" {
      assert a + b == b;
    } else {
      assert (a + b)[1..] == a[1..] + b;
      CellAppend(a[1..], b);
    }
  }

  // ── stripping ─────────────────────────────────────────────────────────────

  lemma {:induction false} TrimLeftCell(text: string)
    ensures TrimLeft(Cell(text), IsSpace) == Cell(TrimLeft(text, IsSpace))
  {
    if text != "" && IsSpace(text[0]) {
      assert Cell(text)[1..] == Cell(text[1..]);
      TrimLeftCell(text[1..]);
    } else {
      CellStart(text);
    }
  }

  lemma {:induction false} TrimRightCell(text: string)
    ensures TrimRight(Cell(text), IsSpace) == Cell(TrimRight(text, IsSpace))
  {
    if text != "" {
      var n := |text| - 1;
      assert text == text[..n] + [text[n]];
      CellAppend(text[..n], [text[n]]);
      assert Cell([text[n]]) == CellChar(text[n]) + "";
      if IsSpace(text[n]) {
        assert Cell(text)[..|Cell(text)| - 1] == Cell(text[..n]);
        TrimRightCell(text[..n]);
      }
    }
  }

  /** White space added outside makes no difference. */
  lemma StripPadded(s: string)
    ensures Strip(" " + s + " ") == Strip(s)
  {
    var t := " " + s + " ";
    assert t[1..] == s + " ";
    TrimLeftPadded(s);
    var u := TrimLeft(s, IsSpace);
    if u != "" {
      assert (u + " ")[..|u + " "| - 1] == u;
    } else {
      assert TrimRight("", IsSpace) == "";
    }
  }

  lemma {:induction false} TrimLeftPadded(s: string)
    ensures TrimLeft(s + " ", IsSpace) == var u := TrimLeft(s, IsSpace); if u == "" then "" else u + " "
  {
    if s == "" {
      assert s + " " == " ";
      assert " "[1..] == "";
    } else if IsSpace(s[0]) {
      assert (s + " ")[1..] == s[1..] + " ";
      TrimLeftPadded(s[1..]);
    }
  }

  lemma ReadCell(text: string)
    ensures Uncell(Strip(" " + Cell(text) + " ")) == Strip(text)
  {
    StripPadded(Cell(text));
    TrimLeftCell(text);
    TrimRightCell(TrimLeft(text, IsSpace));
    UncellCell(Strip(text));
  }

  // ── splitting ─────────────────────────────────────────────────────────────

  /** The split of a text that starts with `a`, given the split of the rest. */
  function Onto(a: string, cells: seq<string>): seq<string>
    requires cells != []
  {
    [a + cells[0]] + cells[1..]
  }

  lemma OntoTwice(a: string, b: string, cells: seq<string>)
    requires cells != []
    ensures Onto(a, Onto(b, cells)) == Onto(a + b, cells)
    ensures Onto("", cells) == cells
  {
    assert a + (b + cells[0]) == (a + b) + cells[0];
    assert "" + cells[0] == cells[0];
  }

  lemma SplitChar(c: char, s: string, escaped: bool)
    ensures c != '|' || escaped ==> SplitBars([c] + s, escaped) == Onto([c], SplitBars(s, c == '\\'))
    ensures c == '|' && !escaped ==> SplitBars([c] + s, escaped) == [""] + SplitBars(s, false)
    ensures SplitBars("", escaped) == [""]
  {
    assert ([c] + s)[1..] == s;
  }

  lemma CellUnfolds(text: string)
    ensures Cell(text) ==
              if text == "" then ""
              else if text[0] == '|' then ['\\'] + (['|'] + Cell(text[1..]))
              else [text[0]] + Cell(text[1..])
  {
  }

  lemma AppendsOnce(c: char, s: string, t: string)
    ensures [c] + s + t == [c] + (s + t)
  {
  }

  lemma AppendsTwice(c: char, d: char, s: string, t: string)
    ensures [c] + ([d] + s) + t == [c] + ([d] + (s + t))
  {
  }

  /** No bar of an escaped cell splits it. */
  lemma {:induction false} SplitPastCell(text: string, t: string, escaped: bool)
    requires t != "" && t[0] == ' '
    ensures SplitBars(Cell(text) + t, escaped) == Onto(Cell(text), SplitBars(t, false))
  {
    hide SplitBars, Onto, Cell, CellChar;
    CellUnfolds(text);
    if text == "" {
      assert t == [' '] + t[1..] && Cell(text) + t == t;
      SplitChar(' ', t[1..], escaped);
      SplitChar(' ', t[1..], false);
      OntoTwice("", "", SplitBars(t, false));
    } else {
      var rest := Cell(text[1..]);
      SplitPastCell(text[1..], t, text[0] == '\\');
      if text[0] == '|' {
        AppendsTwice('\\', '|', rest, t);
        SplitChar('|', rest + t, true);
        SplitChar('\\', ['|'] + (rest + t), escaped);
        OntoTwice(['|'], rest, SplitBars(t, false));
        OntoTwice(['\\'], ['|'] + rest, SplitBars(t, false));
      } else {
        AppendsOnce(text[0], rest, t);
        SplitChar(text[0], rest + t, escaped);
        OntoTwice([text[0]], rest, SplitBars(t, false));
      }
    }
  }

  function Padded(cells: seq<string>): (r: seq<string>)
    ensures |r| == |cells| && forall i :: 0 <= i < |r| ==> r[i] == " " + Cell(cells[i]) + " "
  {
    if cells == [] then [] else [" " + Cell(cells[0]) + " "] + Padded(cells[1..])
  }

  /** What is left of a row once its outer bars are stripped. */
  function Inside(cells: seq<string>): (s: string)
    requires cells != []
    ensures s != "" && s[0] == s[|s| - 1] == ' '
  {
    " " + (Cell(cells[0]) + (" " + if |cells| == 1 then "" else "|" + Inside(cells[1..])))
  }

  lemma {:induction false} InsideIs(cells: seq<string>)
    requires cells != []
    ensures RenderCells(cells) == Inside(cells) + "|"
  {
    hide Cell;
    var c := Cell(cells[0]);
    var after := if |cells| == 1 then "" else "|" + Inside(cells[1..]);
    if |cells| == 1 {
      assert RenderCells(cells[1..]) == "";
    } else {
      InsideIs(cells[1..]);
    }
    assert " |" + RenderCells(cells[1..]) == (" " + after) + "|";
    assert c + ((" " + after) + "|") == (c + (" " + after)) + "|";
    assert " " + ((c + (" " + after)) + "|") == (" " + (c + (" " + after))) + "|";
  }

  lemma InsideUnfolds(cells: seq<string>, after: string)
    requires cells != [] && after == if |cells| == 1 then "" else ['|'] + Inside(cells[1..])
    ensures Inside(cells) == [' '] + (Cell(cells[0]) + ([' '] + after))
  {
    hide Cell;
    assert [' '] == " ";
  }

  lemma {:induction false} SplitInside(cells: seq<string>)
    requires cells != []
    ensures SplitBars(Inside(cells), false) == Padded(cells)
  {
    hide SplitBars, Onto, Cell, Inside;
    var c := Cell(cells[0]);
    var after := if |cells| == 1 then "" else ['|'] + Inside(cells[1..]);
    assert SplitBars(after, false) == [""] + Padded(cells[1..]) by {
      if |cells| == 1 {
        SplitChar('|', "", false);
        assert Padded(cells[1..]) == [];
      } else {
        SplitInside(cells[1..]);
        SplitChar('|', Inside(cells[1..]), false);
      }
    }
    var rest := [' '] + after;
    InsideUnfolds(cells, after);
    SplitChar(' ', after, false);
    SplitPastCell(cells[0], rest, false);
    SplitChar(' ', c + rest, false);
    OntoTwice(c, [' '], SplitBars(after, false));
    OntoTwice([' '], c + [' '], SplitBars(after, false));
    OntoPadded(c, Padded(cells[1..]));
  }

  lemma OntoPadded(c: string, rest: seq<string>)
    ensures Onto([' '] + (c + [' ']), [""] + rest) == [" " + c + " "] + rest
  {
    assert [' '] + (c + [' ']) + "" == " " + c + " ";
    assert ([""] + rest)[1..] == rest;
  }

  lemma StripBarsOf(inside: string)
    requires inside != "" && inside[0] == inside[|inside| - 1] == ' '
    ensures StripBars(Strip("|" + inside + "|")) == inside
  {
    var row := "|" + inside + "|";
    assert TrimRight(row, IsSpace) == row;
    assert Strip(row) == row;
    assert row[1..] == inside + "|";
    assert TrimLeft(inside + "|", IsBar()) == inside + "|";
    assert TrimLeft(row, IsBar()) == inside + "|";
    assert TrimRight(inside, IsBar()) == inside;
    assert (inside + "|")[..|inside + "|"| - 1] == inside;
  }

  /** Reading back a written row gives its cells, stripped. */
  lemma SplitRendered(cells: seq<string>)
    requires cells != []
    ensures SplitRow(RenderRow(cells)) == StripAll(cells)
  {
    hide Strip, StripBars, SplitBars;
    InsideIs(cells);
    assert RenderRow(cells) == "|" + Inside(cells) + "|";
    StripBarsOf(Inside(cells));
    SplitInside(cells);
    forall i | 0 <= i < |cells| ensures Uncell(Strip(Padded(cells)[i])) == Strip(cells[i]) {
      ReadCell(cells[i]);
    }
  }

  /** So a row comes back as it was exactly when no cell has white space outside. */
  lemma RowComesBackIff(cells: seq<string>)
    requires cells != []
    ensures SplitRow(RenderRow(cells)) == cells <==> forall i :: 0 <= i < |cells| ==> Strip(cells[i]) == cells[i]
  {
    hide Strip, SplitRow, RenderRow;
    SplitRendered(cells);
  }

  // ── what a written row may hold ───────────────────────────────────────────

  lemma {:induction false} CellHolds(text: string, c: char)
    requires c != '|' && c != '\\'
    ensures c in Cell(text) <==> c in text
  {
    if text != "" { CellHolds(text[1..], c); }
  }

  /** A written row is one line exactly when every cell is. */
  lemma {:induction false} RowIsOneLine(cells: seq<string>)
    ensures '\n' !in RenderCells(cells) <==> forall i :: 0 <= i < |cells| ==> '\n' !in cells[i]
    ensures '\n' !in RenderRow(cells) <==> '\n' !in RenderCells(cells)
  {
    if cells != [] {
      CellHolds(cells[0], '\n');
      RowIsOneLine(cells[1..]);
    }
  }

  lemma {:induction false} CellWithoutBars(text: string)
    requires '|' !in text
    ensures Cell(text) == text
  {
    if text != "" { CellWithoutBars(text[1..]); }
  }

  lemma {:induction false} FirstBar(text: string) returns (a: string, b: string)
    requires '|' in text
    ensures text == a + ['|'] + b && '|' !in a
  {
    if text[0] == '|' {
      a, b := "", text[1..];
    } else {
      a, b := FirstBar(text[1..]);
      a := [text[0]] + a;
    }
  }

  lemma CellAtBar(a: string, b: string)
    requires '|' !in a
    ensures Cell(a + ['|'] + b) == a + ['\\'] + (['|'] + Cell(b))
  {
    hide Cell;
    assert a + ['|'] + b == a + (['|'] + b);
    CellAppend(a, ['|'] + b);
    CellWithoutBars(a);
    CellOfBar(b);
  }

  lemma CellOfBar(b: string)
    ensures Cell(['|'] + b) == ['\\'] + (['|'] + Cell(b))
  {
    assert (['|'] + b)[1..] == b;
  }

  lemma BarsAreForeign()
    ensures Foreign('|') && Foreign('\\')
  {
  }

  /** Escaping neither makes nor hides a total line. */
  lemma {:induction false} CellHasTotal(text: string)
    ensures Search(Cell(text)).Some? <==> Search(text).Some?
    decreases |text|
  {
    hide Search, Cell;
    if '|' in text {
      var a, b := FirstBar(text);
      CellAtBar(a, b);
      BarsAreForeign();
      NoCellNoTotal();
      hide Foreign;
      SearchApart(a, '|', b);
      SearchApart(a, '\\', ['|'] + Cell(b));
      SearchApart("", '|', Cell(b));
      assert "" + ['|'] + Cell(b) == ['|'] + Cell(b);
      CellHasTotal(b);
    } else {
      CellWithoutBars(text);
    }
  }

  lemma NoCellNoTotal()
    ensures Search("").None? && RenderCells([]) == ""
  {
  }

  /** A written row holds a total line exactly when one of its cells does. */
  lemma {:induction false} RowHasTotalIff(cells: seq<string>)
    ensures Search(RenderRow(cells)).Some? <==> exists i :: 0 <= i < |cells| && Search(cells[i]).Some?
  {
    hide Search, Cell;
    if cells == [] { NoCellNoTotal(); }
    var inner := RenderCells(cells);
    assert "" + ['|'] + inner == RenderRow(cells);
    SearchApart("", '|', inner);
    if cells == [] {
    } else {
      var c := " " + (Cell(cells[0]) + " ");
      assert inner == c + ['|'] + RenderCells(cells[1..]);
      SearchApart(c, '|', RenderCells(cells[1..]));
      SearchPadded(Cell(cells[0]));
      CellHasTotal(cells[0]);
      RowHasTotalIff(cells[1..]);
      assert "" + ['|'] + RenderCells(cells[1..]) == RenderRow(cells[1..]);
      SearchApart("", '|', RenderCells(cells[1..]));
    }
  }

  /** Substituting a total inside a written cell is writing the cell substituted. */
  lemma {:induction false} SubCell(text: string, r: string)
    requires '|' !in r
    ensures Sub(Cell(text), r) == Cell(Sub(text, r))
    decreases |text|
  {
    hide Sub, Cell;
    BarsAreForeign();
    NothingSubstituted(r);
    hide Foreign;
    if '|' in text {
      var a, b := FirstBar(text);
      CellAtBar(a, b);
      SubApart(a, '|', b, r);
      SubApart(a, '\\', ['|'] + Cell(b), r);
      SubApart("", '|', Cell(b), r);
      assert "" + ['|'] + Cell(b) == ['|'] + Cell(b) && "" + ['|'] + Sub(Cell(b), r) == ['|'] + Sub(Cell(b), r);
      SubCell(b, r);
      SubHolds(a, r, '|');
      CellAtBar(Sub(a, r), Sub(b, r));
    } else {
      CellWithoutBars(text);
      SubHolds(text, r, '|');
      CellWithoutBars(Sub(text, r));
    }
  }

  lemma NothingSubstituted(r: string)
    ensures Sub("", r) == ""
  {
  }

  lemma RenderUnfolds(cells: seq<string>)
    requires cells != []
    ensures RenderCells(cells) == " " + (Cell(cells[0]) + " ") + ['|'] + RenderCells(cells[1..])
  {
  }

  lemma NoCellsRendered()
    ensures RenderCells([]) == ""
  {
  }

  lemma {:induction false} SubCells(cells: seq<string>, subbed: seq<string>, r: string)
    requires '|' !in r && |subbed| == |cells| && forall i :: 0 <= i < |cells| ==> subbed[i] == Sub(cells[i], r)
    ensures Sub(RenderCells(cells), r) == RenderCells(subbed)
  {
    hide Sub, Cell, RenderCells;
    NothingSubstituted(r);
    NoCellsRendered();
    BarsAreForeign();
    hide Foreign;
    if cells != [] {
      RenderUnfolds(cells);
      RenderUnfolds(subbed);
      SubApart(" " + (Cell(cells[0]) + " "), '|', RenderCells(cells[1..]), r);
      SubPadded(Cell(cells[0]), r);
      SubCell(cells[0], r);
      SubCells(cells[1..], subbed[1..], r);
    } else {
      assert subbed == [];
    }
  }

  /** Substituting a total inside a written row is writing the row of the cells substituted. */
  lemma SubRow(cells: seq<string>, subbed: seq<string>, r: string)
    requires '|' !in r && |subbed| == |cells| && forall i :: 0 <= i < |cells| ==> subbed[i] == Sub(cells[i], r)
    ensures Sub(RenderRow(cells), r) == RenderRow(subbed)
  {
    hide Sub, Cell, RenderCells;
    BarsAreForeign();
    NothingSubstituted(r);
    SubCells(cells, subbed, r);
    SubApart("", '|', RenderCells(cells), r);
    assert "" + ['|'] + RenderCells(cells) == RenderRow(cells) && "" + ['|'] + RenderCells(subbed) == RenderRow(subbed);
  }
}
