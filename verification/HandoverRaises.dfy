// Documents on which `parse_doc` raises, one for each way: minutes that are digits and no decimal
// ones, minutes with too many digits, and a total with too many.
module HandoverRaises {
  import opened Common
  import opened Decimal
  import opened PythonText
  import opened TotalLine
  import opened TextLines
  import opened MarkdownRow
  import opened HandoverShape
  import opened HandoverDoc
  import opened HandoverTheorems

  /** A table of one job. */
  function OneJobLines(minutes: string): seq<string> {
    [JOB, "|", "|", RenderRow(["a", "b", minutes])]
  }

  function OneJob(minutes: string): string {
    Join(OneJobLines(minutes))
  }

  lemma NumeralsArePlain(minutes: string)
    requires AllNumerals(minutes)
    ensures OneLine(minutes) && Strip(minutes) == minutes && !HasTotal(minutes)
  {
    DigitsAreTrimmed(minutes);
    NoJNoTotal(minutes);
  }

  lemma FrontIsPlain()
    ensures OneLine(JOB) && !HasTotal(JOB) && OneLine("|") && !HasTotal("|")
  {
    hide Search;
    NoJNoTotal(JOB);
    NoJNoTotal("|");
  }

  lemma OneJobRowIsPlain(minutes: string)
    requires AllNumerals(minutes)
    ensures var row := RenderRow(["a", "b", minutes]); OneLine(row) && !HasTotal(row)
  {
    NumeralsArePlain(minutes);
    LetterFits("a");
    LetterFits("b");
    hide Strip, Search, RenderRow, OneLine, AllNumerals;
    CleanRow(["a", "b", minutes]);
  }

  lemma OneJobIsLines(minutes: string)
    requires AllNumerals(minutes)
    ensures Split(OneJob(minutes)) == OneJobLines(minutes) && Search(OneJob(minutes)) == None
  {
    var lines := OneJobLines(minutes);
    FrontIsPlain();
    OneJobRowIsPlain(minutes);
    hide Search, RenderRow, Split, Join, OneLine, AllNumerals, JOB;
    forall i | 0 <= i < |lines| ensures OneLine(lines[i]) && !HasTotal(lines[i]) {}
    SplitJoin(lines);
    SearchJoin(lines);
  }

  lemma OneJobTables(minutes: string, w: char -> bool)
    requires Wordlike(w)
    ensures TableRows(OneJobLines(minutes), JobHeading, w) == [RenderRow(["a", "b", minutes])]
    ensures TableRows(OneJobLines(minutes), StepHeading, w) == []
  {
    var row := RenderRow(["a", "b", minutes]);
    assert KindOf(row, w) == Bar;
    hide RenderRow, Locate;
    var lines := OneJobLines(minutes);
    var ks := Kinds(lines, w);
    assert ks == [JobHeading, Bar, Bar, Bar];
    LocateAt(ks, JobHeading, Table(0, 1, 4));
    LocateAt(ks, StepHeading, NoHeading);
    hide Kinds;
    assert lines[3..4] == [row];
  }

  /** Minutes that pass for digits make `parse_doc` raise exactly when `int` does not take them. */
  lemma OneJobRaisesIff(minutes: string, w: char -> bool)
    requires Wordlike(w) && AllNumerals(minutes)
    ensures Reading(OneJob(minutes), w) == None <==> !IntReads(minutes)
  {
    OneJobRowRaisesIff(minutes);
    OneJobIsLines(minutes);
    OneJobTables(minutes, w);
    hide OneJobLines, OneJob, Search, Split, TableRows, RenderRow, JobRaises, AllNumerals, IntReads;
    var rows := [RenderRow(["a", "b", minutes])];
    assert rows[0] == RenderRow(["a", "b", minutes]);
  }

  lemma OneJobRowRaisesIff(minutes: string)
    requires AllNumerals(minutes)
    ensures JobRaises(RenderRow(["a", "b", minutes])) <==> !IntReads(minutes)
  {
    NumeralsArePlain(minutes);
    LetterFits("a");
    LetterFits("b");
    hide Strip, Search, SplitRow, RenderRow, IntReads;
    SplitRendered(["a", "b", minutes]);
  }

  /** It raises on every digit that is not decimal. */
  lemma OtherDigitRaises(c: char, w: char -> bool)
    requires Wordlike(w) && DIGITS(c).OtherDigit?
    ensures Reading(OneJob([c]), w) == None
  {
    assert !IsDecimal([c][0]) && IsNumeral(c);
    hide Reading, OneJob;
    OneJobRaisesIff([c], w);
  }

  /** "²" is one. */
  lemma SquaredRaises(w: char -> bool)
    requires Wordlike(w)
    ensures Reading(OneJob("²"), w) == None
  {
    hide Reading, OneJob;
    OtherDigitRaises('²', w);
    assert "²" == ['²'];
  }

  /** Of minutes in plain digits, it raises on exactly those that are too long. */
  lemma LongMinutesRaiseIff(n: nat, w: char -> bool)
    requires Wordlike(w)
    ensures Reading(OneJob(Dec(n)), w) == None <==> !Short(n)
  {
    IntOfDec(n);
    hide Reading, OneJob;
    OneJobRaisesIff(Dec(n), w);
  }

  /** A total on a line of its own makes it raise exactly when one of its numbers is too long. */
  lemma LongTotalRaisesIff(m: nat, n: nat, w: char -> bool)
    requires Wordlike(w)
    ensures Reading(Total(m, n), w) == None <==> !Short(m + n)
  {
    var t := Total(m, n);
    TotalIsOneLine(m, n);
    TotalMatches(m, n, "");
    assert t + "" == t && t[..|t|] == t;
    assert Search(t) == Some(t);
    TotalHasLongIff(m, n);
    hide Search, Total, HasLong, Locate;
    SplitLine(t, "");
    var ks := Kinds([t], w);
    assert ks == [Plain];
    LocateAt(ks, JobHeading, NoHeading);
    LocateAt(ks, StepHeading, NoHeading);
  }

  function Ten(k: nat): nat {
    if k == 0 then 1 else 10 * Ten(k - 1)
  }

  lemma {:induction false} TenHasDigits(k: nat)
    ensures Ten(k) > 0 && |Dec(Ten(k))| == k + 1
  {
    if k > 0 { TenHasDigits(k - 1); }
  }

  /** There are numbers as long as that. */
  lemma SomeNumberIsLong()
    ensures !Short(Ten(LIMIT)) && Short(Ten(LIMIT - 1))
  {
    TenHasDigits(LIMIT);
    TenHasDigits(LIMIT - 1);
  }
}
