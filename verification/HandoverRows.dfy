// Which rows come back from a document that is ready: exactly those that a table can carry.
module HandoverRows {
  import opened Common
  import opened PythonText
  import opened TotalLine
  import opened TextLines
  import opened MarkdownRow
  import opened HandoverShape
  import opened HandoverDoc
  import opened HandoverRoundTrip
  import opened HandoverTheorems

  // ── what written rows read as ─────────────────────────────────────────────

  function JobRead(r: JobRow): Option<JobRow> {
    if r.minutes >= 0 then Some(JobRow(Strip(r.file), Strip(r.job), r.minutes)) else None
  }

  function StepRead(r: StepRow): Option<StepRow> {
    if r.minutes >= 0 then Some(StepRow(Strip(r.file), Strip(r.job), Strip(r.step), r.minutes)) else None
  }

  function JobsRead(rows: seq<JobRow>): seq<JobRow> {
    if rows == [] then []
    else (match JobRead(rows[0]) case Some(r) => [r] case None => []) + JobsRead(rows[1..])
  }

  function StepsRead(rows: seq<StepRow>): seq<StepRow> {
    if rows == [] then []
    else (match StepRead(rows[0]) case Some(r) => [r] case None => []) + StepsRead(rows[1..])
  }

  lemma JobReads(r: JobRow)
    ensures ParseJob(RenderRow(JobCells(r))) == JobRead(r)
  {
    hide SplitRow, RenderRow, Strip, IntOf;
    SplitRendered(JobCells(r));
    DecIntReads(r.minutes);
  }

  lemma StepReads(r: StepRow)
    ensures ParseStep(RenderRow(StepCells(r))) == StepRead(r)
  {
    hide SplitRow, RenderRow, Strip, IntOf;
    SplitRendered(StepCells(r));
    DecIntReads(r.minutes);
  }

  lemma {:induction false} JobsReadBack(rows: seq<JobRow>)
    ensures ParseJobs(RenderJobRows(rows)) == JobsRead(rows)
  {
    hide ParseJob, RenderRow, JobRead;
    if rows != [] {
      JobReads(rows[0]);
      JobsReadBack(rows[1..]);
      assert RenderJobRows(rows)[1..] == RenderJobRows(rows[1..]);
    }
  }

  lemma {:induction false} StepsReadBack(rows: seq<StepRow>)
    ensures ParseSteps(RenderStepRows(rows)) == StepsRead(rows)
  {
    hide ParseStep, RenderRow, StepRead;
    if rows != [] {
      StepReads(rows[0]);
      StepsReadBack(rows[1..]);
      assert RenderStepRows(rows)[1..] == RenderStepRows(rows[1..]);
    }
  }

  lemma {:induction false} JobsReadAre(rows: seq<JobRow>, jobs: seq<JobRow>)
    requires |jobs| == |rows|
    ensures |JobsRead(rows)| <= |rows|
    ensures JobsRead(rows) == jobs <==> forall i :: 0 <= i < |rows| ==> JobRead(rows[i]) == Some(jobs[i])
  {
    hide JobRead;
    if rows != [] {
      JobsReadAre(rows[1..], jobs[1..]);
      var more := JobsRead(rows[1..]);
      if JobRead(rows[0]).Some? {
        var first := JobRead(rows[0]).value;
        assert JobsRead(rows) == [first] + more && jobs == [jobs[0]] + jobs[1..];
        assert ([first] + more)[1..] == more;
        assert (forall i :: 0 <= i < |rows| ==> JobRead(rows[i]) == Some(jobs[i]))
            <==> first == jobs[0] && forall i :: 0 <= i < |rows| - 1 ==> JobRead(rows[1..][i]) == Some(jobs[1..][i])
          by { TailJobs(rows, jobs); }
      }
    }
  }

  lemma TailJobs(rows: seq<JobRow>, jobs: seq<JobRow>)
    requires |jobs| == |rows| > 0
    ensures (forall i :: 0 <= i < |rows| ==> JobRead(rows[i]) == Some(jobs[i]))
            <==> JobRead(rows[0]) == Some(jobs[0]) && forall i :: 0 <= i < |rows| - 1 ==> JobRead(rows[1..][i]) == Some(jobs[1..][i])
  {
    hide JobRead;
    if forall i :: 0 <= i < |rows| - 1 ==> JobRead(rows[1..][i]) == Some(jobs[1..][i]) {
      forall i | 1 <= i < |rows| ensures JobRead(rows[i]) == Some(jobs[i]) { assert rows[1..][i - 1] == rows[i] && jobs[1..][i - 1] == jobs[i]; }
    }
  }

  lemma {:induction false} StepsReadAre(rows: seq<StepRow>, steps: seq<StepRow>)
    requires |steps| == |rows|
    ensures |StepsRead(rows)| <= |rows|
    ensures StepsRead(rows) == steps <==> forall i :: 0 <= i < |rows| ==> StepRead(rows[i]) == Some(steps[i])
  {
    hide StepRead;
    if rows != [] {
      StepsReadAre(rows[1..], steps[1..]);
      var more := StepsRead(rows[1..]);
      if StepRead(rows[0]).Some? {
        var first := StepRead(rows[0]).value;
        assert StepsRead(rows) == [first] + more && steps == [steps[0]] + steps[1..];
        assert ([first] + more)[1..] == more;
        assert (forall i :: 0 <= i < |rows| ==> StepRead(rows[i]) == Some(steps[i]))
            <==> first == steps[0] && forall i :: 0 <= i < |rows| - 1 ==> StepRead(rows[1..][i]) == Some(steps[1..][i])
          by { TailSteps(rows, steps); }
      }
    }
  }

  lemma TailSteps(rows: seq<StepRow>, steps: seq<StepRow>)
    requires |steps| == |rows| > 0
    ensures (forall i :: 0 <= i < |rows| ==> StepRead(rows[i]) == Some(steps[i]))
            <==> StepRead(rows[0]) == Some(steps[0]) && forall i :: 0 <= i < |rows| - 1 ==> StepRead(rows[1..][i]) == Some(steps[1..][i])
  {
    hide StepRead;
    if forall i :: 0 <= i < |rows| - 1 ==> StepRead(rows[1..][i]) == Some(steps[1..][i]) {
      forall i | 1 <= i < |rows| ensures StepRead(rows[i]) == Some(steps[i]) { assert rows[1..][i - 1] == rows[i] && steps[1..][i - 1] == steps[i]; }
    }
  }

  // ── what is read is on one line ───────────────────────────────────────────

  lemma {:induction false} TrimsHold(s: string, p: char -> bool, c: char)
    requires c !in s
    ensures c !in TrimLeft(s, p) && c !in TrimRight(s, p)
  {
    if s != "" {
      TrimsHold(s[1..], p, c);
      TrimsHold(s[..|s| - 1], p, c);
    }
  }

  lemma StripsHold(s: string, c: char)
    requires c !in s
    ensures c !in Strip(s) && c !in StripBars(s)
  {
    TrimsHold(s, IsSpace, c);
    TrimsHold(TrimLeft(s, IsSpace), IsSpace, c);
    TrimsHold(s, IsBar(), c);
    TrimsHold(TrimLeft(s, IsBar()), IsBar(), c);
    hide TrimLeft, TrimRight;
  }

  lemma {:induction false} UncellHolds(s: string, c: char)
    requires c !in s && c != '|'
    ensures c !in Uncell(s)
    decreases |s|
  {
    if s != "" {
      UncellHolds(s[1..], c);
      if |s| > 1 { UncellHolds(s[2..], c); }
    }
  }

  lemma {:induction false} SplitHolds(s: string, escaped: bool, c: char)
    requires c !in s
    ensures forall i :: 0 <= i < |SplitBars(s, escaped)| ==> c !in SplitBars(s, escaped)[i]
  {
    if s != "" {
      SplitHolds(s[1..], s[0] == '\\', c);
      SplitHolds(s[1..], false, c);
      SplitHolds(s[1..], true, c);
    }
  }

  lemma CellsAreOneLine(line: string)
    requires OneLine(line)
    ensures OneLineEach(SplitRow(line))
  {
    hide Strip, StripBars, SplitBars, Uncell;
    StripsHold(line, '\n');
    StripsHold(Strip(line), '\n');
    var s := StripBars(Strip(line));
    var cells := SplitBars(s, false);
    SplitHolds(s, false, '\n');
    forall i | 0 <= i < |cells| ensures '\n' !in Uncell(Strip(cells[i])) {
      StripsHold(cells[i], '\n');
      UncellHolds(Strip(cells[i]), '\n');
    }
    hide ReadCells;
  }

  lemma {:induction false} ParsedJobsAreOneLine(lines: seq<string>)
    requires OneLineEach(lines)
    ensures JobsOneLine(ParseJobs(lines))
  {
    hide SplitRow, IntOf;
    if lines != [] {
      CellsAreOneLine(lines[0]);
      ParsedJobsAreOneLine(lines[1..]);
    }
  }

  lemma {:induction false} ParsedStepsAreOneLine(lines: seq<string>)
    requires OneLineEach(lines)
    ensures StepsOneLine(ParseSteps(lines))
  {
    hide SplitRow, IntOf;
    if lines != [] {
      CellsAreOneLine(lines[0]);
      ParsedStepsAreOneLine(lines[1..]);
    }
  }

  lemma TableRowsAreOneLine(text: string, k: Kind, w: char -> bool)
    ensures OneLineEach(TableRows(Split(text), k, w))
  {
    hide Locate, Kinds, Split;
    SplitIsLines(text);
  }

  lemma ReadIsOneLine(text: string, w: char -> bool)
    ensures JobsOneLine(ParseDoc(text, w).jobs) && StepsOneLine(ParseDoc(text, w).steps)
  {
    hide TableRows, Split, ParseJobs, ParseSteps, JobsOneLine, StepsOneLine, OneLineEach;
    TableRowsAreOneLine(text, JobHeading, w);
    TableRowsAreOneLine(text, StepHeading, w);
    ParsedJobsAreOneLine(TableRows(Split(text), JobHeading, w));
    ParsedStepsAreOneLine(TableRows(Split(text), StepHeading, w));
  }

  // ── the rows a document can carry ─────────────────────────────────────────

  /** A cell on one line that is itself when every total in it is replaced by `t` and it is stripped. */
  predicate Carried(c: string, t: string) {
    OneLine(c) && Strip(Sub(c, t)) == c
  }

  predicate JobsCarried(jobs: seq<JobRow>, t: string) {
    forall i :: 0 <= i < |jobs| ==> Carried(jobs[i].file, t) && Carried(jobs[i].job, t) && jobs[i].minutes >= 0
  }

  predicate StepsCarried(steps: seq<StepRow>, t: string) {
    forall i :: 0 <= i < |steps| ==>
                  Carried(steps[i].file, t) && Carried(steps[i].job, t) && Carried(steps[i].step, t) && steps[i].minutes >= 0
  }

  lemma JobsCarriedIff(jobs: seq<JobRow>, t: string)
    requires JobsOneLine(jobs)
    ensures JobsRead(SubJobs(jobs, t)) == jobs <==> JobsCarried(jobs, t)
  {
    hide Sub, Strip, JobsRead;
    var rows := SubJobs(jobs, t);
    JobsReadAre(rows, jobs);
    forall i | 0 <= i < |rows|
      ensures JobRead(rows[i]) == Some(jobs[i]) <==> Carried(jobs[i].file, t) && Carried(jobs[i].job, t) && jobs[i].minutes >= 0
    {
      assert rows[i] == SubJob(jobs[i], t);
    }
    hide JobRead, Carried, SubJobs;
  }

  lemma StepsCarriedIff(steps: seq<StepRow>, t: string)
    requires StepsOneLine(steps)
    ensures StepsRead(SubSteps(steps, t)) == steps <==> StepsCarried(steps, t)
  {
    hide Sub, Strip, StepsRead;
    var rows := SubSteps(steps, t);
    StepsReadAre(rows, steps);
    forall i | 0 <= i < |rows|
      ensures StepRead(rows[i]) == Some(steps[i])
              <==> Carried(steps[i].file, t) && Carried(steps[i].job, t) && Carried(steps[i].step, t) && steps[i].minutes >= 0
    {
      assert rows[i] == SubStep(steps[i], t);
    }
    hide StepRead, Carried, SubSteps;
  }

  /** A total outside what is written is there when both rounds are done, whatever the rows hold. */
  lemma TotalStays(lines: seq<string>, jobs: seq<JobRow>, steps: seq<StepRow>, w: char -> bool)
    requires Wordlike(w)
    requires var j, s := Spot(lines, JobHeading, w), Spot(lines, StepHeading, w); j.Table? && s.Table? && TotalOutside(lines, s, j)
    ensures var r := ApplyLines(lines, jobs, steps, w); exists i :: 0 <= i < |r| && HasTotal(r[i])
  {
    hide Rewrite, Search, RenderJobs, RenderSteps, Locate, Kinds, Writable, Outside, MovedPlace;
    JobsWritable(jobs, w);
    StepsWritable(steps, w);
    IsHeadingKind(JobHeading);
    var once := Once(lines, steps, w);
    var j, s := Spot(lines, JobHeading, w), Spot(lines, StepHeading, w);
    var i :| 0 <= i < |lines| && HasTotal(lines[i]) && Outside(i, s) && Outside(i, j);
    TotalKept(lines, StepHeading, RenderSteps(steps), StepTitle(|steps|), w, j, i);
    RewriteMoves(lines, StepHeading, RenderSteps(steps), StepTitle(|steps|), w, JobHeading);
    TableStaysTable(j, s.s, s.e, |RenderSteps(steps)|);
    var k :| 0 <= k < |once| && HasTotal(once[k]) && Outside(k, Spot(once, JobHeading, w)) && Outside(k, NoHeading);
    TotalKept(once, JobHeading, RenderJobs(jobs), JobTitle(|jobs|), w, NoHeading, k);
    AfterNothing(Spot(once, JobHeading, w), |RenderJobs(jobs)|);
    AnyTotal(ApplyLines(lines, jobs, steps, w));
  }

  lemma TotalsAreSaid(text: string, jobs: seq<JobRow>, steps: seq<StepRow>, w: char -> bool)
    requires Wordlike(w) && Ready(text, w) && JobsOneLine(jobs) && StepsOneLine(steps)
    ensures Said(ApplyDoc(text, jobs, steps, w)) == Some([|jobs|, |steps|, |jobs| + |steps|])
  {
    hide JobsOneLine, StepsOneLine, ApplyLines, ApplyDoc, Split, Join, Sub, Search, Total, Numbers, TotalOutside, Spot;
    var r := ApplyLines(Split(text), jobs, steps, w);
    LinesAfter(text, jobs, steps, w);
    TotalStays(Split(text), jobs, steps, w);
    SearchAfterSub(Join(r), |jobs|, |steps|);
    TotalNumbers(|jobs|, |steps|);
    SearchJoin(r);
  }

  function ReadBack(jobs: seq<JobRow>, steps: seq<StepRow>): Parsed {
    var t := Total(|jobs|, |steps|);
    Parsed(JobsRead(SubJobs(jobs, t)), StepsRead(SubSteps(steps, t)), Some([|jobs|, |steps|, |jobs| + |steps|]))
  }

  /** No number in the rows or of them is too long to be written. */
  predicate AllShort(jobs: seq<JobRow>, steps: seq<StepRow>) {
    JobsShort(jobs) && StepsShort(steps) && Short(|jobs| + |steps|)
  }

  /**
   * On a ready document, writing raises exactly on numbers that are too long, and rows on one line read as they
   * are with the totals in them replaced and the cells stripped.
   */
  lemma ReadsAs(text: string, jobs: seq<JobRow>, steps: seq<StepRow>, w: char -> bool)
    requires Wordlike(w) && Ready(text, w) && JobsOneLine(jobs) && StepsOneLine(steps)
    ensures var doc := Applying(text, jobs, steps, w);
            if AllShort(jobs, steps) then doc.Some? && Reading(doc.value, w) == Some(ReadBack(jobs, steps)) else doc == None
  {
    hide ApplyDoc, Raises, ReadBack, TotalOutside, JobsShort, StepsShort, Short, Split, Kinds, Locate;
    if AllShort(jobs, steps) {
      WrittenDoesNotRaise(text, jobs, steps, w);
      ParsesAs(text, jobs, steps, w);
    }
  }

  lemma ParsesAs(text: string, jobs: seq<JobRow>, steps: seq<StepRow>, w: char -> bool)
    requires Wordlike(w) && Ready(text, w) && JobsOneLine(jobs) && StepsOneLine(steps)
    ensures ParseDoc(ApplyDoc(text, jobs, steps, w), w) == ReadBack(jobs, steps)
  {
    var t := Total(|jobs|, |steps|);
    TotalsAreSaid(text, jobs, steps, w);
    RowsAfter(text, jobs, steps, w);
    SharedIffAdjacent(Kinds(Split(text), w), JobHeading, StepHeading);
    JobsReadBack(SubJobs(jobs, t));
    StepsReadBack(SubSteps(steps, t));
    hide JobsOneLine, StepsOneLine, ApplyDoc, TableRows, Split, TotalOutside, Kinds, Locate, Total, Said;
    hide SubJobs, SubSteps, RenderJobRows, RenderStepRows, ParseJobs, ParseSteps, JobsRead, StepsRead;
  }

  /**
   * On a ready document the rows come back exactly when every cell is on one line and is itself once the totals in
   * it are replaced and it is stripped, no minutes are negative, and no number is too long.
   */
  lemma ReadyRowsIff(text: string, jobs: seq<JobRow>, steps: seq<StepRow>, w: char -> bool)
    requires Wordlike(w) && Ready(text, w)
    ensures var t := Total(|jobs|, |steps|);
            ComesBack(text, jobs, steps, w) <==> JobsCarried(jobs, t) && StepsCarried(steps, t) && AllShort(jobs, steps)
  {
    hide Ready, ApplyDoc, ParseDoc, ApplyRaises, Raises, Total, Sub, Strip, JobsRead, StepsRead, AllShort;
    var t := Total(|jobs|, |steps|);
    ReadIsOneLine(ApplyDoc(text, jobs, steps, w), w);
    if JobsOneLine(jobs) && StepsOneLine(steps) {
      ReadsAs(text, jobs, steps, w);
      JobsCarriedIff(jobs, t);
      StepsCarriedIff(steps, t);
    }
  }
}
