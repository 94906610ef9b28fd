// When the hand-over document gives back what was written into it, and that writing
// it twice is writing it once.
module HandoverTheorems {
  import opened Common
  import opened Decimal
  import opened PythonText
  import opened TotalLine
  import opened TextLines
  import opened MarkdownRow
  import opened HandoverShape
  import opened HandoverDoc
  import opened HandoverRoundTrip

  /** What ought to be read back. */
  function Written(jobs: seq<JobRow>, steps: seq<StepRow>): Parsed {
    Parsed(jobs, steps, Some([|jobs|, |steps|, |jobs| + |steps|]))
  }

  /**
   * Both headings have a table, neither heading stands right under the other, and a
   * total stands somewhere outside the two tables and the two headings.
   */
  predicate Ready(text: string, w: char -> bool) {
    var lines := Split(text);
    var j, s := Spot(lines, JobHeading, w), Spot(lines, StepHeading, w);
    && j.Table? && s.Table?
    && j.h != s.h + 1 && s.h != j.h + 1
    && TotalOutside(lines, s, j)
  }

  // ── the document after writing ────────────────────────────────────────────

  lemma JobsWritable(jobs: seq<JobRow>, w: char -> bool)
    requires Wordlike(w)
    ensures Writable(JobHeading, RenderJobs(jobs), JobTitle(|jobs|), w)
  {
    TitlesAreClean(|jobs|, w);
    hide RenderCells;
    forall i | 0 <= i < |jobs| + 2 ensures KindOf(RenderJobs(jobs)[i], w).Bar? {
      assert i >= 2 ==> RenderJobs(jobs)[i] == RenderRow(JobCells(jobs[i - 2]));
    }
  }

  lemma StepsWritable(steps: seq<StepRow>, w: char -> bool)
    requires Wordlike(w)
    ensures Writable(StepHeading, RenderSteps(steps), StepTitle(|steps|), w)
  {
    TitlesAreClean(|steps|, w);
    hide RenderCells;
    forall i | 0 <= i < |steps| + 2 ensures KindOf(RenderSteps(steps)[i], w).Bar? {
      assert i >= 2 ==> RenderSteps(steps)[i] == RenderRow(StepCells(steps[i - 2]));
    }
  }

  function Once(lines: seq<string>, steps: seq<StepRow>, w: char -> bool): seq<string> {
    Rewrite(lines, StepHeading, RenderSteps(steps), StepTitle(|steps|), w)
  }

  lemma SharedStays(b: Place, s: nat, e: nat, n: nat)
    requires b.Table? && s <= e && n > 0 && (b.s < s || b.s == s || b.s >= e)
    ensures MovedPlace(b, s, e, n).s == s <==> b.s == s
  {
  }

  /** What the two tables hold when both rounds are done. */
  lemma TextsAfter(lines: seq<string>, jobs: seq<JobRow>, steps: seq<StepRow>, w: char -> bool)
    requires Wordlike(w)
    ensures var r := ApplyLines(lines, jobs, steps, w);
            var j, s := Spot(lines, JobHeading, w), Spot(lines, StepHeading, w);
            && TableText(r, JobHeading, w) == (if j.Table? then Some(RenderJobs(jobs)) else None)
            && TableText(r, StepHeading, w) ==
                 (if !s.Table? then None
                  else if j.Table? && j.s == s.s then Some(RenderJobs(jobs))
                  else Some(RenderSteps(steps)))
  {
    hide Writable, Rewrite, Locate, RenderJobs, RenderSteps, Kinds, MovedPlace;
    var once := Once(lines, steps, w);
    var j, s := Spot(lines, JobHeading, w), Spot(lines, StepHeading, w);
    JobsWritable(jobs, w);
    StepsWritable(steps, w);
    Bars(StepHeading, RenderSteps(steps), StepTitle(|steps|), w);
    RewriteMoves(lines, StepHeading, RenderSteps(steps), StepTitle(|steps|), w, JobHeading);
    RewriteMoves(lines, StepHeading, RenderSteps(steps), StepTitle(|steps|), w, StepHeading);
    TextAfterOwn(lines, StepHeading, RenderSteps(steps), StepTitle(|steps|), w);
    TextAfterOwn(once, JobHeading, RenderJobs(jobs), JobTitle(|jobs|), w);
    TextAfterOther(once, JobHeading, RenderJobs(jobs), JobTitle(|jobs|), w, StepHeading);
    if s.Table? {
      MovedTable(s, s.s, s.e, |RenderSteps(steps)|);
      if j.Table? {
        SharedIffAdjacent(Kinds(lines, w), StepHeading, JobHeading);
        SharedStays(j, s.s, s.e, |RenderSteps(steps)|);
        TableStaysTable(j, s.s, s.e, |RenderSteps(steps)|);
      } else {
        NotATable(j, s.s, s.e, |RenderSteps(steps)|);
      }
    }
  }

  lemma TableStaysTable(p: Place, s: nat, e: nat, n: nat)
    requires p.Table?
    ensures MovedPlace(p, s, e, n).Table?
  {
  }

  lemma ApplyIsOneLineEach(lines: seq<string>, jobs: seq<JobRow>, steps: seq<StepRow>, w: char -> bool)
    requires Wordlike(w) && OneLineEach(lines) && lines != [] && JobsOneLine(jobs) && StepsOneLine(steps)
    ensures OneLineEach(ApplyLines(lines, jobs, steps, w)) && ApplyLines(lines, jobs, steps, w) != []
  {
    TitlesAreClean(|jobs|, w);
    TitlesAreClean(|steps|, w);
    JobLines(jobs);
    StepLines(steps);
    hide Rewrite, RenderJobs, RenderSteps, Search;
    RewriteOneLine(lines, StepHeading, RenderSteps(steps), StepTitle(|steps|), w);
    RewriteOneLine(Once(lines, steps, w), JobHeading, RenderJobs(jobs), JobTitle(|jobs|), w);
  }

  lemma RewriteOneLine(lines: seq<string>, k: Kind, table: seq<string>, heading: string, w: char -> bool)
    requires OneLineEach(lines) && lines != [] && OneLineEach(table) && table != [] && OneLine(heading)
    ensures OneLineEach(Rewrite(lines, k, table, heading, w)) && Rewrite(lines, k, table, heading, w) != []
  {
    hide Locate, Kinds;
  }

  predicate JobsOneLine(jobs: seq<JobRow>) {
    forall i :: 0 <= i < |jobs| ==> OneLine(jobs[i].file) && OneLine(jobs[i].job)
  }

  predicate StepsOneLine(steps: seq<StepRow>) {
    forall i :: 0 <= i < |steps| ==> OneLine(steps[i].file) && OneLine(steps[i].job) && OneLine(steps[i].step)
  }

  lemma DecIntIsOneLine(n: int)
    ensures OneLine(DecInt(n))
  {
  }

  lemma JobLines(jobs: seq<JobRow>)
    requires JobsOneLine(jobs)
    ensures OneLineEach(RenderJobs(jobs)) && RenderJobs(jobs) != []
  {
    JobHeaderIsClean();
    RulesAreClean();
    hide RenderRow, Search;
    forall i | 0 <= i < |jobs| ensures OneLine(RenderRow(JobCells(jobs[i]))) {
      DecIntIsOneLine(jobs[i].minutes);
      RowIsOneLine(JobCells(jobs[i]));
    }
  }

  lemma StepLines(steps: seq<StepRow>)
    requires StepsOneLine(steps)
    ensures OneLineEach(RenderSteps(steps)) && RenderSteps(steps) != []
  {
    StepHeaderIsClean();
    RulesAreClean();
    hide RenderRow, Search;
    forall i | 0 <= i < |steps| ensures OneLine(RenderRow(StepCells(steps[i]))) {
      DecIntIsOneLine(steps[i].minutes);
      RowIsOneLine(StepCells(steps[i]));
    }
  }

  // ── reading back ──────────────────────────────────────────────────────────

  lemma FittingIsOneLine(jobs: seq<JobRow>, steps: seq<StepRow>)
    requires JobsFit(jobs) && StepsFit(steps)
    ensures JobsOneLine(jobs) && StepsOneLine(steps)
  {
  }

  /** The lines of the document written. */
  lemma LinesAfter(text: string, jobs: seq<JobRow>, steps: seq<StepRow>, w: char -> bool)
    requires Wordlike(w) && JobsOneLine(jobs) && StepsOneLine(steps)
    ensures var r := ApplyLines(Split(text), jobs, steps, w);
            && r != [] && ApplyDoc(text, jobs, steps, w) == Sub(Join(r), Total(|jobs|, |steps|))
            && Split(ApplyDoc(text, jobs, steps, w)) == SubEach(r, Total(|jobs|, |steps|))
  {
    var r, total := ApplyLines(Split(text), jobs, steps, w), Total(|jobs|, |steps|);
    SplitIsLines(text);
    TotalIsOneLine(|jobs|, |steps|);
    hide ApplyLines, Sub, Split, Join, Total, JobsOneLine, StepsOneLine;
    ApplyIsOneLineEach(Split(text), jobs, steps, w);
    SubJoin(r, total);
    forall i | 0 <= i < |r| ensures OneLine(SubEach(r, total)[i]) { SubIsOneLine(r[i], total); }
    SplitJoin(SubEach(r, total));
  }

  lemma TotalIsOneLine(j: nat, s: nat)
    ensures OneLine(Total(j, s))
  {
  }

  lemma RowsOfText(lines: seq<string>, k: Kind, w: char -> bool)
    ensures var t := TableText(lines, k, w);
            TableRows(lines, k, w) == if t.Some? && |t.value| >= 2 then t.value[2..] else []
  {
    hide Locate, Kinds;
    if Spot(lines, k, w).Table? {
      var Table(h, s, e) := Spot(lines, k, w);
      if s + 2 <= e { assert lines[s..e][2..] == lines[s + 2..e]; }
    }
  }

  /** The rows found under the two headings of a written document: those written, the totals in them replaced. */
  lemma RowsAfter(text: string, jobs: seq<JobRow>, steps: seq<StepRow>, w: char -> bool)
    requires Wordlike(w) && JobsOneLine(jobs) && StepsOneLine(steps)
    ensures var lines, r, t := Split(text), Split(ApplyDoc(text, jobs, steps, w)), Total(|jobs|, |steps|);
            var j, s := Spot(lines, JobHeading, w), Spot(lines, StepHeading, w);
            && TableRows(r, JobHeading, w) == (if j.Table? then RenderJobRows(SubJobs(jobs, t)) else [])
            && TableRows(r, StepHeading, w) ==
                 (if !s.Table? then [] else if j.Table? && j.s == s.s then RenderJobRows(SubJobs(jobs, t)) else RenderStepRows(SubSteps(steps, t)))
  {
    var lines, total := Split(text), Total(|jobs|, |steps|);
    JobsSubbed(jobs, |jobs|, |steps|);
    StepsSubbed(steps, |jobs|, |steps|);
    JobsSubbed(SubJobs(jobs, total), |jobs|, |steps|);
    StepsSubbed(SubSteps(steps, total), |jobs|, |steps|);
    hide JobsOneLine, StepsOneLine, RenderJobs, RenderSteps, RenderJobRows, RenderStepRows, SubJobs, SubSteps;
    hide ApplyLines, ApplyDoc, Sub, SubEach, Split, Join, Total, Spot, TableText, TableRows;
    var r := ApplyLines(lines, jobs, steps, w);
    LinesAfter(text, jobs, steps, w);
    TextsAfter(lines, jobs, steps, w);
    TotalStart(|jobs|, |steps|);
    SubEachText(r, total, JobHeading, w);
    SubEachText(r, total, StepHeading, w);
    RowsOfText(SubEach(r, total), JobHeading, w);
    RowsOfText(SubEach(r, total), StepHeading, w);
  }

  lemma TotalStart(m: nat, n: nat)
    ensures Total(m, n) != "" && Total(m, n)[0] == 'j'
  {
  }

  /** What `parse_doc` makes of a document written with rows that fit. */
  lemma ParsedAfter(text: string, jobs: seq<JobRow>, steps: seq<StepRow>, w: char -> bool)
    requires Wordlike(w) && JobsFit(jobs) && StepsFit(steps)
    ensures var lines, p := Split(text), ParseDoc(ApplyDoc(text, jobs, steps, w), w);
            var j, s := Spot(lines, JobHeading, w), Spot(lines, StepHeading, w);
            && p.jobs == (if j.Table? then jobs else [])
            && (s.Table? && !(j.Table? && j.s == s.s) ==> p.steps == steps)
            && (!s.Table? ==> p.steps == [])
            && (s.Table? && j.Table? && j.s == s.s && jobs == [] ==> p.steps == [])
  {
    JobRowsComeBack(jobs);
    StepRowsComeBack(steps);
    FittingIsOneLine(jobs, steps);
    FittingJobsStay(jobs, |jobs|, |steps|);
    FittingStepsStay(steps, |jobs|, |steps|);
    assert RenderJobRows([]) == [] && ParseJobs([]) == [] && ParseSteps([]) == [];
    hide JobsFit, StepsFit, JobsOneLine, StepsOneLine, SubJobs, SubSteps, Total, ParseJobs, ParseSteps, RenderJobRows, RenderStepRows, ApplyDoc, Split, Spot, TableRows, Search;
    RowsAfter(text, jobs, steps, w);
  }

  /** A total is left after both rounds exactly when one stood outside what they wrote. */
  lemma TotalsAfterBoth(lines: seq<string>, jobs: seq<JobRow>, steps: seq<StepRow>, w: char -> bool)
    requires Wordlike(w) && JobsFit(jobs) && StepsFit(steps)
    ensures var r := ApplyLines(lines, jobs, steps, w);
            (exists i :: 0 <= i < |r| && HasTotal(r[i]))
            <==> TotalOutside(lines, Spot(lines, StepHeading, w), Spot(lines, JobHeading, w))
  {
    JobsAreClean(jobs);
    StepsAreClean(steps);
    TitlesAreClean(|jobs|, w);
    TitlesAreClean(|steps|, w);
    assert NoTotals(RenderJobs(jobs), JobTitle(|jobs|)) && NoTotals(RenderSteps(steps), StepTitle(|steps|));
    hide Rewrite, Search, RenderJobs, RenderSteps, JobsFit, StepsFit, Locate, Kinds, Writable, NoTotals, After, TotalOutside;
    JobsWritable(jobs, w);
    StepsWritable(steps, w);
    var once := Once(lines, steps, w);
    var r, j := ApplyLines(lines, jobs, steps, w), Spot(lines, JobHeading, w);
    IsHeadingKind(JobHeading);
    TotalsAfter(lines, StepHeading, RenderSteps(steps), StepTitle(|steps|), w, j);
    RewriteMoves(lines, StepHeading, RenderSteps(steps), StepTitle(|steps|), w, JobHeading);
    TotalsAfter(once, JobHeading, RenderJobs(jobs), JobTitle(|jobs|), w, NoHeading);
    AfterNothing(Spot(once, JobHeading, w), |RenderJobs(jobs)|);
    AnyTotal(r);
  }

  lemma IsHeadingKind(k: Kind)
    requires k.JobHeading?
    ensures k.Heading()
  {
  }

  lemma SaidOfSub(t: string, m: nat, n: nat)
    ensures Said(Sub(t, Total(m, n))) == if HasTotal(t) then Some([m, n, m + n]) else None
  {
    hide Sub, Search, Total, Numbers;
    SearchAfterSub(t, m, n);
    TotalNumbers(m, n);
  }

  lemma SaidAfter(text: string, jobs: seq<JobRow>, steps: seq<StepRow>, w: char -> bool)
    requires Wordlike(w) && JobsFit(jobs) && StepsFit(steps)
    ensures var lines := Split(text);
            Said(ApplyDoc(text, jobs, steps, w)) ==
            if TotalOutside(lines, Spot(lines, StepHeading, w), Spot(lines, JobHeading, w))
            then Some([|jobs|, |steps|, |jobs| + |steps|]) else None
  {
    FittingIsOneLine(jobs, steps);
    hide JobsFit, StepsFit, JobsOneLine, StepsOneLine, ApplyLines, ApplyDoc, Split, Join, Sub, HasTotal, Said, Total, TotalOutside, Spot;
    var r := ApplyLines(Split(text), jobs, steps, w);
    LinesAfter(text, jobs, steps, w);
    TotalsAfterBoth(Split(text), jobs, steps, w);
    SaidOfSub(Join(r), |jobs|, |steps|);
    SearchJoin(r);
  }

  lemma AfterNothing(p: Place, n: nat)
    ensures After(NoHeading, p, n) == NoHeading
  {
  }

  lemma AnyTotal(lines: seq<string>)
    ensures TotalOutside(lines, NoHeading, NoHeading) <==> exists i :: 0 <= i < |lines| && HasTotal(lines[i])
  {
    hide Search;
  }

  // ── the round trip ────────────────────────────────────────────────────────

  lemma JobDoesNotRaise(r: JobRow)
    requires Short(r.minutes)
    ensures !JobRaises(RenderRow(JobCells(r))) && !StepRaises(RenderRow(JobCells(r)))
  {
    hide SplitRow, RenderRow, Strip, Short;
    SplitRendered(JobCells(r));
    JobRowComesBackIff(r);
  }

  lemma StepDoesNotRaise(r: StepRow)
    requires Short(r.minutes)
    ensures !StepRaises(RenderRow(StepCells(r)))
  {
    hide SplitRow, RenderRow, Strip, Short;
    StepRowComesBackIff(r);
  }

  lemma WrittenSaysShort(text: string, jobs: seq<JobRow>, steps: seq<StepRow>, w: char -> bool)
    requires Wordlike(w) && JobsOneLine(jobs) && StepsOneLine(steps) && Short(|jobs| + |steps|)
    ensures !SaidRaises(ApplyDoc(text, jobs, steps, w))
  {
    hide JobsOneLine, StepsOneLine, ApplyLines, ApplyDoc, Split, Join, Sub, Search, Total, HasLong;
    LinesAfter(text, jobs, steps, w);
    SearchAfterSub(Join(ApplyLines(Split(text), jobs, steps, w)), |jobs|, |steps|);
    TotalHasLongIff(|jobs|, |steps|);
  }

  /** Reading a document that was written never raises, whatever stood in it before. */
  lemma WrittenDoesNotRaise(text: string, jobs: seq<JobRow>, steps: seq<StepRow>, w: char -> bool)
    requires Wordlike(w) && JobsOneLine(jobs) && StepsOneLine(steps)
    ensures var doc := Applying(text, jobs, steps, w); doc.Some? ==> Reading(doc.value, w).Some?
  {
    hide JobsOneLine, StepsOneLine, ApplyDoc, Split, TableRows, JobRaises, StepRaises, RenderRow, Total, SaidRaises, Locate, Kinds, Short;
    if !ApplyRaises(text, jobs, steps, w) {
      RowsAfter(text, jobs, steps, w);
      WrittenSaysShort(text, jobs, steps, w);
      var t := Total(|jobs|, |steps|);
      var js, ss := SubJobs(jobs, t), SubSteps(steps, t);
      var j, s := Spot(Split(text), JobHeading, w), Spot(Split(text), StepHeading, w);
      if j.Table? {
        forall i | 0 <= i < |js| ensures !JobRaises(RenderJobRows(js)[i]) && !StepRaises(RenderJobRows(js)[i]) { JobDoesNotRaise(js[i]); }
      }
      if s.Table? {
        forall i | 0 <= i < |ss| ensures !StepRaises(RenderStepRows(ss)[i]) { StepDoesNotRaise(ss[i]); }
      }
    }
  }

  /** Rows that a document can carry, the number of them included. */
  predicate RowsFit(jobs: seq<JobRow>, steps: seq<StepRow>) {
    JobsFit(jobs) && StepsFit(steps) && Short(|jobs| + |steps|)
  }

  lemma FittingAreShort(jobs: seq<JobRow>, steps: seq<StepRow>)
    requires JobsFit(jobs) && StepsFit(steps)
    ensures JobsShort(jobs) && StepsShort(steps)
  {
  }

  /** The rows can be written, and what is written is what is read back. */
  predicate ComesBack(text: string, jobs: seq<JobRow>, steps: seq<StepRow>, w: char -> bool) {
    var doc := Applying(text, jobs, steps, w);
    doc.Some? && Reading(doc.value, w) == Some(Written(jobs, steps))
  }

  /** On a document that is ready, what is written is what is read back. */
  lemma RoundTrip(text: string, jobs: seq<JobRow>, steps: seq<StepRow>, w: char -> bool)
    requires Wordlike(w) && Ready(text, w) && RowsFit(jobs, steps)
    ensures ComesBack(text, jobs, steps, w)
  {
    hide JobsOneLine, StepsOneLine, JobsFit, StepsFit, JobsShort, StepsShort, Raises, ApplyDoc, ParseDoc, Ready, Written, Short;
    FittingIsOneLine(jobs, steps);
    FittingAreShort(jobs, steps);
    WrittenDoesNotRaise(text, jobs, steps, w);
    FittingRowsComeBack(text, jobs, steps, w);
  }

  lemma FittingRowsComeBack(text: string, jobs: seq<JobRow>, steps: seq<StepRow>, w: char -> bool)
    requires Wordlike(w) && Ready(text, w) && JobsFit(jobs) && StepsFit(steps)
    ensures ParseDoc(ApplyDoc(text, jobs, steps, w), w) == Written(jobs, steps)
  {
    hide JobsFit, StepsFit, ApplyDoc, TableRows, ParseJobs, ParseSteps, Split, TotalOutside, Kinds, Locate;
    ParsedAfter(text, jobs, steps, w);
    SaidAfter(text, jobs, steps, w);
    SharedIffAdjacent(Kinds(Split(text), w), JobHeading, StepHeading);
  }

  lemma LetterFits(c: string)
    requires |c| == 1 && 'a' <= c[0] <= 'c'
    ensures Fits(c)
  {
    NoJNoTotal(c);
    DigitsAreTrimmed(c);
  }

  lemma SomeRowsFit()
    ensures RowsFit([JobRow("a", "b", 1)], []) && RowsFit([], [StepRow("a", "b", "c", 1)])
  {
    assert Short(1);
    LetterFits("a");
    LetterFits("b");
    LetterFits("c");
  }

  /** On any other document there are rows that fit and are not read back. */
  lemma NotReadyLosesRows(text: string, w: char -> bool) returns (jobs: seq<JobRow>, steps: seq<StepRow>)
    requires Wordlike(w) && !Ready(text, w)
    ensures RowsFit(jobs, steps) && !ComesBack(text, jobs, steps, w)
  {
    SomeRowsFit();
    hide JobsFit, StepsFit, Short, ApplyRaises, ApplyDoc, TableRows, ParseJobs, ParseSteps, Split, TotalOutside, Kinds, Locate, Said, Raises;
    jobs, steps := [JobRow("a", "b", 1)], [];
    ParsedAfter(text, jobs, steps, w);
    if ComesBack(text, jobs, steps, w) {
      jobs, steps := [], [StepRow("a", "b", "c", 1)];
      ParsedAfter(text, jobs, steps, w);
      SaidAfter(text, jobs, steps, w);
      var j, s := Spot(Split(text), JobHeading, w), Spot(Split(text), StepHeading, w);
      if j.Table? && s.Table? { SharedIffAdjacent(Kinds(Split(text), w), JobHeading, StepHeading); }
    }
  }

  /** What is written is read back, for all rows that fit, exactly when the document is ready. */
  lemma RoundTripIff(text: string, w: char -> bool)
    requires Wordlike(w)
    ensures Ready(text, w) <==>
            forall jobs, steps :: RowsFit(jobs, steps) ==> ComesBack(text, jobs, steps, w)
  {
    hide Ready, RowsFit, ComesBack;
    if Ready(text, w) {
      forall jobs, steps | RowsFit(jobs, steps)
        ensures ComesBack(text, jobs, steps, w)
      {
        RoundTrip(text, jobs, steps, w);
      }
    } else {
      var jobs, steps := NotReadyLosesRows(text, w);
    }
  }

  lemma JobReadsAsStep(r: JobRow)
    requires Fits(r.file) && Fits(r.job)
    ensures ParseStep(RenderRow(JobCells(r))) == Some(StepRow(r.file, r.job, DecInt(r.minutes), 10))
  {
    hide SplitRow, RenderRow, Strip, Search, IntOf;
    SplitRendered(JobCells(r));
    DecIntReads(r.minutes);
  }

  /** With one heading right under the other, both read the one table: every job comes back as a ten-minute step. */
  lemma {:induction false} JobsReadAsSteps(jobs: seq<JobRow>)
    requires JobsFit(jobs)
    ensures var p := ParseSteps(RenderJobRows(jobs));
            |p| == |jobs| && forall i :: 0 <= i < |jobs| ==> p[i] == StepRow(jobs[i].file, jobs[i].job, DecInt(jobs[i].minutes), 10)
  {
    hide ParseStep, RenderRow, Fits;
    if jobs != [] {
      JobReadsAsStep(jobs[0]);
      JobsReadAsSteps(jobs[1..]);
      assert RenderJobRows(jobs)[1..] == RenderJobRows(jobs[1..]);
    }
  }

  lemma AdjacentHeadingsMixUp(text: string, jobs: seq<JobRow>, steps: seq<StepRow>, w: char -> bool)
    requires Wordlike(w) && RowsFit(jobs, steps)
    requires var j, s := Spot(Split(text), JobHeading, w), Spot(Split(text), StepHeading, w);
             j.Table? && s.Table? && (j.h == s.h + 1 || s.h == j.h + 1)
    ensures Applying(text, jobs, steps, w).Some?
    ensures var p := Reading(Applying(text, jobs, steps, w).value, w);
            && p.Some? && p.value.jobs == jobs && |p.value.steps| == |jobs|
            && forall i :: 0 <= i < |jobs| ==> p.value.steps[i] == StepRow(jobs[i].file, jobs[i].job, DecInt(jobs[i].minutes), 10)
  {
    hide JobsFit, StepsFit, JobsOneLine, StepsOneLine, JobsShort, StepsShort, Short, Raises, ApplyDoc, ParseDoc, Split, Kinds, Locate;
    FittingIsOneLine(jobs, steps);
    FittingAreShort(jobs, steps);
    WrittenDoesNotRaise(text, jobs, steps, w);
    AdjacentHeadingsParse(text, jobs, steps, w);
  }

  lemma AdjacentHeadingsParse(text: string, jobs: seq<JobRow>, steps: seq<StepRow>, w: char -> bool)
    requires Wordlike(w) && JobsFit(jobs) && StepsFit(steps)
    requires var j, s := Spot(Split(text), JobHeading, w), Spot(Split(text), StepHeading, w);
             j.Table? && s.Table? && (j.h == s.h + 1 || s.h == j.h + 1)
    ensures var p := ParseDoc(ApplyDoc(text, jobs, steps, w), w);
            && p.jobs == jobs && |p.steps| == |jobs|
            && forall i :: 0 <= i < |jobs| ==> p.steps[i] == StepRow(jobs[i].file, jobs[i].job, DecInt(jobs[i].minutes), 10)
  {
    FittingIsOneLine(jobs, steps);
    FittingJobsStay(jobs, |jobs|, |steps|);
    hide JobsOneLine, StepsOneLine, SubJobs, SubSteps, Total, Said;
    hide JobsFit, StepsFit, ApplyDoc, TableRows, ParseJobs, ParseSteps, Split, Search, Kinds, Locate, RenderJobRows, DecInt;
    ParsedAfter(text, jobs, steps, w);
    RowsAfter(text, jobs, steps, w);
    JobsReadAsSteps(jobs);
    SharedIffAdjacent(Kinds(Split(text), w), JobHeading, StepHeading);
  }

  /** Such a document exists. */
  lemma AdjacentHeadingsExist(w: char -> bool)
    requires Wordlike(w)
    ensures var text := Join([JOB, STEP, "|"]);
            var j, s := Spot(Split(text), JobHeading, w), Spot(Split(text), StepHeading, w);
            j.Table? && s.Table? && s.h == j.h + 1
  {
    var lines := [JOB, STEP, "|"];
    SplitJoin(lines);
    hide Locate, Split, Join;
    var ks := Kinds(lines, w);
    assert ks == [JobHeading, StepHeading, Bar] by { assert STEP[4] == 's' && JOB[4] == 'ジ'; }
    LocateAt(ks, JobHeading, Table(0, 2, 3));
    LocateAt(ks, StepHeading, Table(1, 2, 3));
  }

  // ── writing twice ─────────────────────────────────────────────────────────

  /** The line of a heading. */
  function HeadLine(lines: seq<string>, k: Kind, w: char -> bool): Option<string> {
    match Spot(lines, k, w)
    case NoHeading => None
    case NoTable(h) => Some(lines[h])
    case Table(h, _, _) => Some(lines[h])
  }

  lemma RewriteSame(lines: seq<string>, k: Kind, table: seq<string>, heading: string, w: char -> bool)
    requires TableText(lines, k, w).Some? ==> TableText(lines, k, w) == Some(table)
    requires HeadLine(lines, k, w).Some? ==> HeadLine(lines, k, w) == Some(heading)
    ensures Rewrite(lines, k, table, heading, w) == lines
  {
    hide Kinds, Locate;
    if Spot(lines, k, w).Table? {
      var Table(h, s, e) := Spot(lines, k, w);
      assert lines[..s] + lines[s..e] + lines[e..] == lines;
      assert lines[h := heading] == lines;
    }
  }

  lemma HeadAfterOwn(lines: seq<string>, k: Kind, table: seq<string>, heading: string, w: char -> bool)
    requires Writable(k, table, heading, w)
    ensures var r := Rewrite(lines, k, table, heading, w);
            HeadLine(r, k, w).Some? ==> HeadLine(r, k, w) == Some(heading)
  {
    hide Kinds, Locate, Rewrite, KindOf;
    RewriteMoves(lines, k, table, heading, w, k);
    RewriteAt(lines, k, table, heading, w);
    TableIsOfBars(lines, k, w);
  }

  lemma HeadAfterOther(lines: seq<string>, k: Kind, table: seq<string>, heading: string, w: char -> bool, q: Kind)
    requires Writable(k, table, heading, w) && q.Heading() && q != k
    ensures HeadLine(Rewrite(lines, k, table, heading, w), q, w) == HeadLine(lines, q, w)
  {
    hide Kinds, Locate, Rewrite, KindOf;
    RewriteMoves(lines, k, table, heading, w, q);
    RewriteAt(lines, k, table, heading, w);
    TableIsOfBars(lines, k, w);
    TableIsOfBars(lines, q, w);
    HeadingOutside(Kinds(lines, w), k, q);
  }

  lemma HeadingOutside(ks: seq<Kind>, k: Kind, q: Kind)
    requires k.Heading() && q.Heading() && k != q
    ensures var a, b := Locate(ks, k), Locate(ks, q);
            !a.NoHeading? && !b.NoHeading? ==> a.h != b.h && (a.Table? ==> b.h < a.s || a.e <= b.h)
  {
    LocateIs(ks, k);
    LocateIs(ks, q);
  }

  /** Applying twice on the lines. */
  lemma ApplyLinesTwice(lines: seq<string>, jobs: seq<JobRow>, steps: seq<StepRow>, w: char -> bool)
    requires Wordlike(w)
    ensures var x := ApplyLines(lines, jobs, steps, w); ApplyLines(x, jobs, steps, w) == x
  {
    hide Writable, Rewrite, Locate, RenderJobs, RenderSteps, Kinds, MovedPlace, TableText, HeadLine;
    var x := ApplyLines(lines, jobs, steps, w);
    HeadsAfter(lines, jobs, steps, w);
    TextsAfter(lines, jobs, steps, w);
    TextsAfter(x, jobs, steps, w);
    if TableText(x, StepHeading, w).Some? && TableText(x, StepHeading, w) != Some(RenderSteps(steps)) {
      SharedAfter(lines, jobs, steps, w);
      HeadsThere(x, w);
      JobsWritable(jobs, w);
      StepsWritable(steps, w);
      OverwrittenBack(x, RenderSteps(steps), StepTitle(|steps|), RenderJobs(jobs), JobTitle(|jobs|), w);
    } else {
      RewriteSame(x, StepHeading, RenderSteps(steps), StepTitle(|steps|), w);
      RewriteSame(x, JobHeading, RenderJobs(jobs), JobTitle(|jobs|), w);
    }
  }

  lemma HeadsThere(x: seq<string>, w: char -> bool)
    ensures Spot(x, JobHeading, w).Table? ==> HeadLine(x, JobHeading, w).Some?
    ensures Spot(x, StepHeading, w).Table? ==> HeadLine(x, StepHeading, w).Some?
  {
  }

  lemma SharedAfter(lines: seq<string>, jobs: seq<JobRow>, steps: seq<StepRow>, w: char -> bool)
    requires Wordlike(w)
    requires var j, s := Spot(lines, JobHeading, w), Spot(lines, StepHeading, w); j.Table? && s.Table? && j.s == s.s
    ensures var x := ApplyLines(lines, jobs, steps, w);
            var j, s := Spot(x, JobHeading, w), Spot(x, StepHeading, w);
            j.Table? && s.Table? && j.s == s.s
  {
    hide Writable, Rewrite, Locate, RenderJobs, RenderSteps, Kinds, MovedPlace;
    JobsWritable(jobs, w);
    StepsWritable(steps, w);
    var once := Once(lines, steps, w);
    SharedMoves(lines, StepHeading, RenderSteps(steps), StepTitle(|steps|), w);
    SharedMoves(once, JobHeading, RenderJobs(jobs), JobTitle(|jobs|), w);
  }

  lemma SharedMoves(lines: seq<string>, k: Kind, table: seq<string>, heading: string, w: char -> bool)
    requires Writable(k, table, heading, w)
    requires var j, s := Spot(lines, JobHeading, w), Spot(lines, StepHeading, w); j.Table? && s.Table? && j.s == s.s
    ensures var x := Rewrite(lines, k, table, heading, w);
            var j, s := Spot(x, JobHeading, w), Spot(x, StepHeading, w);
            j.Table? && s.Table? && j.s == s.s
  {
    hide Rewrite, Locate, Kinds, MovedPlace, KindOf;
    var a := Spot(lines, k, w);
    RewriteMoves(lines, k, table, heading, w, JobHeading);
    RewriteMoves(lines, k, table, heading, w, StepHeading);
    MovedTable(Spot(lines, JobHeading, w), a.s, a.e, |table|);
    MovedTable(Spot(lines, StepHeading, w), a.s, a.e, |table|);
  }

  lemma HeadsAfter(lines: seq<string>, jobs: seq<JobRow>, steps: seq<StepRow>, w: char -> bool)
    requires Wordlike(w)
    ensures var x := ApplyLines(lines, jobs, steps, w);
            && (HeadLine(x, JobHeading, w).Some? ==> HeadLine(x, JobHeading, w) == Some(JobTitle(|jobs|)))
            && (HeadLine(x, StepHeading, w).Some? ==> HeadLine(x, StepHeading, w) == Some(StepTitle(|steps|)))
  {
    hide Writable, Rewrite, Locate, RenderJobs, RenderSteps, Kinds, HeadLine;
    JobsWritable(jobs, w);
    StepsWritable(steps, w);
    var once := Once(lines, steps, w);
    Bars(StepHeading, RenderSteps(steps), StepTitle(|steps|), w);
    HeadAfterOwn(lines, StepHeading, RenderSteps(steps), StepTitle(|steps|), w);
    HeadAfterOwn(once, JobHeading, RenderJobs(jobs), JobTitle(|jobs|), w);
    HeadAfterOther(once, JobHeading, RenderJobs(jobs), JobTitle(|jobs|), w, StepHeading);
  }

  /** Two headings over one table: the steps are written over the jobs, and the jobs over the steps again. */
  lemma OverwrittenBack(x: seq<string>, a: seq<string>, title: string, b: seq<string>, other: string, w: char -> bool)
    requires Writable(StepHeading, a, title, w) && Writable(JobHeading, b, other, w)
    requires var j, s := Spot(x, JobHeading, w), Spot(x, StepHeading, w); j.Table? && s.Table? && j.s == s.s
    requires TableText(x, JobHeading, w) == Some(b) && HeadLine(x, JobHeading, w) == Some(other)
    requires HeadLine(x, StepHeading, w) == Some(title)
    ensures Rewrite(Rewrite(x, StepHeading, a, title, w), JobHeading, b, other, w) == x
  {
    hide Writable, Locate, Kinds, MovedPlace;
    var j, s := Spot(x, JobHeading, w), Spot(x, StepHeading, w);
    Bars(StepHeading, a, title, w);
    SharedIffAdjacent(Kinds(x, w), JobHeading, StepHeading);
    var y := Rewrite(x, StepHeading, a, title, w);
    var z := x[..s.s] + a + x[s.e..];
    assert y == z by { assert z[s.h] == title; assert z[s.h := title] == z; }
    RewriteMoves(x, StepHeading, a, title, w, JobHeading);
    MovedTable(j, s.s, s.e, |a|);
    MovedHeading(j, s.s, s.e, |a|);
    assert Spot(y, JobHeading, w) == Table(j.h, s.s, s.s + |a|);
    assert z[..s.s] + b + z[s.s + |a|..] == x;
    assert x[j.h := other] == x;
  }

  lemma MovedHeading(p: Place, s: nat, e: nat, n: nat)
    requires p.Table? && p.h < p.s == s
    ensures MovedPlace(p, s, e, n) == Table(p.h, s, s + n)
  {
  }

  // ── what else stands in the document after writing ────────────────────────

  lemma TitlesHaveNoDigit()
    ensures NoDecimal("### ジョブ ") && NoDecimal("### step ") && NoDecimal(" 件") && !IsDecimal(' ')
  {
  }

  lemma TitlesCount(n: nat)
    ensures JobTitle(n) == "### ジョブ " + Dec(n) + " 件" && Numbers(JobTitle(n)) == [n]
    ensures StepTitle(n) == "### step " + Dec(n) + " 件" && Numbers(StepTitle(n)) == [n]
    ensures 'j' !in JobTitle(n) && 'j' !in StepTitle(n)
  {
    var end := " 件";
    assert end + "" == end && Numbers("") == [];
    hide Numbers, NoDecimal;
    TitlesHaveNoDigit();
    assert 'j' !in Dec(n);
    assert JobTitle(n) == "### ジョブ " + (Dec(n) + end) && StepTitle(n) == "### step " + (Dec(n) + end);
    hide Dec;
    NumbersTake("### ジョブ ", n, end);
    NumbersTake("### step ", n, end);
    NumbersSkip(end, "");
  }

  lemma HeadIsFirst(lines: seq<string>, k: Kind, w: char -> bool, h: nat)
    requires FirstOfKind(Kinds(lines, w), k, h)
    ensures HeadLine(lines, k, w) == Some(lines[h])
  {
    hide Kinds, Locate, IsTable;
    var ks := Kinds(lines, w);
    LocateIs(ks, k);
    FindKindIs(ks, k);
    assert ks[h] in ks;
    match Locate(ks, k)
    case NoHeading =>
    case NoTable(g) => FindKindAt(ks, k, h); FindKindAt(ks, k, g);
    case Table(g, _, _) => FindKindAt(ks, k, h); FindKindAt(ks, k, g);
  }

  lemma HeadKept(lines: seq<string>, k: Kind, r: string, w: char -> bool)
    requires r != "" && r[0] == 'j'
    ensures var a, b := HeadLine(lines, k, w), HeadLine(SubEach(lines, r), k, w);
            (a.None? <==> b.None?) && (a.Some? ==> b.value == Sub(a.value, r))
  {
    hide Kinds, Locate, Sub;
    SubEachKinds(lines, r, w);
  }
  lemma SpotIsHeading(lines: seq<string>, k: Kind, w: char -> bool)
    ensures Spot(lines, k, w).NoHeading? <==> k !in Kinds(lines, w)
  {
    hide Kinds;
    FindKindIs(Kinds(lines, w), k);
  }

  lemma HeadingMoves(p: Place, rewritten: Place, n: nat)
    ensures After(p, rewritten, n).NoHeading? <==> p.NoHeading?
  {
  }

  lemma HeadingsStay(text: string, jobs: seq<JobRow>, steps: seq<StepRow>, w: char -> bool, k: Kind)
    requires Wordlike(w) && JobsOneLine(jobs) && StepsOneLine(steps) && Applying(text, jobs, steps, w).Some? && k.Heading()
    ensures k in Kinds(Split(Applying(text, jobs, steps, w).value), w) <==> k in Kinds(Split(text), w)
  {
    TotalStart(|jobs|, |steps|);
    hide ApplyDoc, Sub, SubEach, Split, Join, Total, Kinds, Rewrite, Writable, After, RenderJobs, RenderSteps, JobsOneLine, StepsOneLine, ApplyRaises, Spot;
    var lines := Split(text);
    var once, r := Once(lines, steps, w), ApplyLines(lines, jobs, steps, w);
    LinesAfter(text, jobs, steps, w);
    SubEachKinds(r, Total(|jobs|, |steps|), w);
    JobsWritable(jobs, w);
    StepsWritable(steps, w);
    RewriteMoves(lines, StepHeading, RenderSteps(steps), StepTitle(|steps|), w, k);
    RewriteMoves(once, JobHeading, RenderJobs(jobs), JobTitle(|jobs|), w, k);
    HeadingMoves(Spot(lines, k, w), Spot(lines, StepHeading, w), |RenderSteps(steps)|);
    HeadingMoves(Spot(once, k, w), Spot(once, JobHeading, w), |RenderJobs(jobs)|);
    SpotIsHeading(lines, k, w);
    SpotIsHeading(r, k, w);
  }

  /**
   * In the document written, the first heading of the jobs gives their number, and the
   * first of the steps theirs.
   */
  lemma HeadingsCount(text: string, jobs: seq<JobRow>, steps: seq<StepRow>, w: char -> bool, h: nat)
    requires Wordlike(w) && JobsOneLine(jobs) && StepsOneLine(steps) && Applying(text, jobs, steps, w).Some?
    ensures var lines := Split(Applying(text, jobs, steps, w).value);
            && (FirstOfKind(Kinds(lines, w), JobHeading, h) ==>
                  lines[h] == "### ジョブ " + Dec(|jobs|) + " 件" && Numbers(lines[h]) == [|jobs|])
            && (FirstOfKind(Kinds(lines, w), StepHeading, h) ==>
                  lines[h] == "### step " + Dec(|steps|) + " 件" && Numbers(lines[h]) == [|steps|])
  {
    TitlesCount(|jobs|);
    TitlesCount(|steps|);
    NoJStays(JobTitle(|jobs|), |jobs|, |steps|);
    NoJStays(StepTitle(|steps|), |jobs|, |steps|);
    TotalStart(|jobs|, |steps|);
    hide ApplyLines, ApplyDoc, Sub, SubEach, Split, Join, Total, Kinds, FirstOfKind, HeadLine, Numbers, JobsOneLine, StepsOneLine, ApplyRaises, JobTitle, StepTitle, Dec;
    var r, total := ApplyLines(Split(text), jobs, steps, w), Total(|jobs|, |steps|);
    LinesAfter(text, jobs, steps, w);
    HeadsAfter(Split(text), jobs, steps, w);
    HeadKept(r, JobHeading, total, w);
    HeadKept(r, StepHeading, total, w);
    var lines := Split(Applying(text, jobs, steps, w).value);
    if FirstOfKind(Kinds(lines, w), JobHeading, h) { HeadIsFirst(lines, JobHeading, w, h); }
    if FirstOfKind(Kinds(lines, w), StepHeading, h) { HeadIsFirst(lines, StepHeading, w, h); }
  }

  /** Where a line outside the rewritten table goes. */
  function Landed(i: nat, p: Place, n: nat): nat {
    if p.Table? then Moved(i, p.s, p.e, n) else i
  }

  /** Where it came from. */
  function Origin(j: nat, p: Place, n: nat): nat {
    if p.Table? && j >= p.s + n && p.s <= p.e then j - n - p.s + p.e else j
  }

  /** A line that neither the table nor the heading of either kind takes up. */
  predicate Elsewhere(lines: seq<string>, w: char -> bool, i: nat) {
    i < |lines| && Outside(i, Spot(lines, JobHeading, w)) && Outside(i, Spot(lines, StepHeading, w))
  }

  /** One round takes the other lines over as they are, and no more of them. */
  lemma RoundKeeps(lines: seq<string>, k: Kind, table: seq<string>, heading: string, w: char -> bool, i: nat)
    requires Writable(k, table, heading, w) && Elsewhere(lines, w, i)
    ensures var r, j := Rewrite(lines, k, table, heading, w), Landed(i, Spot(lines, k, w), |table|);
            Elsewhere(r, w, j) && r[j] == lines[i] && Origin(j, Spot(lines, k, w), |table|) == i
  {
    hide Locate, Rewrite, KindOf, Kinds, MovedPlace, Replaced, Outside;
    var a := Spot(lines, k, w);
    RewriteAt(lines, k, table, heading, w);
    RewriteMoves(lines, k, table, heading, w, JobHeading);
    RewriteMoves(lines, k, table, heading, w, StepHeading);
    OutsideIs(i, a);
    if a.Table? {
      OutsideMoves(Kinds(lines, w), k, Spot(lines, JobHeading, w), |table|, i);
      OutsideMoves(Kinds(lines, w), k, Spot(lines, StepHeading, w), |table|, i);
      TableIsOfBars(lines, k, w);
      LineKept(lines, a.h, a.s, a.e, table, heading, Rewrite(lines, k, table, heading, w), i);
    }
  }

  lemma OutsideIs(i: nat, p: Place)
    ensures Outside(i, p) <==> p.NoHeading? || (i != p.h && (p.Table? ==> !(p.s <= i < p.e)))
  {
  }

  lemma RoundAdds(lines: seq<string>, k: Kind, table: seq<string>, heading: string, w: char -> bool, j: nat)
    requires Writable(k, table, heading, w) && Elsewhere(Rewrite(lines, k, table, heading, w), w, j)
    ensures var i := Origin(j, Spot(lines, k, w), |table|);
            Elsewhere(lines, w, i) && Landed(i, Spot(lines, k, w), |table|) == j
  {
    hide Locate, Rewrite, KindOf, Kinds, Outside;
    var a, r := Spot(lines, k, w), Rewrite(lines, k, table, heading, w);
    RewriteAt(lines, k, table, heading, w);
    RewriteMoves(lines, k, table, heading, w, JobHeading);
    RewriteMoves(lines, k, table, heading, w, StepHeading);
    if a.Table? {
      TableIsOfBars(lines, k, w);
      OutsideIs(j, Spot(r, k, w));
      var i := Origin(j, a, |table|);
      OutsideIs(i, a);
      OutsideMoves(Kinds(lines, w), k, Spot(lines, JobHeading, w), |table|, i);
      OutsideMoves(Kinds(lines, w), k, Spot(lines, StepHeading, w), |table|, i);
    }
  }

  /** Where a line goes in both rounds, and where one came from. */
  function GoesTo(lines: seq<string>, jobs: seq<JobRow>, steps: seq<StepRow>, w: char -> bool, i: nat): nat {
    Landed(Landed(i, Spot(lines, StepHeading, w), |steps| + 2), Spot(Once(lines, steps, w), JobHeading, w), |jobs| + 2)
  }

  function CameFrom(lines: seq<string>, jobs: seq<JobRow>, steps: seq<StepRow>, w: char -> bool, j: nat): nat {
    Origin(Origin(j, Spot(Once(lines, steps, w), JobHeading, w), |jobs| + 2), Spot(lines, StepHeading, w), |steps| + 2)
  }

  lemma RoundsKeep(lines: seq<string>, jobs: seq<JobRow>, steps: seq<StepRow>, w: char -> bool, i: nat)
    requires Wordlike(w)
    ensures var r := ApplyLines(lines, jobs, steps, w);
            && (Elsewhere(lines, w, i) ==>
                  var j := GoesTo(lines, jobs, steps, w, i);
                  Elsewhere(r, w, j) && r[j] == lines[i] && CameFrom(lines, jobs, steps, w, j) == i)
            && (Elsewhere(r, w, i) ==>
                  var j := CameFrom(lines, jobs, steps, w, i);
                  Elsewhere(lines, w, j) && GoesTo(lines, jobs, steps, w, j) == i)
  {
    hide Writable, Rewrite, Elsewhere, Landed, Origin, RenderJobRows, RenderStepRows;
    JobsWritable(jobs, w);
    StepsWritable(steps, w);
    var once, r := Once(lines, steps, w), ApplyLines(lines, jobs, steps, w);
    var a, b := Spot(lines, StepHeading, w), Spot(once, JobHeading, w);
    if Elsewhere(lines, w, i) {
      RoundKeeps(lines, StepHeading, RenderSteps(steps), StepTitle(|steps|), w, i);
      RoundKeeps(once, JobHeading, RenderJobs(jobs), JobTitle(|jobs|), w, Landed(i, a, |steps| + 2));
    }
    if Elsewhere(r, w, i) {
      RoundAdds(once, JobHeading, RenderJobs(jobs), JobTitle(|jobs|), w, i);
      RoundAdds(lines, StepHeading, RenderSteps(steps), StepTitle(|steps|), w, Origin(i, b, |jobs| + 2));
    }
  }

  lemma LandedInOrder(i: nat, j: nat, p: Place, n: nat)
    requires i < j && Outside(i, p) && Outside(j, p) && (p.Table? ==> p.s <= p.e)
    ensures Landed(i, p, n) < Landed(j, p, n)
  {
  }

  lemma RoundsKeepOrder(lines: seq<string>, jobs: seq<JobRow>, steps: seq<StepRow>, w: char -> bool, i: nat, j: nat)
    requires Wordlike(w) && i < j && Elsewhere(lines, w, i) && Elsewhere(lines, w, j)
    ensures GoesTo(lines, jobs, steps, w, i) < GoesTo(lines, jobs, steps, w, j)
  {
    hide Writable, Rewrite, Locate, Kinds, Outside, Landed, RenderStepRows;
    StepsWritable(steps, w);
    var once := Once(lines, steps, w);
    var a, b := Spot(lines, StepHeading, w), Spot(once, JobHeading, w);
    RoundKeeps(lines, StepHeading, RenderSteps(steps), StepTitle(|steps|), w, i);
    RoundKeeps(lines, StepHeading, RenderSteps(steps), StepTitle(|steps|), w, j);
    LandedInOrder(i, j, a, |steps| + 2);
    LandedInOrder(Landed(i, a, |steps| + 2), Landed(j, a, |steps| + 2), b, |jobs| + 2);
  }

  /**
   * The lines that are no such heading and in no such table are all still there, in
   * their order, with the totals in them written anew, and there are no others.
   */
  lemma OthersStay(text: string, jobs: seq<JobRow>, steps: seq<StepRow>, w: char -> bool, i: nat, j: nat)
    requires Wordlike(w) && JobsOneLine(jobs) && StepsOneLine(steps) && Applying(text, jobs, steps, w).Some?
    ensures var was, now := Split(text), Split(Applying(text, jobs, steps, w).value);
            var to, from := GoesTo(was, jobs, steps, w, i), CameFrom(was, jobs, steps, w, i);
            && (Elsewhere(was, w, i) ==> Elsewhere(now, w, to) && now[to] == Sub(was[i], Total(|jobs|, |steps|)))
            && (Elsewhere(now, w, i) ==> Elsewhere(was, w, from) && GoesTo(was, jobs, steps, w, from) == i)
            && (i < j && Elsewhere(was, w, i) && Elsewhere(was, w, j) ==> to < GoesTo(was, jobs, steps, w, j))
  {
    TotalStart(|jobs|, |steps|);
    hide ApplyLines, ApplyDoc, Sub, SubEach, Split, Join, Total, Kinds, Locate, Outside, JobsOneLine, StepsOneLine, ApplyRaises, GoesTo, CameFrom;
    var was, total := Split(text), Total(|jobs|, |steps|);
    var r := ApplyLines(was, jobs, steps, w);
    LinesAfter(text, jobs, steps, w);
    SubEachKinds(r, total, w);
    RoundsKeep(was, jobs, steps, w, i);
    if i < j && Elsewhere(was, w, i) && Elsewhere(was, w, j) { RoundsKeepOrder(was, jobs, steps, w, i, j); }
  }

  predicate Alike(a: seq<string>, b: seq<string>, r: string, w: char -> bool) {
    Kinds(a, w) == Kinds(b, w) && SubEach(a, r) == SubEach(b, r)
  }

  lemma RewriteAlike(a: seq<string>, b: seq<string>, r: string, k: Kind, table: seq<string>, heading: string, w: char -> bool)
    requires Alike(a, b, r, w) && Writable(k, table, heading, w)
    ensures Alike(Rewrite(a, k, table, heading, w), Rewrite(b, k, table, heading, w), r, w)
  {
    hide Locate, Kinds, Resized, Writable, Sub, SubEach;
    RewriteKinds(a, k, table, heading, w);
    RewriteKinds(b, k, table, heading, w);
    var x, y := Rewrite(a, k, table, heading, w), Rewrite(b, k, table, heading, w);
    assert |a| == |SubEach(a, r)| == |b|;
    forall i | 0 <= i < |a| ensures Sub(a[i], r) == Sub(b[i], r) { assert SubEach(a, r)[i] == SubEach(b, r)[i]; }
    assert |x| == |y|;
    forall i | 0 <= i < |x| ensures Sub(x[i], r) == Sub(y[i], r) {}
    assert SubEach(x, r) == SubEach(y, r);
  }

  lemma SubEachAlike(a: seq<string>, m: nat, n: nat, w: char -> bool)
    ensures Alike(SubEach(a, Total(m, n)), a, Total(m, n), w)
  {
    hide Sub, Kinds, Total;
    TotalStart(m, n);
    SubEachKinds(a, Total(m, n), w);
    forall i | 0 <= i < |a| ensures Sub(Sub(a[i], Total(m, n)), Total(m, n)) == Sub(a[i], Total(m, n)) {
      SubAgain(a[i], m, n, Total(m, n));
    }
  }

  /** The headings that have a table after writing are those that had one. */
  lemma TablesAfter(text: string, jobs: seq<JobRow>, steps: seq<StepRow>, w: char -> bool)
    requires Wordlike(w) && JobsOneLine(jobs) && StepsOneLine(steps)
    ensures var was, now := Split(text), Split(ApplyDoc(text, jobs, steps, w));
            && (Spot(now, JobHeading, w).Table? <==> Spot(was, JobHeading, w).Table?)
            && (Spot(now, StepHeading, w).Table? <==> Spot(was, StepHeading, w).Table?)
  {
    hide ApplyLines, ApplyDoc, Sub, SubEach, Split, Join, Total, Spot, JobsOneLine, StepsOneLine, RenderJobs, RenderSteps;
    var lines, total := Split(text), Total(|jobs|, |steps|);
    var r := ApplyLines(lines, jobs, steps, w);
    LinesAfter(text, jobs, steps, w);
    TextsAfter(lines, jobs, steps, w);
    TotalStart(|jobs|, |steps|);
    SubEachText(r, total, JobHeading, w);
    SubEachText(r, total, StepHeading, w);
  }

  /** `--apply` run again changes nothing, on any document at all, as long as no cell runs over two lines. */
  lemma ApplyIsIdempotent(text: string, jobs: seq<JobRow>, steps: seq<StepRow>, w: char -> bool)
    requires Wordlike(w) && JobsOneLine(jobs) && StepsOneLine(steps)
    ensures var doc := Applying(text, jobs, steps, w); doc.Some? ==> Applying(doc.value, jobs, steps, w) == doc
  {
    hide ApplyDoc, JobsOneLine, StepsOneLine, JobsShort, StepsShort, Short, Split, Kinds, Locate;
    TablesAfter(text, jobs, steps, w);
    DocTwice(text, jobs, steps, w);
  }

  lemma DocTwice(text: string, jobs: seq<JobRow>, steps: seq<StepRow>, w: char -> bool)
    requires Wordlike(w) && JobsOneLine(jobs) && StepsOneLine(steps)
    ensures var doc := ApplyDoc(text, jobs, steps, w); ApplyDoc(doc, jobs, steps, w) == doc
  {
    hide ApplyDoc, JobsOneLine, StepsOneLine, Rewrite, Split, Join, Sub, Total, RenderJobs, RenderSteps, Kinds, Writable;
    var total := Total(|jobs|, |steps|);
    var x := ApplyLines(Split(text), jobs, steps, w);
    var doc := ApplyDoc(text, jobs, steps, w);
    LinesAfter(text, jobs, steps, w);
    LinesAfter(doc, jobs, steps, w);
    SubEachAlike(x, |jobs|, |steps|, w);
    JobsWritable(jobs, w);
    StepsWritable(steps, w);
    var m := SubEach(x, total);
    RewriteAlike(m, x, total, StepHeading, RenderSteps(steps), StepTitle(|steps|), w);
    RewriteAlike(Once(m, steps, w), Once(x, steps, w), total, JobHeading, RenderJobs(jobs), JobTitle(|jobs|), w);
    ApplyLinesTwice(Split(text), jobs, steps, w);
    SplitIsLines(doc);
    SplitIsLines(ApplyDoc(doc, jobs, steps, w));
  }
}
