// The hand-over document: `parse_doc` and `apply_doc` of
// scripts/handover_timeouts.py, as functions on its lines. `w` says which characters
// are word characters (`\w`), which the heading patterns ask of the next character.
module HandoverDoc {
  import opened Common
  import opened Decimal
  import opened PythonText
  import opened TotalLine
  import opened TextLines
  import opened MarkdownRow
  import opened HandoverShape

  const JOB := "### ジョブ"
  const STEP := "### step"

  /** The last characters of the two headings are word characters, a space is not. */
  predicate Wordlike(w: char -> bool) {
    w('ブ') && w('p') && !w(' ')
  }

  /** `^### ジョブ\b.*$` or `^### step\b.*$`: the title, and a word boundary after it. */
  predicate Titled(line: string, title: string, w: char -> bool) {
    title <= line && title != "" &&
    w(title[|title| - 1]) != (|title| < |line| && w(line[|title|]))
  }

  function KindOf(line: string, w: char -> bool): Kind {
    if line == "" then Plain
    else if line[0] == '|' then Bar
    else if line[0] == '#' then
      if Titled(line, JOB, w) then JobHeading
      else if Titled(line, STEP, w) then StepHeading
      else OtherHeading
    else Plain
  }

  /** What kind a line is, by its first characters. */
  lemma KindByFront(line: string, w: char -> bool)
    requires Wordlike(w)
    ensures KindOf(line, w).JobHeading? <==> "### ジョブ" <= line && (|line| > 7 ==> !w(line[7]))
    ensures KindOf(line, w).StepHeading? <==> "### step" <= line && (|line| > 8 ==> !w(line[8]))
    ensures KindOf(line, w).Heading() <==> "#" <= line
    ensures KindOf(line, w).Bar? <==> "|" <= line
  {
    assert |JOB| == 7 && |STEP| == 8 && JOB[6] == 'ブ' && STEP[7] == 'p';
    assert JOB[4] == 'ジ' && STEP[4] == 's' && JOB[0] == STEP[0] == '#';
    if JOB <= line { assert line[4] == JOB[4] && line[0] == JOB[0]; }
    if STEP <= line { assert line[4] == STEP[4] && line[0] == STEP[0]; }
  }

  function Kinds(lines: seq<string>, w: char -> bool): (ks: seq<Kind>)
    ensures |ks| == |lines| && forall i :: 0 <= i < |lines| ==> ks[i] == KindOf(lines[i], w)
  {
    if lines == [] then [] else [KindOf(lines[0], w)] + Kinds(lines[1..], w)
  }

  // ── rows ──────────────────────────────────────────────────────────────────

  datatype JobRow = JobRow(file: string, job: string, minutes: int)
  datatype StepRow = StepRow(file: string, job: string, step: string, minutes: int)

  function DecInt(n: int): string {
    if n < 0 then "-" + Dec(-n) else Dec(n)
  }

  function JobCells(r: JobRow): seq<string> {
    [r.file, r.job, DecInt(r.minutes)]
  }

  function StepCells(r: StepRow): seq<string> {
    [r.file, r.job, r.step, DecInt(r.minutes)]
  }

  function RenderJobRows(rows: seq<JobRow>): (ls: seq<string>)
    ensures |ls| == |rows| && forall i :: 0 <= i < |rows| ==> ls[i] == RenderRow(JobCells(rows[i]))
  {
    if rows == [] then [] else [RenderRow(JobCells(rows[0]))] + RenderJobRows(rows[1..])
  }

  function RenderStepRows(rows: seq<StepRow>): (ls: seq<string>)
    ensures |ls| == |rows| && forall i :: 0 <= i < |rows| ==> ls[i] == RenderRow(StepCells(rows[i]))
  {
    if rows == [] then [] else [RenderRow(StepCells(rows[0]))] + RenderStepRows(rows[1..])
  }

  const JOB_HEADER := ["| ファイル | ジョブ | 分 |", "| --- | --- | --- |"]
  const STEP_HEADER := ["| ファイル | ジョブ | step | 分 |", "| --- | --- | --- | --- |"]

  /** `render_jobs`. */
  function RenderJobs(rows: seq<JobRow>): seq<string> {
    JOB_HEADER + RenderJobRows(rows)
  }

  /** `render_steps`. */
  function RenderSteps(rows: seq<StepRow>): seq<string> {
    STEP_HEADER + RenderStepRows(rows)
  }

  function ParseJob(line: string): Option<JobRow> {
    var c := SplitRow(line);
    if |c| >= 3 && AllDecimal(c[2]) then Some(JobRow(c[0], c[1], IntOf(c[2]))) else None
  }

  /** Three columns are the older form, in which every step had ten minutes. */
  function ParseStep(line: string): Option<StepRow> {
    var c := SplitRow(line);
    if |c| >= 4 && AllDecimal(c[3]) then Some(StepRow(c[0], c[1], c[2], IntOf(c[3])))
    else if |c| == 3 then Some(StepRow(c[0], c[1], c[2], 10))
    else None
  }

  function ParseJobs(ls: seq<string>): seq<JobRow> {
    if ls == [] then []
    else (match ParseJob(ls[0]) case Some(r) => [r] case None => []) + ParseJobs(ls[1..])
  }

  function ParseSteps(ls: seq<string>): seq<StepRow> {
    if ls == [] then []
    else (match ParseStep(ls[0]) case Some(r) => [r] case None => []) + ParseSteps(ls[1..])
  }

  /** The column of the minutes passes for digits, and `int` raises on it. */
  predicate Unreadable(cells: seq<string>, column: nat) {
    |cells| > column && AllNumerals(cells[column]) && !IntReads(cells[column])
  }

  predicate JobRaises(line: string) {
    Unreadable(SplitRow(line), 2)
  }

  predicate StepRaises(line: string) {
    Unreadable(SplitRow(line), 3)
  }

  // ── the document ──────────────────────────────────────────────────────────

  datatype Parsed = Parsed(jobs: seq<JobRow>, steps: seq<StepRow>, said: Option<seq<nat>>)

  /** The lines of the table of a heading, its two header lines left out. */
  function TableRows(lines: seq<string>, k: Kind, w: char -> bool): seq<string> {
    match Locate(Kinds(lines, w), k)
    case Table(h, s, e) => if s + 2 <= e then lines[s + 2..e] else []
    case _ => []
  }

  function Said(text: string): Option<seq<nat>> {
    match Search(text)
    case None => None
    case Some(m) => Some(Numbers(m))
  }

  /** `int` raises on a number of the total. */
  predicate SaidRaises(text: string) {
    Search(text).Some? && HasLong(Search(text).value)
  }

  /** What `parse_doc` gives, when nothing raises. */
  function ParseDoc(text: string, w: char -> bool): Parsed {
    var lines := Split(text);
    Parsed(ParseJobs(TableRows(lines, JobHeading, w)), ParseSteps(TableRows(lines, StepHeading, w)), Said(text))
  }

  predicate Raises(text: string, w: char -> bool) {
    var lines := Split(text);
    var jobs, steps := TableRows(lines, JobHeading, w), TableRows(lines, StepHeading, w);
    || (exists i :: 0 <= i < |jobs| && JobRaises(jobs[i]))
    || (exists i :: 0 <= i < |steps| && StepRaises(steps[i]))
    || SaidRaises(text)
  }

  /** `parse_doc`; `None` is its exception. */
  function Reading(text: string, w: char -> bool): Option<Parsed> {
    if Raises(text, w) then None else Some(ParseDoc(text, w))
  }

  /** One round of the loop of `apply_doc`: the table of a heading, and the heading, written anew. */
  function Rewrite(lines: seq<string>, k: Kind, table: seq<string>, heading: string, w: char -> bool): seq<string> {
    match Locate(Kinds(lines, w), k)
    case NoHeading => lines
    case NoTable(h) => lines[h := heading]
    case Table(h, s, e) => (lines[..s] + table + lines[e..])[h := heading]
  }

  function JobTitle(n: nat): string {
    JOB + " " + Dec(n) + " 件"
  }

  function StepTitle(n: nat): string {
    STEP + " " + Dec(n) + " 件"
  }

  function ApplyLines(lines: seq<string>, jobs: seq<JobRow>, steps: seq<StepRow>, w: char -> bool): seq<string> {
    var once := Rewrite(lines, StepHeading, RenderSteps(steps), StepTitle(|steps|), w);
    Rewrite(once, JobHeading, RenderJobs(jobs), JobTitle(|jobs|), w)
  }

  /** What `apply_doc` gives, when no number is too long to be written. */
  function ApplyDoc(text: string, jobs: seq<JobRow>, steps: seq<StepRow>, w: char -> bool): string {
    var lines := ApplyLines(Split(text), jobs, steps, w);
    if lines == [] then "" else Sub(Join(lines), Total(|jobs|, |steps|))
  }

  predicate JobsShort(jobs: seq<JobRow>) {
    forall i :: 0 <= i < |jobs| ==> Short(jobs[i].minutes)
  }

  predicate StepsShort(steps: seq<StepRow>) {
    forall i :: 0 <= i < |steps| ==> Short(steps[i].minutes)
  }

  /** Writing a number raises: minutes in a table that is written, or the total. */
  predicate ApplyRaises(text: string, jobs: seq<JobRow>, steps: seq<StepRow>, w: char -> bool) {
    var ks := Kinds(Split(text), w);
    || (Locate(ks, StepHeading).Table? && !StepsShort(steps))
    || (Locate(ks, JobHeading).Table? && !JobsShort(jobs))
    || !Short(|jobs| + |steps|)
  }

  /** `apply_doc`; `None` is its exception. */
  function Applying(text: string, jobs: seq<JobRow>, steps: seq<StepRow>, w: char -> bool): Option<string> {
    if ApplyRaises(text, jobs, steps, w) then None else Some(ApplyDoc(text, jobs, steps, w))
  }

  // ── rows come back ────────────────────────────────────────────────────────

  lemma {:induction false} DigitsAreTrimmed(s: string)
    requires forall i :: 0 <= i < |s| ==> !IsSpace(s[i])
    ensures Strip(s) == s
  {
  }

  lemma DecIntReads(n: int)
    ensures Strip(DecInt(n)) == DecInt(n)
    ensures AllDecimal(DecInt(n)) <==> n >= 0
    ensures n >= 0 ==> IntOf(DecInt(n)) == n && |DecInt(n)| == |Dec(n)|
    ensures n < 0 ==> !AllNumerals(DecInt(n))
  {
    if n < 0 { assert !IsNumeral(DecInt(n)[0]); }
    if n >= 0 {
      IntOfDec(n);
      DigitsAreTrimmed(DecInt(n));
    } else {
      assert DecInt(n)[0] == '-';
      DigitsAreTrimmed(DecInt(n));
    }
  }

  /**
   * A written job row reads back as itself exactly when its cells are trimmed and its minutes are not negative;
   * reading it raises exactly when the minutes are too long.
   */
  lemma JobRowComesBackIff(r: JobRow)
    ensures ParseJob(RenderRow(JobCells(r))) == Some(r) <==> Strip(r.file) == r.file && Strip(r.job) == r.job && r.minutes >= 0
    ensures JobRaises(RenderRow(JobCells(r))) <==> r.minutes >= 0 && !Short(r.minutes)
  {
    hide SplitRow, RenderRow, Strip, IntOf;
    SplitRendered(JobCells(r));
    DecIntReads(r.minutes);
  }

  lemma StepRowComesBackIff(r: StepRow)
    ensures ParseStep(RenderRow(StepCells(r))) == Some(r) <==>
            Strip(r.file) == r.file && Strip(r.job) == r.job && Strip(r.step) == r.step && r.minutes >= 0
    ensures StepRaises(RenderRow(StepCells(r))) <==> r.minutes >= 0 && !Short(r.minutes)
  {
    hide SplitRow, RenderRow, Strip, IntOf;
    SplitRendered(StepCells(r));
    DecIntReads(r.minutes);
  }

  /** How the cells of any row are read: the minutes stand in the third column, or in the fourth, and more may follow. */
  lemma CellsRead(cells: seq<string>)
    requires cells != []
    ensures var n := |cells|;
            && ParseJob(RenderRow(cells)) ==
                 (if n < 3 || !AllDecimal(Strip(cells[2])) then None
                  else Some(JobRow(Strip(cells[0]), Strip(cells[1]), IntOf(Strip(cells[2])))))
            && ParseStep(RenderRow(cells)) ==
                 (if n < 3 || (n > 3 && !AllDecimal(Strip(cells[3]))) then None
                  else Some(StepOfCells(cells, if n == 3 then 10 else IntOf(Strip(cells[3])))))
  {
    hide SplitRow, RenderRow, Strip, IntOf;
    SplitRendered(cells);
  }

  function StepOfCells(cells: seq<string>, minutes: int): StepRow
    requires |cells| >= 3
  {
    StepRow(Strip(cells[0]), Strip(cells[1]), Strip(cells[2]), minutes)
  }

  /** A cell that a table can carry: one line, no white space outside, no total in it. */
  predicate Fits(c: string) {
    OneLine(c) && Strip(c) == c && !HasTotal(c)
  }

  predicate JobsFit(rows: seq<JobRow>) {
    forall i :: 0 <= i < |rows| ==> Fits(rows[i].file) && Fits(rows[i].job) && rows[i].minutes >= 0 && Short(rows[i].minutes)
  }

  predicate StepsFit(rows: seq<StepRow>) {
    forall i :: 0 <= i < |rows| ==>
                  Fits(rows[i].file) && Fits(rows[i].job) && Fits(rows[i].step) && rows[i].minutes >= 0 && Short(rows[i].minutes)
  }

  lemma {:induction false} JobRowsComeBack(rows: seq<JobRow>)
    requires JobsFit(rows)
    ensures ParseJobs(RenderJobRows(rows)) == rows
  {
    hide ParseJob, RenderRow;
    if rows != [] {
      JobRowComesBackIff(rows[0]);
      JobRowsComeBack(rows[1..]);
      assert RenderJobRows(rows)[1..] == RenderJobRows(rows[1..]);
    }
  }

  lemma {:induction false} StepRowsComeBack(rows: seq<StepRow>)
    requires StepsFit(rows)
    ensures ParseSteps(RenderStepRows(rows)) == rows
  {
    hide ParseStep, RenderRow;
    if rows != [] {
      StepRowComesBackIff(rows[0]);
      StepRowsComeBack(rows[1..]);
      assert RenderStepRows(rows)[1..] == RenderStepRows(rows[1..]);
    }
  }

  // ── rows with the totals in them replaced ─────────────────────────────────

  function SubJob(r: JobRow, t: string): JobRow {
    JobRow(Sub(r.file, t), Sub(r.job, t), r.minutes)
  }

  function SubStep(r: StepRow, t: string): StepRow {
    StepRow(Sub(r.file, t), Sub(r.job, t), Sub(r.step, t), r.minutes)
  }

  function SubJobs(rows: seq<JobRow>, t: string): (s: seq<JobRow>)
    ensures |s| == |rows| && forall i :: 0 <= i < |rows| ==> s[i] == SubJob(rows[i], t)
  {
    seq(|rows|, i requires 0 <= i < |rows| => SubJob(rows[i], t))
  }

  function SubSteps(rows: seq<StepRow>, t: string): (s: seq<StepRow>)
    ensures |s| == |rows| && forall i :: 0 <= i < |rows| ==> s[i] == SubStep(rows[i], t)
  {
    seq(|rows|, i requires 0 <= i < |rows| => SubStep(rows[i], t))
  }

  lemma TotalHasNoBar(m: nat, n: nat)
    ensures '|' !in Total(m, n)
  {
  }

  lemma NoJStays(s: string, m: nat, n: nat)
    requires 'j' !in s
    ensures Sub(s, Total(m, n)) == s
  {
    NoJNoTotal(s);
    SearchAfterSub(s, m, n);
  }

  lemma DecIntStays(k: int, m: nat, n: nat)
    ensures Sub(DecInt(k), Total(m, n)) == DecInt(k)
  {
    NoJStays(DecInt(k), m, n);
  }

  lemma JobLineSubbed(r: JobRow, m: nat, n: nat)
    ensures Sub(RenderRow(JobCells(r)), Total(m, n)) == RenderRow(JobCells(SubJob(r, Total(m, n))))
  {
    hide Sub, RenderRow, Total, DecInt;
    TotalHasNoBar(m, n);
    DecIntStays(r.minutes, m, n);
    SubRow(JobCells(r), JobCells(SubJob(r, Total(m, n))), Total(m, n));
  }

  lemma StepLineSubbed(r: StepRow, m: nat, n: nat)
    ensures Sub(RenderRow(StepCells(r)), Total(m, n)) == RenderRow(StepCells(SubStep(r, Total(m, n))))
  {
    hide Sub, RenderRow, Total, DecInt;
    TotalHasNoBar(m, n);
    DecIntStays(r.minutes, m, n);
    SubRow(StepCells(r), StepCells(SubStep(r, Total(m, n))), Total(m, n));
  }

  lemma HeadersStay(m: nat, n: nat)
    ensures Sub(JOB_HEADER[0], Total(m, n)) == JOB_HEADER[0] && Sub(STEP_HEADER[0], Total(m, n)) == STEP_HEADER[0]
    ensures Sub(JOB_HEADER[1], Total(m, n)) == JOB_HEADER[1] && Sub(STEP_HEADER[1], Total(m, n)) == STEP_HEADER[1]
  {
    hide Sub, Total;
    NoJStays("| ファイル | ジョブ | 分 |", m, n);
    NoJStays("| ファイル | ジョブ | step | 分 |", m, n);
    NoJStays("| --- | --- | --- |", m, n);
    NoJStays("| --- | --- | --- | --- |", m, n);
  }

  /** The tables, the totals in them replaced, are the tables of the rows with the totals in them replaced. */
  lemma JobsSubbed(rows: seq<JobRow>, m: nat, n: nat)
    ensures SubEach(RenderJobs(rows), Total(m, n)) == RenderJobs(SubJobs(rows, Total(m, n)))
    ensures |RenderJobs(rows)| >= 2 && RenderJobs(rows)[2..] == RenderJobRows(rows)
  {
    hide Sub, RenderRow, Total, SubEach;
    HeadersStay(m, n);
    var a, b := SubEach(RenderJobs(rows), Total(m, n)), RenderJobs(SubJobs(rows, Total(m, n)));
    forall i | 0 <= i < |a| ensures a[i] == b[i] {
      if i >= 2 { JobLineSubbed(rows[i - 2], m, n); }
    }
  }

  lemma StepsSubbed(rows: seq<StepRow>, m: nat, n: nat)
    ensures SubEach(RenderSteps(rows), Total(m, n)) == RenderSteps(SubSteps(rows, Total(m, n)))
    ensures |RenderSteps(rows)| >= 2 && RenderSteps(rows)[2..] == RenderStepRows(rows)
  {
    hide Sub, RenderRow, Total, SubEach;
    HeadersStay(m, n);
    var a, b := SubEach(RenderSteps(rows), Total(m, n)), RenderSteps(SubSteps(rows, Total(m, n)));
    forall i | 0 <= i < |a| ensures a[i] == b[i] {
      if i >= 2 { StepLineSubbed(rows[i - 2], m, n); }
    }
  }

  lemma FittingJobsStay(rows: seq<JobRow>, m: nat, n: nat)
    requires JobsFit(rows)
    ensures SubJobs(rows, Total(m, n)) == rows
  {
    hide Sub, Total, Search, Strip;
    forall i | 0 <= i < |rows| ensures SubJob(rows[i], Total(m, n)) == rows[i] {
      SearchAfterSub(rows[i].file, m, n);
      SearchAfterSub(rows[i].job, m, n);
    }
  }

  lemma FittingStepsStay(rows: seq<StepRow>, m: nat, n: nat)
    requires StepsFit(rows)
    ensures SubSteps(rows, Total(m, n)) == rows
  {
    hide Sub, Total, Search, Strip;
    forall i | 0 <= i < |rows| ensures SubStep(rows[i], Total(m, n)) == rows[i] {
      SearchAfterSub(rows[i].file, m, n);
      SearchAfterSub(rows[i].job, m, n);
      SearchAfterSub(rows[i].step, m, n);
    }
  }

  // ── the lines that are written ────────────────────────────────────────────

  /** A line of a table, on one line, with no total in it. */
  predicate CleanBar(l: string) {
    l != "" && l[0] == '|' && OneLine(l) && !HasTotal(l)
  }

  lemma DigitsAreClean(n: nat)
    ensures OneLine(Dec(n)) && !HasTotal(Dec(n))
  {
    NoJNoTotal(Dec(n));
  }

  lemma {:induction false} NoJNoTotal(s: string)
    requires 'j' !in s
    ensures !HasTotal(s)
  {
    if s != "" { NoJNoTotal(s[1..]); }
  }

  lemma CleanRow(cells: seq<string>)
    requires forall i :: 0 <= i < |cells| ==> OneLine(cells[i]) && !HasTotal(cells[i])
    ensures CleanBar(RenderRow(cells))
  {
    hide Search;
    RowIsOneLine(cells);
    RowHasTotalIff(cells);
  }

  lemma JobHeaderIsClean()
    ensures CleanBar(JOB_HEADER[0])
  {
    hide Search;
    NoJNoTotal("| ファイル | ジョブ | 分 |");
  }

  lemma StepHeaderIsClean()
    ensures CleanBar(STEP_HEADER[0])
  {
    hide Search;
    NoJNoTotal("| ファイル | ジョブ | step | 分 |");
  }

  lemma RulesAreClean()
    ensures CleanBar(JOB_HEADER[1]) && CleanBar(STEP_HEADER[1])
  {
    hide Search;
    NoJNoTotal("| --- | --- | --- |");
    NoJNoTotal("| --- | --- | --- | --- |");
  }

  lemma JobsAreClean(rows: seq<JobRow>)
    requires JobsFit(rows)
    ensures forall i :: 0 <= i < |rows| + 2 ==> CleanBar(RenderJobs(rows)[i])
  {
    hide Search, Strip, RenderRow;
    forall i | 0 <= i < |rows| + 2 ensures CleanBar(RenderJobs(rows)[i]) {
      if i < 2 {
        JobHeaderIsClean();
        RulesAreClean();
      } else {
        DigitsAreClean(rows[i - 2].minutes);
        CleanRow(JobCells(rows[i - 2]));
      }
    }
  }

  lemma StepsAreClean(rows: seq<StepRow>)
    requires StepsFit(rows)
    ensures forall i :: 0 <= i < |rows| + 2 ==> CleanBar(RenderSteps(rows)[i])
  {
    hide Search, Strip, RenderRow;
    forall i | 0 <= i < |rows| + 2 ensures CleanBar(RenderSteps(rows)[i]) {
      if i < 2 {
        StepHeaderIsClean();
        RulesAreClean();
      } else {
        DigitsAreClean(rows[i - 2].minutes);
        CleanRow(StepCells(rows[i - 2]));
      }
    }
  }

  lemma TitlesAreClean(n: nat, w: char -> bool)
    requires Wordlike(w)
    ensures KindOf(JobTitle(n), w) == JobHeading && OneLine(JobTitle(n)) && !HasTotal(JobTitle(n))
    ensures KindOf(StepTitle(n), w) == StepHeading && OneLine(StepTitle(n)) && !HasTotal(StepTitle(n))
  {
    DigitsAreClean(n);
    NoJNoTotal(JobTitle(n));
    NoJNoTotal(StepTitle(n));
    assert JobTitle(n)[|JOB|] == ' ' && StepTitle(n)[|STEP|] == ' ';
    assert JobTitle(n)[..|JOB|] == JOB && StepTitle(n)[..|STEP|] == STEP;
    assert StepTitle(n)[4] == 's' && JOB[4] == 'ジ';
  }
}
