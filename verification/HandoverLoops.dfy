// The loops of scripts/handover_timeouts.py that find the tables, read them and
// write them, each shown to compute the function the theorems are about; and the
// comparison of the document with the tree.
module HandoverLoops {
  import opened Common
  import opened PythonText
  import opened TotalLine
  import opened TextLines
  import opened HandoverShape
  import opened HandoverDoc
  import opened HandoverRoundTrip
  import opened HandoverTheorems

  function Title(k: Kind): string {
    if k.JobHeading? then JOB else STEP
  }

  lemma KindIsTitle(l: string, k: Kind, w: char -> bool)
    requires Wordlike(w) && (k.JobHeading? || k.StepHeading?)
    ensures KindOf(l, w) == k <==> Titled(l, Title(k), w)
  {
    assert JOB[4] == 'ジ' && STEP[4] == 's';
    if JOB <= l { assert l[4] == JOB[4]; }
    if STEP <= l { assert l[4] == STEP[4]; }
  }

  /** `find_heading`. */
  method FindHeading(lines: seq<string>, k: Kind, w: char -> bool) returns (r: int)
    requires Wordlike(w) && (k.JobHeading? || k.StepHeading?)
    ensures r == match FindKind(Kinds(lines, w), k) case None => -1 case Some(h) => h
  {
    hide KindOf, Titled;
    FindKindIs(Kinds(lines, w), k);
    for i := 0 to |lines|
      invariant forall j :: 0 <= j < i ==> KindOf(lines[j], w) != k
    {
      KindIsTitle(lines[i], k, w);
      if Titled(lines[i], Title(k), w) {
        FindKindAt(Kinds(lines, w), k, i);
        return i;
      }
    }
    return -1;
  }

  predicate StartsWith(l: string, c: char) {
    l != "" && l[0] == c
  }

  /** `table_at`. */
  method TableAt(lines: seq<string>, start: nat, w: char -> bool) returns (s: int, e: int)
    ensures match TableFrom(Kinds(lines, w), start) case None => s == e == -1 case Some((a, b)) => s == a && e == b
  {
    hide Kinds;
    ghost var ks := Kinds(lines, w);
    var i := start;
    while i < |lines| && !StartsWith(lines[i], '|')
      invariant start <= i && (start <= |lines| ==> i <= |lines|)
      invariant FirstBar(ks, start, start) == FirstBar(ks, start, i)
      decreases |lines| - i
    {
      if StartsWith(lines[i], '#') && i > start {
        return -1, -1;
      }
      i := i + 1;
    }
    if i >= |lines| {
      return -1, -1;
    }
    var j := i;
    while j < |lines| && StartsWith(lines[j], '|')
      invariant i <= j <= |lines| && LastBar(ks, i) == LastBar(ks, j)
    {
      j := j + 1;
    }
    return i, j;
  }

  /** The rows under a heading, the two header lines left out; none without a table. */
  method RowsUnder(lines: seq<string>, k: Kind, w: char -> bool) returns (rows: seq<string>)
    requires Wordlike(w) && (k.JobHeading? || k.StepHeading?)
    ensures rows == TableRows(lines, k, w)
  {
    hide FindKind, TableFrom, Kinds;
    rows := [];
    var h := FindHeading(lines, k, w);
    if h >= 0 {
      var s, e := TableAt(lines, h + 1, w);
      if s >= 0 && s + 2 <= e {
        rows := lines[s + 2..e];
      }
    }
  }

  lemma ParseJobsFirst(a: seq<string>)
    ensures ParseJobs([]) == []
    ensures a != [] ==> ParseJobs(a) == (match ParseJob(a[0]) case Some(r) => [r] case None => []) + ParseJobs(a[1..])
  {
    hide ParseJob;
  }

  lemma {:induction false} ParseJobsAppend(a: seq<string>, l: string)
    ensures ParseJobs(a + [l]) == ParseJobs(a) + match ParseJob(l) case Some(r) => [r] case None => []
  {
    hide ParseJob, ParseJobs;
    ParseJobsFirst(a + [l]);
    ParseJobsFirst(a);
    if a == [] {
      assert (a + [l])[1..] == [];
    } else {
      assert (a + [l])[1..] == a[1..] + [l];
      ParseJobsAppend(a[1..], l);
    }
  }

  lemma ParseStepsFirst(a: seq<string>)
    ensures ParseSteps([]) == []
    ensures a != [] ==> ParseSteps(a) == (match ParseStep(a[0]) case Some(r) => [r] case None => []) + ParseSteps(a[1..])
  {
    hide ParseStep;
  }

  lemma {:induction false} ParseStepsAppend(a: seq<string>, l: string)
    ensures ParseSteps(a + [l]) == ParseSteps(a) + match ParseStep(l) case Some(r) => [r] case None => []
  {
    hide ParseStep, ParseSteps;
    ParseStepsFirst(a + [l]);
    ParseStepsFirst(a);
    if a == [] {
      assert (a + [l])[1..] == [];
    } else {
      assert (a + [l])[1..] == a[1..] + [l];
      ParseStepsAppend(a[1..], l);
    }
  }

  /**
   * `parse_doc`: it raises on the first row whose minutes look like digits and are none, or are too many, and on
   * too many digits in the total.
   */
  method ReadDoc(text: string, w: char -> bool) returns (r: Option<Parsed>)
    requires Wordlike(w)
    ensures r == Reading(text, w)
  {
    hide TableRows, ParseJob, ParseStep, Split, JobRaises, StepRaises, SaidRaises;
    var lines := Split(text);
    var jobs: seq<JobRow>, steps: seq<StepRow> := [], [];
    var rows := RowsUnder(lines, JobHeading, w);
    for i := 0 to |rows|
      invariant jobs == ParseJobs(rows[..i]) && forall k :: 0 <= k < i ==> !JobRaises(rows[k])
    {
      if JobRaises(rows[i]) {
        return None;
      }
      assert rows[..i + 1] == rows[..i] + [rows[i]];
      ParseJobsAppend(rows[..i], rows[i]);
      var row := ParseJob(rows[i]);
      if row.Some? { jobs := jobs + [row.value]; }
    }
    assert rows[..|rows|] == rows;
    rows := RowsUnder(lines, StepHeading, w);
    for i := 0 to |rows|
      invariant steps == ParseSteps(rows[..i]) && forall k :: 0 <= k < i ==> !StepRaises(rows[k])
    {
      if StepRaises(rows[i]) {
        return None;
      }
      assert rows[..i + 1] == rows[..i] + [rows[i]];
      ParseStepsAppend(rows[..i], rows[i]);
      var row := ParseStep(rows[i]);
      if row.Some? { steps := steps + [row.value]; }
    }
    assert rows[..|rows|] == rows;
    if SaidRaises(text) {
      return None;
    }
    r := Some(Parsed(jobs, steps, Said(text)));
  }

  /** One round of the loop of `apply_doc`; a table is rendered only where there is one, and that may raise. */
  method Round(lines: seq<string>, k: Kind, table: seq<string>, short: bool, heading: string, w: char -> bool)
      returns (r: Option<seq<string>>)
    requires Wordlike(w) && (k.JobHeading? || k.StepHeading?)
    ensures r == if Locate(Kinds(lines, w), k).Table? && !short then None else Some(Rewrite(lines, k, table, heading, w))
  {
    hide FindKind, TableFrom, Kinds;
    var h := FindHeading(lines, k, w);
    if h < 0 {
      return Some(lines);
    }
    var s, e := TableAt(lines, h + 1, w);
    var all := lines;
    if s >= 0 {
      if !short {
        return None;
      }
      all := all[..s] + table + all[e..];
    }
    r := Some(all[h := heading]);
  }

  /** `apply_doc`: the steps first, then the jobs. */
  method WriteDoc(text: string, jobs: seq<JobRow>, steps: seq<StepRow>, w: char -> bool) returns (r: Option<string>)
    requires Wordlike(w)
    ensures r == Applying(text, jobs, steps, w)
  {
    hide Rewrite, Split, RenderJobs, RenderSteps, Locate, Kinds, Short;
    TableStillThere(Split(text), steps, w);
    var lines := Split(text);
    var round := Round(lines, StepHeading, RenderSteps(steps), StepsShort(steps), StepTitle(|steps|), w);
    if round.None? {
      return None;
    }
    lines := round.value;
    round := Round(lines, JobHeading, RenderJobs(jobs), JobsShort(jobs), JobTitle(|jobs|), w);
    if round.None? || !Short(|jobs| + |steps|) {
      return None;
    }
    lines := round.value;
    r := Some(if lines == [] then "" else Sub(Join(lines), Total(|jobs|, |steps|)));
  }

  /** The first round leaves the jobs their table, and gives them none. */
  lemma TableStillThere(lines: seq<string>, steps: seq<StepRow>, w: char -> bool)
    requires Wordlike(w)
    ensures Spot(Once(lines, steps, w), JobHeading, w).Table? <==> Spot(lines, JobHeading, w).Table?
  {
    hide Writable, Rewrite, Locate, RenderSteps, Kinds;
    StepsWritable(steps, w);
    RewriteMoves(lines, StepHeading, RenderSteps(steps), StepTitle(|steps|), w, JobHeading);
  }

  // ── comparing ─────────────────────────────────────────────────────────────

  datatype Difference =
    | JobOnlyInTree(job: JobRow) | JobOnlyInDoc(job: JobRow)
    | StepOnlyInTree(step: StepRow) | StepOnlyInDoc(step: StepRow)
    | NoTotalLine | WrongTotal(said: seq<nat>)

  /** `differences`; the order in which they are listed is left out. */
  function Differences(jobs: seq<JobRow>, steps: seq<StepRow>, doc: Parsed): (d: set<Difference>)
    ensures d == {} <==>
              && (forall r :: r in jobs <==> r in doc.jobs) && (forall r :: r in steps <==> r in doc.steps)
              && doc.said == Some([|jobs|, |steps|, |jobs| + |steps|])
  {
    var a := set r | r in jobs && r !in doc.jobs :: JobOnlyInTree(r);
    var b := set r | r in doc.jobs && r !in jobs :: JobOnlyInDoc(r);
    var c := set r | r in steps && r !in doc.steps :: StepOnlyInTree(r);
    var e := set r | r in doc.steps && r !in steps :: StepOnlyInDoc(r);
    var t := match doc.said
      case None => {NoTotalLine}
      case Some(n) => if n == [|jobs|, |steps|, |jobs| + |steps|] then {} else {WrongTotal(n)};
    assert forall r :: r in jobs && r !in doc.jobs ==> JobOnlyInTree(r) in a;
    assert forall r :: r in doc.jobs && r !in jobs ==> JobOnlyInDoc(r) in b;
    assert forall r :: r in steps && r !in doc.steps ==> StepOnlyInTree(r) in c;
    assert forall r :: r in doc.steps && r !in steps ==> StepOnlyInDoc(r) in e;
    a + b + c + e + t
  }

  /** Which differences are listed. */
  lemma IsListed(jobs: seq<JobRow>, steps: seq<StepRow>, doc: Parsed, x: Difference)
    ensures x in Differences(jobs, steps, doc) <==>
            match x
            case JobOnlyInTree(r) => r in jobs && r !in doc.jobs
            case JobOnlyInDoc(r) => r in doc.jobs && r !in jobs
            case StepOnlyInTree(r) => r in steps && r !in doc.steps
            case StepOnlyInDoc(r) => r in doc.steps && r !in steps
            case NoTotalLine => doc.said.None?
            case WrongTotal(n) => doc.said == Some(n) && n != [|jobs|, |steps|, |jobs| + |steps|]
  {
    match x
    case _ =>
  }

  /** After `--apply` on a ready document, `--check` has nothing to say. */
  lemma NothingToSayAfterApply(text: string, jobs: seq<JobRow>, steps: seq<StepRow>, w: char -> bool)
    requires Wordlike(w) && Ready(text, w) && RowsFit(jobs, steps)
    ensures Applying(text, jobs, steps, w).Some?
    ensures var p := Reading(Applying(text, jobs, steps, w).value, w); p.Some? && Differences(jobs, steps, p.value) == {}
  {
    hide Ready, RowsFit, Reading, Applying;
    RoundTrip(text, jobs, steps, w);
  }

  /** The comparison is of sets: a row written down twice passes it. */
  lemma DuplicateRowPasses(jobs: seq<JobRow>, steps: seq<StepRow>, i: nat)
    requires i < |jobs|
    ensures Differences(jobs, steps, Parsed(jobs + [jobs[i]], steps, Written(jobs, steps).said)) == {}
    ensures jobs + [jobs[i]] != jobs
  {
    assert |jobs + [jobs[i]]| == |jobs| + 1;
  }
}
