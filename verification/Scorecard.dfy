// Counting the scores, writing them down and comparing with an earlier card
// (agent/cmd/attack-scorer/main.go and regression.go). Rates are exact reals.
module Scorecard {
  import opened Common
  import opened Decimal
  import opened GoStrings
  import opened Attribution
  import opened AttributionLaws

  datatype Kpi = Kpi(n: nat, vis: nat, det: nat, ana: nat)

  function AtLeast(k: int): Result -> bool {
    (x: Result) => x.rank >= k
  }

  function KpiOf(res: seq<Result>): Kpi {
    Kpi(|res|, CountIf(res, AtLeast(RANK_TELEMETRY)), CountIf(res, AtLeast(RANK_GENERAL)), CountIf(res, AtLeast(RANK_TECHNIQUE)))
  }

  /** `summarize`, and the counting in `printScorecard` */
  method Summarize(results: seq<Result>) returns (s: Kpi)
    ensures s == KpiOf(results)
  {
    s := Kpi(|results|, 0, 0, 0);
    for i := 0 to |results|
      invariant s == KpiOf(results[..i]).(n := |results|)
    {
      assert results[..i + 1][..i] == results[..i];
      var r := results[i];
      if r.rank >= RANK_TELEMETRY { s := s.(vis := s.vis + 1); }
      if r.rank >= RANK_GENERAL { s := s.(det := s.det + 1); }
      if r.rank >= RANK_TECHNIQUE { s := s.(ana := s.ana + 1); }
    }
    assert results[..|results|] == results;
  }

  /** On what `attribute` gives, counting from General and counting from Tactic is the same. */
  lemma DetectedIsTactic(runs: seq<RunEntry>, alerts: seq<Alert>, s: Setup, res: seq<Result>)
    requires AllScored(runs, alerts, s, res)
    ensures CountIf(res, AtLeast(RANK_GENERAL)) == CountIf(res, AtLeast(RANK_TACTIC))
    ensures KpiOf(res).ana <= KpiOf(res).det <= KpiOf(res).vis <= KpiOf(res).n
  {
    hide Scored;
    forall i | 0 <= i < |res| ensures res[i].rank != RANK_GENERAL { RanksGiven(alerts, runs[i], s, res[i]); }
    CountIfMonotone(res, AtLeast(RANK_GENERAL), AtLeast(RANK_TACTIC));
    CountIfMonotone(res, AtLeast(RANK_TACTIC), AtLeast(RANK_GENERAL));
    CountIfMonotone(res, AtLeast(RANK_TECHNIQUE), AtLeast(RANK_GENERAL));
    CountIfMonotone(res, AtLeast(RANK_GENERAL), AtLeast(RANK_TELEMETRY));
  }

  function Ranked(k: int): Result -> bool {
    (x: Result) => x.rank == k
  }

  /** The counts by the ranks that were given: `vis` all but None, `det` Tactic and Technique, `ana` Technique alone. */
  lemma CountsByRank(runs: seq<RunEntry>, alerts: seq<Alert>, s: Setup, res: seq<Result>)
    requires AllScored(runs, alerts, s, res)
    ensures var k := KpiOf(res);
            && k.n == |runs| && k.ana == CountIf(res, Ranked(RANK_TECHNIQUE))
            && k.det == CountIf(res, Ranked(RANK_TACTIC)) + CountIf(res, Ranked(RANK_TECHNIQUE))
            && k.vis == CountIf(res, Ranked(RANK_TELEMETRY)) + k.det
            && k.n == CountIf(res, Ranked(RANK_NONE)) + k.vis
  {
    hide Scored, CountIf;
    forall i | 0 <= i < |res| ensures res[i].rank in {RANK_NONE, RANK_TELEMETRY, RANK_TACTIC, RANK_TECHNIQUE} {
      RanksGiven(alerts, runs[i], s, res[i]);
    }
    var all: Result -> bool := AtLeast(RANK_NONE);
    CountIfSplits(res, AtLeast(RANK_TECHNIQUE), Ranked(RANK_TECHNIQUE), Ranked(5));
    CountIfZero(res, Ranked(5));
    CountIfSplits(res, AtLeast(RANK_GENERAL), Ranked(RANK_TACTIC), Ranked(RANK_TECHNIQUE));
    CountIfSplits(res, AtLeast(RANK_TELEMETRY), Ranked(RANK_TELEMETRY), AtLeast(RANK_GENERAL));
    CountIfSplits(res, all, Ranked(RANK_NONE), AtLeast(RANK_TELEMETRY));
    AllAreCounted(res);
  }

  lemma {:induction false} AllAreCounted(res: seq<Result>)
    ensures CountIf(res, AtLeast(RANK_NONE)) == |res|
  {
    if res != [] { AllAreCounted(res[..|res| - 1]); }
  }

  predicate NoWorse(a: Kpi, b: Kpi) {
    a.n == b.n && a.vis <= b.vis && a.det <= b.det && a.ana <= b.ana
  }

  /** More alerts, a larger window, more events: no count goes down. */
  lemma CountsGrow(runs: seq<RunEntry>, a: seq<Alert>, b: seq<Alert>, s: Setup, t: Setup, x: seq<Result>, y: seq<Result>)
    requires AllIn(a, b) && Wider(s, t) && AllScored(runs, a, s, x) && AllScored(runs, b, t, y)
    ensures NoWorse(KpiOf(x), KpiOf(y))
  {
    hide Scored, Wider;
    forall i | 0 <= i < |runs| ensures x[i].rank <= y[i].rank { ResultsGrow(a, b, runs[i], s, t, x[i], y[i]); }
    CountIfPairwise(x, y, AtLeast(RANK_TELEMETRY));
    CountIfPairwise(x, y, AtLeast(RANK_GENERAL));
    CountIfPairwise(x, y, AtLeast(RANK_TECHNIQUE));
  }

  // ── the card as rows ──────────────────────────────────────────────────────

  type Rows = seq<seq<string>>

  const HEADER := ["technique", "test_name", "rank", "rank_name", "latency_sec", "matched_by", "exit_code"]

  function RankName(rank: nat): string {
    match rank
    case 0 => "None" case 1 => "Telemetry" case 2 => "General" case 3 => "Tactic" case 4 => "Technique" case _ => ""
  }

  /** One line of the card; `seconds` is how a latency is written. */
  function CardRow(r: Result, seconds: int -> string): seq<string> {
    [r.run.technique, r.run.testName, Dec(r.rank), RankName(r.rank),
     if r.latency >= 0 then seconds(r.latency) else "", r.matchedBy, r.run.exitCode]
  }

  function Card(results: seq<Result>, seconds: int -> string): (rows: Rows)
    ensures |rows| == |results| + 1
  {
    if results == [] then [HEADER] else Card(results[..|results| - 1], seconds) + [CardRow(results[|results| - 1], seconds)]
  }

  /** `writeScorecardCSV` */
  method WriteCard(results: seq<Result>, seconds: int -> string) returns (rows: Rows)
    ensures rows == Card(results, seconds)
  {
    rows := [HEADER];
    for i := 0 to |results|
      invariant rows == Card(results[..i], seconds)
    {
      rows := rows + [CardRow(results[i], seconds)];
      assert results[..i + 1][..i] == results[..i];
    }
    assert results[..|results|] == results;
  }

  /** Under each title of the card stands what it says. */
  lemma RowUnderHeader(r: Result, seconds: int -> string)
    ensures var row := CardRow(r, seconds);
            && |row| == |HEADER| && forall i :: 0 <= i < |HEADER| ==>
                 && (HEADER[i] == "technique" ==> row[i] == r.run.technique)
                 && (HEADER[i] == "test_name" ==> row[i] == r.run.testName)
                 && (HEADER[i] == "matched_by" ==> row[i] == r.matchedBy)
                 && (HEADER[i] == "exit_code" ==> row[i] == r.run.exitCode)
                 && (HEADER[i] == "latency_sec" ==> row[i] == if r.latency < 0 then "" else seconds(r.latency))
  {
    assert |HEADER[0]| == 9 && |HEADER[1]| == 9 && HEADER[1][0] == 't' && HEADER[1][1] == 'e' && HEADER[1][2] == 's';
    assert |HEADER[2]| == 4 && |HEADER[3]| == 9 && HEADER[3][0] == 'r' && |HEADER[4]| == 11 && |HEADER[5]| == 10;
    assert |HEADER[6]| == 9 && HEADER[6][0] == 'e' && HEADER[0][0] == 't' && HEADER[0][2] == 'c';
  }

  datatype Loaded = Loaded(kpi: Kpi) | NoRows | NoRankColumn

  predicate IsRankHeader(h: string) {
    Lower(TrimSpace(h)) == "rank"
  }

  predicate FirstRankColumn(header: seq<string>, ri: nat) {
    ri < |header| && IsRankHeader(header[ri]) && forall i :: 0 <= i < ri ==> !IsRankHeader(header[i])
  }

  /** The number in the rank column of a row, if it has one. */
  function RankIn(row: seq<string>, ri: nat): Option<int> {
    if ri >= |row| then None else Atoi(TrimSpace(row[ri]))
  }

  /** In any card a title names the rank column in whatever case, and a rank may have a sign; space around them does not count. */
  lemma CellsAreTrimmed(a: string, v: string, b: string, row: seq<string>, ri: nat)
    requires AllSpace(a) && AllSpace(b) && v != "" && !IsSpace(v[0]) && !IsSpace(v[|v| - 1])
    ensures IsRankHeader(a + v + b) <==> Lower(v) == "rank"
    ensures ri < |row| && row[ri] == a + v + b ==> RankIn(row, ri) == Atoi(v)
  {
    TrimmedBetween(a, v, b);
    hide TrimSpace, Atoi;
  }

  function RankFrom(ri: nat, k: int): seq<string> -> bool {
    (row: seq<string>) => RankIn(row, ri).Some? && RankIn(row, ri).value >= k
  }

  function HasRank(ri: nat): seq<string> -> bool {
    (row: seq<string>) => RankIn(row, ri).Some?
  }

  function KpiOfRows(rows: Rows, ri: nat): Kpi {
    Kpi(CountIf(rows, HasRank(ri)), CountIf(rows, RankFrom(ri, RANK_TELEMETRY)),
        CountIf(rows, RankFrom(ri, RANK_GENERAL)), CountIf(rows, RankFrom(ri, RANK_TECHNIQUE)))
  }

  function RankColumn(header: seq<string>): (r: Option<nat>)
    ensures r.Some? ==> FirstRankColumn(header, r.value)
    ensures r.None? ==> forall ri: nat :: !FirstRankColumn(header, ri)
  {
    if header == [] then None
    else
      var n := |header| - 1;
      var r := RankColumn(header[..n]);
      assert forall i :: 0 <= i < n ==> header[..n][i] == header[i];
      assert r.None? ==> forall i: nat :: i < n ==> !IsRankHeader(header[i]) by { NoneBefore(header[..n]); }
      if r.Some? then r else if IsRankHeader(header[n]) then Some(n) else None
  }

  lemma {:induction false} NoneBefore(header: seq<string>)
    ensures (forall ri: nat :: !FirstRankColumn(header, ri)) ==> forall i :: 0 <= i < |header| ==> !IsRankHeader(header[i])
  {
    hide IsRankHeader;
    if i :| 0 <= i < |header| && IsRankHeader(header[i]) {
      var k := 0;
      while !IsRankHeader(header[k])
        invariant 0 <= k <= i && forall j :: 0 <= j < k ==> !IsRankHeader(header[j])
        decreases i - k
      {
        k := k + 1;
      }
      assert FirstRankColumn(header, k);
    }
  }

  function LoadedOf(rows: Rows): Loaded {
    if |rows| < 2 then NoRows
    else
      match RankColumn(rows[0])
      case None => NoRankColumn
      case Some(ri) => Loaded(KpiOfRows(rows[1..], ri))
  }

  /** `loadBaselineKPI` */
  method LoadBaseline(rows: Rows) returns (r: Loaded)
    ensures |rows| < 2 <==> r.NoRows?
    ensures r.NoRankColumn? <==> |rows| >= 2 && forall ri: nat :: !FirstRankColumn(rows[0], ri)
    ensures r.Loaded? ==> exists ri: nat :: FirstRankColumn(rows[0], ri) && r.kpi == KpiOfRows(rows[1..], ri)
    ensures r == LoadedOf(rows)
  {
    hide IsRankHeader, RankIn, KpiOfRows, RankColumn;
    if |rows| < 2 {
      return NoRows;
    }
    var ri := 0;
    while ri < |rows[0]| && !IsRankHeader(rows[0][ri])
      invariant ri <= |rows[0]| && forall i :: 0 <= i < ri ==> !IsRankHeader(rows[0][i])
    {
      ri := ri + 1;
    }
    if ri == |rows[0]| {
      assert forall k: nat :: !FirstRankColumn(rows[0], k);
      return NoRankColumn;
    }
    var s := CountRows(rows[1..], ri);
    r := Loaded(s);
    assert FirstRankColumn(rows[0], ri);
  }

  /** The loop of `loadBaselineKPI` over the rows: a row without a number in the column is passed over. */
  method CountRows(rows: Rows, ri: nat) returns (s: Kpi)
    ensures s == KpiOfRows(rows, ri)
  {
    hide RankIn;
    s := Kpi(0, 0, 0, 0);
    for i := 0 to |rows|
      invariant s == KpiOfRows(rows[..i], ri)
    {
      assert rows[..i + 1][..i] == rows[..i];
      var rk := RankIn(rows[i], ri);
      if rk.Some? {
        s := s.(n := s.n + 1);
        if rk.value >= RANK_TELEMETRY { s := s.(vis := s.vis + 1); }
        if rk.value >= RANK_GENERAL { s := s.(det := s.det + 1); }
        if rk.value >= RANK_TECHNIQUE { s := s.(ana := s.ana + 1); }
      }
    }
    assert rows[..|rows|] == rows;
  }

  lemma RankReadsBack(r: Result, seconds: int -> string)
    requires r.rank <= RANK_TECHNIQUE
    ensures RankIn(CardRow(r, seconds), 2) == Some(r.rank)
  {
    AtoiDec(r.rank);
    assert |Dec(r.rank)| == 1;
    assert TrimSpace(Dec(r.rank)) == Dec(r.rank);
  }

  lemma {:induction false} CardReadsBack(results: seq<Result>, seconds: int -> string)
    requires forall i :: 0 <= i < |results| ==> results[i].rank <= RANK_TECHNIQUE
    ensures KpiOfRows(Card(results, seconds)[1..], 2) == KpiOf(results)
  {
    hide RankIn, CardRow;
    if results == [] {
      assert Card([], seconds)[1..] == [];
    } else {
      var n := |results| - 1;
      var rows := Card(results, seconds)[1..];
      CardReadsBack(results[..n], seconds);
      RankReadsBack(results[n], seconds);
      assert rows[..|rows| - 1] == Card(results[..n], seconds)[1..];
    }
  }

  lemma {:induction false} CardHasHeader(results: seq<Result>, seconds: int -> string)
    ensures Card(results, seconds)[0] == HEADER
  {
    hide CardRow;
    if results != [] { CardHasHeader(results[..|results| - 1], seconds); }
  }

  lemma TrimFixed(s: string)
    requires s != "" && !IsSpace(s[0]) && !IsSpace(s[|s| - 1])
    ensures TrimSpace(s) == s
  {
    hide IsSpace;
  }

  /** A title without capitals or outer space is a rank column if it says so. */
  lemma LowerTitle(s: string)
    requires s != "" && !IsSpace(s[0]) && !IsSpace(s[|s| - 1])
    requires forall i :: 0 <= i < |s| ==> !('A' <= s[i] <= 'Z')
    ensures IsRankHeader(s) <==> s == "rank"
  {
    TrimFixed(s);
    hide TrimSpace, IsSpace;
    assert Lower(s) == s;
  }

  lemma RankIsThirdColumn()
    ensures FirstRankColumn(HEADER, 2)
  {
    hide IsRankHeader;
    LowerTitle(HEADER[0]);
    LowerTitle(HEADER[1]);
    LowerTitle(HEADER[2]);
    assert |HEADER[0]| == 9 && |HEADER[1]| == 9;
  }

  // ── the gate ──────────────────────────────────────────────────────────────

  function Rate(a: nat, n: nat): real {
    if n == 0 then 0.0 else 100.0 * a as real / n as real
  }

  predicate Drops(cur: real, base: real, tol: real) {
    cur - base < -tol
  }

  /** Some rate fell by more than `tol` points. */
  predicate Regresses(cur: Kpi, base: Kpi, tol: real) {
    || Drops(Rate(cur.vis, cur.n), Rate(base.vis, base.n), tol)
    || Drops(Rate(cur.det, cur.n), Rate(base.det, base.n), tol)
    || Drops(Rate(cur.ana, cur.n), Rate(base.ana, base.n), tol)
  }

  /** `checkRegression`; the report is left out. */
  method CheckRegression(cur: Kpi, base: Kpi, tol: real) returns (regressed: bool)
    ensures regressed <==> Regresses(cur, base, tol)
  {
    var ms := [(Rate(cur.vis, cur.n), Rate(base.vis, base.n)),
               (Rate(cur.det, cur.n), Rate(base.det, base.n)),
               (Rate(cur.ana, cur.n), Rate(base.ana, base.n))];
    regressed := false;
    for i := 0 to |ms|
      invariant regressed <==> exists k :: 0 <= k < i && Drops(ms[k].0, ms[k].1, tol)
    {
      if Drops(ms[i].0, ms[i].1, tol) {
        regressed := true;
      }
    }
    assert Drops(ms[0].0, ms[0].1, tol) || Drops(ms[1].0, ms[1].1, tol) || Drops(ms[2].0, ms[2].1, tol) <==> regressed;
  }

  /** `fell` runs out of `n` are more than `tol` points. */
  predicate TooMany(fell: int, n: nat, tol: real) {
    100.0 * fell as real > tol * n as real
  }

  lemma DropsIff(a: nat, b: nat, n: nat, tol: real)
    requires n > 0
    ensures Drops(Rate(a, n), Rate(b, n), tol) <==> TooMany(b - a, n, tol)
  {
    var x, y, m := Rate(a, n), Rate(b, n), n as real;
    assert x * m == 100.0 * a as real && y * m == 100.0 * b as real;
    assert (y - x) * m == 100.0 * (b - a) as real;
    if y - x > tol { assert (y - x - tol) * m > 0.0; } else { assert (tol - (y - x)) * m >= 0.0; }
  }

  /** `a` of `n` runs against `b` of `m`, brought to one denominator; of no runs at all the rate is 0. */
  predicate Fell(a: nat, n: nat, b: nat, m: nat, tol: real) {
    var x, k := if n == 0 then 0 else a, if n == 0 then 1 else n;
    var y, l := if m == 0 then 0 else b, if m == 0 then 1 else m;
    100.0 * (y * k - x * l) as real > tol * (k * l) as real
  }

  lemma RateOver(a: nat, n: nat, x: nat, k: nat)
    requires x == if n == 0 then 0 else a
    requires k == if n == 0 then 1 else n
    ensures Rate(a, n) * k as real == 100.0 * x as real
  {
  }

  lemma AcrossDenominators(p: real, q: real, x: int, k: int, y: int, l: int, tol: real)
    requires k > 0 && l > 0 && p * k as real == 100.0 * x as real && q * l as real == 100.0 * y as real
    ensures p - q < -tol <==> 100.0 * (y * k - x * l) as real > tol * (k * l) as real
  {
    var m := k as real * l as real;
    assert (k * l) as real == m && m > 0.0;
    assert (y * k - x * l) as real == y as real * k as real - x as real * l as real;
    assert q * m == 100.0 * (y as real * k as real) by { assert q * m == (q * l as real) * k as real; }
    assert p * m == 100.0 * (x as real * l as real) by { assert p * m == (p * k as real) * l as real; }
    assert (q - p - tol) * m == 100.0 * (y * k - x * l) as real - tol * m;
    if q - p - tol > 0.0 { assert (q - p - tol) * m > 0.0; } else { assert (tol + p - q) * m >= 0.0; }
  }

  lemma DropsAcross(a: nat, n: nat, b: nat, m: nat, tol: real)
    ensures Drops(Rate(a, n), Rate(b, m), tol) <==> Fell(a, n, b, m, tol)
  {
    var x, k := if n == 0 then 0 else a, if n == 0 then 1 else n;
    var y, l := if m == 0 then 0 else b, if m == 0 then 1 else m;
    RateOver(a, n, x, k);
    RateOver(b, m, y, l);
    hide Rate;
    AcrossDenominators(Rate(a, n), Rate(b, m), x, k, y, l, tol);
  }

  /** Whatever the numbers of runs, one of three counts fell, over a common denominator. */
  lemma RegressesAcross(cur: Kpi, base: Kpi, tol: real)
    ensures Regresses(cur, base, tol) <==>
              || Fell(cur.vis, cur.n, base.vis, base.n, tol) || Fell(cur.det, cur.n, base.det, base.n, tol)
              || Fell(cur.ana, cur.n, base.ana, base.n, tol)
  {
    hide Drops, Rate, Fell;
    DropsAcross(cur.vis, cur.n, base.vis, base.n, tol);
    DropsAcross(cur.det, cur.n, base.det, base.n, tol);
    DropsAcross(cur.ana, cur.n, base.ana, base.n, tol);
  }

  /** Over the same number of runs, what counts is how many runs were lost. */
  lemma RegressesIff(cur: Kpi, base: Kpi, tol: real)
    requires cur.n == base.n > 0
    ensures Regresses(cur, base, tol) <==>
              TooMany(base.vis - cur.vis, cur.n, tol) || TooMany(base.det - cur.det, cur.n, tol) || TooMany(base.ana - cur.ana, cur.n, tol)
  {
    hide Drops, Rate, TooMany;
    DropsIff(cur.vis, base.vis, cur.n, tol);
    DropsIff(cur.det, base.det, cur.n, tol);
    DropsIff(cur.ana, base.ana, cur.n, tol);
  }

  /** Without tolerance, the gate lets through exactly the cards that are no worse. */
  lemma StrictGateIff(cur: Kpi, base: Kpi)
    requires cur.n == base.n > 0
    ensures Regresses(cur, base, 0.0) <==> !NoWorse(base, cur)
  {
    RegressesIff(cur, base, 0.0);
    hide Regresses;
  }

  lemma NoWorsePasses(cur: Kpi, base: Kpi, tol: real)
    requires NoWorse(base, cur) && tol >= 0.0
    ensures !Regresses(cur, base, tol)
  {
    if cur.n > 0 {
      RegressesIff(cur, base, tol);
      assert tol * cur.n as real >= 0.0;
      hide Regresses;
    }
  }

  /** Measured again with more alerts, a larger window or more events, nothing regresses. */
  lemma MoreSeenPasses(runs: seq<RunEntry>, a: seq<Alert>, b: seq<Alert>, s: Setup, t: Setup, x: seq<Result>, y: seq<Result>, tol: real)
    requires AllIn(a, b) && Wider(s, t) && AllScored(runs, a, s, x) && AllScored(runs, b, t, y) && tol >= 0.0
    ensures !Regresses(KpiOf(y), KpiOf(x), tol)
  {
    hide Scored, Wider, Regresses, KpiOf;
    CountsGrow(runs, a, b, s, t, x, y);
    NoWorsePasses(KpiOf(y), KpiOf(x), tol);
  }

  /** A card that was written by the scorer. */
  ghost predicate WrittenCard(card: Rows, was: seq<Result>, seconds: int -> string) {
    card == Card(was, seconds) && RanksInRange(was)
  }

  /** A card reads back as the counts it was written for, unless it holds no row at all. */
  lemma BaselineReadsBack(was: seq<Result>, seconds: int -> string, rows: Rows)
    requires WrittenCard(rows, was, seconds)
    ensures |rows| < 2 <==> was == []
    ensures rows[0] == HEADER && FirstRankColumn(rows[0], 2)
    ensures forall ri: nat :: FirstRankColumn(rows[0], ri) ==> KpiOfRows(rows[1..], ri) == KpiOf(was)
  {
    hide IsRankHeader, KpiOfRows, KpiOf;
    CardHasHeader(was, seconds);
    RankIsThirdColumn();
    CardReadsBack(was, seconds);
  }

  lemma LoadsBack(was: seq<Result>, seconds: int -> string, rows: Rows)
    requires WrittenCard(rows, was, seconds)
    ensures LoadedOf(rows) == if was == [] then NoRows else Loaded(KpiOf(was))
  {
    hide KpiOf, KpiOfRows, FirstRankColumn, WrittenCard;
    BaselineReadsBack(was, seconds, rows);
  }

  // ── one run of the command ────────────────────────────────────────────────

  /** The files, by name, as rows. */
  type Disk = map<string, Rows>

  /** Exit codes 0, 3 and 1. */
  datatype Ending = Passed | Regressed | Unreadable

  /** What the comparison with the file `baseline` gives; without a name nothing is compared. */
  function Compared(disk: Disk, baseline: string, results: seq<Result>, tol: real): Ending {
    if baseline == "" then Passed
    else if baseline !in disk then Unreadable
    else
      match LoadedOf(disk[baseline])
      case Loaded(k) => if Regresses(KpiOf(results), k, tol) then Regressed else Passed
      case _ => Unreadable
  }

  /** How a run ends that writes its card to `out` and then reads `baseline`. */
  function EndingOf(disk: Disk, out: string, baseline: string, results: seq<Result>, tol: real, seconds: int -> string): Ending {
    Compared(disk[out := Card(results, seconds)], baseline, results, tol)
  }

  /** `main` from the scores on. */
  method Gate(disk: Disk, out: string, baseline: string, results: seq<Result>, tol: real, seconds: int -> string)
      returns (after: Disk, ending: Ending)
    ensures after == disk[out := Card(results, seconds)]
    ensures ending == EndingOf(disk, out, baseline, results, tol, seconds)
  {
    hide KpiOf, Card, Regresses, LoadedOf;
    var card := WriteCard(results, seconds);
    after := disk[out := card];
    if baseline == "" {
      return after, Passed;
    }
    if baseline !in after {
      return after, Unreadable;
    }
    var loaded := LoadBaseline(after[baseline]);
    if !loaded.Loaded? {
      return after, Unreadable;
    }
    var cur := Summarize(results);
    var regressed := CheckRegression(cur, loaded.kpi, tol);
    ending := if regressed then Regressed else Passed;
  }

  /** Without a name nothing is compared; a name of no file, other than the card just written, cannot be read. */
  lemma EndingWithoutCard(disk: Disk, out: string, baseline: string, results: seq<Result>, tol: real, seconds: int -> string)
    requires baseline == "" || (baseline != out && baseline !in disk)
    ensures EndingOf(disk, out, baseline, results, tol, seconds) == if baseline == "" then Passed else Unreadable
  {
  }

  /** Compared with a card written for `was`. */
  function Against(was: seq<Result>, results: seq<Result>, tol: real): Ending {
    if was == [] then Unreadable else if Regresses(KpiOf(results), KpiOf(was), tol) then Regressed else Passed
  }

  /** With two names, the run is compared with the earlier card. */
  lemma EarlierCardDecides(disk: Disk, out: string, baseline: string, was: seq<Result>, results: seq<Result>, tol: real, seconds: int -> string)
    requires baseline != "" && baseline != out && baseline in disk && WrittenCard(disk[baseline], was, seconds)
    ensures EndingOf(disk, out, baseline, results, tol, seconds) == Against(was, results, tol)
  {
    hide Card, WrittenCard, LoadedOf, Regresses, KpiOf;
    LoadsBack(was, seconds, disk[baseline]);
  }

  lemma SelfRegressesIff(k: Kpi, tol: real)
    ensures Regresses(k, k, tol) <==> tol < 0.0
  {
  }

  predicate RanksInRange(results: seq<Result>) {
    forall i :: 0 <= i < |results| ==> results[i].rank <= RANK_TECHNIQUE
  }

  /** With one name for both, the earlier card is gone and the run is compared with itself: nothing but the tolerance decides. */
  lemma OwnCardDecides(disk: Disk, name: string, results: seq<Result>, tol: real, seconds: int -> string)
    requires name != "" && RanksInRange(results)
    ensures EndingOf(disk, name, name, results, tol, seconds)
            == if results == [] then Unreadable else if tol < 0.0 then Regressed else Passed
  {
    LoadsBack(results, seconds, Card(results, seconds));
    SelfRegressesIff(KpiOf(results), tol);
    hide LoadedOf, Regresses, KpiOf, Card;
  }

  /**
   * Giving one name for both makes no difference exactly when the earlier card would have decided as the
   * tolerance alone does: for a tolerance that is not negative, exactly when nothing had regressed.
   */
  lemma OneNameAgreesIff(disk: Disk, name: string, kept: string, was: seq<Result>, results: seq<Result>, tol: real, seconds: int -> string)
    requires name != "" && kept != "" && name != kept && kept in disk && RanksInRange(results) && WrittenCard(disk[kept], was, seconds)
    ensures EndingOf(disk, name, name, results, tol, seconds) == EndingOf(disk, name, kept, results, tol, seconds)
            <==> (was == [] <==> results == []) && (was != [] ==> (Regresses(KpiOf(results), KpiOf(was), tol) <==> tol < 0.0))
  {
    OwnCardDecides(disk, name, results, tol, seconds);
    EarlierCardDecides(disk, name, kept, was, results, tol, seconds);
    hide EndingOf, Regresses, KpiOf, WrittenCard, RanksInRange;
  }
}
