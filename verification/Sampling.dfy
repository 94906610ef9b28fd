// What a valid profile guarantees, and how events are drawn from it
// (agent/cmd/fleet-sim/profile.go and generate.go). Rates are floating-point numbers
// without rounding, infinities and not-a-number included; a draw of `Float64` is a real
// in [0, 1), a draw of `IntN(n)` is any natural number modulo n.
module Sampling {
  import opened Common
  import opened GoStrings

  datatype Kind = Process | File | Network | Dns | Registry | Auth | ImageLoad

  const KINDS: seq<Kind> := [Process, File, Network, Dns, Registry, Auth, ImageLoad]

  datatype ProcessSpec = ProcessSpec(weight: int, name: string, commandLines: seq<string>)
  datatype FileSpec = FileSpec(weight: int, paths: seq<string>, actions: seq<string>, sizeRange: seq<int>)
  datatype NetworkSpec = NetworkSpec(weight: int, hosts: seq<string>, ports: seq<int>, sentRange: seq<int>, recvRange: seq<int>)
  datatype DnsSpec = DnsSpec(weight: int, queries: seq<string>)
  datatype RegistrySpec = RegistrySpec(weight: int, keys: seq<string>, actions: seq<string>)
  datatype AuthSpec = AuthSpec(weight: int, users: seq<string>, actions: seq<string>)
  datatype ImageLoadSpec = ImageLoadSpec(weight: int, paths: seq<string>)

  datatype Profile = Profile(
    name: string, os: string, users: seq<string>, subnet: string, fleetWeight: int, rates: seq<Float>,
    processes: seq<ProcessSpec>, files: seq<FileSpec>, network: seq<NetworkSpec>, dns: seq<DnsSpec>,
    registry: seq<RegistrySpec>, auth: seq<AuthSpec>, imageLoads: seq<ImageLoadSpec>)
  {
    /** One rate for each kind, in the order of `KINDS`. */
    predicate Shaped() {
      |rates| == |KINDS|
    }

    /** The weights of the specs of a kind. */
    function Weights(k: Kind): seq<int> {
      match k
      case Process => seq(|processes|, i requires 0 <= i < |processes| => processes[i].weight)
      case File => seq(|files|, i requires 0 <= i < |files| => files[i].weight)
      case Network => seq(|network|, i requires 0 <= i < |network| => network[i].weight)
      case Dns => seq(|dns|, i requires 0 <= i < |dns| => dns[i].weight)
      case Registry => seq(|registry|, i requires 0 <= i < |registry| => registry[i].weight)
      case Auth => seq(|auth|, i requires 0 <= i < |auth| => auth[i].weight)
      case ImageLoad => seq(|imageLoads|, i requires 0 <= i < |imageLoads| => imageLoads[i].weight)
    }
  }

  // ── floating point ────────────────────────────────────────────────────────

  datatype Float = Fin(r: real) | PosInf | NegInf | NaN

  const TWO53 := 9007199254740992

  /** The order of the numbers and infinities; not-a-number is in none. */
  predicate AtMost(a: Float, b: Float) {
    !a.NaN? && !b.NaN? && (a.NegInf? || b.PosInf? || (a.Fin? && b.Fin? && a.r <= b.r))
  }

  /**
   * What holds of rounding to doubles, overflow included: it keeps the order, what is a double already, and
   * half numbers of 53 bits.
   */
  ghost predicate Rounds(fl: real -> Float) {
    && (forall x, y :: KeepsOrder(fl, x, y))
    && (forall x :: KeepsDouble(fl, x))
    && (forall k: int :: KeepsHalf(fl, k))
  }

  predicate KeepsOrder(fl: real -> Float, x: real, y: real) {
    x <= y ==> AtMost(fl(x), fl(y))
  }

  predicate KeepsDouble(fl: real -> Float, x: real) {
    fl(x).Fin? ==> fl(fl(x).r) == fl(x)
  }

  predicate KeepsHalf(fl: real -> Float, k: int) {
    -TWO53 < k < TWO53 ==> fl(k as real / 2.0) == Fin(k as real / 2.0)
  }

  function Unchanged(x: real): Float {
    Fin(x)
  }

  type Rounding = fl: real -> Float | Rounds(fl) witness Unchanged

  /** Any rounding at all. */
  const ROUND: Rounding

  function Neg(a: Float): Float {
    match a
    case Fin(x) => Fin(-x)
    case PosInf => NegInf
    case NegInf => PosInf
    case NaN => NaN
  }

  function Plus(a: Float, b: Float): Float {
    if a.NaN? || b.NaN? then NaN
    else if a.Fin? && b.Fin? then ROUND(a.r + b.r)
    else if a.Fin? then b
    else if b.Fin? || a == b then a
    else NaN
  }

  function Minus(a: Float, b: Float): Float {
    Plus(a, Neg(b))
  }

  function Part(u: real, x: real): real {
    u * x
  }

  /** `u` times `a`, for `u` not negative. */
  function Scaled(u: real, a: Float): Float
    requires u >= 0.0
  {
    if a.Fin? then ROUND(Part(u, a.r)) else if u == 0.0 then NaN else a
  }

  /** Every comparison with not-a-number is false. */
  predicate AtMostZero(a: Float) {
    a.NegInf? || (a.Fin? && a.r <= 0.0)
  }

  predicate Positive(a: Float) {
    a.PosInf? || (a.Fin? && a.r > 0.0)
  }

  predicate Negative(a: Float) {
    a.NegInf? || (a.Fin? && a.r < 0.0)
  }

  /** `Rates.Total` */
  function Total(rates: seq<Float>): Float {
    if rates == [] then Fin(0.0) else Plus(Total(rates[..|rates| - 1]), rates[|rates| - 1])
  }

  // ── Validate ──────────────────────────────────────────────────────────────

  predicate GoodRange(r: seq<int>) {
    r == [] || (|r| == 2 && 0 <= r[0] <= r[1])
  }

  predicate GoodSizes(r: seq<int>) {
    r == [] || (|r| == 2 && r[0] <= r[1])
  }

  predicate GoodProcess(s: ProcessSpec) { s.weight > 0 && s.name != "" && s.commandLines != [] }
  predicate GoodFile(s: FileSpec) { s.weight > 0 && s.paths != [] && s.actions != [] && GoodSizes(s.sizeRange) }
  predicate GoodNetwork(s: NetworkSpec) {
    s.weight > 0 && s.hosts != [] && s.ports != [] && GoodRange(s.sentRange) && GoodRange(s.recvRange)
  }
  predicate GoodDns(s: DnsSpec) { s.weight > 0 && s.queries != [] }
  predicate GoodRegistry(s: RegistrySpec) { s.weight > 0 && s.keys != [] && s.actions != [] }
  predicate GoodAuth(s: AuthSpec) { s.weight > 0 && s.users != [] && s.actions != [] }
  predicate GoodImageLoad(s: ImageLoadSpec) { s.weight > 0 && s.paths != [] }

  predicate SpecsGood(p: Profile) {
    && (forall i :: 0 <= i < |p.processes| ==> GoodProcess(p.processes[i]))
    && (forall i :: 0 <= i < |p.files| ==> GoodFile(p.files[i]))
    && (forall i :: 0 <= i < |p.network| ==> GoodNetwork(p.network[i]))
    && (forall i :: 0 <= i < |p.dns| ==> GoodDns(p.dns[i]))
    && (forall i :: 0 <= i < |p.registry| ==> GoodRegistry(p.registry[i]))
    && (forall i :: 0 <= i < |p.auth| ==> GoodAuth(p.auth[i]))
    && (forall i :: 0 <= i < |p.imageLoads| ==> GoodImageLoad(p.imageLoads[i]))
  }

  /** A kind with a rate has something to draw from. */
  predicate Covered(p: Profile)
    requires p.Shaped()
  {
    forall i :: 0 <= i < |KINDS| && Positive(p.rates[i]) ==> p.Weights(KINDS[i]) != []
  }

  /** What `Validate` asks of the rates: nothing that not-a-number fails. */
  predicate Sane(rates: seq<Float>) {
    !AtMostZero(Total(rates)) && forall i :: 0 <= i < |rates| ==> !Negative(rates[i])
  }

  predicate Acceptable(p: Profile)
    requires p.Shaped()
  {
    && TrimSpace(p.name) != "" && p.os in ["windows", "linux", "darwin"] && p.users != [] && TrimSpace(p.subnet) != ""
    && p.fleetWeight >= 0 && Sane(p.rates) && Covered(p)
    && (Positive(p.rates[4]) ==> p.os == "windows")
    && SpecsGood(p)
  }

  /** A loop of `validateSpecs`: it stops at the first spec that is not good. */
  method CheckSpecs<T>(specs: seq<T>, good: T -> bool) returns (ok: bool)
    ensures ok <==> forall i :: 0 <= i < |specs| ==> good(specs[i])
  {
    for i := 0 to |specs|
      invariant forall k :: 0 <= k < i ==> good(specs[k])
    {
      if !good(specs[i]) {
        return false;
      }
    }
    return true;
  }

  /** The loop of `Validate` over the pairs of a rate and its specs. */
  method CheckRates(p: Profile) returns (ok: bool)
    requires p.Shaped()
    ensures ok <==> Covered(p) && forall i :: 0 <= i < |p.rates| ==> !Negative(p.rates[i])
  {
    hide Profile.Weights;
    for i := 0 to |KINDS|
      invariant forall k :: 0 <= k < i ==> !Negative(p.rates[k]) && (Positive(p.rates[k]) ==> p.Weights(KINDS[k]) != [])
    {
      if Positive(p.rates[i]) && |p.Weights(KINDS[i])| == 0 {
        return false;
      }
      if Negative(p.rates[i]) {
        return false;
      }
    }
    return true;
  }

  /** `Validate`; which message is given is left out. */
  method Validate(p: Profile) returns (ok: bool)
    requires p.Shaped()
    ensures ok <==> Acceptable(p)
  {
    hide TrimSpace, Total, Covered, GoodProcess, GoodFile, GoodNetwork, GoodDns, GoodRegistry, GoodAuth, GoodImageLoad;
    if TrimSpace(p.name) == "" { return false; }
    if p.os != "windows" && p.os != "linux" && p.os != "darwin" { return false; }
    if |p.users| == 0 { return false; }
    if TrimSpace(p.subnet) == "" { return false; }
    if AtMostZero(Total(p.rates)) { return false; }
    if p.fleetWeight < 0 { return false; }
    ok := CheckRates(p);
    if !ok { return; }
    if Positive(p.rates[4]) && p.os != "windows" { return false; }
    ok := CheckSpecs(p.processes, GoodProcess);
    if !ok { return; }
    ok := CheckSpecs(p.files, GoodFile);
    if !ok { return; }
    ok := CheckSpecs(p.network, GoodNetwork);
    if !ok { return; }
    ok := CheckSpecs(p.dns, GoodDns);
    if !ok { return; }
    ok := CheckSpecs(p.registry, GoodRegistry);
    if !ok { return; }
    ok := CheckSpecs(p.auth, GoodAuth);
    if !ok { return; }
    ok := CheckSpecs(p.imageLoads, GoodImageLoad);
  }

  // ── pickWeighted ──────────────────────────────────────────────────────────

  /** Item `i` is where the weights, added up, first exceed `x`. */
  predicate Drawn(ws: seq<int>, x: int, i: int) {
    0 <= i < |ws| && Exceeds(ws, i, x) && forall j :: 0 <= j < i ==> !Exceeds(ws, j, x)
  }

  predicate Exceeds(ws: seq<int>, i: nat, x: int)
    requires i < |ws|
  {
    x < Sum(ws[..i + 1])
  }

  lemma SumMore(ws: seq<int>, i: nat)
    requires i < |ws|
    ensures Sum(ws[..i + 1]) == Sum(ws[..i]) + ws[i]
  {
    assert ws[..i + 1] == ws[..i] + [ws[i]];
    SumAppend(ws[..i], [ws[i]]);
    assert Sum([ws[i]]) == ws[i] + Sum([]);
  }

  /** `pickWeighted`: the index of the item, none without items. Whatever the weights, the last return is not reached. */
  method PickWeighted(ws: seq<int>, r: nat) returns (i: Option<nat>)
    ensures i == None <==> ws == []
    ensures ws != [] && Sum(ws) <= 0 ==> i == Some(0)
    ensures ws != [] && Sum(ws) > 0 ==> Drawn(ws, r % Sum(ws), i.value)
  {
    hide Sum;
    if |ws| == 0 {
      return None;
    }
    var total := 0;
    assert ws[..0] == [] && Sum([]) == 0 by { EmptySum(); }
    for k := 0 to |ws|
      invariant total == Sum(ws[..k])
    {
      SumMore(ws, k);
      total := total + ws[k];
    }
    assert ws[..|ws|] == ws;
    if total <= 0 {
      return Some(0);
    }
    var x := r % total;
    for k := 0 to |ws|
      invariant x == r % total - Sum(ws[..k])
      invariant forall j :: 0 <= j < k ==> !Exceeds(ws, j, r % total)
      invariant k > 0 ==> x >= 0
    {
      SumMore(ws, k);
      x := x - ws[k];
      if x < 0 {
        return Some(k);
      }
    }
    assert false;
  }

  lemma EmptySum()
    ensures Sum([]) == 0
  {
  }

  predicate NonNegative(ws: seq<int>) {
    forall i :: 0 <= i < |ws| ==> ws[i] >= 0
  }

  lemma {:induction false} SumUpTo(ws: seq<int>, a: nat, b: nat)
    requires NonNegative(ws) && a <= b <= |ws|
    ensures Sum(ws[..a]) <= Sum(ws[..b])
  {
    if a < b {
      SumUpTo(ws, a, b - 1);
      SumMore(ws, b - 1);
    }
  }

  lemma DrawnIff(ws: seq<int>, x: int, i: nat)
    requires NonNegative(ws) && i < |ws| && 0 <= x
    ensures Drawn(ws, x, i) <==> Sum(ws[..i]) <= x < Sum(ws[..i + 1])
  {
    hide Sum;
    EmptySum();
    assert ws[..0] == [];
    if Sum(ws[..i]) <= x {
      forall j | 0 <= j < i ensures !Exceeds(ws, j, x) { SumUpTo(ws, j + 1, i); }
    } else if i > 0 {
      assert ws[..i - 1 + 1] == ws[..i];
      assert Exceeds(ws, i - 1, x);
    }
  }

  function Range(a: int, b: int): (r: set<int>)
    ensures forall x :: x in r <==> a <= x < b
    ensures |r| == if a < b then b - a else 0
    decreases b - a
  {
    if a < b then Range(a, b - 1) + {b - 1} else {}
  }

  /** Of the draws there are, exactly `ws[i]` give item `i`. */
  lemma DrawnByWeight(ws: seq<int>, i: nat)
    requires NonNegative(ws) && i < |ws|
    ensures |set x | 0 <= x < Sum(ws) && Drawn(ws, x, i)| == ws[i]
  {
    hide Sum;
    var a, b := Sum(ws[..i]), Sum(ws[..i + 1]);
    SumMore(ws, i);
    EmptySum();
    assert ws[..0] == [] && ws[..|ws|] == ws;
    SumUpTo(ws, 0, i);
    SumUpTo(ws, i + 1, |ws|);
    forall x: int | 0 <= x ensures Drawn(ws, x, i) <==> a <= x < b { DrawnIff(ws, x, i); }
    assert (set x | 0 <= x < Sum(ws) && Drawn(ws, x, i)) == Range(a, b);
  }

  // ── PickKind ──────────────────────────────────────────────────────────────

  /** What is left of `x` when the rates before position `i` are taken away, but for those at most 0. */
  function Left(rates: seq<Float>, x: Float, i: nat): Float
    requires i <= |rates|
  {
    if i == 0 then x
    else if AtMostZero(rates[i - 1]) then Left(rates, x, i - 1)
    else Minus(Left(rates, x, i - 1), rates[i - 1])
  }

  predicate StopsAt(rates: seq<Float>, x: Float, i: nat)
    requires i < |rates|
  {
    !AtMostZero(rates[i]) && AtMostZero(Left(rates, x, i + 1))
  }

  /** `x` is used up by the rate at `i`, and by none before. */
  predicate PickedAt(rates: seq<Float>, x: Float, i: int) {
    0 <= i < |rates| && StopsAt(rates, x, i) && forall j :: 0 <= j < i ==> !StopsAt(rates, x, j)
  }

  predicate LastPositive(rates: seq<Float>, i: int) {
    0 <= i < |rates| && Positive(rates[i]) && forall j :: i < j < |rates| ==> !Positive(rates[j])
  }

  predicate NonePositive(rates: seq<Float>) {
    forall i :: 0 <= i < |rates| ==> !Positive(rates[i])
  }

  /** The search through the rates stops, started at `x`. */
  ghost predicate Stops(rates: seq<Float>, x: Float) {
    exists k :: PickedAt(rates, x, k)
  }

  /** Where the draw `u` of `Float64` falls. */
  function Level(rates: seq<Float>, u: real): Float
    requires u >= 0.0
  {
    Scaled(u, Total(rates))
  }

  ghost predicate FoundOn(rates: seq<Float>, u: real)
    requires u >= 0.0
  {
    Stops(rates, Level(rates, u))
  }

  /** What `PickKind` gives: the first kind that uses the draw up, else the last one with a rate, else a process. */
  ghost predicate KindPicked(rates: seq<Float>, u: real, i: int)
    requires u >= 0.0
  {
    if FoundOn(rates, u) then PickedAt(rates, Level(rates, u), i)
    else LastPositive(rates, i) || (i == 0 && NonePositive(rates))
  }

  /** `PickKind`, as a position in `KINDS`, on the draw `u`. */
  method PickKind(rates: seq<Float>, u: real) returns (i: nat)
    requires |rates| == |KINDS| && 0.0 <= u < 1.0
    ensures i < |KINDS| && KindPicked(rates, u, i)
  {
    hide Level, Minus;
    var x0 := Level(rates, u);
    var x := x0;
    i := 0;
    while i < |rates|
      invariant i <= |rates| && x == Left(rates, x0, i)
      invariant forall j :: 0 <= j < i ==> !StopsAt(rates, x0, j)
    {
      if !AtMostZero(rates[i]) {
        x := Minus(x, rates[i]);
        if AtMostZero(x) {
          assert PickedAt(rates, x0, i);
          return;
        }
      }
      i := i + 1;
    }
    assert forall k :: !PickedAt(rates, x0, k);
    i := |rates|;
    while i > 0
      invariant i <= |rates| && forall j :: i <= j < |rates| ==> !Positive(rates[j])
    {
      i := i - 1;
      if Positive(rates[i]) {
        assert LastPositive(rates, i);
        return;
      }
    }
  }

  /**
   * Where the search does not stop, every kind with a rate has been passed over, and the last of them is given;
   * a process only where there is none.
   */
  lemma FallbackMeans(rates: seq<Float>, u: real, i: int)
    requires u >= 0.0 && rates != [] && KindPicked(rates, u, i) && !FoundOn(rates, u)
    ensures forall k :: 0 <= k < |rates| ==> AtMostZero(rates[k]) || !AtMostZero(Left(rates, Level(rates, u), k + 1))
    ensures 0 <= i < |rates| && forall k :: i < k < |rates| ==> !Positive(rates[k])
    ensures Positive(rates[i]) || (i == 0 && forall k :: 0 <= k < |rates| ==> !Positive(rates[k]))
  {
    hide Left, Level;
    if k :| 0 <= k < |rates| && StopsAt(rates, Level(rates, u), k) {
      FirstStop(rates, Level(rates, u), k);
    }
    forall k | 0 <= k < |rates| ensures AtMostZero(rates[k]) || !AtMostZero(Left(rates, Level(rates, u), k + 1)) {
      assert !StopsAt(rates, Level(rates, u), k);
    }
  }

  /** Not-a-number is contagious, so a kind picked has a rate. */
  lemma PickedIsPositive(rates: seq<Float>, x: Float, i: int)
    requires PickedAt(rates, x, i)
    ensures 0 <= i < |rates| && Positive(rates[i])
  {
  }

  // ── finite rates ──────────────────────────────────────────────────────────

  predicate AllFinite(rates: seq<Float>) {
    forall i :: 0 <= i < |rates| ==> rates[i].Fin?
  }

  function Reals(rates: seq<Float>): (r: seq<real>)
    requires AllFinite(rates)
    ensures |r| == |rates| && forall i :: 0 <= i < |r| ==> r[i] == rates[i].r
  {
    seq(|rates|, i requires 0 <= i < |rates| => rates[i].r)
  }

  function RealTotal(rates: seq<real>): real {
    if rates == [] then 0.0 else RealTotal(rates[..|rates| - 1]) + rates[|rates| - 1]
  }

  function RealLevel(rates: seq<real>, u: real): real {
    Part(u, RealTotal(rates))
  }

  predicate SaneReals(rates: seq<real>) {
    RealTotal(rates) > 0.0 && forall i :: 0 <= i < |rates| ==> rates[i] >= 0.0
  }

  /** `x` is a double. */
  predicate Kept(x: real) {
    ROUND(x) == Fin(x)
  }

  /** Adding the rates up rounds nothing. */
  predicate SumsKept(rates: seq<Float>) {
    AllFinite(rates) && forall i :: 0 <= i <= |rates| ==> Kept(RealTotal(Reals(rates)[..i]))
  }

  /** Nor does taking them away from `x`. */
  predicate RestsKept(rates: seq<Float>, x: real) {
    AllFinite(rates) && forall i :: 0 <= i <= |rates| ==> Kept(x - Below(Reals(rates), i))
  }

  lemma {:induction false} TotalIsReal(rates: seq<Float>, n: nat)
    requires SumsKept(rates) && n <= |rates|
    ensures Total(rates[..n]) == Fin(RealTotal(Reals(rates)[..n]))
  {
    if n > 0 {
      TotalIsReal(rates, n - 1);
      assert Kept(RealTotal(Reals(rates)[..n]));
      assert rates[..n][..n - 1] == rates[..n - 1] && Reals(rates)[..n][..n - 1] == Reals(rates)[..n - 1];
    }
  }

  lemma AllIsReal(rates: seq<Float>)
    requires SumsKept(rates)
    ensures Total(rates) == Fin(RealTotal(Reals(rates)))
  {
    TotalIsReal(rates, |rates|);
    assert rates[..|rates|] == rates && Reals(rates)[..|rates|] == Reals(rates);
  }

  lemma {:induction false} LeftIsReal(rates: seq<Float>, x: real, i: nat)
    requires RestsKept(rates, x) && i <= |rates|
    ensures Left(rates, Fin(x), i) == Fin(x - Below(Reals(rates), i))
  {
    if i > 0 {
      LeftIsReal(rates, x, i - 1);
      assert Kept(x - Below(Reals(rates), i));
    }
  }

  /** Where nothing is rounded the search is the one over real numbers. */
  lemma PickedIsUsedUp(rates: seq<Float>, x: real, i: nat)
    requires RestsKept(rates, x) && i < |rates|
    ensures PickedAt(rates, Fin(x), i) <==> UsedUpAt(Reals(rates), x, i)
  {
    hide Left, Kept;
    forall j: nat | j < |rates| ensures StopsAt(rates, Fin(x), j) <==> Within(Reals(rates), x, j) { LeftIsReal(rates, x, j + 1); }
  }

  lemma SaneIsReal(rates: seq<Float>)
    requires SumsKept(rates)
    ensures Sane(rates) <==> SaneReals(Reals(rates))
  {
    AllIsReal(rates);
    hide Total;
  }

  /** The positive rates before position `i`, added up. */
  function Below(rates: seq<real>, i: nat): real
    requires i <= |rates|
  {
    if i == 0 then 0.0 else Below(rates, i - 1) + if rates[i - 1] > 0.0 then rates[i - 1] else 0.0
  }

  predicate UsedUpAt(rates: seq<real>, x: real, i: int) {
    0 <= i < |rates| && Within(rates, x, i) && forall j :: 0 <= j < i ==> !Within(rates, x, j)
  }

  predicate Within(rates: seq<real>, x: real, i: nat)
    requires i < |rates|
  {
    rates[i] > 0.0 && x <= Below(rates, i + 1)
  }

  lemma {:induction false} BelowIsTotal(rates: seq<real>, i: nat)
    requires i <= |rates| && forall k :: 0 <= k < |rates| ==> rates[k] >= 0.0
    ensures Below(rates, i) == RealTotal(rates[..i])
  {
    if i > 0 {
      BelowIsTotal(rates, i - 1);
      assert rates[..i][..i - 1] == rates[..i - 1];
    }
  }

  lemma {:induction false} BelowGrows(rates: seq<real>, a: nat, b: nat)
    requires a <= b <= |rates|
    ensures Below(rates, a) <= Below(rates, b)
    ensures forall i :: a <= i < b && rates[i] > 0.0 ==> Below(rates, a) < Below(rates, b)
  {
    if a < b { BelowGrows(rates, a, b - 1); }
  }

  lemma UsedUpIff(rates: seq<real>, x: real, i: nat)
    requires i < |rates| && x > 0.0
    ensures UsedUpAt(rates, x, i) <==> Below(rates, i) < x <= Below(rates, i + 1)
  {
    if Below(rates, i) < x {
      forall j | 0 <= j < i ensures !Within(rates, x, j) { BelowGrows(rates, j + 1, i); }
    } else if UsedUpAt(rates, x, i) {
      LatestBelow(rates, x, i);
    }
  }

  lemma {:induction false} LatestBelow(rates: seq<real>, x: real, i: nat)
    requires i <= |rates| && x > 0.0 && forall j :: 0 <= j < i ==> !Within(rates, x, j)
    ensures x > Below(rates, i)
  {
    if i > 0 {
      assert !Within(rates, x, i - 1);
      LatestBelow(rates, x, i - 1);
    }
  }

  lemma {:induction false} SomethingUsesUp(rates: seq<real>, x: real, n: nat)
    requires n <= |rates| && x <= Below(rates, n) && exists k :: 0 <= k < n && rates[k] > 0.0
    ensures exists i :: UsedUpAt(rates, x, i)
  {
    var k :| 0 <= k < n && rates[k] > 0.0;
    if j :| 0 <= j < n - 1 && Within(rates, x, j) {
      SomethingUsesUp(rates, x, j + 1);
    } else if rates[n - 1] > 0.0 {
      assert UsedUpAt(rates, x, n - 1);
    } else {
      assert k < n - 1;
      SomethingUsesUp(rates, x, n - 1);
    }
  }

  lemma {:induction false} SomePositive(rates: seq<real>)
    requires RealTotal(rates) > 0.0
    ensures exists k :: 0 <= k < |rates| && rates[k] > 0.0
  {
    if rates[|rates| - 1] <= 0.0 {
      SomePositive(rates[..|rates| - 1]);
      var k :| 0 <= k < |rates| - 1 && rates[..|rates| - 1][k] > 0.0;
      assert rates[k] > 0.0;
    }
  }

  function Share(rates: seq<real>, i: nat): real
    requires i <= |rates| && RealTotal(rates) != 0.0
  {
    RealTotal(rates[..i]) / RealTotal(rates)
  }

  lemma InProportion(rates: seq<real>, u: real, i: nat)
    requires SaneReals(rates) && 0.0 < u < 1.0 && i < |rates|
    ensures UsedUpAt(rates, RealLevel(rates, u), i) <==> Share(rates, i) < u <= Share(rates, i + 1)
    ensures Share(rates, i + 1) - Share(rates, i) == rates[i] / RealTotal(rates)
    ensures Share(rates, 0) == 0.0 && Share(rates, |rates|) == 1.0
  {
    hide RealTotal, UsedUpAt, Below, Share, SaneReals;
    Shares(rates, i);
    LevelIff(rates, u, i);
    ScaleIff(Below(rates, i), u, RealTotal(rates));
    ScaleIff(Below(rates, i + 1), u, RealTotal(rates));
  }

  lemma LevelIff(rates: seq<real>, u: real, i: nat)
    requires SaneReals(rates) && 0.0 < u < 1.0 && i < |rates|
    ensures RealTotal(rates) > 0.0
    ensures UsedUpAt(rates, RealLevel(rates, u), i) <==> Below(rates, i) < u * RealTotal(rates) <= Below(rates, i + 1)
  {
    hide RealTotal, UsedUpAt, Below;
    Times(0.0, u, RealTotal(rates));
    UsedUpIff(rates, RealLevel(rates, u), i);
  }

  lemma Shares(rates: seq<real>, i: nat)
    requires SaneReals(rates) && i < |rates|
    ensures Share(rates, i) == Below(rates, i) / RealTotal(rates) && Share(rates, i + 1) == Below(rates, i + 1) / RealTotal(rates)
    ensures Share(rates, i + 1) - Share(rates, i) == rates[i] / RealTotal(rates)
    ensures Share(rates, 0) == 0.0 && Share(rates, |rates|) == 1.0
  {
    BelowIsTotal(rates, i);
    BelowIsTotal(rates, i + 1);
    assert rates[..|rates|] == rates && rates[..0] == [];
    var a, t := Below(rates, i), RealTotal(rates);
    assert Below(rates, i + 1) == a + rates[i] && RealTotal([]) == 0.0;
    hide RealTotal, Below;
    QuotientStep(a, rates[i], t);
    ByItself(t);
  }

  lemma ByItself(t: real)
    requires t > 0.0
    ensures t / t == 1.0 && 0.0 / t == 0.0
  {
  }

  lemma QuotientStep(a: real, r: real, t: real)
    requires t > 0.0
    ensures (a + r) / t - a / t == r / t
  {
    var x, y, z := (a + r) / t, a / t, r / t;
    assert x * t == a + r && y * t == a && z * t == r;
    DistributeReal(y, z, t);
    Times(x, y + z, t);
    Times(y + z, x, t);
  }

  lemma DistributeReal(a: real, b: real, t: real)
    ensures (a + b) * t == a * t + b * t
  {
  }

  lemma Times(a: real, b: real, t: real)
    requires t > 0.0
    ensures a < b <==> a * t < b * t
  {
    assert (b - a) * t == b * t - a * t;
    if a < b { assert (b - a) * t > 0.0; } else { assert (a - b) * t >= 0.0; }
  }

  lemma ScaleIff(b: real, u: real, t: real)
    requires t > 0.0
    ensures b < u * t <==> b / t < u
    ensures u * t <= b <==> u <= b / t
  {
    var q := b / t;
    assert q * t == b;
    Times(q, u, t);
  }

  // ── the search in doubles ─────────────────────────────────────────────────

  lemma {:induction false} LeftInOrder(rates: seq<Float>, x: Float, y: Float, i: nat)
    requires AllFinite(rates) && AtMost(x, y) && i <= |rates|
    ensures AtMost(Left(rates, x, i), Left(rates, y, i))
  {
    if i > 0 {
      LeftInOrder(rates, x, y, i - 1);
      MinusInOrder(Left(rates, x, i - 1), Left(rates, y, i - 1), rates[i - 1]);
      hide Minus;
    }
  }

  lemma MinusInOrder(a: Float, b: Float, w: Float)
    requires w.Fin? && AtMost(a, b)
    ensures AtMost(Minus(a, w), Minus(b, w))
  {
    if a.Fin? && b.Fin? { RoundingKeeps(a.r + -w.r, b.r + -w.r); }
    if a.Fin? { RoundingKeeps(a.r + -w.r, a.r + -w.r); }
    if b.Fin? { RoundingKeeps(b.r + -w.r, b.r + -w.r); }
  }

  lemma {:induction false} FirstStop(rates: seq<Float>, x: Float, k: nat)
    requires k < |rates| && StopsAt(rates, x, k)
    ensures Stops(rates, x)
  {
    hide StopsAt;
    if j :| 0 <= j < k && StopsAt(rates, x, j) {
      FirstStop(rates, x, j);
    } else {
      assert PickedAt(rates, x, k);
    }
  }

  /** A search that stops stops from every lower start. */
  lemma StopsBelow(rates: seq<Float>, x: Float, y: Float)
    requires AllFinite(rates) && AtMost(x, y) && Stops(rates, y)
    ensures Stops(rates, x)
  {
    var k :| PickedAt(rates, y, k);
    LeftInOrder(rates, x, y, k + 1);
    hide Left;
    FirstStop(rates, x, k);
  }

  lemma RoundingKeeps(x: real, y: real)
    ensures x <= y ==> AtMost(ROUND(x), ROUND(y))
    ensures ROUND(x).Fin? ==> Kept(ROUND(x).r)
    ensures Kept(0.0) && Kept(1.0)
  {
    assert KeepsHalf(ROUND, 0) && KeepsHalf(ROUND, 2) && KeepsDouble(ROUND, x) && KeepsOrder(ROUND, x, y);
    assert 0 as real / 2.0 == 0.0 && 2 as real / 2.0 == 1.0;
  }

  lemma TotalIsDouble(rates: seq<Float>)
    requires AllFinite(rates) && Total(rates).Fin?
    ensures Kept(Total(rates).r)
  {
    if rates == [] {
      RoundingKeeps(0.0, 0.0);
    } else {
      var n := |rates| - 1;
      if Total(rates[..n]).Fin? { RoundingKeeps(Total(rates[..n]).r + rates[n].r, 0.0); }
    }
  }

  /** No draw of accepted rates starts the search above their sum. */
  lemma LevelIsAtMostTotal(rates: seq<Float>, u: real)
    requires AllFinite(rates) && Sane(rates) && Total(rates).Fin? && 0.0 <= u < 1.0
    ensures AtMost(Level(rates, u), Total(rates))
  {
    var t := Total(rates).r;
    TotalIsDouble(rates);
    hide Total;
    LevelIs(rates, u, t);
    hide Level;
    PartIsNoMore(u, t);
    hide Part;
    RoundingKeeps(Part(u, t), t);
  }

  lemma PartIsNoMore(u: real, t: real)
    requires 0.0 <= u < 1.0 && t > 0.0
    ensures Part(u, t) <= t
  {
    Times(u, 1.0, t);
  }

  lemma LevelIs(rates: seq<Float>, u: real, t: real)
    requires u >= 0.0 && Total(rates) == Fin(t)
    ensures Level(rates, u) == ROUND(Part(u, t))
  {
    hide Total, Part;
  }

  lemma {:induction false} TotalIsNumber(rates: seq<Float>)
    requires AllFinite(rates)
    ensures !Total(rates).NaN?
  {
    if rates != [] {
      var n := |rates| - 1;
      TotalIsNumber(rates[..n]);
      if Total(rates[..n]).Fin? {
        var x := Total(rates[..n]).r + rates[n].r;
        RoundingKeeps(x, x);
      }
    }
  }

  lemma {:induction false} InfinityStays(rates: seq<Float>, i: nat)
    requires AllFinite(rates) && i <= |rates|
    ensures Left(rates, PosInf, i) == PosInf
  {
    if i > 0 { InfinityStays(rates, i - 1); }
  }

  /** From every start up to the sum the search stops, exactly when it stops from the sum. */
  lemma StopsUpToIff(rates: seq<Float>)
    requires AllFinite(rates)
    ensures (forall x :: AtMost(x, Total(rates)) ==> Stops(rates, x)) <==> Stops(rates, Total(rates))
  {
    TotalIsNumber(rates);
    hide Total, Stops;
    if Stops(rates, Total(rates)) {
      forall x | AtMost(x, Total(rates)) ensures Stops(rates, x) { StopsBelow(rates, x, Total(rates)); }
    } else {
      assert AtMost(Total(rates), Total(rates));
    }
  }

  /** So it stops on every draw, and the trailing fallback is not reached, when it stops from the sum. */
  lemma KindAlwaysFound(rates: seq<Float>, u: real)
    requires AllFinite(rates) && Sane(rates) && 0.0 <= u < 1.0
    ensures Stops(rates, Total(rates)) ==> FoundOn(rates, u)
  {
    if Stops(rates, Total(rates)) {
      StopIsFinite(rates, Total(rates));
      hide Total, Stops, Level;
      LevelIsAtMostTotal(rates, u);
      StopsBelow(rates, Level(rates, u), Total(rates));
    }
  }

  /** The search does not stop from an infinite sum. */
  lemma StopIsFinite(rates: seq<Float>, x: Float)
    requires AllFinite(rates) && Stops(rates, x) && !x.NegInf?
    ensures x.Fin?
  {
    var k :| PickedAt(rates, x, k);
    if x == PosInf {
      InfinityStays(rates, k + 1);
      assert false;
    }
    if x == NaN {
      NaNStays(rates, k + 1);
      assert false;
    }
  }

  lemma {:induction false} NaNStays(rates: seq<Float>, i: nat)
    requires i <= |rates|
    ensures Left(rates, NaN, i) == NaN
  {
    if i > 0 { NaNStays(rates, i - 1); }
  }

  // ── whole rates ───────────────────────────────────────────────────────────

  predicate IsWhole(x: real) {
    x == x.Floor as real
  }

  /** Rates that are whole numbers and add up to less than 2^52. */
  predicate WholeRates(rates: seq<Float>) {
    && AllFinite(rates) && (forall i :: 0 <= i < |rates| ==> IsWhole(rates[i].r) && rates[i].r >= 0.0)
    && RealTotal(Reals(rates)) < (TWO53 / 2) as real
  }

  lemma SumOfWholes(x: real, y: real)
    requires IsWhole(x) && IsWhole(y)
    ensures IsWhole(x + y) && IsWhole(x - y)
  {
    var a, b := x.Floor, y.Floor;
    assert x == a as real && y == b as real;
    hide IsWhole;
    WholeIs(x + y, a + b);
    WholeIs(x - y, a - b);
  }

  lemma WholeIs(x: real, a: int)
    requires x == a as real
    ensures IsWhole(x)
  {
  }

  lemma {:induction false} WholeBelow(rates: seq<real>, i: nat)
    requires i <= |rates| && forall k :: 0 <= k < |rates| ==> IsWhole(rates[k]) && rates[k] >= 0.0
    ensures IsWhole(Below(rates, i)) && 0.0 <= Below(rates, i) <= Below(rates, |rates|)
  {
    BelowGrows(rates, i, |rates|);
    if i > 0 {
      WholeBelow(rates, i - 1);
      hide IsWhole;
      SumOfWholes(Below(rates, i - 1), rates[i - 1]);
    }
  }

  /** Half numbers below 2^52 are doubles. */
  lemma HalfIsKept(x: real)
    requires IsWhole(2.0 * x) && -((TWO53 / 2) as real) < x < (TWO53 / 2) as real
    ensures Kept(x)
  {
    var k := (2.0 * x).Floor;
    assert k as real / 2.0 == x;
    assert KeepsHalf(ROUND, k);
  }

  lemma WholeSumsKept(rates: seq<Float>)
    requires WholeRates(rates)
    ensures SumsKept(rates)
  {
    var s := Reals(rates);
    BelowIsTotal(s, |s|);
    assert s[..|s|] == s;
    hide RealTotal, Below, Kept, IsWhole;
    forall i | 0 <= i <= |s| ensures Kept(RealTotal(s[..i])) {
      BelowIsTotal(s, i);
      WholeBelow(s, i);
      SumOfWholes(Below(s, i), Below(s, i));
      HalfIsKept(Below(s, i));
    }
  }

  /** From a half number up to the sum, subtracting whole rates rounds nothing. */
  lemma WholeRestsKept(rates: seq<Float>, x: real)
    requires WholeRates(rates) && IsWhole(2.0 * x) && 0.0 <= x <= RealTotal(Reals(rates))
    ensures RestsKept(rates, x)
  {
    var s := Reals(rates);
    BelowIsTotal(s, |s|);
    assert s[..|s|] == s;
    hide RealTotal, Below, Kept, IsWhole;
    forall i | 0 <= i <= |s| ensures Kept(x - Below(s, i)) {
      WholeBelow(s, i);
      SumOfWholes(Below(s, i), Below(s, i));
      SumOfWholes(2.0 * x, Below(s, i) + Below(s, i));
      HalfIsKept(x - Below(s, i));
    }
  }

  /** With whole rates the search stops on every draw. */
  lemma WholeRatesAlwaysFound(rates: seq<Float>, u: real)
    requires WholeRates(rates) && Sane(rates) && 0.0 <= u < 1.0
    ensures FoundOn(rates, u)
  {
    var s := Reals(rates);
    var t := RealTotal(s);
    WholeSumsKept(rates);
    AllIsReal(rates);
    SaneIsReal(rates);
    SomePositive(s);
    BelowIsTotal(s, |s|);
    assert s[..|s|] == s;
    SomethingUsesUp(s, t, |s|);
    WholeBelow(s, |s|);
    hide RealTotal, Below, UsedUpAt, Total, Sane, Kept, SumsKept, RestsKept, Stops, IsWhole;
    SumOfWholes(t, t);
    WholeRestsKept(rates, t);
    var i :| UsedUpAt(s, t, i);
    UsedUpInRange(s, t, i);
    PickedIsUsedUp(rates, Fin(t).r, i);
    StopsPicked(rates, Fin(t), i);
    KindAlwaysFound(rates, u);
  }

  lemma StopsPicked(rates: seq<Float>, x: Float, i: int)
    requires PickedAt(rates, x, i)
    ensures Stops(rates, x)
  {
  }

  lemma UsedUpInRange(rates: seq<real>, x: real, i: int)
    requires UsedUpAt(rates, x, i)
    ensures 0 <= i < |rates|
  {
  }

  /** Nothing is rounded: not the sum of the rates, nor the draw, nor what the rates leave of it. */
  predicate Unrounded(rates: seq<Float>, u: real)
    requires u >= 0.0
  {
    SumsKept(rates) && var x := RealLevel(Reals(rates), u); Kept(x) && RestsKept(rates, x)
  }

  /**
   * Of the draws on which nothing is rounded, a kind is picked on exactly those of an interval as long as its share
   * of all rates, so on none when its rate is 0.
   */
  lemma KindInProportion(rates: seq<Float>, u: real, i: nat)
    requires Sane(rates) && 0.0 < u < 1.0 && i < |rates| && Unrounded(rates, u)
    ensures SaneReals(Reals(rates))
    ensures var s := Reals(rates);
            && (PickedAt(rates, Level(rates, u), i) <==> Share(s, i) < u <= Share(s, i + 1))
            && Share(s, i + 1) - Share(s, i) == s[i] / RealTotal(s)
            && Share(s, 0) == 0.0 && Share(s, |s|) == 1.0
  {
    assert AllFinite(rates);
    hide PickedAt, UsedUpAt, Total, RealTotal, Sane, Share, Level, Kept, SumsKept, RestsKept;
    SaneIsReal(rates);
    LevelIsReal(rates, u);
    InProportion(Reals(rates), u, i);
    PickedIsUsedUp(rates, RealLevel(Reals(rates), u), i);
  }

  // ── the generator ─────────────────────────────────────────────────────────

  class Generator {
    const prof: Profile
    var sent: map<Kind, nat>

    constructor (prof: Profile)
      ensures this.prof == prof && sent == map[]
    {
      this.prof := prof;
      sent := map[];
    }

    /** `Next`: the spec the event is made from, if any; only an event that is made is counted. */
    method Next(kind: Kind, r: nat) returns (spec: Option<nat>)
      modifies this
      ensures spec.None? <==> prof.Weights(kind) == []
      ensures spec.Some? && Sum(prof.Weights(kind)) > 0 ==> Drawn(prof.Weights(kind), r % Sum(prof.Weights(kind)), spec.value)
      ensures sent == if spec.None? then old(sent) else old(sent)[kind := (if kind in old(sent) then old(sent)[kind] else 0) + 1]
    {
      spec := PickWeighted(prof.Weights(kind), r);
      if spec.Some? {
        sent := sent[kind := (if kind in sent then sent[kind] else 0) + 1];
      }
    }

    /**
     * `Next(PickKind())`, as the send loop calls it: with a valid profile an event comes out, unless
     * no rate is a positive number and there is no process to fall back on.
     */
    method NextOfAnyKind(u: real, r: nat) returns (kind: Kind, spec: Option<nat>)
      requires prof.Shaped() && 0.0 <= u < 1.0
      modifies this
      ensures exists i :: 0 <= i < |KINDS| && kind == KINDS[i] && KindPicked(prof.rates, u, i)
      ensures spec.Some? && Sum(prof.Weights(kind)) > 0 ==> Drawn(prof.Weights(kind), r % Sum(prof.Weights(kind)), spec.value)
      ensures sent == if spec.None? then old(sent) else old(sent)[kind := (if kind in old(sent) then old(sent)[kind] else 0) + 1]
      ensures Acceptable(prof) ==> (spec.None? <==> NonePositive(prof.rates) && prof.processes == [])
    {
      hide Total, Level, SpecsGood, TrimSpace, KindPicked, Drawn, Profile.Weights, Sum, NonePositive;
      var i := PickKind(prof.rates, u);
      kind := KINDS[i];
      if Acceptable(prof) { SilentIff(prof, u, i); }
      spec := Next(kind, r);
    }
  }

  // ── silence ───────────────────────────────────────────────────────────────

  /** Where every kind with a rate has a spec, a draw is silent exactly when no rate is a positive number and there is no process. */
  lemma SilentIff(p: Profile, u: real, i: int)
    requires p.Shaped() && Covered(p) && u >= 0.0 && KindPicked(p.rates, u, i)
    ensures 0 <= i < |KINDS|
    ensures p.Weights(KINDS[i]) == [] <==> NonePositive(p.rates) && p.processes == []
  {
    hide PickedAt, Level;
    if PickedAt(p.rates, Level(p.rates, u), i) { PickedIsPositive(p.rates, Level(p.rates, u), i); }
    assert Positive(p.rates[i]) || (i == 0 && NonePositive(p.rates));
    assert p.Weights(Process) == [] <==> p.processes == [];
  }

  /** Rates without a positive number among them are only accepted when one is not a number. */
  lemma NonePositiveNeedsNaN(rates: seq<Float>)
    requires Sane(rates) && NonePositive(rates)
    ensures NaN in rates
  {
    if NaN !in rates {
      forall i | 0 <= i < |rates| ensures rates[i] == Fin(0.0) { assert rates[i] in rates; }
      TotalOfZeros(rates);
      assert false;
    }
  }

  lemma {:induction false} TotalOfZeros(rates: seq<Float>)
    requires forall i :: 0 <= i < |rates| ==> rates[i] == Fin(0.0)
    ensures Total(rates) == Fin(0.0)
  {
    if rates != [] {
      TotalOfZeros(rates[..|rates| - 1]);
      RoundingKeeps(0.0, 0.0);
    }
  }

  /** So a profile whose rates are finite, once accepted, is never silent. */
  lemma FiniteIsNeverSilent(p: Profile, u: real, i: int)
    requires p.Shaped() && Acceptable(p) && AllFinite(p.rates) && 0.0 <= u < 1.0 && KindPicked(p.rates, u, i)
    ensures 0 <= i < |KINDS| && Positive(p.rates[i]) && p.Weights(KINDS[i]) != []
  {
    hide TrimSpace, SpecsGood, PickedAt, Level, Total, Profile.Weights, Stops;
    SilentIff(p, u, i);
    if NonePositive(p.rates) {
      NonePositiveNeedsNaN(p.rates);
      assert false;
    }
    if FoundOn(p.rates, u) { PickedIsPositive(p.rates, Level(p.rates, u), i); }
  }

  /** A registry event is drawn for an accepted profile only if that is for Windows. */
  lemma RegistryMeansWindows(p: Profile, u: real, i: int)
    requires p.Shaped() && Acceptable(p) && u >= 0.0 && KindPicked(p.rates, u, i) && 0 <= i < |KINDS| && KINDS[i] == Registry
    ensures p.os == "windows"
  {
    hide TrimSpace, SpecsGood, PickedAt, Level, Total;
    assert i == 4;
    if PickedAt(p.rates, Level(p.rates, u), i) { PickedIsPositive(p.rates, Level(p.rates, u), i); }
  }

  /** With rates that are not numbers, any profile without processes is accepted, and silent on every draw. */
  lemma NotANumberIsSilent(p: Profile, u: real, i: int)
    requires p.Shaped() && Acceptable(p) && p.processes == [] && u >= 0.0
    ensures var q := p.(rates := seq(|KINDS|, _ => NaN));
            && q.Shaped() && Acceptable(q)
            && (KindPicked(q.rates, u, i) ==> 0 <= i < |KINDS| && q.Weights(KINDS[i]) == [])
  {
    hide TrimSpace, PickedAt, Level;
    var q := p.(rates := seq(|KINDS|, _ => NaN));
    assert Total(q.rates) == Plus(Total(q.rates[..|q.rates| - 1]), NaN) == NaN;
    if KindPicked(q.rates, u, i) { SilentIff(q, u, i); }
  }

  /** A host that only loads images. */
  const LOADS_ONLY := Profile("loads", "linux", ["u"], "10.0.0.0/24", 0, seq(6, _ => Fin(0.0)) + [Fin(1.0)],
                              [], [], [], [], [], [], [ImageLoadSpec(1, ["/lib/a"])])

  lemma NothingToTrim(s: string)
    requires s != "" && !IsSpace(s[0]) && !IsSpace(s[|s| - 1])
    ensures TrimSpace(s) == s
  {
  }

  lemma LoadsOnlyIsAcceptable()
    ensures LOADS_ONLY.Shaped() && Acceptable(LOADS_ONLY)
  {
    hide TrimSpace, Total, Sane, Profile.Weights;
    NothingToTrim(LOADS_ONLY.name);
    NothingToTrim(LOADS_ONLY.subnet);
    OnlyLastIsSane(6);
    OneImageLoad(LOADS_ONLY);
    assert SpecsGood(LOADS_ONLY);
    hide SpecsGood;
    forall i | 0 <= i < |KINDS| && Positive(LOADS_ONLY.rates[i]) ensures LOADS_ONLY.Weights(KINDS[i]) != [] {
      assert i == 6;
    }
  }

  lemma OneImageLoad(p: Profile)
    requires |p.imageLoads| == 1
    ensures KINDS[6] == ImageLoad && |p.Weights(ImageLoad)| == 1
  {
  }

  lemma OnlyLastIsSane(n: nat)
    ensures Sane(seq(n, _ => Fin(0.0)) + [Fin(1.0)])
  {
    var zeros: seq<Float> := seq(n, _ => Fin(0.0));
    TotalOfZeros(zeros);
    RoundingKeeps(0.0, 1.0);
    assert (zeros + [Fin(1.0)])[..n] == zeros;
  }

  /** So there are accepted profiles that never produce an event. */
  lemma SilentProfileExists()
    ensures exists p: Profile :: p.Shaped() && Acceptable(p)
              && forall u, i :: 0.0 <= u < 1.0 && KindPicked(p.rates, u, i) ==> 0 <= i < |KINDS| && p.Weights(KINDS[i]) == []
  {
    LoadsOnlyIsAcceptable();
    var q := LOADS_ONLY.(rates := seq(|KINDS|, _ => NaN));
    hide Profile.Weights, KindPicked, Acceptable;
    forall u, i | 0.0 <= u < 1.0 && KindPicked(q.rates, u, i) ensures 0 <= i < |KINDS| && q.Weights(KINDS[i]) == [] {
      NotANumberIsSilent(LOADS_ONLY, u, i);
    }
    NotANumberIsSilent(LOADS_ONLY, 0.0, 0);
  }

  ghost predicate NeverSilent(p: Profile)
    requires p.Shaped()
  {
    forall u, i :: 0.0 <= u < 1.0 && KindPicked(p.rates, u, i) ==> 0 <= i < |KINDS| && p.Weights(KINDS[i]) != []
  }

  /** With whole sane rates, no draw is silent exactly when every kind with a rate has a spec: the check of `Validate` is the right one. */
  lemma NeverSilentIff(p: Profile)
    requires p.Shaped() && WholeRates(p.rates) && Sane(p.rates)
    ensures NeverSilent(p) <==> Covered(p)
  {
    hide Profile.Weights, Total, Level, PickedAt, Sane, WholeRates;
    if Covered(p) {
      forall u, i | 0.0 <= u < 1.0 && KindPicked(p.rates, u, i) ensures 0 <= i < |KINDS| && p.Weights(KINDS[i]) != [] {
        WholeRatesAlwaysFound(p.rates, u);
        PickedIsPositive(p.rates, Level(p.rates, u), i);
      }
    } else {
      var i :| 0 <= i < |KINDS| && Positive(p.rates[i]) && p.Weights(KINDS[i]) == [];
      var u := WholeRatesDraw(p.rates, i);
      StopsPicked(p.rates, Level(p.rates, u), i);
      assert KindPicked(p.rates, u, i);
    }
  }

  /** Among whole rates every positive one is picked on some draw. */
  lemma WholeRatesDraw(rates: seq<Float>, i: nat) returns (u: real)
    requires WholeRates(rates) && Sane(rates) && i < |rates| && Positive(rates[i])
    ensures 0.0 <= u < 1.0 && PickedAt(rates, Level(rates, u), i)
  {
    var s := Reals(rates);
    WholeSumsKept(rates);
    SaneIsReal(rates);
    u := DrawFor(s, i);
    var x := RealLevel(s, u);
    WholeBelow(s, i);
    hide Total, RealTotal, Below, UsedUpAt, Sane, Kept, SumsKept, RestsKept, PickedAt, Level;
    SumOfWholes(Below(s, i), Below(s, i));
    SumOfWholes(Below(s, i) + Below(s, i), s[i]);
    WholeRestsKept(rates, x);
    HalfIsKept(x);
    LevelIsReal(rates, u);
    PickedIsUsedUp(rates, x, i);
  }

  lemma LevelIsReal(rates: seq<Float>, u: real)
    requires SumsKept(rates) && u >= 0.0 && Kept(RealLevel(Reals(rates), u))
    ensures Level(rates, u) == Fin(RealLevel(Reals(rates), u))
  {
    AllIsReal(rates);
    LevelIs(rates, u, RealTotal(Reals(rates)));
    hide Total, Level, Part;
  }

  /** A draw on which a kind with a rate is picked. */
  lemma DrawFor(rates: seq<real>, i: nat) returns (u: real)
    requires SaneReals(rates) && i < |rates| && rates[i] > 0.0
    ensures 0.0 <= u < 1.0 && UsedUpAt(rates, RealLevel(rates, u), i)
    ensures RealLevel(rates, u) == Below(rates, i) + rates[i] / 2.0 && 0.0 < RealLevel(rates, u) < RealTotal(rates)
  {
    var t := RealTotal(rates);
    BelowIsTotal(rates, |rates|);
    assert rates[..|rates|] == rates;
    BelowGrows(rates, 0, i);
    BelowGrows(rates, i + 1, |rates|);
    var x := Below(rates, i) + rates[i] / 2.0;
    assert 0.0 < x < t && Below(rates, i) < x <= Below(rates, i + 1);
    UsedUpIff(rates, x, i);
    u := Divided(x, t);
    assert RealLevel(rates, u) == x;
  }

  lemma Divided(x: real, t: real) returns (u: real)
    requires 0.0 < x < t
    ensures 0.0 <= u < 1.0 && u * t == x
  {
    u := x / t;
    ScaleIff(x, 0.0, t);
    ScaleIff(x, 1.0, t);
  }

  /** Every spec of an accepted profile can be drawn, on as many draws as it weighs. */
  lemma EverySpecIsDrawn(p: Profile, k: Kind, i: nat)
    requires p.Shaped() && Acceptable(p) && i < |p.Weights(k)|
    ensures var ws := p.Weights(k); ws[i] > 0 && Sum(ws) > 0 && |set x | 0 <= x < Sum(ws) && Drawn(ws, x, i)| == ws[i]
  {
    hide TrimSpace, Total, Covered;
    var ws := p.Weights(k);
    WeightsPositive(p, k);
    DrawnByWeight(ws, i);
    SumUpTo(ws, 0, i);
    SumMore(ws, i);
    SumUpTo(ws, i + 1, |ws|);
    assert ws[..0] == [] && ws[..|ws|] == ws;
  }

  lemma WeightsPositive(p: Profile, k: Kind)
    requires SpecsGood(p)
    ensures forall i :: 0 <= i < |p.Weights(k)| ==> p.Weights(k)[i] > 0
  {
  }
}
