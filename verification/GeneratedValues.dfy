// The values the generator draws for an event (agent/cmd/fleet-sim/generate.go): texts and
// ports from lists, sizes from ranges of 64-bit numbers, and the address that answers a
// name. A draw below `n` is any natural number modulo n.
module GeneratedValues {
  import opened Common
  import opened GoStrings
  import opened Utf8
  import opened Sampling

  // ── from a list ───────────────────────────────────────────────────────────

  /** `pickString` and `pickInt`; `none` is what they give without items. */
  function PickFrom<T>(xs: seq<T>, draw: nat, none: T): T {
    if xs == [] then none else xs[draw % |xs|]
  }

  /** Each item of a list is drawn on some draw, and nothing else is. */
  lemma PickedIff<T>(xs: seq<T>, none: T, x: T)
    requires xs != []
    ensures (exists draw: nat :: PickFrom(xs, draw, none) == x) <==> x in xs
  {
    if x in xs {
      var i :| 0 <= i < |xs| && xs[i] == x;
      Remains(i, |xs|);
      assert PickFrom(xs, i, none) == x;
    }
    forall draw: nat ensures PickFrom(xs, draw, none) in xs { IsBelow(draw, |xs|); }
  }

  lemma Remains(i: nat, n: nat)
    requires i < n
    ensures i % n == i
  {
  }

  lemma IsBelow(i: nat, n: nat)
    requires n > 0
    ensures 0 <= i % n < n
  {
  }

  ghost predicate AlwaysListed<T>(xs: seq<T>, none: T) {
    forall draw: nat :: PickFrom(xs, draw, none) in xs
  }

  lemma ListedUnlessEmpty<T>(xs: seq<T>, none: T)
    ensures AlwaysListed(xs, none) <==> xs != []
  {
    if xs != [] {
      forall draw: nat ensures PickFrom(xs, draw, none) in xs { IsBelow(draw, |xs|); }
    } else {
      assert PickFrom(xs, 0, none) !in xs;
    }
  }

  /** In an accepted profile every text an event needs is one that its spec lists, and so is the port. */
  lemma AcceptedIsListed(p: Profile)
    requires p.Shaped() && Acceptable(p)
    ensures forall s :: s in p.processes ==> AlwaysListed(s.commandLines, "")
    ensures forall s :: s in p.files ==> AlwaysListed(s.paths, "") && AlwaysListed(s.actions, "")
    ensures forall s :: s in p.network ==> AlwaysListed(s.hosts, "") && AlwaysListed(s.ports, 0)
    ensures forall s :: s in p.dns ==> AlwaysListed(s.queries, "")
    ensures forall s :: s in p.registry ==> AlwaysListed(s.keys, "") && AlwaysListed(s.actions, "")
    ensures forall s :: s in p.auth ==> AlwaysListed(s.users, "") && AlwaysListed(s.actions, "")
    ensures forall s :: s in p.imageLoads ==> AlwaysListed(s.paths, "")
    ensures AlwaysListed(p.users, "")
  {
    assert p.users != [] && SpecsGood(p);
    forall texts: seq<string> ensures AlwaysListed(texts, "") <==> texts != [] { ListedUnlessEmpty(texts, ""); }
    forall ports: seq<int> ensures AlwaysListed(ports, 0) <==> ports != [] { ListedUnlessEmpty(ports, 0); }
    hide Acceptable, AlwaysListed;
  }

  /** `networkEvent`: the port, and, drawn anew, whether the connection counts as encrypted. */
  function Connection(ports: seq<int>, draw: nat, again: nat): (int, bool) {
    (PickFrom(ports, draw, 0), PickFrom(ports, again, 0) == 443)
  }

  /** A connection is marked encrypted exactly when its port is 443, on all draws, exactly when the ports are all 443 or none is. */
  lemma EncryptedAgreesIff(ports: seq<int>)
    ensures (forall draw: nat, again: nat :: var (port, encrypted) := Connection(ports, draw, again); encrypted <==> port == 443)
            <==> (forall port :: port in ports ==> port == 443) || 443 !in ports
  {
    if ports != [] {
      ListedUnlessEmpty(ports, 0);
      hide PickFrom;
      forall x ensures (exists draw: nat :: PickFrom(ports, draw, 0) == x) <==> x in ports { PickedIff(ports, 0, x); }
      if port :| port in ports && port != 443 && 443 in ports {
        var a: nat :| PickFrom(ports, a, 0) == port;
        var b: nat :| PickFrom(ports, b, 0) == 443;
        assert Connection(ports, a, b) == (port, true);
      }
    }
  }

  // ── from a range ──────────────────────────────────────────────────────────

  const INT64 := 0x8000_0000_0000_0000

  predicate IsInt64(x: int) {
    -INT64 <= x < INT64
  }

  /** What 64 bits keep of a sum or difference. */
  function Wrapped(x: int): int {
    (x + INT64) % (2 * INT64) - INT64
  }

  /** `int64Between`; `None` is the panic of `Int64N` on a number that is not positive. */
  function Between(lo: int, hi: int, draw: nat): Option<int> {
    if hi <= lo then Some(lo)
    else
      var n := Wrapped(Wrapped(hi - lo) + 1);
      if n <= 0 then None else Some(Wrapped(lo + draw % n))
  }

  /** The range has more numbers than 64 bits count. */
  predicate Wide(lo: int, hi: int) {
    hi - lo >= INT64 - 1
  }

  lemma WidthIs(lo: int, hi: int)
    requires IsInt64(lo) && IsInt64(hi) && lo < hi
    ensures var n := Wrapped(Wrapped(hi - lo) + 1); if Wide(lo, hi) then n <= 0 else n == hi - lo + 1
  {
  }

  /** A draw panics exactly when the range is that wide; otherwise the values drawn are those of the range. */
  lemma BetweenIff(lo: int, hi: int, draw: nat, x: int)
    requires IsInt64(lo) && IsInt64(hi) && lo <= hi
    ensures Between(lo, hi, draw).None? <==> Wide(lo, hi)
    ensures !Wide(lo, hi) ==> ((exists d: nat :: Between(lo, hi, d) == Some(x)) <==> lo <= x <= hi)
  {
    if lo < hi {
      WidthIs(lo, hi);
      var n := hi - lo + 1;
      if !Wide(lo, hi) {
        forall d: nat ensures Between(lo, hi, d) == Some(lo + d % n) { Kept(lo, n, d); }
        if lo <= x <= hi {
          Remains(x - lo, n);
          assert Between(lo, hi, x - lo) == Some(x);
        }
        forall d: nat ensures lo <= lo + d % n <= hi { IsBelow(d, n); }
      }
    } else {
      assert Between(lo, hi, 0) == Some(lo);
    }
  }

  lemma Kept(lo: int, n: nat, d: nat)
    requires n > 0 && IsInt64(lo) && IsInt64(lo + n - 1)
    ensures Wrapped(lo + d % n) == lo + d % n
  {
    IsBelow(d, n);
  }

  /** `int64Range`. */
  function Ranged(r: seq<int>, low: int, high: int, draw: nat): Option<int> {
    if |r| == 2 then Between(r[0], r[1], draw) else Between(low, high, draw)
  }

  function FileSize(s: FileSpec, draw: nat): Option<int> {
    if |s.sizeRange| == 2 then Between(s.sizeRange[0], s.sizeRange[1], draw) else Some(0)
  }

  function BytesSent(s: NetworkSpec, draw: nat): Option<int> {
    Ranged(s.sentRange, 200, 20_000, draw)
  }

  function BytesRecv(s: NetworkSpec, draw: nat): Option<int> {
    Ranged(s.recvRange, 500, 200_000, draw)
  }

  predicate AllInt64(r: seq<int>) {
    forall i :: 0 <= i < |r| ==> IsInt64(r[i])
  }

  /** The numbers of the ranges are as they are declared. */
  predicate Int64s(p: Profile) {
    && (forall s :: s in p.files ==> AllInt64(s.sizeRange))
    && forall s :: s in p.network ==> AllInt64(s.sentRange) && AllInt64(s.recvRange)
  }

  ghost predicate CanPanic(p: Profile) {
    || (exists s, draw: nat :: s in p.files && FileSize(s, draw).None?)
    || (exists s, draw: nat :: s in p.network && (BytesSent(s, draw).None? || BytesRecv(s, draw).None?))
  }

  /** All the numbers from 0 on that 64 bits hold. */
  const WHOLE := [0, INT64 - 1]

  lemma FilePanicsIff(s: FileSpec, draw: nat)
    requires GoodFile(s) && AllInt64(s.sizeRange)
    ensures FileSize(s, draw).None? <==> s.sizeRange != [] && Wide(s.sizeRange[0], s.sizeRange[1])
  {
    if s.sizeRange != [] { BetweenIff(s.sizeRange[0], s.sizeRange[1], draw, 0); }
  }

  lemma NetworkPanicsIff(s: NetworkSpec, draw: nat)
    requires GoodNetwork(s) && AllInt64(s.sentRange) && AllInt64(s.recvRange)
    ensures BytesSent(s, draw).None? <==> s.sentRange == WHOLE
    ensures BytesRecv(s, draw).None? <==> s.recvRange == WHOLE
  {
    hide Between;
    RangePanicsIff(s.sentRange, 200, 20_000, draw);
    RangePanicsIff(s.recvRange, 500, 200_000, draw);
  }

  lemma RangePanicsIff(r: seq<int>, low: int, high: int, draw: nat)
    requires GoodRange(r) && AllInt64(r) && 0 <= low <= high < INT64 - 1
    ensures Ranged(r, low, high, draw).None? <==> r == WHOLE
  {
    hide Between;
    BetweenIff(low, high, draw, 0);
    if r != [] {
      BetweenIff(r[0], r[1], draw, 0);
      assert r == [r[0], r[1]];
    }
  }

  /**
   * An accepted profile can make the generator panic exactly when a range of sizes, or of bytes sent or received,
   * is so wide that its length does not fit 64 bits. `Validate` lets such ranges through.
   */
  lemma AcceptedPanicsIff(p: Profile)
    requires p.Shaped() && Acceptable(p) && Int64s(p)
    ensures CanPanic(p) <==>
              || (exists s :: s in p.files && s.sizeRange != [] && Wide(s.sizeRange[0], s.sizeRange[1]))
              || (exists s :: s in p.network && (s.sentRange == WHOLE || s.recvRange == WHOLE))
  {
    assert SpecsGood(p);
    hide Acceptable, GoodFile, GoodNetwork, AllInt64;
    forall s, draw: nat | s in p.files ensures FileSize(s, draw).None? <==> s.sizeRange != [] && Wide(s.sizeRange[0], s.sizeRange[1]) {
      FilePanicsIff(s, draw);
    }
    forall s, draw: nat | s in p.network
      ensures (BytesSent(s, draw).None? <==> s.sentRange == WHOLE) && (BytesRecv(s, draw).None? <==> s.recvRange == WHOLE)
    {
      NetworkPanicsIff(s, draw);
    }
    hide FileSize, BytesSent, BytesRecv, Wide, GoodSizes, WHOLE;
    forall s | s in p.files && s.sizeRange != [] ensures FileSize(s, 0).None? <==> Wide(s.sizeRange[0], s.sizeRange[1]) {}
    forall s | s in p.network ensures BytesSent(s, 0).None? || BytesRecv(s, 0).None? <==> s.sentRange == WHOLE || s.recvRange == WHOLE {}
  }

  /** Whatever is accepted still is with such a range in place of one of its own. */
  lemma WideIsAccepted(p: Profile, i: nat)
    requires p.Shaped() && Acceptable(p) && i < |p.files|
    ensures var q := p.(files := p.files[i := p.files[i].(sizeRange := WHOLE)]); Acceptable(q) && CanPanic(q)
  {
    var s := p.files[i].(sizeRange := WHOLE);
    var q := p.(files := p.files[i := s]);
    assert GoodFile(p.files[i]) && GoodFile(s);
    forall k | 0 <= k < |q.files| ensures GoodFile(q.files[k]) { assert k != i ==> q.files[k] == p.files[k]; }
    assert SpecsGood(p) && SpecsGood(q);
    forall k | 0 <= k < |KINDS| && Positive(q.rates[k]) ensures q.Weights(KINDS[k]) != [] { assert p.Weights(KINDS[k]) != []; }
    hide SpecsGood, TrimSpace, Sane;
    assert AllInt64(s.sizeRange);
    FilePanicsIff(s, 0);
    assert q.files[i] == s;
    assert s in q.files && FileSize(s, 0).None?;
  }

  // ── the answer for a name ─────────────────────────────────────────────────

  /** Bit by bit, whether the bits differ. */
  function Xor(a: nat, b: nat): nat {
    if b == 0 then a else 2 * Xor(a / 2, b / 2) + (a + b) % 2
  }

  /** A step of FNV-1a in 32 bits. */
  function Mix(h: nat, byte: nat): nat {
    Xor(h, byte) * 16777619 % 0x1_0000_0000
  }

  function Fnv(bytes: seq<int>, h: nat): nat
    requires forall i :: 0 <= i < |bytes| ==> 0 <= bytes[i] < 256
  {
    if bytes == [] then h else Fnv(bytes[1..], Mix(h, bytes[0]))
  }

  function WithoutDot(name: string): string {
    if name != "" && name[|name| - 1] == '.' then name[..|name| - 1] else name
  }

  lemma {:induction false} EncodedAreBytes(s: string)
    ensures forall i :: 0 <= i < |Encode(s)| ==> 0 <= Encode(s)[i] < 256
  {
    if s != "" {
      EncodedAreBytes(s[1..]);
      CharIsBytes(s[0]);
    }
  }

  lemma CharIsBytes(c: char)
    ensures forall i :: 0 <= i < |Enc(c)| ==> 0 <= Enc(c)[i] < 256
  {
  }

  function HashOf(name: string): nat {
    var text := Lower(WithoutDot(name));
    EncodedAreBytes(text);
    Fnv(Encode(text), 2166136261)
  }

  /** The four octets made of a hash. */
  function Octets(sum: nat): seq<nat> {
    [20 + sum % 200, sum / 0x100 % 256, sum / 0x1_0000 % 4, 1 + sum / 0x10_0000 % 3]
  }

  /** `publicAnswerFor` */
  function PublicAnswer(name: string): seq<nat> {
    Octets(HashOf(name))
  }

  /** The blocks of section 3 of RFC 1918: 10/8, 172.16/12 and 192.168/16. */
  predicate IsPrivate(o: seq<nat>)
    requires |o| == 4
  {
    o[0] == 10 || (o[0] == 172 && 16 <= o[1] < 32) || (o[0] == 192 && o[1] == 168)
  }

  /** The same name, with or without a dot behind it and in whatever case, has the same answer. */
  lemma AnswerIsStable(name: string)
    ensures PublicAnswer(Lower(name)) == PublicAnswer(name)
    ensures WithoutDot(name) == name ==> PublicAnswer(name + ".") == PublicAnswer(name)
  {
    hide Fnv, Encode, Octets;
    LowerOfLower(name);
    LowerOfLower(WithoutDot(name));
    assert (name + ".")[..|name|] == name;
  }

  lemma LowerOfLower(s: string)
    ensures Lower(Lower(s)) == Lower(s) && Lower(WithoutDot(s)) == WithoutDot(Lower(s))
  {
    var t := Lower(s);
    forall i | 0 <= i < |s| ensures Lower(t)[i] == t[i] && (t[i] == '.' <==> s[i] == '.') { LowerCharAgain(s[i]); }
    assert Lower(t) == t;
    if s != "" && s[|s| - 1] == '.' { assert Lower(s[..|s| - 1]) == t[..|s| - 1]; }
  }

  lemma LowerCharAgain(c: char)
    ensures LowerChar(LowerChar(c)) == LowerChar(c) && (LowerChar(c) == '.' <==> c == '.')
  {
  }

  /** The answers are not all public: one is private exactly when its hash is of two families. */
  lemma AnswerIsPrivateIff(name: string)
    ensures IsPrivate(PublicAnswer(name)) <==>
              var sum := HashOf(name);
              (sum % 200 == 152 && 16 <= sum / 0x100 % 256 < 32) || (sum % 200 == 172 && sum / 0x100 % 256 == 168)
  {
    hide HashOf;
  }

  lemma BytesOfCss()
    ensures Encode("css") == [99, 115, 115] && Lower(WithoutDot("css")) == "css"
  {
    var t := "css";
    assert t[1..] == "ss" && t[1..][1..] == "s" && t[1..][1..][1..] == "";
    assert Enc('s') == [115] && Enc('c') == [99];
    assert Encode("") == [];
    assert "s"[1..] == "" && "ss"[1..] == "s";
    assert Encode("s") == [115] + [];
    assert Encode("ss") == [115] + [115];
    assert Encode("css") == [99] + [115, 115];
    hide Encode;
    assert Lower(t) == t by { assert forall i :: 0 <= i < 3 ==> LowerChar(t[i]) == t[i]; }
  }

  lemma XorZero(a: nat)
    ensures Xor(a, 0) == a
  {
  }

  lemma XorTwice(a: nat, b: nat, x: nat)
    requires b > 0 && Xor(a / 2, b / 2) == x
    ensures Xor(a, b) == 2 * x + (a + b) % 2
  {
  }

  lemma FirstXor()
    ensures Xor(2166136261, 99) == 2166136230
  {
    hide Xor;
    XorZero(16922939);
    XorTwice(33845879, 1, 16922939);
    XorTwice(67691758, 3, 33845878);
    XorTwice(135383516, 6, 67691757);
    XorTwice(270767032, 12, 135383514);
    XorTwice(541534065, 24, 270767028);
    XorTwice(1083068130, 49, 541534057);
    XorTwice(2166136261, 99, 1083068115);
  }

  lemma SecondXor()
    ensures Xor(3859557458, 115) == 3859557409
  {
    hide Xor;
    XorZero(30152792);
    XorTwice(60305585, 1, 30152792);
    XorTwice(120611170, 3, 60305584);
    XorTwice(241222341, 7, 120611169);
    XorTwice(482444682, 14, 241222338);
    XorTwice(964889364, 28, 482444676);
    XorTwice(1929778729, 57, 964889352);
    XorTwice(3859557458, 115, 1929778704);
  }

  lemma ThirdXor()
    ensures Xor(1177122803, 115) == 1177122688
  {
    hide Xor;
    XorZero(9196271);
    XorTwice(18392543, 1, 9196271);
    XorTwice(36785087, 3, 18392542);
    XorTwice(73570175, 7, 36785084);
    XorTwice(147140350, 14, 73570168);
    XorTwice(294280700, 28, 147140336);
    XorTwice(588561401, 57, 294280672);
    XorTwice(1177122803, 115, 588561344);
  }

  lemma MixIs(h: nat, byte: nat, x: nat)
    requires Xor(h, byte) == x
    ensures Mix(h, byte) == x * 16777619 % 0x1_0000_0000
  {
    hide Xor;
  }

  lemma HashOfCss()
    ensures Fnv([99, 115, 115], 2166136261) == 4081524352
  {
    hide Mix, Xor;
    FirstXor();
    SecondXor();
    ThirdXor();
    MixIs(2166136261, 99, 2166136230);
    MixIs(3859557458, 115, 3859557409);
    MixIs(1177122803, 115, 1177122688);
    FnvFirst(99, [115, 115], 2166136261);
    FnvFirst(115, [115], 3859557458);
    FnvFirst(115, [], 1177122803);
  }

  lemma FnvFirst(x: nat, bytes: seq<int>, h: nat)
    requires x < 256 && forall i :: 0 <= i < |bytes| ==> 0 <= bytes[i] < 256
    ensures Fnv([x] + bytes, h) == Fnv(bytes, Mix(h, x))
    ensures Fnv([], h) == h
  {
    hide Mix;
    assert ([x] + bytes)[1..] == bytes;
  }

  /** Such a name is "css". */
  lemma PrivateAnswerExists()
    ensures PublicAnswer("css") == [172, 30, 3, 2] && IsPrivate(PublicAnswer("css"))
  {
    hide Fnv, Encode, Lower, WithoutDot;
    BytesOfCss();
    HashOfCss();
  }
}
