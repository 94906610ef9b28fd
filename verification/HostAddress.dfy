// The address of a simulated host (agent/cmd/fleet-sim/generate.go, hostAddr). A subnet is
// what the CIDR parser makes of its text, in the prefix notation of section 3.1 of RFC 4632;
// an address is four octets.
module HostAddress {
  import opened Common
  import opened Apportionment

  const WORD := 0x1_0000_0000

  datatype Subnet = V4(addr: nat, ones: nat) | NotV4 | Malformed {
    predicate Parsed() {
      V4? ==> addr < WORD && ones <= 32
    }
  }

  function Pow2(n: nat): (p: nat)
    ensures p >= 1
  {
    if n == 0 then 1 else 2 * Pow2(n - 1)
  }

  function Octets(a: nat): seq<nat> {
    [a / 0x100_0000 % 256, a / 0x1_0000 % 256, a / 256 % 256, a % 256]
  }

  /** Big-endian. */
  function Value(o: seq<nat>): nat
    requires |o| == 4
  {
    o[0] * 0x100_0000 + o[1] * 0x1_0000 + o[2] * 256 + o[3]
  }

  lemma ValueOfOctets(a: nat)
    requires a < WORD
    ensures Value(Octets(a)) == a
  {
    assert a / 0x100_0000 < 256;
    assert a / 256 / 256 == a / 0x1_0000 && a / 0x1_0000 / 256 == a / 0x100_0000;
  }

  /** `uint32(1) << (32 - ones)`: nothing is left of it when the shift is the whole word. */
  function Span(ones: nat): nat
    requires ones <= 32
  {
    Pow2(32 - ones) % WORD
  }

  /** The first address of the block of `addr`. */
  function Base(addr: nat, ones: nat): nat
    requires ones <= 32
  {
    RestIsLess(addr, Pow2(32 - ones));
    addr - addr % Pow2(32 - ones)
  }

  /** `hostAddr`; `None` stands for its errors. */
  method HostAddr(subnet: Subnet, index: nat) returns (r: Option<seq<nat>>)
    requires subnet.Parsed()
    ensures r == HostOf(subnet, index)
  {
    if !subnet.V4? {
      return None;
    }
    var base := Octets(Base(subnet.addr, subnet.ones));
    ValueOfOctets(Base(subnet.addr, subnet.ones));
    var span := Span(subnet.ones);
    if span < 4 {
      return None;
    }
    var offset := index % (span - 2) + 1;
    var addr := (Value(base) + offset) % WORD;
    r := Some(Octets(addr));
  }

  function HostOf(subnet: Subnet, index: nat): (r: Option<seq<nat>>)
    requires subnet.Parsed()
    ensures r.Some? ==> subnet.V4? && |r.value| == 4
  {
    if !subnet.V4? || Span(subnet.ones) < 4 then None
    else Some(Octets((Base(subnet.addr, subnet.ones) + Slot(index, Span(subnet.ones)) + 1) % WORD))
  }

  /** Which of the addresses of a block of `p` is given, the first and the last not being counted. */
  function Slot(index: nat, p: nat): (s: nat)
    requires p >= 4
    ensures s < p - 2
  {
    index % (p - 2)
  }

  lemma {:induction false} Pow2Grows(a: nat, b: nat)
    requires a <= b
    ensures Pow2(a) <= Pow2(b) && Pow2(b) % Pow2(a) == 0
  {
    if a < b {
      Pow2Grows(a, b - 1);
      DoubleDivides(Pow2(b - 1), Pow2(a));
    }
  }

  lemma DoubleDivides(x: nat, d: nat)
    requires d > 0 && x % d == 0
    ensures (2 * x) % d == 0
  {
    var q := x / d;
    assert 2 * x == d * (2 * q);
    Multiple(d, 2 * q, 0);
  }

  lemma Multiple(d: nat, q: nat, r: nat)
    requires r < d
    ensures (d * q + r) % d == r && (d * q + r) / d == q
  {
    var n := d * q + r;
    var m := n / d - q;
    assert d * m == r - n % d by { assert d * (n / d) - d * q == d * m; }
    AtLeastOnce(d, m);
    AtLeastOnce(d, -m);
    assert d * -m == -(d * m);
  }

  lemma AtLeastOnce(d: nat, m: int)
    ensures m >= 1 ==> d * m >= d
  {
    if m >= 1 { assert d * (m - 1) >= 0; }
  }

  lemma Pow2Values()
    ensures Pow2(1) == 2 && Pow2(2) == 4 && Pow2(31) == 0x8000_0000 && Pow2(32) == WORD
  {
    assert Pow2(4) == 16 && Pow2(8) == 256;
    assert Pow2(12) == 4096 && Pow2(16) == 0x1_0000 && Pow2(20) == 0x10_0000;
    assert Pow2(24) == 0x100_0000 && Pow2(28) == 0x1000_0000;
  }

  /**
   * An address is given exactly for IPv4 blocks of prefix length 1 to 30: the whole address space, a block
   * of length 0, is refused as too small.
   */
  lemma AcceptedIff(subnet: Subnet, index: nat)
    requires subnet.Parsed()
    ensures HostOf(subnet, index).Some? <==> subnet.V4? && 1 <= subnet.ones <= 30
    ensures HostOf(subnet, index).Some? ==> Span(subnet.ones) == Pow2(32 - subnet.ones) >= 4
  {
    hide Pow2;
    if subnet.V4? {
      Pow2Values();
      var n := 32 - subnet.ones;
      if n < 32 { Pow2Grows(n, 31); }
      if n >= 2 { Pow2Grows(2, n); } else if n == 0 { Pow2Grows(0, 1); }
    }
  }

  /** The block of prefix length `ones` that holds `a`, as a number. */
  function Block(a: nat, ones: nat): int
    requires ones <= 32
  {
    a / Pow2(32 - ones)
  }

  lemma HostValue(subnet: Subnet, index: nat)
    requires subnet.Parsed() && HostOf(subnet, index).Some?
    ensures var p, a := Pow2(32 - subnet.ones), Value(HostOf(subnet, index).value);
            p >= 4 && a < WORD && a == p * (subnet.addr / p) + (Slot(index, p) + 1)
  {
    hide Pow2, Octets, Value, Slot;
    AcceptedIff(subnet, index);
    var p := Pow2(32 - subnet.ones);
    Pow2Grows(32 - subnet.ones, 32);
    Pow2Values();
    Divided(subnet.addr, p);
    var b := Base(subnet.addr, subnet.ones);
    assert b == p * (subnet.addr / p);
    BlockFits(subnet.addr, p);
    ValueOfOctets(b + Slot(index, p) + 1);
  }

  /**
   * The address, octet by octet: behind the first address of the block as many as the index says, counted round
   * the block without its two ends, and one more.
   */
  lemma OctetsOfHost(subnet: Subnet, index: nat)
    requires subnet.Parsed() && HostOf(subnet, index).Some?
    ensures var p, o := Pow2(32 - subnet.ones), HostOf(subnet, index).value;
            && p >= 4 && |o| == 4 && (forall k :: 0 <= k < 4 ==> o[k] < 256)
            && o[0] * 0x100_0000 + o[1] * 0x1_0000 + o[2] * 0x100 + o[3] == subnet.addr - subnet.addr % p + index % (p - 2) + 1
  {
    hide Pow2;
    HostValue(subnet, index);
    var p, o := Pow2(32 - subnet.ones), HostOf(subnet, index).value;
    Divided(subnet.addr, p);
    assert Slot(index, p) == index % (p - 2);
    assert Value(o) == o[0] * 0x100_0000 + o[1] * 0x1_0000 + o[2] * 0x100 + o[3];
  }

  lemma BlockFits(a: nat, p: nat)
    requires a < WORD && 0 < p <= WORD && WORD % p == 0
    ensures a - a % p + p <= WORD
  {
    var q, n := a / p, WORD / p;
    assert WORD == p * n && a - a % p == p * q;
    AtLeastOnce(p, n - q);
    AtLeastOnce(p, q - n + 1);
    assert p * (n - q) == p * n - p * q && p * (q - n + 1) == p * q - p * n + p;
  }

  /** The address is in the subnet, and is neither its first address nor its last. */
  lemma HostIsInside(subnet: Subnet, index: nat)
    requires subnet.Parsed() && HostOf(subnet, index).Some?
    ensures var p, a := Pow2(32 - subnet.ones), Value(HostOf(subnet, index).value);
            Block(a, subnet.ones) == Block(subnet.addr, subnet.ones) && 0 < a % p < p - 1
  {
    hide Pow2, Octets, Value, HostOf, Slot;
    HostValue(subnet, index);
    var p := Pow2(32 - subnet.ones);
    Multiple(p, subnet.addr / p, Slot(index, p) + 1);
  }

  /** Two hosts of a subnet share an address exactly when their indices agree modulo the addresses that can be given. */
  lemma SameAddressIff(subnet: Subnet, i: nat, j: nat)
    requires subnet.Parsed() && HostOf(subnet, i).Some?
    ensures Pow2(32 - subnet.ones) >= 4
    ensures var n := Pow2(32 - subnet.ones) - 2; HostOf(subnet, i) == HostOf(subnet, j) <==> i % n == j % n
  {
    hide Pow2, Octets, Value;
    AcceptedIff(subnet, i);
    AcceptedIff(subnet, j);
    HostValue(subnet, i);
    HostValue(subnet, j);
  }

  /** So a fleet with no more hosts than that has as many addresses. */
  lemma DistinctAddresses(subnet: Subnet, i: nat, j: nat)
    requires subnet.Parsed() && HostOf(subnet, i).Some? && Pow2(32 - subnet.ones) >= 4
    requires i < j < Pow2(32 - subnet.ones) - 2
    ensures HostOf(subnet, i) != HostOf(subnet, j)
  {
    hide Pow2, HostOf;
    SameAddressIff(subnet, i, j);
    FirstRound(i, Pow2(32 - subnet.ones));
    FirstRound(j, Pow2(32 - subnet.ones));
  }

  lemma FirstRound(i: nat, p: nat)
    requires p >= 4 && i < p - 2
    ensures Slot(i, p) == i
  {
    Multiple(p - 2, 0, i);
  }

  /** In a block that holds the subnet, such as a private one, lie all its hosts; in any other block of that length, none. */
  lemma StaysInBlockIff(subnet: Subnet, index: nat, a: nat, ones: nat)
    requires subnet.Parsed() && HostOf(subnet, index).Some? && ones <= subnet.ones
    ensures Block(Value(HostOf(subnet, index).value), ones) == Block(a, ones) <==> Block(subnet.addr, ones) == Block(a, ones)
  {
    hide Pow2, HostOf, Octets;
    HostIsInside(subnet, index);
    Coarser(Value(HostOf(subnet, index).value), ones, subnet.ones);
    Coarser(subnet.addr, ones, subnet.ones);
  }

  lemma Coarser(x: nat, ones: nat, more: nat)
    requires ones <= more <= 32
    ensures Pow2(more - ones) > 0 && Block(x, ones) == Block(x, more) / Pow2(more - ones)
  {
    Pow2Product(32 - more, more - ones);
    var p, k := Pow2(32 - more), Pow2(more - ones);
    hide Pow2;
    DivideTwice(x, p, k);
  }

  lemma {:induction false} Pow2Product(a: nat, b: nat)
    ensures Pow2(a + b) == Pow2(a) * Pow2(b)
  {
    if b > 0 { Pow2Product(a, b - 1); }
  }

  lemma Divided(x: nat, d: nat)
    requires d > 0
    ensures x == d * (x / d) + x % d && x / d >= 0 && 0 <= x % d < d
  {
  }

  lemma RestIsLess(x: nat, d: nat)
    requires d > 0
    ensures x % d <= x
  {
    Divided(x, d);
    NoLess(d, x / d);
  }

  lemma Nested(p: nat, k: nat, m: nat, s: nat, r: nat)
    requires s < k && r < p
    ensures p * (k * m + s) + r == p * k * m + (p * s + r)
    ensures 0 <= p * s + r < p * k
  {
    Distribute(p, k * m, s);
    assert p * (k * m) == p * k * m;
    Distribute(p, s + 1, k - s - 1);
    Distribute(p, s, 1);
    NoLess(p, k - s - 1);
    NoLess(p, s);
  }

  lemma DivideTwice(x: nat, p: nat, k: nat)
    requires p > 0 && k > 0
    ensures p * k > 0 && x / (p * k) == x / p / k
  {
    Divided(x, p);
    Divided(x / p, k);
    var q, r := x / p, x % p;
    var m, s := q / k, q % k;
    Nested(p, k, m, s, r);
    Multiple(p * k, m, p * s + r);
  }
}
