// The texts one simulated host puts into its templates: its user, its name and its address
// (agent/cmd/fleet-sim/generate.go, NewGenerator; agent/cmd/fleet-sim/main.go), and which
// placeholders these can leave behind.
module GeneratorTexts {
  import opened Common
  import opened Decimal
  import opened Expansion
  import opened ExpansionLeftovers
  import HostAddress

  /** An address as it is printed. */
  function Printed(o: seq<nat>): string
    requires |o| == 4
  {
    Dec(o[0]) + "." + Dec(o[1]) + "." + Dec(o[2]) + "." + Dec(o[3])
  }

  /** `%04d`. */
  function Padded(n: nat): (s: string)
    ensures AllDigits(s)
  {
    var d := Dec(n);
    if |d| == 1 then "000" + d else if |d| == 2 then "00" + d else if |d| == 3 then "0" + d else d
  }

  /** Four digits at least, and the number. */
  lemma PaddedReads(n: nat)
    ensures |Padded(n)| >= 4 && ParseNat(Padded(n)) == n && (n >= 10000 ==> Padded(n) == Dec(n))
  {
    hide Dec, ParseNat;
    ParseDec(n);
    ZerosInFront("000", Dec(n));
    ZerosInFront("00", Dec(n));
    ZerosInFront("0", Dec(n));
    if n >= 10000 { DecOfFive(n); }
  }

  lemma DecLonger(n: nat)
    requires n >= 10
    ensures |Dec(n)| == |Dec(n / 10)| + 1
  {
  }

  lemma DecOfFive(n: nat)
    requires n >= 10000
    ensures |Dec(n)| >= 5
  {
    hide Dec;
    DecLonger(n);
    DecLonger(n / 10);
    DecLonger(n / 10 / 10);
    DecLonger(n / 10 / 10 / 10);
  }

  lemma {:induction false} ZerosInFront(z: string, d: string)
    requires (forall i :: 0 <= i < |z| ==> z[i] == '0') && forall i :: 0 <= i < |d| ==> IsDigit(d[i])
    ensures ParseNat(z + d) == ParseNat(d)
  {
    if d == "" {
      if z != "" {
        assert z + d == z && z[..|z| - 1] + "" == z[..|z| - 1];
        ZerosInFront(z[..|z| - 1], "");
      }
    } else {
      assert (z + d)[..|z + d| - 1] == z + d[..|d| - 1];
      ZerosInFront(z, d[..|d| - 1]);
    }
  }

  /** The name of host `i`: the prefix of the run, the prefix of its profile, its number. */
  function HostName(prefix: string, profile: string, i: nat): string {
    prefix + "-" + profile + "-" + Padded(i)
  }

  /** Under one prefix of run and profile no two hosts have one name. */
  lemma NamesAreDistinct(prefix: string, profile: string, i: nat, j: nat)
    requires HostName(prefix, profile, i) == HostName(prefix, profile, j)
    ensures i == j
  {
    hide Padded, ParseNat;
    PaddedReads(i);
    PaddedReads(j);
    var front := prefix + "-" + profile + "-";
    assert (front + Padded(i))[|front|..] == Padded(i) && (front + Padded(j))[|front|..] == Padded(j);
  }

  // ── what the address touches: nothing ─────────────────────────────────────

  lemma AddressTouchesNone(o: seq<nat>, p: string)
    requires |o| == 4 && Named(p)
    ensures !Touches(Printed(o), p)
  {
    var t := Printed(o);
    assert forall i :: 0 <= i < |t| ==> IsDigit(t[i]) || t[i] == '.';
    assert IsDigit(t[0]) by { assert t[0] == Dec(o[0])[0]; }
    hide Find, Printed;
    NoBraceTouchesIff(t, p);
    FindIsFirst(p, t);
    if Contains(p, t) {
      OccursChar(p, t, Find(p, t).value, 0);
      assert false;
    }
  }

  // ── what the name touches ─────────────────────────────────────────────────

  /** The prefix begins with the end of `p`, or one of the two parts holds `p`. */
  ghost predicate PartTouches(prefix: string, profile: string, p: string) {
    Contains(prefix, p) || Contains(profile, p) || exists k :: Finishes(prefix, p, k)
  }

  /** A name of a placeholder such as these holds no dash. */
  predicate Dashless(p: string) {
    '-' !in p
  }

  lemma NameTouchesIff(prefix: string, profile: string, i: nat, p: string)
    requires Named(p) && Dashless(p)
    ensures Touches(HostName(prefix, profile, i), p) <==> PartTouches(prefix, profile, p)
  {
    var s := HostName(prefix, profile, i);
    NameIsNoPart(prefix, profile, i, p);
    NameHolds(prefix, profile, Padded(i), p);
    hide Find, Named, Padded;
    forall k: nat ensures !Begins(s, p, k) && (Finishes(s, p, k) <==> Finishes(prefix, p, k)) {
      EndBeginsNone(prefix + "-" + profile + "-", Padded(i), p, k);
      FrontFinishes(prefix, "-" + profile + "-" + Padded(i), p, k);
      assert s == prefix + ("-" + profile + "-" + Padded(i));
    }
  }

  lemma NameIsNoPart(prefix: string, profile: string, i: nat, p: string)
    requires Dashless(p)
    ensures !Contains(p, HostName(prefix, profile, i))
  {
    var s := HostName(prefix, profile, i);
    assert s[|prefix|] == '-';
    hide Find, HostName;
    FindIsFirst(p, s);
    if Contains(p, s) {
      OccursChar(p, s, Find(p, s).value, |prefix|);
      assert false;
    }
  }

  /** A placeholder in the name stands in one of its two parts. */
  lemma NameHolds(prefix: string, profile: string, digits: string, p: string)
    requires Named(p) && Dashless(p) && AllDigits(digits)
    ensures Contains(prefix + "-" + profile + "-" + digits, p) <==> Contains(prefix, p) || Contains(profile, p)
  {
    NumberHoldsNone(digits, p);
    assert p != "";
    hide Named, Contains;
    DashSplits(prefix + "-" + profile, digits, p);
    DashSplits(prefix, profile, p);
  }

  lemma NumberHoldsNone(t: string, p: string)
    requires Named(p) && AllDigits(t)
    ensures !Contains(t, p)
  {
    hide Find;
    FindIsFirst(t, p);
    if Contains(t, p) {
      OccursChar(t, p, Find(t, p).value, 0);
      assert false;
    }
  }

  lemma DashSplits(a: string, b: string, p: string)
    requires p != "" && Dashless(p)
    ensures Contains(a + "-" + b, p) <==> Contains(a, p) || Contains(b, p)
  {
    hide Find;
    var s := a + "-" + b;
    if Contains(s, p) {
      FindIsFirst(s, p);
      var i := Find(s, p).value;
      if i <= |a| < i + |p| {
        OccursChar(s, p, i, |a| - i);
        assert false;
      } else if |a| < i {
        KeptBehind(s, p, i, |a| + 1);
        assert s[|a| + 1..] == b;
      } else {
        KeptInFront(s, p, i, |a|);
        assert s[..|a|] == a;
      }
    } else {
      if Contains(a, p) { KeptAround(a, "-", b, p); }
      if Contains(b, p) { KeptAround(a, "-", b, p); }
    }
  }

  lemma LastBegins(s: string, p: string, k: nat)
    requires Begins(s, p, k)
    ensures s[|s| - 1] == p[k - 1]
  {
    assert s[|s| - 1] == s[|s| - k..][k - 1];
  }

  lemma CharFinishes(s: string, p: string, k: nat, j: nat)
    requires Finishes(s, p, k) && j < k
    ensures s[j] in p
  {
    assert s[j] == s[..k][j] == p[|p| - k..][j];
  }

  lemma EndBeginsNone(a: string, digits: string, p: string, k: nat)
    requires AllDigits(digits) && NoDigit(p)
    ensures !Begins(a + digits, p, k)
  {
    var s := a + digits;
    if Begins(s, p, k) {
      LastBegins(s, p, k);
      assert false;
    }
  }

  lemma FrontFinishes(prefix: string, rest: string, p: string, k: nat)
    requires Dashless(p) && rest != "" && rest[0] == '-'
    ensures Finishes(prefix + rest, p, k) <==> Finishes(prefix, p, k)
  {
    var s := prefix + rest;
    if k <= |prefix| {
      assert s[..k] == prefix[..k];
    } else if Finishes(s, p, k) {
      CharFinishes(s, p, k, |prefix|);
      assert false;
    }
  }

  // ── what can be left ──────────────────────────────────────────────────────

  /**
   * Over all texts, with any user and any name and the address that was computed: `{{user}}` can be left exactly
   * when the user or the name touches it, `{{host}}` exactly when the name does, `{{srcip}}` never.
   */
  lemma LeftWithAddressIff(user: string, host: string, subnet: HostAddress.Subnet, i: nat,
                           rands: nat -> nat, ints: nat -> nat, days: nat -> nat)
    requires subnet.Parsed() && HostAddress.HostOf(subnet, i).Some?
    ensures var srcIp := Printed(HostAddress.HostOf(subnet, i).value);
            && (CanBeLeft(USER, user, host, srcIp, rands, ints, days) <==> Touches(user, USER) || Touches(host, USER))
            && (CanBeLeft(HOST, user, host, srcIp, rands, ints, days) <==> Touches(host, HOST))
            && !CanBeLeft(SRCIP, user, host, srcIp, rands, ints, days)
  {
    hide Touches, CanBeLeft, Named, Printed, HostAddress.HostOf;
    var o := HostAddress.HostOf(subnet, i).value;
    ThreeNamed();
    AddressTouchesNone(o, USER);
    AddressTouchesNone(o, HOST);
    AddressTouchesNone(o, SRCIP);
    LeftIff(user, host, Printed(o), rands, ints, days);
  }

  /** The same of the names a run gives its hosts: what counts is the user and the two prefixes, not the number. */
  lemma LeftOnHostIff(user: string, prefix: string, profile: string, subnet: HostAddress.Subnet, i: nat,
                      rands: nat -> nat, ints: nat -> nat, days: nat -> nat)
    requires subnet.Parsed() && HostAddress.HostOf(subnet, i).Some?
    ensures var host, srcIp := HostName(prefix, profile, i), Printed(HostAddress.HostOf(subnet, i).value);
            && (CanBeLeft(USER, user, host, srcIp, rands, ints, days)
                <==> Touches(user, USER) || PartTouches(prefix, profile, USER))
            && (CanBeLeft(HOST, user, host, srcIp, rands, ints, days) <==> PartTouches(prefix, profile, HOST))
            && !CanBeLeft(SRCIP, user, host, srcIp, rands, ints, days)
  {
    ThreeNamed();
    assert Dashless(USER) && Dashless(HOST);
    hide Touches, CanBeLeft, Named, PartTouches, Printed, HostName, HostAddress.HostOf;
    NameTouchesIff(prefix, profile, i, USER);
    NameTouchesIff(prefix, profile, i, HOST);
    LeftWithAddressIff(user, HostName(prefix, profile, i), subnet, i, rands, ints, days);
  }

  lemma UserHolds()
    ensures Contains(USER, "user")
  {
    hide Find;
    assert USER[2..6] == "user";
    assert OccursAt(USER, "user", 2);
    FindIsFirst(USER, "user");
  }

  /** A user called "user" is enough for `{{user}}`. */
  lemma UserCalledUser(host: string, subnet: HostAddress.Subnet, i: nat, rands: nat -> nat, ints: nat -> nat, days: nat -> nat)
    requires subnet.Parsed() && HostAddress.HostOf(subnet, i).Some?
    ensures CanBeLeft(USER, "user", host, Printed(HostAddress.HostOf(subnet, i).value), rands, ints, days)
  {
    UserHolds();
    hide Contains, CanBeLeft, Printed, HostAddress.HostOf;
    LeftWithAddressIff("user", host, subnet, i, rands, ints, days);
  }
}
