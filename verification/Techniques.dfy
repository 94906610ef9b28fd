// ATT&CK technique ids (agent/cmd/attack-scorer/tactics.go); the table of tactics is any map.
module Techniques {
  import opened Decimal
  import opened GoStrings

  type Table = map<string, seq<string>>

  /** How far digits and dots go. */
  function Run(s: string): (n: nat)
    ensures n <= |s| && forall i :: 0 <= i < n ==> IsDigit(s[i]) || s[i] == '.'
    ensures n < |s| ==> !IsDigit(s[n]) && s[n] != '.'
  {
    if s != "" && (IsDigit(s[0]) || s[0] == '.') then
      assert forall i :: 1 <= i < |s| ==> s[i] == s[1..][i - 1];
      1 + Run(s[1..])
    else 0
  }

  function DropDots(s: string): (r: string)
    ensures r <= s && (r != "" ==> r[|r| - 1] != '.')
  {
    if s != "" && s[|s| - 1] == '.' then DropDots(s[..|s| - 1]) else s
  }

  predicate Starts(u: string) {
    |u| >= 2 && u[0] == 'T' && IsDigit(u[1])
  }

  /** The first technique id in an upper-case text. */
  function Scan(u: string): string {
    if Starts(u) then DropDots(u[..1 + Run(u[1..])])
    else if |u| < 2 then ""
    else Scan(u[1..])
  }

  function Canon(s: string): string {
    Upper(TrimSpace(s))
  }

  /** The inner loop of `extractTechnique`. */
  method EndOfRun(u: string, from: nat) returns (j: nat)
    requires from <= |u|
    ensures j == from + Run(u[from..]) && j <= |u|
  {
    j := from;
    while j < |u| && (IsDigit(u[j]) || u[j] == '.')
      invariant from <= j <= |u| && Run(u[from..]) == j - from + Run(u[j..])
    {
      assert u[j..][1..] == u[j + 1..];
      j := j + 1;
    }
  }

  /** `extractTechnique` */
  method ExtractTechnique(s: string) returns (t: string)
    ensures t == Scan(Canon(s))
  {
    hide Run, Canon, DropDots;
    var u := Canon(s);
    var i := 0;
    assert u[0..] == u;
    while i + 1 < |u|
      invariant 0 <= i <= |u| && Scan(u) == Scan(u[i..])
    {
      assert u[i..][1..] == u[i + 1..];
      if u[i] == 'T' && IsDigit(u[i + 1]) {
        var j := EndOfRun(u, i + 1);
        assert u[i..][..1 + Run(u[i + 1..])] == u[i..j];
        return DropDots(u[i..j]);
      }
      i := i + 1;
    }
    return "";
  }

  /** A technique id: 'T', a digit, digits and dots, the last character a digit. */
  predicate IsTechnique(t: string) {
    Starts(t) && Run(t[1..]) == |t| - 1 && IsDigit(t[|t| - 1])
  }

  lemma {:induction false} RunOfPrefix(s: string, k: nat)
    requires k <= Run(s)
    ensures Run(s[..k]) == k
  {
    if k > 0 {
      assert s[..k][1..] == s[1..][..k - 1];
      RunOfPrefix(s[1..], k - 1);
    }
  }

  lemma {:induction false} DropDotsKeeps(s: string)
    requires |s| >= 2 && s[1] != '.'
    ensures |DropDots(s)| >= 2
  {
    if s[|s| - 1] == '.' { DropDotsKeeps(s[..|s| - 1]); }
  }

  /** What is extracted is a technique id, or nothing. */
  lemma {:induction false} ScanIsTechnique(u: string)
    ensures Scan(u) == "" || IsTechnique(Scan(u))
  {
    if Starts(u) {
      var raw := u[..1 + Run(u[1..])];
      var t := DropDots(raw);
      assert Run(u[1..]) >= 1;
      DropDotsKeeps(raw);
      assert t == u[..|t|];
      assert t[1..] == u[1..][..|t| - 1];
      RunOfPrefix(u[1..], |t| - 1);
      var n := |t| - 1;
      assert t[n] == t[1..][n - 1];
    } else if |u| >= 2 {
      ScanIsTechnique(u[1..]);
    }
  }

  lemma {:induction false} UpperOfTechnique(t: string)
    requires forall i :: 0 <= i < |t| ==> t[i] == 'T' || IsDigit(t[i]) || t[i] == '.'
    ensures Upper(t) == t && TrimSpace(t) == t
  {
    forall i | 0 <= i < |t| ensures Upper(t)[i] == t[i] {}
    assert t != "" ==> !IsSpace(t[0]) && !IsSpace(t[|t| - 1]);
  }

  /** Extracting from a technique id gives it back, so extracting twice is extracting once. */
  lemma ExtractAgain(t: string)
    requires IsTechnique(t)
    ensures Canon(t) == t && Scan(t) == t
  {
    forall i | 0 <= i < |t| ensures t[i] == 'T' || IsDigit(t[i]) || t[i] == '.' {
      assert i > 0 ==> t[i] == t[1..][i - 1];
    }
    UpperOfTechnique(t);
    assert t[..|t|] == t;
  }

  /** The part before the first dot. */
  function BeforeDot(t: string): (r: string)
    ensures r <= t && '.' !in r
    ensures r == t || t[|r|] == '.'
  {
    if t == "" || t[0] == '.' then "" else [t[0]] + BeforeDot(t[1..])
  }

  /** `baseTechnique` */
  function BaseTechnique(t: string): string {
    BeforeDot(Canon(t))
  }

  /** `sameTechnique` */
  predicate SameTechnique(a: string, b: string) {
    var x, y := Canon(a), Canon(b);
    x != "" && y != "" &&
    (x == y || (BaseTechnique(x) == BaseTechnique(y) && (x == BaseTechnique(x) || y == BaseTechnique(y))))
  }

  lemma {:induction false} NoDotIsBase(t: string)
    ensures BeforeDot(t) == t <==> '.' !in t
  {
    if t != "" && t[0] != '.' { NoDotIsBase(t[1..]); }
  }

  lemma {:induction false} BaseOfBase(t: string)
    ensures BeforeDot(BeforeDot(t)) == BeforeDot(t)
  {
    NoDotIsBase(BeforeDot(t));
  }

  /** Of two technique ids, one is the same as the other exactly when they are equal or one is the base of the other. */
  lemma SameTechniqueIff(a: string, b: string)
    requires IsTechnique(a) && IsTechnique(b)
    ensures SameTechnique(a, b) <==> a == b || a == BeforeDot(b) || b == BeforeDot(a)
    ensures SameTechnique(a, b) <==> SameTechnique(b, a)
  {
    ExtractAgain(a);
    ExtractAgain(b);
    BaseOfBase(a);
    BaseOfBase(b);
  }

  /** Two sub-techniques of one technique are each the same as it, and not the same as each other. */
  lemma SameTechniqueIsNotTransitive()
    ensures SameTechnique("T1.1", "T1") && SameTechnique("T1", "T1.2") && !SameTechnique("T1.1", "T1.2")
  {
    assert "1.1"[1..] == ".1" && ".1"[1..] == "1" && "1"[1..] == "";
    assert "1.2"[1..] == ".2" && ".2"[1..] == "2" && "2"[1..] == "";
    assert "T1.1"[1..] == "1.1" && "T1"[1..] == "1" && "T1.2"[1..] == "1.2";
    assert Run("") == 0 && Run("1") == 1 && Run("2") == 1 && Run(".1") == 2 && Run(".2") == 2 && Run("1.1") == 3 && Run("1.2") == 3;
    SameTechniqueIff("T1.1", "T1");
    SameTechniqueIff("T1", "T1.2");
    SameTechniqueIff("T1.1", "T1.2");
    assert BeforeDot("1.1") == "1" && BeforeDot("1.2") == "1";
    assert BeforeDot("T1.1") == "T1" && BeforeDot("T1.2") == "T1";
  }

  /** `tacticsOf` */
  function TacticsOf(t: string, table: Table): seq<string> {
    var b := BaseTechnique(t);
    if b in table then table[b] else []
  }

  predicate HaveOneTacticInCommon(a: string, b: string, table: Table) {
    exists x :: x in TacticsOf(a, table) && x in TacticsOf(b, table)
  }

  /** `shareTactic` */
  method ShareTactic(a: string, b: string, table: Table) returns (r: bool)
    ensures r <==> HaveOneTacticInCommon(a, b, table)
  {
    var ta, tb := TacticsOf(a, table), TacticsOf(b, table);
    for i := 0 to |ta|
      invariant forall k :: 0 <= k < i ==> ta[k] !in tb
    {
      for j := 0 to |tb|
        invariant forall k :: 0 <= k < j ==> tb[k] != ta[i]
      {
        if ta[i] == tb[j] {
          assert ta[i] in TacticsOf(a, table) && ta[i] in TacticsOf(b, table);
          return true;
        }
      }
    }
    return false;
  }
}
