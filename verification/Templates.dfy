// Templates written from text and placeholders, and what `expand` makes of them
// (agent/cmd/fleet-sim/generate.go).
module Templates {
  import opened Common
  import opened Decimal
  import opened Expansion

  datatype Slot = User | Host | SrcIp | Rand | RandInt | Date

  datatype Piece = Plain(text: string) | Fill(slot: Slot)

  function Written(slot: Slot): string {
    match slot
    case User => "{{user}}" case Host => "{{host}}" case SrcIp => "{{srcip}}"
    case Rand => "{{rand}}" case RandInt => "{{randint}}" case Date => "{{date}}"
  }

  function PieceText(p: Piece): string {
    match p case Plain(text) => text case Fill(slot) => Written(slot)
  }

  function Template(ps: seq<Piece>): string {
    if ps == [] then "" else PieceText(ps[0]) + Template(ps[1..])
  }

  predicate Braceless(ps: seq<Piece>) {
    forall i :: 0 <= i < |ps| && ps[i].Plain? ==> NoBrace(ps[i].text)
  }

  /** What is filled in: the three texts of the host, and the texts that are drawn, the first of them first. */
  datatype Values = Values(user: string, host: string, srcIp: string, rands: nat -> nat, ints: nat -> nat, days: nat -> nat)

  /** The text of the next slot, after so many random numbers, small numbers and dates. */
  function ValueOf(slot: Slot, v: Values, r: nat, i: nat, d: nat): string {
    match slot
    case User => v.user
    case Host => v.host
    case SrcIp => v.srcIp
    case Rand => RandText(v.rands(r))
    case RandInt => IntText(v.ints(i))
    case Date => Dec(v.days(d))
  }

  /** The pieces one after the other, each slot with its text; every draw is used once. */
  function Filled(ps: seq<Piece>, v: Values, r: nat, i: nat, d: nat): string {
    if ps == [] then ""
    else
      match ps[0]
      case Plain(text) => text + Filled(ps[1..], v, r, i, d)
      case Fill(slot) =>
        ValueOf(slot, v, r, i, d) +
        Filled(ps[1..], v, if slot.Rand? then r + 1 else r, if slot.RandInt? then i + 1 else i, if slot.Date? then d + 1 else d)
  }

  // ── one pass ──────────────────────────────────────────────────────────────

  /** The pieces with the slots of one sort filled. */
  function FillIn(ps: seq<Piece>, slot: Slot, texts: Texts, k: nat): seq<Piece> {
    if ps == [] then []
    else if ps[0] == Fill(slot) then [Plain(texts(k))] + FillIn(ps[1..], slot, texts, k + 1)
    else [ps[0]] + FillIn(ps[1..], slot, texts, k)
  }

  lemma PassSkips(front: string, rest: string, pat: string, texts: Texts, k: nat)
    requires pat != "" && Clear(front, pat, rest)
    ensures Pass(front + rest, pat, texts, k) == front + Pass(rest, pat, texts, k)
  {
    hide Pass, Find, Clear;
    ContainedInRest(front, rest, pat);
    PassUnfolds(front + rest, pat, texts, k);
    PassUnfolds(rest, pat, texts, k);
    if Find(rest, pat).Some? {
      var i := Find(rest, pat).value;
      SlicesOfJoin(front, rest, i, |pat|);
      Associates(front, rest[..i], texts(k), Pass(rest[i + |pat|..], pat, texts, k + 1));
    }
  }

  lemma PassTakes(rest: string, pat: string, texts: Texts, k: nat)
    requires pat != ""
    ensures Pass(pat + rest, pat, texts, k) == texts(k) + Pass(rest, pat, texts, k + 1)
  {
    assert Find(pat + rest, pat) == Some(0);
    assert (pat + rest)[..0] == "" && (pat + rest)[0 + |pat|..] == rest;
    assert "" + texts(k) == texts(k);
  }

  lemma PlainIsClear(text: string, pat: string, rest: string)
    requires NoBrace(text) && Placeholder(pat)
    ensures Clear(text, pat, rest)
  {
    forall i | OccursAt(text + rest, pat, i) ensures i >= |text| {
      OccursChar(text + rest, pat, i, 0);
    }
  }

  /** Two slots differ in their third or their seventh character. */
  lemma SlotsDiffer(slot: Slot, other: Slot)
    ensures |Written(slot)| >= 8 && (slot != other ==> Written(slot)[2] != Written(other)[2] || Written(slot)[6] != Written(other)[6])
  {
  }

  /** In a slot no second one is opened. */
  lemma OpensOnce(slot: Slot, i: nat)
    requires 0 < i < |Written(slot)|
    ensures var k := if i == 1 then 2 else i; k < |Written(slot)| && Written(slot)[k] != '{'
  {
  }

  lemma NoneWithin(slot: Slot, other: Slot, rest: string, i: nat)
    requires slot != other && i < |Written(slot)|
    ensures !OccursAt(Written(slot) + rest, Written(other), i)
  {
    var s, pat := Written(slot) + rest, Written(other);
    WrittenIsPlaceholder(other);
    SlotsDiffer(slot, other);
    SlotsDiffer(other, slot);
    if i > 0 { OpensOnce(slot, i); }
    hide Written, OccursAt;
    if OccursAt(s, pat, i) {
      OccursChar(s, pat, i, if i == 1 then 1 else if i > 1 then 0 else if s[2] != pat[2] then 2 else 6);
      assert false;
    }
  }

  /** No slot begins within another. */
  lemma SlotIsClear(slot: Slot, other: Slot, rest: string)
    requires slot != other
    ensures Clear(Written(slot), Written(other), rest)
  {
    hide Written, OccursAt;
    forall i | OccursAt(Written(slot) + rest, Written(other), i) ensures i >= |Written(slot)| {
      if i < |Written(slot)| && i >= 0 { NoneWithin(slot, other, rest, i); }
      InText(Written(slot) + rest, Written(other), i);
    }
  }

  lemma InText(s: string, pat: string, i: int)
    requires OccursAt(s, pat, i)
    ensures i >= 0
  {
  }

  lemma WrittenIsPlaceholder(slot: Slot)
    ensures Placeholder(Written(slot))
  {
  }

  /** A pass fills the slots of its sort, and touches nothing else. */
  lemma {:induction false} PassFills(ps: seq<Piece>, slot: Slot, texts: Texts, k: nat)
    requires Braceless(ps)
    ensures Pass(Template(ps), Written(slot), texts, k) == Template(FillIn(ps, slot, texts, k))
  {
    hide Pass, Written, Clear, NoBrace;
    var pat := Written(slot);
    WrittenIsPlaceholder(slot);
    if ps == [] {
      PassUnfolds("", pat, texts, k);
      NothingInNothing(pat);
    } else {
      var rest := Template(ps[1..]);
      assert Braceless(ps[1..]);
      if ps[0] == Fill(slot) {
        PassTakes(rest, pat, texts, k);
        PassFills(ps[1..], slot, texts, k + 1);
        HeadFirst(Plain(texts(k)), FillIn(ps[1..], slot, texts, k + 1));
      } else {
        if ps[0].Plain? { PlainIsClear(ps[0].text, pat, rest); } else { SlotIsClear(ps[0].slot, slot, rest); }
        PassSkips(PieceText(ps[0]), rest, pat, texts, k);
        PassFills(ps[1..], slot, texts, k);
        HeadFirst(ps[0], FillIn(ps[1..], slot, texts, k));
      }
    }
  }

  lemma NothingInNothing(pat: string)
    requires pat != ""
    ensures Find("", pat) == None
  {
  }

  lemma HeadFirst(p: Piece, ps: seq<Piece>)
    ensures Template([p] + ps) == PieceText(p) + Template(ps)
  {
    assert ([p] + ps)[1..] == ps;
  }

  ghost predicate AllBraceless(texts: Texts) {
    forall n: nat :: NoBrace(texts(n))
  }

  lemma {:induction false} FillInIsBraceless(ps: seq<Piece>, slot: Slot, texts: Texts, k: nat)
    requires Braceless(ps) && AllBraceless(texts)
    ensures Braceless(FillIn(ps, slot, texts, k))
  {
    hide NoBrace;
    if ps != [] {
      assert Braceless(ps[1..]);
      FillInIsBraceless(ps[1..], slot, texts, if ps[0] == Fill(slot) then k + 1 else k);
    }
  }

  // ── all passes ────────────────────────────────────────────────────────────

  /** The six passes, on pieces: three that know what to fill in, three that draw it. */
  function KnownIn(ps: seq<Piece>, v: Values): seq<Piece> {
    FillIn(FillIn(FillIn(ps, User, Constant(v.user), 0), Host, Constant(v.host), 0), SrcIp, Constant(v.srcIp), 0)
  }

  function DrawnIn(ps: seq<Piece>, v: Values, r: nat, i: nat, d: nat): seq<Piece> {
    FillIn(FillIn(FillIn(ps, Rand, Hexes(v.rands), r), RandInt, Ints(v.ints), i), Date, Dates(v.days), d)
  }

  lemma FillInFirst(p: Piece, ps: seq<Piece>, slot: Slot, texts: Texts, k: nat)
    ensures FillIn([p] + ps, slot, texts, k) ==
              if p == Fill(slot) then [Plain(texts(k))] + FillIn(ps, slot, texts, k + 1) else [p] + FillIn(ps, slot, texts, k)
  {
    assert ([p] + ps)[1..] == ps;
  }

  lemma {:induction false} ConstantFrom(ps: seq<Piece>, slot: Slot, text: string, k: nat)
    ensures FillIn(ps, slot, Constant(text), k) == FillIn(ps, slot, Constant(text), 0)
  {
    if ps != [] {
      ConstantFrom(ps[1..], slot, text, k);
      ConstantFrom(ps[1..], slot, text, k + 1);
      ConstantFrom(ps[1..], slot, text, 1);
    }
  }

  function Known(p: Piece, v: Values): Piece {
    match p
    case Fill(User) => Plain(v.user)
    case Fill(Host) => Plain(v.host)
    case Fill(SrcIp) => Plain(v.srcIp)
    case _ => p
  }

  lemma ConstantFirst(p: Piece, ps: seq<Piece>, slot: Slot, text: string)
    ensures FillIn([p] + ps, slot, Constant(text), 0) == [if p == Fill(slot) then Plain(text) else p] + FillIn(ps, slot, Constant(text), 0)
  {
    hide FillIn;
    FillInFirst(p, ps, slot, Constant(text), 0);
    ConstantFrom(ps, slot, text, 1);
  }

  lemma KnownFirst(p: Piece, ps: seq<Piece>, v: Values)
    ensures KnownIn([p] + ps, v) == [Known(p, v)] + KnownIn(ps, v)
  {
    hide FillIn;
    var p1 := if p == Fill(User) then Plain(v.user) else p;
    var p2 := if p1 == Fill(Host) then Plain(v.host) else p1;
    var ps1 := FillIn(ps, User, Constant(v.user), 0);
    ConstantFirst(p, ps, User, v.user);
    ConstantFirst(p1, ps1, Host, v.host);
    ConstantFirst(p2, FillIn(ps1, Host, Constant(v.host), 0), SrcIp, v.srcIp);
  }

  lemma DrawnFirst(p: Piece, ps: seq<Piece>, v: Values, r: nat, i: nat, d: nat)
    requires p.Fill? ==> p.slot.Rand? || p.slot.RandInt? || p.slot.Date?
    ensures DrawnIn([p] + ps, v, r, i, d) ==
              match p
              case Plain(text) => [p] + DrawnIn(ps, v, r, i, d)
              case Fill(slot) =>
                [Plain(ValueOf(slot, v, r, i, d))] +
                DrawnIn(ps, v, if slot.Rand? then r + 1 else r, if slot.RandInt? then i + 1 else i, if slot.Date? then d + 1 else d)
  {
    DrawnTexts(v, r, i, d);
    hide FillIn, Hexes, Ints, Dates, ValueOf;
    var a, b, c := Hexes(v.rands), Ints(v.ints), Dates(v.days);
    var p1 := if p == Fill(Rand) then Plain(a(r)) else p;
    var p2 := if p1 == Fill(RandInt) then Plain(b(i)) else p1;
    var r', i' := if p == Fill(Rand) then r + 1 else r, if p1 == Fill(RandInt) then i + 1 else i;
    var ps1 := FillIn(ps, Rand, a, r');
    FillInFirst(p, ps, Rand, a, r);
    FillInFirst(p1, ps1, RandInt, b, i);
    FillInFirst(p2, FillIn(ps1, RandInt, b, i'), Date, c, d);
  }

  lemma DrawnTexts(v: Values, r: nat, i: nat, d: nat)
    ensures Hexes(v.rands)(r) == ValueOf(Rand, v, r, i, d) && Ints(v.ints)(i) == ValueOf(RandInt, v, r, i, d)
    ensures Dates(v.days)(d) == ValueOf(Date, v, r, i, d)
  {
    hide RandText, IntText, Dec;
  }

  lemma KnownIsValue(slot: Slot, v: Values, r: nat, i: nat, d: nat)
    ensures Known(Fill(slot), v) ==
            if slot.Rand? || slot.RandInt? || slot.Date? then Fill(slot) else Plain(ValueOf(slot, v, r, i, d))
  {
  }

  lemma {:induction false} AllInIsFilled(ps: seq<Piece>, v: Values, r: nat, i: nat, d: nat)
    ensures Template(DrawnIn(KnownIn(ps, v), v, r, i, d)) == Filled(ps, v, r, i, d)
  {
    hide KnownIn, DrawnIn, Known, ValueOf, Template;
    if ps == [] {
      NoneToFill(v, r, i, d);
    } else {
      var p, more := ps[0], KnownIn(ps[1..], v);
      assert ps == [p] + ps[1..];
      KnownFirst(p, ps[1..], v);
      DrawnFirst(Known(p, v), more, v, r, i, d) by { KnownIsDrawn(p, v); }
      match p {
        case Plain(text) =>
          KnownIsDrawn(p, v);
          AllInIsFilled(ps[1..], v, r, i, d);
          HeadFirst(p, DrawnIn(more, v, r, i, d));
        case Fill(slot) =>
          var r', i', d' := if slot.Rand? then r + 1 else r, if slot.RandInt? then i + 1 else i, if slot.Date? then d + 1 else d;
          KnownIsValue(slot, v, r, i, d);
          AllInIsFilled(ps[1..], v, r', i', d');
          HeadFirst(Plain(ValueOf(slot, v, r, i, d)), DrawnIn(more, v, r', i', d'));
      }
    }
  }

  lemma KnownIsDrawn(p: Piece, v: Values)
    ensures Known(p, v).Fill? ==> var slot := Known(p, v).slot; slot.Rand? || slot.RandInt? || slot.Date?
    ensures p.Plain? ==> Known(p, v) == p
  {
  }

  lemma NoneToFill(v: Values, r: nat, i: nat, d: nat)
    ensures Template(DrawnIn(KnownIn([], v), v, r, i, d)) == ""
  {
  }

  lemma DigitsAreBraceless(s: string)
    requires forall i :: 0 <= i < |s| ==> IsHexDigit(s[i])
    ensures NoBrace(s)
  {
  }

  lemma DrawnAreBraceless(v: Values)
    ensures AllBraceless(Hexes(v.rands)) && AllBraceless(Ints(v.ints)) && AllBraceless(Dates(v.days))
  {
    hide NoBrace;
    forall n: nat ensures NoBrace(Hexes(v.rands)(n)) { DigitsAreBraceless(RandText(v.rands(n))); }
    forall n: nat ensures NoBrace(Ints(v.ints)(n)) { DigitsAreBraceless(IntText(v.ints(n))); }
    forall n: nat ensures NoBrace(Dates(v.days)(n)) { DigitsAreBraceless(Dec(v.days(n))); }
  }

  /**
   * Of a template of braceless texts and slots, for a host whose texts have no braces, `expand` makes the same texts
   * with each slot filled: by its own value, and by each draw once, in the order of the slots.
   */
  lemma TemplateIsFilled(ps: seq<Piece>, v: Values)
    requires Braceless(ps) && NoBrace(v.user) && NoBrace(v.host) && NoBrace(v.srcIp)
    ensures Expanded(Template(ps), v.user, v.host, v.srcIp, v.rands, v.ints, v.days) == Filled(ps, v, 0, 0, 0)
  {
    DrawnAreBraceless(v);
    assert USER == Written(User) && HOST == Written(Host) && SRCIP == Written(SrcIp);
    assert RAND == Written(Rand) && RANDINT == Written(RandInt) && DATE == Written(Date);
    assert AllBraceless(Constant(v.user)) && AllBraceless(Constant(v.host)) && AllBraceless(Constant(v.srcIp));
    hide Pass, Written, FillIn, Filled, Template, Braceless, AllBraceless, NoBrace;
    var a, b, c := Constant(v.user), Constant(v.host), Constant(v.srcIp);
    var ps1 := FillIn(ps, User, a, 0);
    var ps2 := FillIn(ps1, Host, b, 0);
    var ps3 := FillIn(ps2, SrcIp, c, 0);
    var ps4 := FillIn(ps3, Rand, Hexes(v.rands), 0);
    var ps5 := FillIn(ps4, RandInt, Ints(v.ints), 0);
    PassFills(ps, User, a, 0);
    FillInIsBraceless(ps, User, a, 0);
    PassFills(ps1, Host, b, 0);
    FillInIsBraceless(ps1, Host, b, 0);
    PassFills(ps2, SrcIp, c, 0);
    FillInIsBraceless(ps2, SrcIp, c, 0);
    PassFills(ps3, Rand, Hexes(v.rands), 0);
    FillInIsBraceless(ps3, Rand, Hexes(v.rands), 0);
    PassFills(ps4, RandInt, Ints(v.ints), 0);
    FillInIsBraceless(ps4, RandInt, Ints(v.ints), 0);
    PassFills(ps5, Date, Dates(v.days), 0);
    AllInIsFilled(ps, v, 0, 0, 0);
  }

  // ── hexadecimal digits ────────────────────────────────────────────────────

  function HexValue(c: char): nat
    requires IsHexDigit(c)
  {
    if c <= '9' then c as int - '0' as int else c as int - 'a' as int + 10
  }

  function ReadHex(s: string): nat
    requires forall i :: 0 <= i < |s| ==> IsHexDigit(s[i])
  {
    if s == "" then 0
    else
      assert IsHexDigit(s[|s| - 1]);
      16 * ReadHex(s[..|s| - 1]) + HexValue(s[|s| - 1])
  }

  function Power16(n: nat): nat {
    if n == 0 then 1 else 16 * Power16(n - 1)
  }

  /** The digits written are those of the number, which fits them. */
  lemma {:induction false} HexReads(n: nat, width: nat)
    requires n < Power16(width)
    ensures ReadHex(Hex(n, width)) == n
  {
    if width > 0 {
      HexReads(n / 16, width - 1);
      var s := Hex(n, width);
      assert s[..|s| - 1] == Hex(n / 16, width - 1) && s[|s| - 1] == HexDigit(n % 16);
    }
  }

  /** What is filled in for the draws, read as numbers: 32 bits, and from 1 to 99999. */
  lemma DrawsRead(n: nat)
    ensures |RandText(n)| == 8 && ReadHex(RandText(n)) == n % 0x1_0000_0000
    ensures ParseNat(IntText(n)) == n % 99999 + 1
  {
    assert Power16(4) == 0x1_0000 && Power16(8) == 16 * (16 * (16 * (16 * Power16(4))));
    hide Hex, ReadHex, Dec, ParseNat;
    HexReads(n % 0x1_0000_0000, 8);
    ParseDec(n % 99999 + 1);
  }
}
