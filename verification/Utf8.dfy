// UTF-8 as RFC 3629, section 3 gives it, and what is left of an encoded text that is cut off.
module Utf8 {

  predicate Ascii(s: string) {
    forall i :: 0 <= i < |s| ==> s[i] as int < 0x80
  }

  /** The bytes of one character. */
  function Enc(c: char): (bytes: seq<int>)
    ensures |bytes| > 0 && |bytes| == Width(bytes[0])
  {
    var n := c as int;
    var low, mid, high := n / 0x40, n / 0x40 / 0x40, n / 0x40 / 0x40 / 0x40;
    if n < 0x80 then [n]
    else if n < 0x800 then [0xC0 + low, 0x80 + n % 0x40]
    else if n < 0x1_0000 then [0xE0 + mid, 0x80 + low % 0x40, 0x80 + n % 0x40]
    else [0xF0 + high, 0x80 + mid % 0x40, 0x80 + low % 0x40, 0x80 + n % 0x40]
  }

  /** How many bytes the character has that starts with this one. */
  function Width(lead: int): (w: nat) {
    if lead < 0x80 then 1 else if lead < 0xE0 then 2 else if lead < 0xF0 then 3 else 4
  }

  function Encode(s: string): seq<int> {
    if s == "" then [] else Enc(s[0]) + Encode(s[1..])
  }

  ghost predicate Decodes(bytes: seq<int>) {
    exists s :: Encode(s) == bytes
  }

  lemma {:induction false} EncodeAppend(s: string, t: string)
    ensures Encode(s + t) == Encode(s) + Encode(t)
  {
    if s == "" {
      assert s + t == t;
    } else {
      assert (s + t)[1..] == s[1..] + t;
      EncodeAppend(s[1..], t);
    }
  }

  /** `b` is a byte that continues a character. */
  predicate Continues(b: int) {
    0x80 <= b < 0xC0
  }

  /** The bytes in the ranges of section 3 of RFC 3629, and the number they carry, in the shortest form that does. */
  lemma EncCarries(c: char)
    ensures var b, n := Enc(c), c as int;
            && (|b| == 1 ==> b[0] == n < 0x80)
            && (|b| == 2 ==> 0xC0 <= b[0] < 0xE0 && Continues(b[1]) && n == (b[0] - 0xC0) * 0x40 + (b[1] - 0x80) >= 0x80)
            && (|b| == 3 ==>
                  && 0xE0 <= b[0] < 0xF0 && Continues(b[1]) && Continues(b[2])
                  && n == (b[0] - 0xE0) * 0x1000 + (b[1] - 0x80) * 0x40 + (b[2] - 0x80) >= 0x800)
            && (|b| == 4 ==>
                  && 0xF0 <= b[0] < 0xF5 && Continues(b[1]) && Continues(b[2]) && Continues(b[3])
                  && n == (b[0] - 0xF0) * 0x4_0000 + (b[1] - 0x80) * 0x1000 + (b[2] - 0x80) * 0x40 + (b[3] - 0x80) >= 0x1_0000)
  {
  }

  lemma EncInjective(c: char, d: char)
    requires Enc(c) == Enc(d)
    ensures c == d
  {
    var n, m := c as int, d as int;
    if n >= 0x80 {
      assert n % 0x40 == m % 0x40;
      if n >= 0x800 {
        assert n / 0x40 % 0x40 == m / 0x40 % 0x40;
      }
    }
    assert n == m;
  }

  /** The first byte tells how far the first character goes, so what follows it is what follows it. */
  lemma FirstOff(s: string, bytes: seq<int>, t: string)
    requires s != "" && t != "" && Encode(t) == Enc(s[0]) + bytes
    ensures t[0] == s[0] && Encode(t[1..]) == bytes
  {
    assert Enc(t[0])[0] == Encode(t)[0] == Enc(s[0])[0];
    assert Enc(t[0]) == Encode(t)[..|Enc(t[0])|] == Enc(s[0]);
    EncInjective(t[0], s[0]);
    assert Encode(t[1..]) == Encode(t)[|Enc(t[0])|..];
  }

  /** A text followed by the first byte of a longer character is no text. */
  lemma {:induction false} CutDoesNotDecode(s: string, lead: int)
    requires Width(lead) > 1
    ensures !Decodes(Encode(s) + [lead])
  {
    forall t ensures Encode(t) != Encode(s) + [lead] {
      if Encode(t) == Encode(s) + [lead] {
        CutIsNoText(s, lead, t);
      }
    }
  }

  lemma {:induction false} CutIsNoText(s: string, lead: int, t: string)
    requires Width(lead) > 1
    ensures Encode(t) != Encode(s) + [lead]
  {
    if s == "" {
      if t != "" { assert Encode(t)[0] == Enc(t[0])[0]; }
    } else if Encode(t) == Encode(s) + [lead] {
      assert Encode(s) + [lead] == Enc(s[0]) + (Encode(s[1..]) + [lead]);
      FirstOff(s, Encode(s[1..]) + [lead], t);
      CutIsNoText(s[1..], lead, t[1..]);
    }
  }

  lemma {:induction false} AsciiPrefixDecodes(s: string, n: nat)
    requires Ascii(s) && n <= |Encode(s)|
    ensures |Encode(s)| == |s| && Encode(s)[..n] == Encode(s[..n])
  {
    if s != "" {
      AsciiPrefixDecodes(s[1..], if n == 0 then 0 else n - 1);
      if n > 0 { assert s[..n][1..] == s[1..][..n - 1]; }
    }
  }

  /** Some cut leaves bytes that do not decode exactly when the text holds a character that is not ASCII. */
  lemma CutIff(s: string)
    ensures (exists n :: 0 <= n <= |Encode(s)| && !Decodes(Encode(s)[..n])) <==> !Ascii(s)
  {
    if Ascii(s) {
      forall n | 0 <= n <= |Encode(s)| ensures Decodes(Encode(s)[..n]) { AsciiPrefixDecodes(s, n); }
    } else {
      var k :| 0 <= k < |s| && s[k] as int >= 0x80;
      hide Encode, Decodes;
      var n := CutInside(s, k);
    }
  }

  /** A cut after the first byte of a character that is not ASCII. */
  lemma CutInside(s: string, k: nat) returns (n: nat)
    requires k < |s| && s[k] as int >= 0x80
    ensures n <= |Encode(s)| && !Decodes(Encode(s)[..n])
  {
    var a, e, b := Encode(s[..k]), Enc(s[k]), Encode(s[k + 1..]);
    assert Width(e[0]) > 1;
    hide Enc, Width, Decodes;
    EncodeFirst(s[k..]);
    assert s[k..][1..] == s[k + 1..];
    hide Encode;
    EncodeAppend(s[..k], s[k..]);
    assert s == s[..k] + s[k..];
    n := |a| + 1;
    assert (a + (e + b))[..n] == a + [e[0]];
    CutDoesNotDecode(s[..k], e[0]);
  }

  /** Whatever decodes after a cut is a beginning of the text, and every beginning can be left. */
  lemma {:induction false} DecodedCutIsPrefix(s: string, t: string)
    ensures (exists n :: 0 <= n <= |Encode(s)| && Encode(t) == Encode(s)[..n]) <==> t <= s
  {
    if t <= s {
      assert s == t + s[|t|..];
      EncodeAppend(t, s[|t|..]);
      assert Encode(t) == Encode(s)[..|Encode(t)|];
    } else {
      forall n | 0 <= n <= |Encode(s)| ensures Encode(t) != Encode(s)[..n] {
        if Encode(t) == Encode(s)[..n] { CutIsPrefix(s, t, n); }
      }
    }
  }

  lemma {:induction false} CutIsPrefix(s: string, t: string, n: nat)
    requires n <= |Encode(s)| && Encode(t) == Encode(s)[..n]
    ensures t <= s
  {
    if t != "" {
      EncodeFirst(t);
      assert s != "";
      EncodeFirst(s);
      hide Encode, Enc, Width;
      var e, f := Enc(t[0]), Enc(s[0]);
      FrontOfCut(e, Encode(t[1..]), f, Encode(s[1..]), n);
      EncInjective(t[0], s[0]);
      CutIsPrefix(s[1..], t[1..], n - |e|);
    }
  }

  /** Two first characters that start with the same byte, in front of a cut. */
  lemma FrontOfCut(e: seq<int>, a: seq<int>, f: seq<int>, b: seq<int>, n: nat)
    requires e != [] && f != [] && (e[0] == f[0] ==> |e| == |f|) && n <= |f + b| && e + a == (f + b)[..n]
    ensures e == f && |e| <= n && n - |e| <= |b| && a == b[..n - |e|]
  {
    assert (e + a)[0] == e[0] && (f + b)[..n][0] == f[0];
    assert (e + a)[..|e|] == e && (f + b)[..n][..|e|] == (f + b)[..|e|] == f;
    assert (e + a)[|e|..] == a && (f + b)[..n][|e|..] == b[..n - |e|];
  }

  lemma EncodeFirst(s: string)
    requires s != ""
    ensures Encode(s) == Enc(s[0]) + Encode(s[1..])
    ensures Enc(s[0]) != [] && |Enc(s[0])| == Width(Enc(s[0])[0])
  {
  }
}
