// What reading and writing a source file in text mode does to its contents
// (scripts/mutate.py, `_read` and `_write`).
module SourceText {
  import opened Utf8

  /** A file on disk: bytes that decode as UTF-8, kept as the text they stand for, or bytes that do not. */
  datatype Content = Text(text: string) | Undecodable(bytes: seq<int>)

  /** Universal-newlines reading: "\r\n" and a lone "\r" both become "\n". */
  function Universal(s: string): string {
    if s == "" then ""
    else if s[0] != '\r' then [s[0]] + Universal(s[1..])
    else if |s| > 1 && s[1] == '\n' then "\n" + Universal(s[2..])
    else "\n" + Universal(s[1..])
  }

  lemma {:induction false} UniversalHasNoCarriageReturn(s: string)
    ensures '\r' !in Universal(s)
  {
    if s == "" {
    } else if s[0] != '\r' {
      UniversalHasNoCarriageReturn(s[1..]);
    } else if |s| > 1 && s[1] == '\n' {
      UniversalHasNoCarriageReturn(s[2..]);
    } else {
      UniversalHasNoCarriageReturn(s[1..]);
    }
  }

  /** Reading changes a text exactly when it holds a carriage return. */
  lemma {:induction false} UniversalFixedIff(s: string)
    ensures Universal(s) == s <==> '\r' !in s
  {
    if s == "" {
    } else if '\r' in s {
      UniversalHasNoCarriageReturn(s);
    } else {
      UniversalFixedIff(s[1..]);
    }
  }

  /** Reading goes piece by piece, if no "\r\n" is cut in two. */
  lemma {:induction false} UniversalAppend(a: string, b: string)
    requires a != "" && b != "" ==> !(a[|a| - 1] == '\r' && b[0] == '\n')
    ensures Universal(a + b) == Universal(a) + Universal(b)
  {
    if a == "" || b == "" {
      assert a + b == a || a + b == b;
    } else {
      var n := if a[0] == '\r' && |a| > 1 && a[1] == '\n' then 2 else 1;
      var t := a[n..];
      assert (a + b)[n..] == t + b && (a + b)[0] == a[0];
      var first := if a[0] == '\r' then "\n" else [a[0]];
      assert Universal(a) == first + Universal(t);
      assert Universal(a + b) == first + Universal(t + b);
      hide Universal;
      UniversalAppend(t, b);
    }
  }

  /**
   * Wherever they stand, "\r\n" reads as "\n", and so does a "\r" that no "\n" follows.
   * With `UniversalFixedIff` this says what every text reads as.
   */
  lemma LineEndsReadAlike(a: string, b: string)
    ensures Universal(a + "\r\n" + b) == Universal(a) + "\n" + Universal(b)
    ensures !("\n" <= b) ==> Universal(a + "\r" + b) == Universal(a) + "\n" + Universal(b)
  {
    assert Universal("\r\n") == Universal("\r") == "\n";
    hide Universal;
    UniversalAppend(a, "\r\n");
    UniversalAppend(a + "\r\n", b);
    if !("\n" <= b) {
      UniversalAppend(a, "\r");
      UniversalAppend(a + "\r", b);
    }
  }

  lemma UniversalIdempotent(s: string)
    ensures Universal(Universal(s)) == Universal(s)
  {
    UniversalHasNoCarriageReturn(s);
    UniversalFixedIff(Universal(s));
  }

  /** `c` is content the harness cannot tell from `o`: the same bytes, or text that reads the same. */
  predicate Same(o: Content, c: Content) {
    c == o || (o.Text? && c.Text? && Universal(c.text) == Universal(o.text))
  }

  /** Reading alike is being equal, once neither text holds a carriage return. */
  lemma SameIsEqual(o: Content, c: Content)
    requires Same(o, c)
    requires o.Text? ==> '\r' !in o.text && '\r' !in c.text
    ensures c == o
  {
    if o.Text? {
      UniversalFixedIff(o.text);
      UniversalFixedIff(c.text);
    }
  }

  /** A text read and written back is `Same`, and is the same bytes exactly when it had no carriage return. */
  lemma WrittenBack(text: string)
    ensures Same(Text(text), Text(Universal(text)))
    ensures Text(Universal(text)) == Text(text) <==> '\r' !in text
  {
    UniversalIdempotent(text);
    UniversalFixedIff(text);
  }

  // ── what a killed write leaves ────────────────────────────────────────────

  /** `c` is the file that holds these bytes. */
  ghost predicate Holds(c: Content, bytes: seq<int>) {
    match c
    case Text(text) => Encode(text) == bytes
    case Undecodable(b) => b == bytes && !Decodes(bytes)
  }

  /** The file was emptied when it was opened, and some first bytes of the text have reached it. */
  ghost predicate LeftBy(text: string, c: Content) {
    exists n :: 0 <= n <= |Encode(text)| && Holds(c, Encode(text)[..n])
  }

  /** Where what is left decodes it is a beginning of the text, and it can be any. */
  lemma TextLeftIff(text: string, t: string)
    ensures LeftBy(text, Text(t)) <==> t <= text
  {
    DecodedCutIsPrefix(text, t);
    if t <= text {
      var n :| 0 <= n <= |Encode(text)| && Encode(t) == Encode(text)[..n];
      assert Holds(Text(t), Encode(text)[..n]);
    }
  }

  /** What is left may fail to decode exactly when the text holds a character that is not ASCII. */
  lemma UndecodableLeftIff(text: string)
    ensures (exists c :: LeftBy(text, c) && c.Undecodable?) <==> !Ascii(text)
  {
    CutIff(text);
    if c :| LeftBy(text, c) && c.Undecodable? {
      var n :| 0 <= n <= |Encode(text)| && Holds(c, Encode(text)[..n]);
      assert !Decodes(Encode(text)[..n]);
    }
    if !Ascii(text) {
      var n :| 0 <= n <= |Encode(text)| && !Decodes(Encode(text)[..n]);
      var c := Undecodable(Encode(text)[..n]);
      assert Holds(c, Encode(text)[..n]);
      assert LeftBy(text, c);
    }
  }
}
