// What Python's strings take for white space and for digits, and the numbers `int` reads and
// `str` writes. Which characters are digits, beside the ASCII ones, depends on its Unicode
// tables, and is left open here but for one.
module PythonText {
  import opened Decimal

  /** `\d` and `int` take the decimal digits; `isdigit` also takes others, such as "²", on which `int` raises. */
  datatype Sort = NotADigit | DecimalDigit(value: nat) | OtherDigit

  /** What `strip` takes for white space. */
  predicate IsSpace(c: char) {
    || '\t' <= c <= '\r' || '\U{1c}' <= c <= ' ' || c == '\U{85}' || c == '\U{a0}' || c == '\U{1680}'
    || '\U{2000}' <= c <= '\U{200a}' || c in "\U{2028}\U{2029}\U{202f}\U{205f}\U{3000}"
  }

  /** The characters of the total line and of the two headings that are not ASCII. */
  predicate Printed(c: char) {
    c == '＝' || c == '件' || c == 'ジ' || c == 'ョ' || c == 'ブ'
  }

  /**
   * The ASCII digits are decimal, "²" is another digit, and no other ASCII character is a digit, nor white
   * space, nor any character of the total line and of the headings.
   */
  ghost predicate Conforms(t: char -> Sort) {
    && (forall c :: IsDigit(c) ==> t(c) == DecimalDigit(c as int - '0' as int)) && t('²') == OtherDigit
    && (forall c :: !IsDigit(c) && (c <= '\U{7f}' || IsSpace(c) || Printed(c)) ==> t(c) == NotADigit)
  }

  function Latin(c: char): Sort {
    if IsDigit(c) then DecimalDigit(c as int - '0' as int) else if c == '²' then OtherDigit else NotADigit
  }

  type DigitTable = t: char -> Sort | Conforms(t) witness Latin

  /** Any table at all. */
  const DIGITS: DigitTable

  predicate IsDecimal(c: char): (b: bool)
    ensures IsDigit(c) ==> b
    ensures b && !IsDigit(c) ==> c > '\U{7f}' && !Printed(c)
  {
    DIGITS(c).DecimalDigit?
  }

  /** `isdigit` on one character. */
  predicate IsNumeral(c: char): (b: bool)
    ensures IsDecimal(c) ==> b
    ensures b && !IsDigit(c) ==> c > '\U{7f}' && !Printed(c)
    ensures b ==> !IsSpace(c)
  {
    !DIGITS(c).NotADigit?
  }

  function ValueOf(c: char): (v: nat)
    requires IsDecimal(c)
    ensures IsDigit(c) ==> v == c as int - '0' as int
  {
    DIGITS(c).value
  }

  predicate AllDecimal(s: string) {
    s != "" && forall i :: 0 <= i < |s| ==> IsDecimal(s[i])
  }

  /** `isdigit`. */
  predicate AllNumerals(s: string) {
    s != "" && forall i :: 0 <= i < |s| ==> IsNumeral(s[i])
  }

  predicate NoDecimal(s: string) {
    forall i :: 0 <= i < |s| ==> !IsDecimal(s[i])
  }

  /** `int` on decimal digits. */
  function IntOf(s: string): nat
    requires forall i :: 0 <= i < |s| ==> IsDecimal(s[i])
  {
    if s == "" then 0
    else
      assert IsDecimal(s[|s| - 1]);
      10 * IntOf(s[..|s| - 1]) + ValueOf(s[|s| - 1])
  }

  lemma {:induction false} IntOfIs(s: string)
    requires forall i :: 0 <= i < |s| ==> IsDigit(s[i])
    ensures IntOf(s) == ParseNat(s)
  {
    if s != "" {
      assert IsDigit(s[|s| - 1]);
      IntOfIs(s[..|s| - 1]);
    }
  }

  /** `int` and `str` refuse numbers with more digits than this. */
  const LIMIT := 4300

  /** Written down, the number has no more digits than that. */
  predicate Short(n: int) {
    |Dec(if n < 0 then -n else n)| <= LIMIT
  }

  /** `int` takes these digits. */
  predicate IntReads(s: string) {
    AllDecimal(s) && |s| <= LIMIT
  }

  lemma {:induction false} DecGrows(m: nat, n: nat)
    requires m <= n
    ensures |Dec(m)| <= |Dec(n)|
  {
    if m >= 10 { DecGrows(m / 10, n / 10); }
  }

  lemma IntOfDec(n: nat)
    ensures AllDecimal(Dec(n)) && IntOf(Dec(n)) == n
  {
    IntOfIs(Dec(n));
    ParseDec(n);
  }
}
