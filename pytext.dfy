/**
 * The pieces of Python's text semantics the launcher relies on:
 * `str.isspace` / `str.strip()` (used by the add dialog to reject a blank
 * name), `int(text)` for base-10 text (used to read a delay cell), which
 * ignores a narrower set of surrounding whitespace, and `str(n)` for an
 * integer (used to write one).
 */
module PyText {
  import opened Wrappers

  /** The characters Python's `str.isspace()` accepts, hence the ones `strip()` removes. */
  predicate IsSpace(c: char) {
    || c == ' ' || c == '\t' || c == '\n' || c == '\r'
    || c == '\U{000B}' || c == '\U{000C}'
    || ('\U{001C}' <= c <= '\U{001F}')
    || c == '\U{0085}' || c == '\U{00A0}' || c == '\U{1680}'
    || ('\U{2000}' <= c <= '\U{200A}')
    || c == '\U{2028}' || c == '\U{2029}' || c == '\U{202F}' || c == '\U{205F}' || c == '\U{3000}'
  }

  /**
   * The whitespace `int()` ignores around its digits: below U+0080 only
   * space, tab, newline, vertical tab, form feed and carriage return (the
   * separators U+001C to U+001F are not among them); above it, whatever
   * `str.isspace()` accepts.
   */
  predicate IsIntSpace(c: char) {
    if c < '\U{0080}' then
      c == ' ' || c == '\t' || c == '\n' || c == '\r' || c == '\U{000B}' || c == '\U{000C}'
    else IsSpace(c)
  }

  /** Which whitespace a trim removes: that of `str.strip()` or that of `int()`. */
  datatype Whitespace = StrSpace | IntSpace

  predicate Trimmed(ws: Whitespace, c: char) {
    if ws == StrSpace then IsSpace(c) else IsIntSpace(c)
  }

  /** Every character `int()` ignores is one `strip()` removes, and the separators U+001C to U+001F are the only others. */
  lemma IntSpaceIsSpace(c: char)
    ensures IsIntSpace(c) <==> IsSpace(c) && !('\U{001C}' <= c <= '\U{001F}')
  {
  }

  /** What is left of `s` after its leading `ws` whitespace; `s.lstrip()` for `StrSpace`. */
  function StripStart(s: string, ws: Whitespace): (r: string)
    ensures |r| <= |s| && r == s[|s| - |r|..]
    ensures forall j :: 0 <= j < |s| - |r| ==> Trimmed(ws, s[j])
    ensures r != [] ==> !Trimmed(ws, r[0])
  {
    if |s| > 0 && Trimmed(ws, s[0]) then
      var r := StripStart(s[1..], ws);
      assert forall j :: 1 <= j < |s| - |r| ==> s[j] == s[1..][j - 1];
      r
    else s
  }

  /** What is left of `s` before its trailing `ws` whitespace; `s.rstrip()` for `StrSpace`. */
  function StripEnd(s: string, ws: Whitespace): (r: string)
    ensures |r| <= |s| && r == s[..|r|]
    ensures forall j :: |r| <= j < |s| ==> Trimmed(ws, s[j])
    ensures r != [] ==> !Trimmed(ws, r[|r| - 1])
  {
    if |s| > 0 && Trimmed(ws, s[|s| - 1]) then StripEnd(s[..|s| - 1], ws) else s
  }

  /** `s` without its surrounding `ws` whitespace; `s.strip()` for `StrSpace`. */
  function Strip(s: string, ws: Whitespace): string {
    StripEnd(StripStart(s, ws), ws)
  }

  /** `not s.strip()`: the test the add dialog applies to a program name. */
  predicate IsBlank(s: string) {
    Strip(s, StrSpace) == []
  }

  /** A string of whitespace only loses all of it to `lstrip()`. */
  lemma {:induction false} AllSpaceStripsStart(s: string)
    requires forall j :: 0 <= j < |s| ==> IsSpace(s[j])
    ensures StripStart(s, StrSpace) == []
  {
    if s != [] {
      AllSpaceStripsStart(s[1..]);
    }
  }

  /** A string strips to nothing exactly when every character is whitespace. */
  lemma BlankIffAllSpace(s: string)
    ensures IsBlank(s) <==> forall j :: 0 <= j < |s| ==> IsSpace(s[j])
  {
    if forall j :: 0 <= j < |s| ==> IsSpace(s[j]) {
      AllSpaceStripsStart(s);
    } else {
      var t := StripStart(s, StrSpace);
      var j :| 0 <= j < |s| && !IsSpace(s[j]);
      assert |s| - |t| <= j;
      assert t != [] && !IsSpace(t[0]);
    }
  }

  /** Stripping leaves a string alone when it neither starts nor ends with a stripped character. */
  lemma StripUnspaced(s: string, ws: Whitespace)
    requires s != [] && !Trimmed(ws, s[0]) && !Trimmed(ws, s[|s| - 1])
    ensures Strip(s, ws) == s
  {
    assert StripStart(s, ws) == s;
  }

  predicate IsDigit(c: char) {
    '0' <= c <= '9'
  }

  function DigitValue(c: char): nat
    requires IsDigit(c)
  {
    (c as int) - ('0' as int)
  }

  function DigitChar(d: nat): (c: char)
    requires d < 10
    ensures IsDigit(c) && DigitValue(c) == d
  {
    ('0' as int + d) as char
  }

  /**
   * The digit part of a base-10 integer literal as `int()` accepts it:
   * ASCII digits, where a single underscore may separate two digits.
   */
  predicate IsDigitGroup(b: string) {
    && |b| > 0
    && IsDigit(b[0]) && IsDigit(b[|b| - 1])
    && (forall j :: 0 <= j < |b| ==> IsDigit(b[j]) || b[j] == '_')
    && (forall j :: 0 <= j < |b| - 1 ==> !(b[j] == '_' && b[j + 1] == '_'))
  }

  /** The number the digits of `b` spell, underscores ignored. */
  function DigitsValue(b: string): nat
    requires forall j :: 0 <= j < |b| ==> IsDigit(b[j]) || b[j] == '_'
  {
    if b == [] then 0
    else if b[|b| - 1] == '_' then DigitsValue(b[..|b| - 1])
    else DigitsValue(b[..|b| - 1]) * 10 + DigitValue(b[|b| - 1])
  }

  /**
   * `int(s)` for a `str` argument: surrounding `IsIntSpace` whitespace is
   * ignored, one optional sign, then a digit group. `None` stands for the
   * `ValueError`.
   */
  function ParseInt(s: string): Option<int> {
    var t := Strip(s, IntSpace);
    if |t| > 0 && (t[0] == '-' || t[0] == '+') then
      var b := t[1..];
      if IsDigitGroup(b) then Some(if t[0] == '-' then 0 - DigitsValue(b) else DigitsValue(b) as int) else None
    else if IsDigitGroup(t) then Some(DigitsValue(t))
    else None
  }

  /** `str(0)` is "0". */
  lemma ZeroText()
    ensures IntToString(0) == "0"
  {
    assert NatToString(0) == [DigitChar(0)];
  }

  /** `str(n)` for `n >= 0`: decimal digits without leading zeros. */
  function NatToString(n: nat): string
    decreases n
  {
    if n < 10 then [DigitChar(n)] else NatToString(n / 10) + [DigitChar(n % 10)]
  }

  /** `str(i)` for any integer. */
  function IntToString(i: int): string {
    if i < 0 then "-" + NatToString(-i) else NatToString(i)
  }

  /** The decimal text of `n` is a digit group without underscores that spells `n`, with no leading zero. */
  lemma {:induction false} NatToStringSpells(n: nat)
    ensures var r := NatToString(n);
      && IsDigitGroup(r)
      && (forall j :: 0 <= j < |r| ==> IsDigit(r[j]))
      && DigitsValue(r) == n
      && (r[0] == '0' ==> n == 0)
    decreases n
  {
    if n >= 10 {
      var p := NatToString(n / 10);
      NatToStringSpells(n / 10);
      var r := p + [DigitChar(n % 10)];
      assert r[..|r| - 1] == p;
      assert r[0] == p[0];
    }
  }

  /** No ASCII digit is whitespace to `int()`. */
  lemma DigitIsNotSpace(c: char)
    requires IsDigit(c)
    ensures !IsIntSpace(c)
  {
  }

  /** An unsigned digit group with no surrounding whitespace parses as the number it spells. */
  lemma ParseDigitGroup(d: string)
    requires IsDigitGroup(d)
    ensures ParseInt(d) == Some(DigitsValue(d) as int)
    ensures ParseInt("-" + d) == Some(0 - DigitsValue(d))
  {
    DigitIsNotSpace(d[0]);
    DigitIsNotSpace(d[|d| - 1]);
    StripUnspaced(d, IntSpace);
    var s := "-" + d;
    assert s[1..] == d && s[|s| - 1] == d[|d| - 1];
    StripUnspaced(s, IntSpace);
  }

  /** `int(str(i)) == i`: parsing the text `str` writes gives the number back. */
  lemma ParseIntToString(i: int)
    ensures ParseInt(IntToString(i)) == Some(i)
  {
    var m: nat := if i < 0 then -i else i;
    var d := NatToString(m);
    NatToStringSpells(m);
    assert IsDigitGroup(d) && DigitsValue(d) == m;
    ParseDigitGroup(d);
    if i < 0 {
      assert IntToString(i) == "-" + d;
      assert ParseInt("-" + d) == Some(i);
    } else {
      assert IntToString(i) == d;
      assert ParseInt(d) == Some(i);
    }
  }

  /** `str` is injective on integers. */
  lemma IntToStringInjective(i: int, k: int)
    requires IntToString(i) == IntToString(k)
    ensures i == k
  {
    ParseIntToString(i);
    ParseIntToString(k);
  }

  /** U+001C is whitespace to `strip()`, so a name made of it is blank. */
  lemma SeparatorIsBlank()
    ensures IsBlank("\U{001C}")
  {
    AllSpaceStripsStart("\U{001C}");
  }

  /** U+001C is not whitespace to `int()`, so a delay text that starts with it is not a number. */
  lemma SeparatorIsNotIntSpace()
    ensures ParseInt("\U{001C}5") == None
  {
    var u := "\U{001C}5";
    SeparatorKept(u);
    assert !IsDigit(u[0]);
  }

  /** `int()` trims nothing from a text that starts with U+001C and ends in a digit. */
  lemma SeparatorKept(u: string)
    requires |u| >= 2 && u[0] == '\U{001C}' && IsDigit(u[|u| - 1])
    ensures Strip(u, IntSpace) == u
  {
    StripUnspaced(u, IntSpace);
  }
}
