/**
 * The Python string built-ins the program relies on: str.strip(), int() on a
 * string, and str() on a non-negative int (how csv.writer renders the ids).
 */
module PyText {
  import opened Wrappers

  /** Python's str.isspace() for one character. */
  predicate IsSpace(c: char) {
    || ('\t' <= c <= '\r')
    || ('\U{1C}' <= c <= '\U{1F}')
    || c == ' '
    || c == '\U{85}'
    || c == '\U{A0}'
    || c == '\U{1680}'
    || ('\U{2000}' <= c <= '\U{200A}')
    || c == '\U{2028}'
    || c == '\U{2029}'
    || c == '\U{202F}'
    || c == '\U{205F}'
    || c == '\U{3000}'
  }

  /**
   * The whitespace int() skips around a number. CPython's int() first turns
   * every non-ASCII whitespace character into ' ' and leaves ASCII characters
   * as they are, then skips only ' ' and '\t'..'\r'; so the separators
   * U+001C..U+001F, which str.isspace() accepts, are not skipped.
   */
  predicate IsIntSpace(c: char) {
    IsSpace(c) && !('\U{1C}' <= c <= '\U{1F}')
  }

  /** The first index at or after i whose character is not in ws, or |s|. */
  function SkipForward(s: string, i: nat, ws: char -> bool): (k: nat)
    requires i <= |s|
    ensures i <= k <= |s|
    ensures forall j :: i <= j < k ==> ws(s[j])
    ensures k < |s| ==> !ws(s[k])
    decreases |s| - i
  {
    if i < |s| && ws(s[i]) then SkipForward(s, i + 1, ws) else i
  }

  /** The least index k, with lo <= k <= j, such that every character of s[k..j] is in ws. */
  function SkipBackward(s: string, lo: nat, j: nat, ws: char -> bool): (k: nat)
    requires lo <= j <= |s|
    ensures lo <= k <= j
    ensures forall m :: k <= m < j ==> ws(s[m])
    ensures k > lo ==> !ws(s[k - 1])
    decreases j
  {
    if j > lo && ws(s[j - 1]) then SkipBackward(s, lo, j - 1, ws) else j
  }

  /** Where s trimmed of the characters in ws starts. */
  function TrimStart(s: string, ws: char -> bool): nat {
    SkipForward(s, 0, ws)
  }

  /** Where s trimmed of the characters in ws ends. */
  function TrimEnd(s: string, ws: char -> bool): nat {
    SkipBackward(s, TrimStart(s, ws), |s|, ws)
  }

  /** s with its leading and trailing characters from ws removed. */
  function Trim(s: string, ws: char -> bool): (r: string)
    ensures TrimStart(s, ws) <= TrimEnd(s, ws) <= |s| && r == s[TrimStart(s, ws)..TrimEnd(s, ws)]
    ensures forall i :: 0 <= i < TrimStart(s, ws) ==> ws(s[i])
    ensures forall i :: TrimEnd(s, ws) <= i < |s| ==> ws(s[i])
    ensures r == [] <==> forall i :: 0 <= i < |s| ==> ws(s[i])
    ensures r != [] ==> !ws(r[0]) && !ws(r[|r| - 1])
  {
    var a := TrimStart(s, ws);
    var b := TrimEnd(s, ws);
    assert a < |s| ==> a < b;
    s[a..b]
  }

  /** A string whose two ends are not in ws is its own trim. */
  lemma TrimUnchanged(s: string, ws: char -> bool)
    requires s != [] ==> !ws(s[0]) && !ws(s[|s| - 1])
    ensures Trim(s, ws) == s
  {
    assert TrimStart(s, ws) == 0;
  }

  /** Python's str.strip() with no argument: s with its leading and trailing whitespace removed. */
  function Strip(s: string): (r: string)
    ensures TrimStart(s, IsSpace) <= TrimEnd(s, IsSpace) <= |s| && r == s[TrimStart(s, IsSpace)..TrimEnd(s, IsSpace)]
    ensures forall i :: 0 <= i < TrimStart(s, IsSpace) ==> IsSpace(s[i])
    ensures forall i :: TrimEnd(s, IsSpace) <= i < |s| ==> IsSpace(s[i])
    ensures r == [] <==> forall i :: 0 <= i < |s| ==> IsSpace(s[i])
    ensures r != [] ==> !IsSpace(r[0]) && !IsSpace(r[|r| - 1])
  {
    Trim(s, IsSpace)
  }

  predicate IsDigit(c: char) {
    '0' <= c <= '9'
  }

  predicate AllDigits(s: string) {
    forall i :: 0 <= i < |s| ==> IsDigit(s[i])
  }

  /** The value of a string of decimal digits, most significant first. */
  function DigitsValue(s: string): nat
    requires AllDigits(s)
  {
    if s == [] then 0
    else DigitsValue(s[..|s| - 1]) * 10 + (s[|s| - 1] as int - '0' as int)
  }

  /**
   * The most digits int() converts from a decimal string:
   * sys.int_info.default_max_str_digits, in force since Python 3.11. Leading
   * zeros count; the sign and the surrounding whitespace do not.
   */
  const MaxStrDigits := 4300

  /**
   * What int() accepts once the whitespace is gone: an optional sign, then
   * one or more decimal digits, no more than MaxStrDigits of them.
   */
  predicate IntLiteral(t: string) {
    var digits := if t != [] && (t[0] == '-' || t[0] == '+') then t[1..] else t;
    digits != [] && |digits| <= MaxStrDigits && AllDigits(digits)
  }

  /**
   * Python's int() on a string: whitespace around an integer literal is
   * skipped, and anything else raises ValueError, written here as None.
   */
  function ParseInt(s: string): (r: Option<int>)
    ensures var t := Trim(s, IsIntSpace);
      r.Some? <==> IntLiteral(t)
    ensures var t := Trim(s, IsIntSpace);
      r.Some? && t[0] == '-' ==> r.value == 0 - DigitsValue(t[1..]) as int
    ensures var t := Trim(s, IsIntSpace);
      r.Some? && t[0] == '+' ==> r.value == DigitsValue(t[1..])
    ensures var t := Trim(s, IsIntSpace);
      r.Some? && IsDigit(t[0]) ==> r.value == DigitsValue(t)
  {
    var t := Trim(s, IsIntSpace);
    if t == [] then None
    else
      var signed := t[0] == '-' || t[0] == '+';
      var digits := if signed then t[1..] else t;
      if digits == [] || |digits| > MaxStrDigits || !AllDigits(digits) then None
      else if t[0] == '-' then Some(0 - DigitsValue(digits) as int)
      else Some(DigitsValue(digits))
  }

  /**
   * Where int() and str.strip() part: an information separator before a
   * number is whitespace to strip() but makes int() raise.
   */
  lemma ParseIntRejectsSeparator()
    ensures Strip("\U{1C}1") == "1"
    ensures ParseInt("\U{1C}1") == None
  {
    var s := "\U{1C}1";
    assert IsSpace(s[0]) && !IsSpace(s[1]);
    assert TrimStart(s, IsSpace) == 1 by {
      assert SkipForward(s, 1, IsSpace) == 1;
    }
    assert !IsIntSpace(s[0]) && !IsIntSpace(s[1]);
    TrimUnchanged(s, IsIntSpace);
    assert !IsDigit(s[0]);
  }

  /** A literal of more digits than MaxStrDigits makes int() raise, with or without a sign. */
  lemma ParseIntRejectsLongLiteral(s: string)
    requires |s| > MaxStrDigits && AllDigits(s)
    ensures ParseInt(s) == None && ParseInt("-" + s) == None
  {
    assert IsDigit(s[0]) && IsDigit(s[|s| - 1]);
    TrimUnchanged(s, IsIntSpace);
    var m := "-" + s;
    assert m[|m| - 1] == s[|s| - 1];
    TrimUnchanged(m, IsIntSpace);
    assert m[1..] == s;
  }

  /** Non-blank strings int() rejects: letters, a fraction, a bare sign, a space after the sign. */
  lemma ParseIntRejects()
    ensures ParseInt("abc") == None && ParseInt("1.5") == None
    ensures ParseInt("+") == None && ParseInt("- 5") == None
  {
    var a, b, c, d := "abc", "1.5", "+", "- 5";
    assert !IsIntSpace(a[0]) && !IsIntSpace(a[2]);
    TrimUnchanged(a, IsIntSpace);
    assert !IsDigit(a[0]);
    assert !IsIntSpace(b[0]) && !IsIntSpace(b[2]);
    TrimUnchanged(b, IsIntSpace);
    assert !IsDigit(b[1]);
    assert !IsIntSpace(c[0]);
    TrimUnchanged(c, IsIntSpace);
    assert !IsIntSpace(d[0]) && !IsIntSpace(d[2]);
    TrimUnchanged(d, IsIntSpace);
    assert d[1..][0] == ' ';
  }

  /** A minus sign negates, and the whitespace around the literal is skipped. */
  lemma ParseIntSigned()
    ensures ParseInt(" -42\n") == Some(-42)
  {
    var s := " -42\n";
    assert IsIntSpace(s[0]) && !IsIntSpace(s[1]) && !IsIntSpace(s[3]) && IsIntSpace(s[4]);
    assert TrimStart(s, IsIntSpace) == 1 by {
      assert SkipForward(s, 1, IsIntSpace) == 1;
    }
    assert TrimEnd(s, IsIntSpace) == 4 by {
      assert SkipBackward(s, 1, 4, IsIntSpace) == 4;
    }
    var t := Trim(s, IsIntSpace);
    assert t == "-42";
    assert t[1..] == "42" && "42"[..1] == "4" && "4"[..0] == [];
    assert DigitsValue("42") == 42;
    assert t[0] == '-';
  }

  function DigitChar(d: nat): (c: char)
    requires d < 10
    ensures IsDigit(c) && c as int - '0' as int == d
  {
    ('0' as int + d) as char
  }

  /** Python's str() on a non-negative int. */
  function IntToStr(n: nat): (s: string)
    ensures s != [] && AllDigits(s)
    ensures n < 10 ==> |s| == 1
  {
    if n < 10 then [DigitChar(n)]
    else IntToStr(n / 10) + [DigitChar(n % 10)]
  }

  lemma {:induction false} DigitsValueOfIntToStr(n: nat)
    ensures DigitsValue(IntToStr(n)) == n
  {
    if n >= 10 {
      var s := IntToStr(n);
      assert s[..|s| - 1] == IntToStr(n / 10);
      DigitsValueOfIntToStr(n / 10);
    }
  }

  /** Reading back what str() wrote gives the number: int(str(n)) == n. */
  lemma ParseIntToStr(n: nat)
    requires |IntToStr(n)| <= MaxStrDigits
    ensures ParseInt(IntToStr(n)) == Some(n as int)
  {
    var s := IntToStr(n);
    TrimUnchanged(s, IsIntSpace);
    DigitsValueOfIntToStr(n);
  }

  /** Distinct numbers are written as distinct strings. */
  lemma IntToStrInjective(m: nat, n: nat)
    requires IntToStr(m) == IntToStr(n)
    ensures m == n
  {
    DigitsValueOfIntToStr(m);
    DigitsValueOfIntToStr(n);
  }
}
