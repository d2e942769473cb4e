/** The JavaScript string built-ins the script relies on: the whitespace and
    word classes of regular expressions, `trim`, `toUpperCase`, `startsWith`
    and the decimal text of a number. */
module JsText {

  /** WhiteSpace and LineTerminator of ECMAScript: the characters `\s`
      matches and `String.prototype.trim` removes. */
  predicate IsSpace(c: char) {
    c == '\t' || c == '\n' || c == '\U{000B}' || c == '\U{000C}' || c == '\r' || c == ' '
    || c == '\U{00A0}' || c == '\U{1680}' || ('\U{2000}' <= c <= '\U{200A}')
    || c == '\U{2028}' || c == '\U{2029}' || c == '\U{202F}' || c == '\U{205F}'
    || c == '\U{3000}' || c == '\U{FEFF}'
  }

  /** The characters `.` does not match. */
  predicate IsLineTerminator(c: char) {
    c == '\n' || c == '\r' || c == '\U{2028}' || c == '\U{2029}'
  }

  /** The class `\w`: ASCII letters, digits and the underscore. */
  predicate IsWordChar(c: char) {
    ('a' <= c <= 'z') || ('A' <= c <= 'Z') || ('0' <= c <= '9') || c == '_'
  }

  predicate IsDigit(c: char) {
    '0' <= c <= '9'
  }

  predicate AllSpace(s: string) {
    forall k | 0 <= k < |s| :: IsSpace(s[k])
  }

  lemma LineTerminatorIsSpace(c: char)
    ensures IsLineTerminator(c) ==> IsSpace(c)
  {
  }

  /** `s` without its leading whitespace. */
  function TrimStart(s: string): (r: string)
    ensures |r| <= |s|
  {
    if |s| > 0 && IsSpace(s[0]) then TrimStart(s[1..]) else s
  }

  lemma TrimStartOfNonSpace(s: string)
    requires s == [] || !IsSpace(s[0])
    ensures TrimStart(s) == s
  {
  }

  /** `s` without its trailing whitespace. */
  function TrimEnd(s: string): (r: string)
    ensures |r| <= |s|
  {
    if |s| > 0 && IsSpace(s[|s| - 1]) then TrimEnd(s[..|s| - 1]) else s
  }

  /** `String.prototype.trim`. */
  function Trim(s: string): string {
    TrimEnd(TrimStart(s))
  }

  /** Trimming the start removes exactly the leading run of whitespace. */
  lemma {:induction false} TrimStartRemovesLeadingSpace(s: string)
    ensures var r := TrimStart(s);
      && r == s[|s| - |r|..] && AllSpace(s[..|s| - |r|])
      && (r == [] || !IsSpace(r[0]))
  {
    if |s| > 0 && IsSpace(s[0]) {
      TrimStartRemovesLeadingSpace(s[1..]);
      var r := TrimStart(s);
      assert s[1..][|s| - 1 - |r|..] == s[|s| - |r|..];
      assert s[..|s| - |r|] == [s[0]] + s[1..][..|s| - 1 - |r|];
    }
  }

  /** A text that neither starts nor ends with whitespace is its own trim. */
  lemma TrimOfTrimmed(s: string)
    requires |s| > 0 && !IsSpace(s[0]) && !IsSpace(s[|s| - 1])
    ensures Trim(s) == s
  {
    TrimStartOfNonSpace(s);
  }

  /** Trimming the end removes exactly the trailing run of whitespace. */
  lemma {:induction false} TrimEndRemovesTrailingSpace(s: string)
    ensures var r := TrimEnd(s);
      && r == s[..|r|] && AllSpace(s[|r|..])
      && (r == [] || !IsSpace(r[|r| - 1]))
  {
    if |s| > 0 && IsSpace(s[|s| - 1]) {
      var t := s[..|s| - 1];
      TrimEndRemovesTrailingSpace(t);
      var r := TrimEnd(s);
      assert t[..|r|] == s[..|r|];
      assert s[|r|..] == t[|r|..] + [s[|s| - 1]];
    }
  }

  /** `trim` keeps a middle part of the text, removes only whitespace, and
      leaves neither leading nor trailing whitespace. */
  lemma TrimRemovesOuterSpace(s: string)
    ensures var r := Trim(s);
      exists i | 0 <= i <= |s| - |r| ::
        && r == s[i..i + |r|] && AllSpace(s[..i]) && AllSpace(s[i + |r|..])
    ensures var r := Trim(s); r == [] || (!IsSpace(r[0]) && !IsSpace(r[|r| - 1]))
  {
    var u := TrimStart(s);
    TrimStartRemovesLeadingSpace(s);
    TrimEndRemovesTrailingSpace(u);
    var r := Trim(s);
    var i := |s| - |u|;
    assert r == s[i..i + |r|];
    assert s[i + |r|..] == u[|r|..];
  }

  /** Whitespace in front of a text does not change what trimming the start
      leaves. */
  lemma {:induction false} TrimStartSkipsSpace(ws: string, s: string)
    requires AllSpace(ws)
    ensures TrimStart(ws + s) == TrimStart(s)
  {
    if ws == [] {
      assert ws + s == s;
    } else {
      assert (ws + s)[0] == ws[0] && (ws + s)[1..] == ws[1..] + s;
      TrimStartSkipsSpace(ws[1..], s);
    }
  }

  /** `toUpperCase` on one character, for the characters whose upper case
      holds an ASCII letter: the ASCII letters, dotless i and long s, and the
      letters and ligatures that upper-case to two or three characters (the
      unconditional full case mappings of Unicode). Every other character
      keeps its case here: its upper case holds no ASCII letter, so it can
      never complete a keyword. */
  function UpperText(c: char): string {
    if 'a' <= c <= 'z' then [(c as int - 32) as char]
    else match c
      case '\U{0131}' => "I"
      case '\U{017F}' => "S"
      case '\U{00DF}' => "SS"
      case '\U{0149}' => "\U{02BC}N"
      case '\U{01F0}' => "J\U{030C}"
      case '\U{1E96}' => "H\U{0331}"
      case '\U{1E97}' => "T\U{0308}"
      case '\U{1E98}' => "W\U{030A}"
      case '\U{1E99}' => "Y\U{030A}"
      case '\U{1E9A}' => "A\U{02BE}"
      case '\U{FB00}' => "FF"
      case '\U{FB01}' => "FI"
      case '\U{FB02}' => "FL"
      case '\U{FB03}' => "FFI"
      case '\U{FB04}' => "FFL"
      case '\U{FB05}' => "ST"
      case '\U{FB06}' => "ST"
      case _ => [c]
  }

  /** `toUpperCase`: each character replaced by its upper case, which may be
      longer than one character. */
  function ToUpper(s: string): string {
    if s == [] then [] else UpperText(s[0]) + ToUpper(s[1..])
  }

  /** A text whose first `n` characters are upper-case ASCII letters keeps
      them in front when upper-cased. */
  lemma {:induction false} ToUpperKeepsCapitals(s: string, n: nat)
    requires n <= |s| && forall k | 0 <= k < n :: 'A' <= s[k] <= 'Z'
    ensures StartsWith(ToUpper(s), s[..n])
  {
    if n > 0 {
      ToUpperKeepsCapitals(s[1..], n - 1);
      assert UpperText(s[0]) == [s[0]];
      var u := ToUpper(s[1..]);
      assert ToUpper(s) == [s[0]] + u;
      forall k | 0 <= k < n
        ensures ToUpper(s)[k] == s[..n][k]
      {
        if k > 0 {
          assert ToUpper(s)[k] == u[k - 1];
          assert s[1..][..n - 1][k - 1] == s[..n][k];
        }
      }
    }
  }

  predicate StartsWith(s: string, prefix: string) {
    |prefix| <= |s| && forall k | 0 <= k < |prefix| :: s[k] == prefix[k]
  }

  function DigitChar(d: nat): char
    requires d < 10
  {
    ('0' as int + d) as char
  }

  /** The decimal text of a non-negative integer, as template literals and
      `Array.prototype.join` print it. */
  function NatText(n: nat): (r: string)
    ensures |r| > 0 && forall k | 0 <= k < |r| :: IsDigit(r[k])
  {
    if n < 10 then [DigitChar(n)] else NatText(n / 10) + [DigitChar(n % 10)]
  }

  function IntText(n: int): (r: string)
    ensures |r| > 0
  {
    if n < 0 then "-" + NatText(-n) else NatText(n)
  }

  /** The value of a text of decimal digits. */
  function DigitsValue(s: string): nat
    requires forall k | 0 <= k < |s| :: IsDigit(s[k])
  {
    if s == [] then 0
    else
      var last := s[|s| - 1];
      assert IsDigit(last);
      10 * DigitsValue(s[..|s| - 1]) + (last as int - '0' as int)
  }

  /** Reading back the decimal text of a number gives the number. */
  lemma {:induction false} NatTextRoundTrip(n: nat)
    ensures DigitsValue(NatText(n)) == n
  {
    if n >= 10 {
      var r := NatText(n);
      assert r[..|r| - 1] == NatText(n / 10);
      NatTextRoundTrip(n / 10);
    }
  }
}
