/** The JavaScript conversions the script applies to engine values:
    `parseInt(v, 10)`, the arithmetic on a parsed rowid,
    `JSON.stringify(rows, null, 2)` and `Array.prototype.join`. */
module JsValues {
  import opened JsText
  import opened SqlJs

  /** The end of the run of decimal digits that starts at `i`. */
  function DigitRun(s: string, i: nat): (j: nat)
    requires i <= |s|
    ensures i <= j <= |s| && forall k | i <= k < j :: IsDigit(s[k])
    ensures j == |s| || !IsDigit(s[j])
    decreases |s| - i
  {
    if i < |s| && IsDigit(s[i]) then DigitRun(s, i + 1) else i
  }

  /** `parseInt(s, 10)` on a text: leading whitespace, an optional sign, then
      the longest run of decimal digits; NaN when there is no digit. */
  function ParseDecimal(s: string): JsValue {
    var t := TrimStart(s);
    if |t| > 0 && t[0] == '-' then Negate(ParseDigits(t[1..]))
    else if |t| > 0 && t[0] == '+' then ParseDigits(t[1..])
    else ParseDigits(t)
  }

  /** The value of the longest run of digits at the start of `t`. */
  function ParseDigits(t: string): JsValue {
    var to := DigitRun(t, 0);
    if to == 0 then NaN else Num(DigitsValue(t[..to]))
  }

  function Negate(v: JsValue): JsValue {
    match v
    case Num(n) => Num(-n)
    case _ => v
  }

  /** `parseInt(v, 10)`: a number is turned into its decimal text and read
      back; every other value has no leading digit. */
  function ParseInt(v: JsValue): JsValue {
    match v
    case Num(n) => ParseDecimal(IntText(n))
    case Str(s) => ParseDecimal(s)
    case _ => NaN
  }

  /** A text of digits reads as its value. */
  lemma ParseDigitsOfDigits(digits: string)
    requires |digits| > 0 && forall k | 0 <= k < |digits| :: IsDigit(digits[k])
    ensures ParseDigits(digits) == Num(DigitsValue(digits))
  {
    assert DigitRun(digits, 0) == |digits|;
    assert digits[..|digits|] == digits;
  }

  /** A run of digits parses to its value. */
  lemma ParseUnsignedDigits(digits: string)
    requires |digits| > 0 && forall k | 0 <= k < |digits| :: IsDigit(digits[k])
    ensures ParseDecimal(digits) == Num(DigitsValue(digits))
  {
    assert IsDigit(digits[0]);
    TrimStartOfNonSpace(digits);
    ParseDigitsOfDigits(digits);
  }

  /** A minus sign and a run of digits parse to the negated value. */
  lemma ParseNegativeDigits(digits: string)
    requires |digits| > 0 && forall k | 0 <= k < |digits| :: IsDigit(digits[k])
    ensures ParseDecimal("-" + digits) == Num(-(DigitsValue(digits) as int))
  {
    ParseDigitsOfDigits(digits);
    var t := "-" + digits;
    assert t[0] == '-' && t[1..] == digits;
    TrimStartOfNonSpace(t);
  }

  /** Parsing the decimal text of an integer gives the integer, so `parseInt`
      keeps every integer cell. */
  lemma ParseIntOfNumber(n: int)
    ensures ParseInt(Num(n)) == Num(n)
  {
    var m := if n < 0 then -n else n;
    NatTextRoundTrip(m);
    if n < 0 {
      ParseNegativeDigits(NatText(m));
    } else {
      ParseUnsignedDigits(NatText(m));
    }
  }

  /** `v + k` for a value that `parseInt` returned: a number or NaN. */
  function Offset(v: JsValue, k: int): JsValue {
    match v
    case Num(n) => Num(n + k)
    case _ => NaN
  }

  function HexDigit(d: nat): char
    requires d < 16
  {
    if d < 10 then ('0' as int + d) as char else ('a' as int + d - 10) as char
  }

  /** One character of a JSON string literal, escaped as `JSON.stringify`
      escapes it. */
  function JsonEscapeChar(c: char): string {
    if c == '"' then "\\\""
    else if c == '\\' then "\\\\"
    else if c == '\U{0008}' then "\\b"
    else if c == '\t' then "\\t"
    else if c == '\n' then "\\n"
    else if c == '\U{000C}' then "\\f"
    else if c == '\r' then "\\r"
    else if (c as int) < 0x20 then "\\u00" + [HexDigit(c as int / 16), HexDigit(c as int % 16)]
    else [c]
  }

  function JsonEscape(s: string): string {
    if s == [] then "" else JsonEscape(s[..|s| - 1]) + JsonEscapeChar(s[|s| - 1])
  }

  /** A value as an element of a JSON array: NaN and `undefined` print as
      `null`. */
  function JsonValue(v: JsValue): string {
    match v
    case Num(n) => IntText(n)
    case Str(s) => "\"" + JsonEscape(s) + "\""
    case _ => "null"
  }

  function Join(items: seq<string>, separator: string): string {
    if items == [] then ""
    else if |items| == 1 then items[0]
    else Join(items[..|items| - 1], separator) + separator + items[|items| - 1]
  }

  /** A JSON array of already printed elements, indented by two spaces more
      than `stepback`. */
  function JsonArray(items: seq<string>, stepback: string): string {
    if items == [] then "[]"
    else
      var indent := stepback + "  ";
      "[\n" + indent + Join(items, ",\n" + indent) + "\n" + stepback + "]"
  }

  /** `JSON.stringify(rows, null, 2)`. */
  function JsonRows(rows: seq<Row>): string {
    JsonArray(
      seq(|rows|, k requires 0 <= k < |rows| =>
        JsonArray(seq(|rows[k]|, j requires 0 <= j < |rows[k]| => JsonValue(rows[k][j])), "  ")),
      "")
  }

  /** `JSON.stringify` of rows is an array text: it opens with a bracket. */
  lemma JsonRowsIsArray(rows: seq<Row>)
    ensures |JsonRows(rows)| > 0 && JsonRows(rows)[0] == '['
  {
  }

  /** A value as `Array.prototype.join` prints it: `null` and `undefined` as
      nothing. */
  function JoinText(v: JsValue): string {
    match v
    case Num(n) => IntText(n)
    case Str(s) => s
    case NaN => "NaN"
    case _ => ""
  }

  /** `values.join(separator)`. */
  function JoinValues(values: seq<JsValue>, separator: string): string {
    Join(seq(|values|, k requires 0 <= k < |values| => JoinText(values[k])), separator)
  }
}
