/**
 * Character classes and number formatting of JavaScript that the handler
 * relies on: the `\s` class used by its regular expressions and by
 * `String.prototype.trim`, ASCII case folding used by the `i` flag, and the
 * decimal rendering of an integer inside a template literal.
 */
module JsText {

  /** JavaScript's `\s`: WhiteSpace (tab, vertical tab, form feed, space,
      no-break space, byte order mark and every Zs code point) together with
      the LineTerminators (LF, CR, line and paragraph separator). */
  predicate IsJsSpace(c: char) {
    if c <= ' ' then c == ' ' || '\t' <= c <= '\r' else WideJsSpace(c)
  }

  /** The `\s` characters above the ASCII space. */
  predicate WideJsSpace(c: char) {
    || c == '\U{00A0}' || c == '\U{1680}'
    || ('\U{2000}' <= c <= '\U{200A}')
    || c == '\U{2028}' || c == '\U{2029}' || c == '\U{202F}' || c == '\U{205F}'
    || c == '\U{3000}' || c == '\U{FEFF}'
  }

  /** Case folding of a non-unicode `i` regular expression, restricted to
      what matters against an all-lower-case ASCII pattern: only 'A'..'Z'
      fold onto 'a'..'z'; no other character folds onto an ASCII one. */
  function AsciiLower(c: char): (r: char)
    ensures 'A' <= c <= 'Z' ==> r as int == c as int + ('a' as int - 'A' as int)
    ensures ('A' <= c <= 'Z') == (r != c)
    ensures 'a' <= r <= 'z' <==> ('a' <= c <= 'z' || 'A' <= c <= 'Z')
    ensures !('a' <= r <= 'z') ==> r == c
  {
    if 'A' <= c <= 'Z' then (c as int - 'A' as int + 'a' as int) as char else c
  }

  function DigitChar(d: nat): (c: char)
    requires d < 10
    ensures '0' <= c <= '9'
  {
    ('0' as int + d) as char
  }

  function DigitValue(c: char): int {
    c as int - '0' as int
  }

  /** The decimal digits of `n`, as `String(n)` writes a non-negative integer. */
  function NatToString(n: nat): (r: string)
    ensures |r| >= 1
    ensures forall i :: 0 <= i < |r| ==> '0' <= r[i] <= '9'
    ensures r[0] == '0' ==> r == "0"
    decreases n
  {
    if n < 10 then [DigitChar(n)] else NatToString(n / 10) + [DigitChar(n % 10)]
  }

  /** `String(n)` for an integer-valued number: an optional '-' and the
      decimal digits of the magnitude. */
  function IntToString(n: int): (r: string)
    ensures |r| >= 1
    ensures (r[0] == '-') == (n < 0)
    ensures n < 0 ==> |r| >= 2 && DecimalValue(r[1..]) == -n
    ensures n >= 0 ==> DecimalValue(r) == n
    ensures var k := if n < 0 then 1 else 0;
      (forall i :: k <= i < |r| ==> '0' <= r[i] <= '9') && (r[k] == '0' ==> n == 0)
  {
    if n < 0 then
      var digits := NatToString(-n);
      NatToStringRoundTrip(-n);
      assert ("-" + digits)[1..] == digits;
      "-" + digits
    else
      NatToStringRoundTrip(n);
      NatToString(n)
  }

  /** The value a string of decimal digits denotes. */
  function DecimalValue(s: string): int
    decreases |s|
  {
    if |s| == 0 then 0 else 10 * DecimalValue(s[..|s| - 1]) + DigitValue(s[|s| - 1])
  }

  /** Reading back the digits of a non-negative integer gives the integer. */
  lemma {:induction false} NatToStringRoundTrip(n: nat)
    ensures DecimalValue(NatToString(n)) == n
    decreases n
  {
    var r := NatToString(n);
    if n >= 10 {
      NatToStringRoundTrip(n / 10);
      assert r[..|r| - 1] == NatToString(n / 10);
    }
  }
}
