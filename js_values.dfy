/**
 * The small part of JavaScript's value semantics the worker relies on:
 * decimal digits as the regular-expression class `\d` sees them, `Number(...)`
 * on a string of digits, the decimal text of an integer, and truthiness.
 */
module JsValues {

  /** An ASCII decimal digit: the class `\d` of a regular expression without the `u` flag. */
  predicate IsDigit(c: char) {
    '0' <= c <= '9'
  }

  predicate AllDigits(s: string) {
    forall i :: 0 <= i < |s| ==> IsDigit(s[i])
  }

  function DigitValue(c: char): (d: nat)
    requires IsDigit(c)
    ensures d < 10
  {
    (c as int) - ('0' as int)
  }

  function DigitChar(d: nat): (c: char)
    requires d < 10
    ensures IsDigit(c) && DigitValue(c) == d
  {
    (('0' as int) + d) as char
  }

  function Pow10(k: nat): (p: nat)
    ensures p >= 1
  {
    if k == 0 then 1 else 10 * Pow10(k - 1)
  }

  /**
   * `Number(s)` for a string of decimal digits; leading zeros add nothing.
   * A string of k digits stands for less than 10^k, and for at least 10^(k-1)
   * when it does not start with `0`.
   */
  function DecimalValue(s: string): (n: nat)
    requires AllDigits(s)
    ensures n < Pow10(|s|)
    ensures |s| > 0 && s[0] != '0' ==> Pow10(|s| - 1) <= n
    decreases |s|
  {
    if s == [] then 0
    else
      var init := s[..|s| - 1];
      assert |s| > 1 ==> init[0] == s[0];
      10 * DecimalValue(init) + DigitValue(s[|s| - 1])
  }

  /** A leading zero adds nothing: `Number("007")` is 7. */
  lemma {:induction false} LeadingZeros(s: string)
    requires AllDigits(s)
    ensures DecimalValue("0" + s) == DecimalValue(s)
    decreases |s|
  {
    if s != [] {
      var init := s[..|s| - 1];
      assert ("0" + s)[..|"0" + s| - 1] == "0" + init;
      LeadingZeros(init);
    }
  }

  /** A digit string without leading zeros: the form `NatToString` produces. */
  predicate Canonical(s: string) {
    |s| > 0 && AllDigits(s) && (|s| == 1 || s[0] != '0')
  }

  /** The text `'' + n` of a non-negative integer: its shortest decimal form. */
  function NatToString(n: nat): (s: string)
    ensures Canonical(s)
    ensures DecimalValue(s) == n
    ensures n == 0 ==> s == "0"
    decreases n
  {
    if n < 10 then [DigitChar(n)]
    else
      var prefix := NatToString(n / 10);
      var s := prefix + [DigitChar(n % 10)];
      assert s[..|s| - 1] == prefix;
      s
  }

  /** Reading a canonical digit string and printing the number gives the string back. */
  lemma {:induction false} DecimalRoundTrip(s: string)
    requires Canonical(s)
    ensures NatToString(DecimalValue(s)) == s
    decreases |s|
  {
    var n := DecimalValue(s);
    var last := s[|s| - 1];
    assert DigitChar(DigitValue(last)) == last;
    if |s| > 1 {
      var init := s[..|s| - 1];
      assert init[0] == s[0];
      DecimalRoundTrip(init);
      assert n / 10 == DecimalValue(init) && n % 10 == DigitValue(last);
      assert s == init + [last];
    }
  }

  /** The text `'' + i` of any integer: a minus sign exactly for a negative one, then the digits of its magnitude. */
  function IntToString(i: int): (s: string)
    ensures |s| > 0 && (s[0] == '-' <==> i < 0)
    ensures i < 0 ==> Canonical(s[1..]) && DecimalValue(s[1..]) == -i
    ensures i >= 0 ==> Canonical(s) && DecimalValue(s) == i
  {
    if i < 0 then
      var digits := NatToString(-i);
      assert ("-" + digits)[1..] == digits;
      "-" + digits
    else NatToString(i)
  }

  /** The JavaScript values a posted message's `data` can hold (numbers restricted to integers). */
  datatype JsValue =
    | Undefined
    | Null
    | Boolean(b: bool)
    | Number(n: int)
    | String(s: string)
    | Object(properties: map<string, JsValue>)

  /** What `if (v)` and `v && ...` test. */
  predicate Truthy(v: JsValue) {
    match v
    case Undefined => false
    case Null => false
    case Boolean(b) => b
    case Number(n) => n != 0
    case String(s) => s != ""
    case Object(_) => true
  }

  /** `v.key` for a value that is not `undefined` or `null`: an own property, or `undefined`. */
  function Property(v: JsValue, key: string): JsValue {
    if v.Object? && key in v.properties then v.properties[key] else Undefined
  }
}
