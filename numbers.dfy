/**
 * Decimal text of integers (template literals and `String(n)` in the browser code)
 * and JavaScript's `parseInt` as the mock pager applies it to query parameters.
 */
module Numbers {
  import opened Wrappers
  import opened JsValues

  predicate IsDigit(c: char) { '0' <= c <= '9' }

  predicate IsHexDigit(c: char) { IsDigit(c) || 'a' <= c <= 'f' || 'A' <= c <= 'F' }

  function DigitChar(d: nat): (c: char)
    requires d < 10
    ensures IsDigit(c) && c as int - '0' as int == d
  {
    ('0' as int + d) as char
  }

  function DigitValue(c: char): (d: nat)
    requires IsHexDigit(c)
    ensures d < 16
    ensures IsDigit(c) ==> d < 10
  {
    if IsDigit(c) then c as int - '0' as int
    else if 'a' <= c <= 'f' then c as int - 'a' as int + 10
    else c as int - 'A' as int + 10
  }

  /** Decimal digits of `n`, most significant first, without leading zeros. */
  function NatToString(n: nat): (s: string)
    ensures |s| >= 1
    ensures forall i :: 0 <= i < |s| ==> IsDigit(s[i])
    ensures s[0] == '0' ==> n == 0 && |s| == 1
  {
    if n < 10 then [DigitChar(n)] else NatToString(n / 10) + [DigitChar(n % 10)]
  }

  /**
   * `String(i)`: a minus sign for negative numbers, then the digits. JavaScript
   * prints a number this way only below 1e21 and exactly only for safe integers
   * (|i| < 2^53); the ids and offsets the pages print stay in that range.
   */
  function IntToString(i: int): (s: string)
    ensures |s| >= 1
    ensures i < 0 <==> s[0] == '-'
  {
    if i < 0 then "-" + NatToString(-i) else NatToString(i)
  }

  /** The value of a string of digits in the given base, most significant first. */
  function ValueIn(s: string, base: nat): nat
    requires base == 10 || base == 16
    requires forall i :: 0 <= i < |s| ==> IsHexDigit(s[i])
  {
    if s == [] then 0 else ValueIn(s[..|s| - 1], base) * base + DigitValue(s[|s| - 1])
  }

  /** Length of the longest prefix of `s` whose characters satisfy `IsDigit` (or `IsHexDigit`). */
  function DigitRun(s: string, hex: bool): (k: nat)
    ensures k <= |s|
    ensures forall i :: 0 <= i < k ==> if hex then IsHexDigit(s[i]) else IsDigit(s[i])
    ensures k < |s| ==> !(if hex then IsHexDigit(s[k]) else IsDigit(s[k]))
  {
    if s == [] || !(if hex then IsHexDigit(s[0]) else IsDigit(s[0])) then 0
    else 1 + DigitRun(s[1..], hex)
  }

  /** Number of leading white-space characters `parseInt` skips. */
  function LeadingWhitespace(s: string): (k: nat)
    ensures k <= |s|
    ensures forall i :: 0 <= i < k ==> IsWhitespace(s[i])
    ensures k < |s| ==> !IsWhitespace(s[k])
  {
    if s == [] || !IsWhitespace(s[0]) then 0 else 1 + LeadingWhitespace(s[1..])
  }

  /**
   * `parseInt(s)` with no radix: skip leading white space, read an optional sign,
   * then a `0x`/`0X` prefix and hexadecimal digits, or decimal digits, as far as
   * they go. `None` is `NaN` (no digit at all).
   */
  function ParseInt(s: string): (r: Option<int>)
  {
    var t := s[LeadingWhitespace(s)..];
    var negative := |t| > 0 && t[0] == '-';
    var u := if |t| > 0 && (t[0] == '-' || t[0] == '+') then t[1..] else t;
    var hex := |u| >= 2 && u[0] == '0' && (u[1] == 'x' || u[1] == 'X');
    var digits := if hex then u[2..] else u;
    var k := DigitRun(digits, hex);
    if k == 0 then None
    else
      var v: int := ValueIn(digits[..k], if hex then 16 else 10);
      Some(if negative then -v else v)
  }

  /** `parseInt(s) || fallback`: `NaN` and `0` both give the fallback. */
  function ParseIntOr(s: Option<string>, fallback: int): (r: int)
    ensures s.None? ==> r == fallback
    ensures s.Some? && ParseInt(s.value).Some? && ParseInt(s.value).value != 0 ==> r == ParseInt(s.value).value
    ensures s.Some? && (ParseInt(s.value).None? || ParseInt(s.value).value == 0) ==> r == fallback
  {
    match s
    case None => fallback
    case Some(text) =>
      match ParseInt(text)
      case None => fallback
      case Some(v) => if v == 0 then fallback else v
  }

  /** Reading back the digits `NatToString` writes gives the number. */
  lemma {:induction false} ValueOfNatToString(n: nat)
    ensures ValueIn(NatToString(n), 10) == n
  {
    if n >= 10 {
      var s := NatToString(n);
      assert s[..|s| - 1] == NatToString(n / 10);
      ValueOfNatToString(n / 10);
    }
  }

  /**
   * `parseInt(String(i)) == i` for every integer of the model; for JavaScript's
   * doubles this is the round trip of the safe integers (|i| < 2^53).
   */
  lemma ParseIntOfIntToString(i: int)
    ensures ParseInt(IntToString(i)) == Some(i)
  {
    var s := IntToString(i);
    var m: nat := if i < 0 then -i else i;
    var d := NatToString(m);
    assert LeadingWhitespace(s) == 0;
    assert s[0..] == s;
    var u := if i < 0 then s[1..] else s;
    assert u == d;
    DigitRunAll(d);
    assert d[..|d|] == d;
    ValueOfNatToString(m);
  }

  lemma {:induction false} DigitRunAll(s: string)
    requires forall i :: 0 <= i < |s| ==> IsDigit(s[i])
    ensures DigitRun(s, false) == |s|
  {
    if s != [] {
      DigitRunAll(s[1..]);
    }
  }
}
