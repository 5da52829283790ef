/**
 * Values as the browser code sees them: identifiers typed `string | number`,
 * JavaScript truthiness, the white-space class of `\s` and of `parseInt`,
 * and ASCII case mapping.
 */
module JsValues {
  import opened Wrappers

  /** A `string | number` identifier; `===` compares the variant and the payload. */
  datatype JsId = Num(n: int) | Str(s: string)

  /**
   * The signed-in user as the auth context reports it. `mod_in` holds the ids of
   * the subposts they moderate; the pages test it with `includes`, i.e. `===`.
   */
  datatype AuthUser = AuthUser(username: string, modIn: seq<JsId>, roles: seq<string>)

  /** JavaScript truthiness of an optional identifier: `null`, `0` and `""` are falsy. */
  predicate Truthy(x: Option<JsId>)
  {
    match x
    case None => false
    case Some(Num(n)) => n != 0
    case Some(Str(s)) => s != ""
  }

  /** `!!s` for an optional string, as the pages' query guards read a route parameter: present and not empty. */
  predicate Present(s: Option<string>)
  {
    s.Some? && s.value != ""
  }

  /** `!!s` is the truthiness of `s` read as a string identifier, and it decides which side `s || b` gives. */
  lemma PresentIsTruthy(s: Option<string>, b: string)
    ensures Present(s) <==> Truthy(if s.Some? then Some(Str(s.value)) else None)
    ensures Present(s) ==> OrDefault(s, b) == s.value
    ensures !Present(s) ==> OrDefault(s, b) == b
  {
  }

  /** The `a || b` of JavaScript on an optional string: `b` when `a` is missing or empty. */
  function OrDefault(a: Option<string>, b: string): (r: string)
    ensures a.Some? && a.value != "" ==> r == a.value
    ensures a.None? || a.value == "" ==> r == b
  {
    if a.Some? && a.value != "" then a.value else b
  }

  /**
   * The characters matched by `\s` in a JavaScript regular expression and skipped
   * by `parseInt`: the white-space characters (tab, vertical tab, form feed, space,
   * no-break space, byte order mark and the Unicode space separators) and the line
   * terminators.
   */
  predicate IsWhitespace(c: char)
  {
    var k := c as int;
    || 0x09 <= k <= 0x0D
    || k == 0x20 || k == 0xA0 || k == 0x1680
    || 0x2000 <= k <= 0x200A
    || k == 0x2028 || k == 0x2029 || k == 0x202F || k == 0x205F
    || k == 0x3000 || k == 0xFEFF
  }

  predicate IsAsciiLower(c: char) { 'a' <= c <= 'z' }
  predicate IsAsciiUpper(c: char) { 'A' <= c <= 'Z' }

  /** `toUpperCase` on one character, for the ASCII letters. */
  function UpperChar(c: char): (r: char)
    ensures IsAsciiLower(c) ==> IsAsciiUpper(r) && r as int == c as int - 32
    ensures !IsAsciiLower(c) ==> r == c
  {
    if IsAsciiLower(c) then (c as int - 32) as char else c
  }

  /** `toLowerCase` on one character, for the ASCII letters. */
  function LowerChar(c: char): (r: char)
    ensures IsAsciiUpper(c) ==> IsAsciiLower(r) && r as int == c as int + 32
    ensures !IsAsciiUpper(c) ==> r == c
  {
    if IsAsciiUpper(c) then (c as int + 32) as char else c
  }

  /** Lower-cases every ASCII letter of `s`; the length and every other character are kept. */
  function Lower(s: string): (r: string)
    ensures |r| == |s|
    ensures forall i :: 0 <= i < |s| ==> r[i] == LowerChar(s[i])
  {
    if s == [] then [] else [LowerChar(s[0])] + Lower(s[1..])
  }
}
