/** Character classes of the Rust standard library that the modelled checks use. */
module Text {

  /** Unicode White_Space, the class `str::trim` strips. */
  predicate IsWhitespace(c: char) {
    var n := c as int;
    9 <= n <= 13 || n == 0x20 || n == 0x85 || n == 0xA0 || n == 0x1680 || 0x2000 <= n <= 0x200A
    || n == 0x2028 || n == 0x2029 || n == 0x202F || n == 0x205F || n == 0x3000
  }

  /** Unicode general category Cc. */
  predicate IsControl(c: char) {
    var n := c as int;
    n <= 0x1F || 0x7F <= n <= 0x9F
  }

  /** `value.trim().is_empty()`. */
  predicate Blank(s: string) {
    forall i | 0 <= i < |s| :: IsWhitespace(s[i])
  }

  predicate ContainsDisallowedControl(s: string) {
    exists i | 0 <= i < |s| :: IsControl(s[i]) && s[i] != '\n' && s[i] != '\t'
  }

  /** Bytes of one code point in UTF-8. */
  function Utf8Width(c: char): (n: nat)
    ensures 1 <= n <= 4
  {
    if c as int < 0x80 then 1 else if c as int < 0x800 then 2 else if c as int < 0x10000 then 3 else 4
  }

  /** `str::len`. */
  function Utf8Len(s: string): (n: nat)
    ensures |s| <= n <= 4 * |s|
  {
    if s == [] then 0 else Utf8Width(s[0]) + Utf8Len(s[1..])
  }

  // ----- trimming

  function TrimEnd(s: string): (t: string)
    ensures |t| <= |s| && t == s[..|t|]
    ensures t != "" ==> !IsWhitespace(t[|t| - 1])
    ensures forall i | |t| <= i < |s| :: IsWhitespace(s[i])
  {
    if s != "" && IsWhitespace(s[|s| - 1]) then TrimEnd(s[..|s| - 1]) else s
  }

  function TrimStart(s: string): (t: string)
    ensures |t| <= |s| && t == s[|s| - |t|..]
    ensures t != "" ==> !IsWhitespace(t[0])
    ensures forall i | 0 <= i < |s| - |t| :: IsWhitespace(s[i])
  {
    if s != "" && IsWhitespace(s[0]) then TrimStart(s[1..]) else s
  }

  function Trim(s: string): string {
    TrimEnd(TrimStart(s))
  }

  /** What is left of a text without the whitespace around it. */
  ghost predicate Strips(s: string, t: string) {
    exists i, j | 0 <= i <= j <= |s| :: t == s[i..j] && Blank(s[..i]) && Blank(s[j..]) && Trimmed(t)
  }

  lemma TrimStrips(s: string)
    ensures Strips(s, Trim(s))
  {
    var front := TrimStart(s);
    var t := TrimEnd(front);
    var i := |s| - |front|;
    assert s[i..i + |t|] == t && s[i + |t|..] == front[|t|..];
    assert Blank(s[..i]) && Blank(s[i + |t|..]);
  }

  /** `trim` leaves the value alone. */
  predicate Trimmed(s: string) {
    s == "" || (!IsWhitespace(s[0]) && !IsWhitespace(s[|s| - 1]))
  }

  /** SHA-256 of a text, as any function. */
  type Hasher = string -> string
}
