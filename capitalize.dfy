/** The page's `capitalize` helper: upper-case a leading word character. */
module Capitalization {
  import opened Wrappers

  /** JavaScript's `\w` without the `u` and `i` flags: ASCII letters, digits and `_`. */
  predicate IsWordChar(c: char) {
    'a' <= c <= 'z' || 'A' <= c <= 'Z' || '0' <= c <= '9' || c == '_'
  }

  predicate IsAsciiLower(c: char) {
    'a' <= c <= 'z'
  }

  /** toUpperCase of a `\w` character: only a-z change. */
  function UpperWordChar(c: char): (u: char)
    requires IsWordChar(c)
    ensures IsWordChar(u) && !IsAsciiLower(u)
    ensures IsAsciiLower(c) ==> u as int == c as int - 32
    ensures !IsAsciiLower(c) ==> u == c
  {
    if IsAsciiLower(c) then (c as int - 32) as char else c
  }

  /** capitalize(s): null or undefined reads as ""; a leading ASCII lower-case letter
      becomes its upper-case form (the only `\w` characters toUpperCase changes);
      nothing else changes. */
  function Capitalize(s: Option<string>): (r: string)
    ensures s.None? ==> r == ""
    ensures var t := if s.Some? then s.value else "";
      |r| == |t|
      && (t != [] ==> r[1..] == t[1..] && !IsAsciiLower(r[0])
                      && (IsAsciiLower(t[0]) ==> r[0] as int == t[0] as int - 32)
                      && (!IsAsciiLower(t[0]) ==> r[0] == t[0]))
  {
    var t := if s.Some? then s.value else "";
    if t != [] && IsWordChar(t[0]) then [UpperWordChar(t[0])] + t[1..] else t
  }

  /** A string not starting with a `\w` character is left as it is. */
  lemma CapitalizeKeepsNonWordStart(s: string)
    requires s == [] || !IsWordChar(s[0])
    ensures Capitalize(Some(s)) == s
  {
  }

  /** Capitalizing twice is capitalizing once. */
  lemma CapitalizeIdempotent(s: Option<string>)
    ensures Capitalize(Some(Capitalize(s))) == Capitalize(s)
  {
    var r := Capitalize(s);
    if r != [] {
      assert r == [r[0]] + r[1..];
    }
  }

  /** The home page's tag labels: "chicken" is shown as "Chicken". */
  lemma CapitalizeTag()
    ensures Capitalize(Some("chicken")) == "Chicken"
  {
  }
}
