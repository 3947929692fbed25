/** JavaScript's String.prototype.trim, over Dafny's Unicode characters. */
module JsString {

  /** The WhiteSpace and LineTerminator code points that ECMAScript's trim strips. */
  predicate IsWhitespace(c: char) {
    c == '\t' || c == '\n' || c == '\U{000B}' || c == '\U{000C}' || c == '\r' || c == ' '
    || c == '\U{00A0}' || c == '\U{1680}' || ('\U{2000}' <= c <= '\U{200A}')
    || c == '\U{2028}' || c == '\U{2029}' || c == '\U{202F}' || c == '\U{205F}'
    || c == '\U{3000}' || c == '\U{FEFF}'
  }

  /** Every character of s is whitespace (the empty string included). */
  predicate IsBlank(s: string) {
    forall i :: 0 <= i < |s| ==> IsWhitespace(s[i])
  }

  /** s neither starts nor ends with whitespace. */
  predicate IsTrimmed(s: string) {
    s == [] || (!IsWhitespace(s[0]) && !IsWhitespace(s[|s| - 1]))
  }

  /** How many whitespace characters s starts with. */
  function LeadingWhitespace(s: string): (n: nat)
    ensures n <= |s|
    ensures n == |s| || !IsWhitespace(s[n])
  {
    if s != [] && IsWhitespace(s[0]) then LeadingWhitespace(s[1..]) + 1 else 0
  }

  /** How many whitespace characters s ends with. */
  function TrailingWhitespace(s: string): (n: nat)
    ensures n <= |s|
    ensures n == |s| || !IsWhitespace(s[|s| - n - 1])
  {
    if s != [] && IsWhitespace(s[|s| - 1]) then TrailingWhitespace(s[..|s| - 1]) + 1 else 0
  }

  /** The characters LeadingWhitespace counts are all whitespace. */
  lemma {:induction false} LeadingIsBlank(s: string)
    ensures IsBlank(s[..LeadingWhitespace(s)])
  {
    if s != [] && IsWhitespace(s[0]) {
      var n := LeadingWhitespace(s[1..]);
      LeadingIsBlank(s[1..]);
      assert LeadingWhitespace(s) == n + 1;
      var head := s[..n + 1];
      forall i | 0 <= i < n + 1 ensures IsWhitespace(head[i]) {
        if i > 0 { assert head[i] == s[1..][..n][i - 1]; }
      }
    }
  }

  /** The characters TrailingWhitespace counts are all whitespace. */
  lemma {:induction false} TrailingIsBlank(s: string)
    ensures IsBlank(s[|s| - TrailingWhitespace(s)..])
  {
    if s != [] && IsWhitespace(s[|s| - 1]) {
      var init := s[..|s| - 1];
      var n := TrailingWhitespace(init);
      TrailingIsBlank(init);
      assert TrailingWhitespace(s) == n + 1;
      var tail := s[|s| - n - 1..];
      forall i | 0 <= i < n + 1 ensures IsWhitespace(tail[i]) {
        if i < n { assert tail[i] == init[|init| - n..][i]; }
      }
    }
  }

  /** s.trim(): s without its leading and trailing whitespace. */
  function Trim(s: string): (r: string)
    ensures IsTrimmed(r) && |r| <= |s|
  {
    var i := LeadingWhitespace(s);
    var t := s[i..];
    var j := TrailingWhitespace(t);
    assert t[..|t| - j] != [] ==> t[..|t| - j][0] == s[i];
    t[..|t| - j]
  }

  /** Trim keeps the middle of s, between a blank prefix and a blank suffix. */
  lemma TrimIsMiddle(s: string)
    ensures var r := Trim(s);
      exists i :: 0 <= i <= |s| - |r| && r == s[i..i + |r|] && IsBlank(s[..i]) && IsBlank(s[i + |r|..])
  {
    var i := LeadingWhitespace(s);
    var t := s[i..];
    var j := TrailingWhitespace(t);
    var r := t[..|t| - j];
    assert r == Trim(s);
    assert r == s[i..i + |r|];
    assert t[|t| - j..] == s[i + |r|..];
    LeadingIsBlank(s);
    TrailingIsBlank(t);
  }

  /** Trim gives the empty string exactly when s is blank. */
  lemma TrimEmptyIffBlank(s: string)
    ensures Trim(s) == [] <==> IsBlank(s)
  {
    var i := LeadingWhitespace(s);
    var t := s[i..];
    LeadingIsBlank(s);
    BlankSplit(s, i);
    if Trim(s) == [] {
      TrailingIsBlank(t);
      assert t[|t| - TrailingWhitespace(t)..] == t;
    }
  }

  /** s is blank exactly when the parts on both sides of any cut are. */
  lemma BlankSplit(s: string, i: nat)
    requires i <= |s|
    ensures IsBlank(s) <==> IsBlank(s[..i]) && IsBlank(s[i..])
  {
    if IsBlank(s[..i]) && IsBlank(s[i..]) {
      forall k | 0 <= k < |s| ensures IsWhitespace(s[k]) {
        if k < i { assert s[k] == s[..i][k]; } else { assert s[k] == s[i..][k - i]; }
      }
    }
  }

  /** A string with nothing to strip is its own trim. */
  lemma TrimTrimmed(s: string)
    requires IsTrimmed(s)
    ensures Trim(s) == s
  {
  }

  /** Whitespace in front of a trimmed string is all that Trim removes. */
  lemma {:induction false} TrimSkipsBlank(w: string, t: string)
    requires IsBlank(w) && IsTrimmed(t)
    ensures Trim(w + t) == t
  {
    LeadingSkipsBlank(w, t);
    assert (w + t)[|w|..] == t;
    TrimTrimmed(t);
  }

  lemma {:induction false} LeadingSkipsBlank(w: string, t: string)
    requires IsBlank(w) && IsTrimmed(t)
    ensures LeadingWhitespace(w + t) == |w|
  {
    if w != [] {
      assert (w + t)[0] == w[0] && IsWhitespace(w[0]);
      assert (w + t)[1..] == w[1..] + t;
      assert IsBlank(w[1..]) by {
        forall i | 0 <= i < |w| - 1 ensures IsWhitespace(w[1..][i]) {
          assert w[1..][i] == w[i + 1];
        }
      }
      LeadingSkipsBlank(w[1..], t);
    } else {
      assert w + t == t;
    }
  }

  /** Trimming is idempotent. */
  lemma TrimIdempotent(s: string)
    ensures Trim(Trim(s)) == Trim(s)
  {
    TrimTrimmed(Trim(s));
  }
}
