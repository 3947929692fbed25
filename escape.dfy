/** The page's `esc` helper: text escaped for the inside of an HTML element. */
module Escape {
  import opened Wrappers

  /** s.replaceAll(c, rep) for a one-character pattern c: every occurrence of c is
      replaced, every other character is kept. */
  function ReplaceAll(s: string, c: char, rep: string): (r: string)
    ensures forall x :: x in r ==> x in rep || (x in s && x != c)
    ensures c !in s ==> r == s
  {
    if s == [] then []
    else (if s[0] == c then rep else [s[0]]) + ReplaceAll(s[1..], c, rep)
  }

  /** esc(s): null or undefined reads as the empty string, then `&`, `<` and `>` are
      replaced, in that order, by their entities. No `<` or `>` is left. */
  function Esc(s: Option<string>): (r: string)
    ensures s.None? ==> r == ""
    ensures '<' !in r && '>' !in r
  {
    var t := if s.Some? then s.value else "";
    Passes(t)
  }

  /** The entity that escapes one character, or the character itself. */
  function EscapeChar(c: char): string {
    if c == '&' then "&amp;" else if c == '<' then "&lt;" else if c == '>' then "&gt;" else [c]
  }

  /** Escaping as one left-to-right pass, character by character. */
  function EscapeEach(s: string): string {
    if s == [] then [] else EscapeChar(s[0]) + EscapeEach(s[1..])
  }

  predicate StartsWith(s: string, prefix: string) {
    |prefix| <= |s| && s[..|prefix|] == prefix
  }

  /** s begins with one of the three entities that esc produces. */
  predicate BeginsEntity(s: string) {
    StartsWith(s, "&amp;") || StartsWith(s, "&lt;") || StartsWith(s, "&gt;")
  }

  /** Every `&` in s is the start of an entity: s holds no bare ampersand. */
  predicate AmpersandsBeginEntities(s: string) {
    forall i :: 0 <= i < |s| && s[i] == '&' ==> BeginsEntity(s[i..])
  }

  /** The inverse of escaping: each of the three entities becomes its character. */
  function Unescape(s: string): string
    decreases |s|
  {
    if s == [] then []
    else if StartsWith(s, "&amp;") then "&" + Unescape(s[5..])
    else if StartsWith(s, "&lt;") then "<" + Unescape(s[4..])
    else if StartsWith(s, "&gt;") then ">" + Unescape(s[4..])
    else [s[0]] + Unescape(s[1..])
  }

  /** The three replaceAll passes of esc, in the source's order. */
  function Passes(s: string): string {
    ReplaceAll(ReplaceAll(ReplaceAll(s, '&', "&amp;"), '<', "&lt;"), '>', "&gt;")
  }

  lemma {:induction false} ReplaceAllAppend(a: string, b: string, c: char, rep: string)
    ensures ReplaceAll(a + b, c, rep) == ReplaceAll(a, c, rep) + ReplaceAll(b, c, rep)
  {
    if a == [] {
      assert a + b == b;
    } else {
      assert (a + b)[1..] == a[1..] + b;
      ReplaceAllAppend(a[1..], b, c, rep);
    }
  }

  lemma PassesAppend(a: string, b: string)
    ensures Passes(a + b) == Passes(a) + Passes(b)
  {
    var a1, b1 := ReplaceAll(a, '&', "&amp;"), ReplaceAll(b, '&', "&amp;");
    ReplaceAllAppend(a, b, '&', "&amp;");
    var a2, b2 := ReplaceAll(a1, '<', "&lt;"), ReplaceAll(b1, '<', "&lt;");
    ReplaceAllAppend(a1, b1, '<', "&lt;");
    ReplaceAllAppend(a2, b2, '>', "&gt;");
  }

  lemma PassesChar(c: char)
    ensures Passes([c]) == EscapeChar(c)
  {
    var amp, lt, gt := "&amp;", "&lt;", "&gt;";
    if c == '&' {
      assert ReplaceAll([c], '&', amp) == amp;
      assert '<' !in amp && '>' !in amp;
    } else if c == '<' {
      assert ReplaceAll([c], '&', amp) == [c];
      assert ReplaceAll([c], '<', lt) == lt;
      assert '>' !in lt;
    } else if c == '>' {
      assert ReplaceAll([c], '&', amp) == [c];
      assert ReplaceAll([c], '<', lt) == [c];
      assert ReplaceAll([c], '>', gt) == gt;
    } else {
      assert '&' !in [c] && '<' !in [c] && '>' !in [c];
    }
  }

  /** Because `&` is replaced first, the three sequential passes of esc amount to one
      pass that escapes each character once: no entity is escaped a second time. */
  lemma {:induction false} EscIsOnePass(s: string)
    ensures Esc(Some(s)) == EscapeEach(s)
  {
    PassesEach(s);
  }

  lemma {:induction false} PassesEach(s: string)
    ensures Passes(s) == EscapeEach(s)
  {
    if s != [] {
      assert s == [s[0]] + s[1..];
      PassesAppend([s[0]], s[1..]);
      PassesChar(s[0]);
      PassesEach(s[1..]);
    }
  }

  /** Unescaping the escaped text gives the text back. */
  lemma {:induction false} EscRoundTrip(s: string)
    ensures Unescape(Esc(Some(s))) == s
  {
    EscIsOnePass(s);
    UnescapeEach(s);
  }

  lemma {:induction false} UnescapeEach(s: string)
    ensures Unescape(EscapeEach(s)) == s
  {
    if s != [] {
      var e, rest := EscapeChar(s[0]), EscapeEach(s[1..]);
      var r := e + rest;
      assert r[..|e|] == e && r[|e|..] == rest;
      if s[0] == '&' {
        assert StartsWith(r, "&amp;");
      } else if s[0] == '<' {
        assert r[1] == 'l' && !StartsWith(r, "&amp;") && StartsWith(r, "&lt;");
      } else if s[0] == '>' {
        assert r[1] == 'g' && !StartsWith(r, "&amp;") && !StartsWith(r, "&lt;") && StartsWith(r, "&gt;");
      } else {
        assert r[0] == s[0] && r[0] != '&';
        assert !StartsWith(r, "&amp;") && !StartsWith(r, "&lt;") && !StartsWith(r, "&gt;");
      }
      UnescapeEach(s[1..]);
      assert s == [s[0]] + s[1..];
    }
  }

  /** Every `&` in esc's output is the start of one of its entities. */
  lemma {:induction false} EscAmpersandsBeginEntities(s: string)
    ensures AmpersandsBeginEntities(Esc(Some(s)))
  {
    EscIsOnePass(s);
    AmpersandsInEach(s);
  }

  lemma {:induction false} AmpersandsInEach(s: string)
    ensures AmpersandsBeginEntities(EscapeEach(s))
  {
    if s != [] {
      var e, rest := EscapeChar(s[0]), EscapeEach(s[1..]);
      var r := e + rest;
      AmpersandsInEach(s[1..]);
      forall i | 0 <= i < |r| && r[i] == '&' ensures BeginsEntity(r[i..]) {
        if i < |e| {
          assert r[..|e|] == e && r[i] == e[i];
          if s[0] == '&' || s[0] == '<' || s[0] == '>' {
            assert i == 0 && r[i..] == r;
            assert StartsWith(r, e);
          }
        } else {
          var j := i - |e|;
          assert r[i..] == rest[j..];
          assert 0 <= j < |rest| && rest[j] == '&';
        }
      }
    }
  }

  /** Text without `&`, `<` or `>` passes through unchanged: quotes in particular are
      not escaped, so the result is not safe inside an attribute value. */
  lemma EscKeepsPlainText(s: string)
    requires '&' !in s && '<' !in s && '>' !in s
    ensures Esc(Some(s)) == s
  {
  }
}
