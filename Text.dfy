/** String handling of the wheel script: ECMAScript's `String.prototype.trim`, applied
    to a new choice (app.js:61) and to flavour labels (app.js:31), and `escapeHtml`
    (app.js:254), which makes a choice safe to place inside markup. */
module Text {

  /** The code points that ECMAScript's `trim` removes: WhiteSpace (tab, vertical tab,
      form feed, space, no-break space, byte order mark and the space separators)
      and LineTerminator (line feed, carriage return, line and paragraph separator). */
  predicate IsJsWhitespace(c: char) {
    c == '\t' || c == '\U{000B}' || c == '\U{000C}' || c == ' ' || c == '\U{00A0}'
    || c == '\U{FEFF}' || c == '\U{1680}' || ('\U{2000}' <= c <= '\U{200A}')
    || c == '\U{202F}' || c == '\U{205F}' || c == '\U{3000}'
    || c == '\n' || c == '\r' || c == '\U{2028}' || c == '\U{2029}'
  }

  /** Length of the whitespace run at the start of s. */
  function LeadingSpace(s: string): (n: nat)
    ensures n <= |s|
    ensures forall k :: 0 <= k < n ==> IsJsWhitespace(s[k])
    ensures n < |s| ==> !IsJsWhitespace(s[n])
  {
    if |s| > 0 && IsJsWhitespace(s[0]) then 1 + LeadingSpace(s[1..]) else 0
  }

  /** Length of the whitespace run at the end of s. */
  function TrailingSpace(s: string): (n: nat)
    ensures n <= |s|
    ensures forall k :: |s| - n <= k < |s| ==> IsJsWhitespace(s[k])
    ensures n < |s| ==> !IsJsWhitespace(s[|s| - 1 - n])
  {
    if |s| > 0 && IsJsWhitespace(s[|s| - 1]) then 1 + TrailingSpace(s[..|s| - 1]) else 0
  }

  /** `s.trim()`: s without its leading and trailing whitespace. */
  function Trim(s: string): (r: string)
    ensures LeadingSpace(s) + |r| <= |s|
    ensures r == s[LeadingSpace(s)..LeadingSpace(s) + |r|]
    ensures forall k :: LeadingSpace(s) + |r| <= k < |s| ==> IsJsWhitespace(s[k])
    ensures r != [] ==> !IsJsWhitespace(r[0]) && !IsJsWhitespace(r[|r| - 1])
    ensures r == [] <==> forall k :: 0 <= k < |s| ==> IsJsWhitespace(s[k])
  {
    var t := s[LeadingSpace(s)..];
    t[..|t| - TrailingSpace(t)]
  }

  /** Trimming twice is trimming once. */
  lemma {:induction false} TrimIdempotent(s: string)
    ensures Trim(Trim(s)) == Trim(s)
  {
    var r := Trim(s);
    if r != [] {
      assert LeadingSpace(r) == 0;
      assert TrailingSpace(r) == 0;
      assert r[0..] == r;
    }
  }

  /** The characters that `escapeHtml` replaces. */
  predicate IsHtmlSpecial(c: char) {
    c == '&' || c == '<' || c == '>' || c == '"' || c == '\''
  }

  /** The replacement of one character (the lookup table of app.js:254). */
  function EscapeChar(c: char): (e: string)
    ensures |e| > 0
    ensures IsHtmlSpecial(c) <==> e[0] == '&'
    ensures !IsHtmlSpecial(c) ==> e == [c]
  {
    if c == '&' then "&amp;"
    else if c == '<' then "&lt;"
    else if c == '>' then "&gt;"
    else if c == '"' then "&quot;"
    else if c == '\'' then "&#39;"
    else [c]
  }

  /** A character that cannot stand raw in escaped text. */
  predicate IsRawMarkup(c: char) {
    c == '<' || c == '>' || c == '"' || c == '\''
  }

  /** `escapeHtml(s)`: every character replaced by its entity, left to right. */
  function EscapeHtml(s: string): (r: string)
    ensures |r| >= |s|
    ensures forall k :: 0 <= k < |r| ==> !IsRawMarkup(r[k])
  {
    if s == [] then [] else EscapeChar(s[0]) + EscapeHtml(s[1..])
  }

  /** Escaping works character by character: it distributes over concatenation. */
  lemma {:induction false} EscapeHtmlConcat(a: string, b: string)
    ensures EscapeHtml(a + b) == EscapeHtml(a) + EscapeHtml(b)
  {
    if a == [] {
      assert a + b == b;
    } else {
      assert (a + b)[1..] == a[1..] + b;
      EscapeHtmlConcat(a[1..], b);
    }
  }

  /** Text without special characters is left as it is. */
  lemma {:induction false} EscapeHtmlPlain(s: string)
    requires forall k :: 0 <= k < |s| ==> !IsHtmlSpecial(s[k])
    ensures EscapeHtml(s) == s
  {
    if s != [] {
      EscapeHtmlPlain(s[1..]);
    }
  }

  predicate StartsWith(s: string, p: string) {
    |p| <= |s| && s[..|p|] == p
  }

  /** Reads the five entities back; the reference inverse of EscapeHtml. */
  function UnescapeHtml(s: string): string
    decreases |s|
  {
    if s == [] then []
    else if StartsWith(s, "&amp;") then "&" + UnescapeHtml(s[5..])
    else if StartsWith(s, "&lt;") then "<" + UnescapeHtml(s[4..])
    else if StartsWith(s, "&gt;") then ">" + UnescapeHtml(s[4..])
    else if StartsWith(s, "&quot;") then "\"" + UnescapeHtml(s[6..])
    else if StartsWith(s, "&#39;") then "'" + UnescapeHtml(s[5..])
    else [s[0]] + UnescapeHtml(s[1..])
  }

  /** s does not start with p when they differ at some index i. */
  lemma Mismatch(s: string, p: string, i: nat)
    requires i < |p| && i < |s| && s[i] != p[i]
    ensures !StartsWith(s, p)
  {
    if |p| <= |s| {
      assert s[..|p|][i] == s[i];
    }
  }

  lemma Prefix(e: string, rest: string)
    ensures StartsWith(e + rest, e) && (e + rest)[|e|..] == rest
  {
    assert (e + rest)[..|e|] == e;
  }

  lemma UnescapeChar(c: char, rest: string)
    ensures UnescapeHtml(EscapeChar(c) + rest) == [c] + UnescapeHtml(rest)
  {
    var e := EscapeChar(c);
    var s := e + rest;
    Prefix(e, rest);
    if c == '&' {
    } else if c == '<' {
      Mismatch(s, "&amp;", 1);
    } else if c == '>' {
      Mismatch(s, "&amp;", 1);
      Mismatch(s, "&lt;", 1);
    } else if c == '"' {
      Mismatch(s, "&amp;", 1);
      Mismatch(s, "&lt;", 1);
      Mismatch(s, "&gt;", 1);
    } else if c == '\'' {
      Mismatch(s, "&amp;", 1);
      Mismatch(s, "&lt;", 1);
      Mismatch(s, "&gt;", 1);
      Mismatch(s, "&quot;", 1);
    } else {
      Mismatch(s, "&amp;", 0);
      Mismatch(s, "&lt;", 0);
      Mismatch(s, "&gt;", 0);
      Mismatch(s, "&quot;", 0);
      Mismatch(s, "&#39;", 0);
    }
  }

  /** Escaping loses nothing: distinct choices stay distinct in the markup. */
  lemma {:induction false} UnescapeEscape(s: string)
    ensures UnescapeHtml(EscapeHtml(s)) == s
  {
    if s != [] {
      UnescapeChar(s[0], EscapeHtml(s[1..]));
      UnescapeEscape(s[1..]);
      assert [s[0]] + s[1..] == s;
    }
  }
}
