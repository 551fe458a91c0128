/**
 * escapeHtml: the character-level serialiser the book list uses before it
 * puts a title or an author into markup. Every one of the five characters
 * & < > " ' is replaced by its fixed entity; every other character is copied.
 *
 * Unescape is not part of the front-end: it is the decoder that a browser
 * applies to the entities, and serves here as the inverse against which
 * EscapeHtml is proved unambiguous.
 */
module Escape {

  /** The characters the replacement pattern [&<>"'] matches. */
  predicate IsSpecial(c: char) {
    c == '&' || c == '<' || c == '>' || c == '"' || c == '\''
  }

  /** The characters that could open or close markup or an attribute value. */
  predicate IsRawMarkup(c: char) {
    c == '<' || c == '>' || c == '"' || c == '\''
  }

  /** No character of s is one of the five special characters. */
  predicate IsSafe(s: string) {
    forall i :: 0 <= i < |s| ==> !IsSpecial(s[i])
  }

  /** No character of s can open or close markup. */
  predicate HasNoRawMarkup(s: string) {
    forall i :: 0 <= i < |s| ==> !IsRawMarkup(s[i])
  }

  /** The replacement of one character: the entity table for the five
      special characters, the character itself otherwise. */
  function Entity(c: char): (r: string)
    ensures !IsSpecial(c) ==> r == [c]
    ensures IsSpecial(c) ==> 4 <= |r| <= 6 && r[0] == '&' && r[|r| - 1] == ';'
    ensures IsSpecial(c) ==> forall i :: 1 <= i < |r| ==> !IsSpecial(r[i])
  {
    if c == '&' then "&amp;"
    else if c == '<' then "&lt;"
    else if c == '>' then "&gt;"
    else if c == '"' then "&quot;"
    else if c == '\'' then "&#039;"
    else [c]
  }

  /** The global replace of the pattern [&<>"'] by the entity table. The
      output is never shorter than the input, at most six times as long,
      and exactly as long precisely when nothing needed escaping. */
  function EscapeHtml(s: string): (r: string)
    ensures |s| <= |r| <= 6 * |s|
    ensures |r| == |s| <==> IsSafe(s)
  {
    if s == [] then []
    else
      var rest := EscapeHtml(s[1..]);
      assert IsSafe(s) <==> !IsSpecial(s[0]) && IsSafe(s[1..]) by {
        if !IsSpecial(s[0]) && IsSafe(s[1..]) {
          forall i | 0 <= i < |s| ensures !IsSpecial(s[i]) {
            if i > 0 { assert s[i] == s[1..][i - 1]; }
          }
        }
      }
      Entity(s[0]) + rest
  }

  /** Escaping a one-character string yields exactly that character's entity. */
  lemma EscapeChar(c: char)
    ensures EscapeHtml([c]) == Entity(c)
  {
  }

  /** Escaping distributes over concatenation: the replacement is local to
      each character. */
  lemma {:induction false} EscapeAppend(a: string, b: string)
    ensures EscapeHtml(a + b) == EscapeHtml(a) + EscapeHtml(b)
  {
    if a == [] {
      assert a + b == b;
    } else {
      assert (a + b)[0] == a[0];
      assert (a + b)[1..] == a[1..] + b;
      EscapeAppend(a[1..], b);
    }
  }

  /** The escaped text never contains a raw < > " or '. */
  lemma {:induction false} EscapeHasNoRawMarkup(s: string)
    ensures HasNoRawMarkup(EscapeHtml(s))
  {
    if s != [] {
      EscapeHasNoRawMarkup(s[1..]);
      var e, rest := Entity(s[0]), EscapeHtml(s[1..]);
      assert EscapeHtml(s) == e + rest;
      forall i | 0 <= i < |e + rest| ensures !IsRawMarkup((e + rest)[i]) {
        if i >= |e| {
          assert (e + rest)[i] == rest[i - |e|];
        } else if IsSpecial(s[0]) {
          assert i == 0 || !IsSpecial(e[i]);
        }
      }
    }
  }

  /** Escaping changes a string exactly when it holds a special character. */
  lemma EscapeIdentityIffSafe(s: string)
    ensures EscapeHtml(s) == s <==> IsSafe(s)
  {
    if IsSafe(s) {
      EscapeSafeIsIdentity(s);
    }
  }

  /** On a string without special characters escaping is the identity. */
  lemma {:induction false} EscapeSafeIsIdentity(s: string)
    requires IsSafe(s)
    ensures EscapeHtml(s) == s
  {
    if s != [] {
      assert !IsSpecial(s[0]);
      assert IsSafe(s[1..]) by {
        forall i | 0 <= i < |s[1..]| ensures !IsSpecial(s[1..][i]) {
          assert s[1..][i] == s[i + 1];
        }
      }
      EscapeSafeIsIdentity(s[1..]);
      assert s == [s[0]] + s[1..];
    }
  }

  /** t begins with p. */
  predicate StartsWith(t: string, p: string) {
    |p| <= |t| && t[..|p|] == p
  }

  /** The inverse of the entity table: decodes the five entities and copies
      every other character, a lone '&' included. */
  function Unescape(t: string): (r: string)
    ensures |r| <= |t|
    decreases |t|
  {
    if t == [] then []
    else if StartsWith(t, "&amp;") then "&" + Unescape(t[5..])
    else if StartsWith(t, "&lt;") then "<" + Unescape(t[4..])
    else if StartsWith(t, "&gt;") then ">" + Unescape(t[4..])
    else if StartsWith(t, "&quot;") then "\"" + Unescape(t[6..])
    else if StartsWith(t, "&#039;") then "'" + Unescape(t[6..])
    else [t[0]] + Unescape(t[1..])
  }

  /** Decoding one entity (or one plain character) in front of any text. */
  lemma UnescapeEntity(c: char, rest: string)
    ensures Unescape(Entity(c) + rest) == [c] + Unescape(rest)
  {
    var t := Entity(c) + rest;
    var e := Entity(c);
    assert t[..|e|] == e;
    assert t[|e|..] == rest;
    if !IsSpecial(c) {
      assert t[0] == c;
      assert !StartsWith(t, "&amp;") && !StartsWith(t, "&lt;") && !StartsWith(t, "&gt;");
      assert !StartsWith(t, "&quot;") && !StartsWith(t, "&#039;");
    } else if c == '<' || c == '>' {
      assert t[1] == e[1];
      assert !StartsWith(t, "&amp;");
    } else if c == '"' {
      assert t[1] == e[1];
      assert !StartsWith(t, "&amp;") && !StartsWith(t, "&lt;") && !StartsWith(t, "&gt;");
    } else if c == '\'' {
      assert t[1] == e[1];
      assert !StartsWith(t, "&amp;") && !StartsWith(t, "&lt;") && !StartsWith(t, "&gt;");
      assert !StartsWith(t, "&quot;");
    }
  }

  /** Round trip: the escaped text decodes back to the original, so no two
      titles render to the same markup. */
  lemma {:induction false} UnescapeEscape(s: string)
    ensures Unescape(EscapeHtml(s)) == s
  {
    if s != [] {
      UnescapeEntity(s[0], EscapeHtml(s[1..]));
      UnescapeEscape(s[1..]);
      assert s == [s[0]] + s[1..];
    }
  }

  /** Escaping is injective. */
  lemma EscapeInjective(a: string, b: string)
    requires EscapeHtml(a) == EscapeHtml(b)
    ensures a == b
  {
    UnescapeEscape(a);
    UnescapeEscape(b);
  }
}
