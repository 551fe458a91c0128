/**
 * The add-book form check: both fields are trimmed the way
 * String.prototype.trim does, and the submission goes ahead only when
 * neither trimmed value is the empty (falsy) string.
 */
module Validation {
  import opened Wrappers

  /** The characters String.prototype.trim strips: the ECMAScript WhiteSpace
      code points (tab, vertical tab, form feed, space, no-break space, the
      byte-order mark and the other space separators) and the LineTerminator
      code points. */
  predicate IsWhitespace(c: char) {
    c == '\t' || c == '\n' || c == '\U{000B}' || c == '\U{000C}' || c == '\r' ||
    c == ' ' || c == '\U{00A0}' || c == '\U{1680}' ||
    ('\U{2000}' <= c <= '\U{200A}') ||
    c == '\U{2028}' || c == '\U{2029}' || c == '\U{202F}' || c == '\U{205F}' ||
    c == '\U{3000}' || c == '\U{FEFF}'
  }

  /** Every character of s is whitespace (so trimming leaves nothing). */
  predicate IsBlank(s: string) {
    forall i :: 0 <= i < |s| ==> IsWhitespace(s[i])
  }

  /** s with its leading whitespace removed: a suffix of s that starts with a
      non-whitespace character, preceded in s only by whitespace. */
  function TrimStart(s: string): (r: string)
    ensures |r| <= |s| && r == s[|s| - |r|..]
    ensures forall i :: 0 <= i < |s| - |r| ==> IsWhitespace(s[i])
    ensures r == [] || !IsWhitespace(r[0])
  {
    if s != [] && IsWhitespace(s[0]) then TrimStart(s[1..]) else s
  }

  /** s with its trailing whitespace removed: a prefix of s that ends with a
      non-whitespace character, followed in s only by whitespace. */
  function TrimEnd(s: string): (r: string)
    ensures |r| <= |s| && r == s[..|r|]
    ensures forall i :: |r| <= i < |s| ==> IsWhitespace(s[i])
    ensures r == [] || !IsWhitespace(r[|r| - 1])
  {
    if s != [] && IsWhitespace(s[|s| - 1]) then TrimEnd(s[..|s| - 1]) else s
  }

  /** r is the slice of s at offset k, and everything of s before and after
      that slice is whitespace. */
  predicate StripsTo(s: string, k: int, r: string) {
    0 <= k <= |s| - |r| && r == s[k..k + |r|] &&
    (forall i :: 0 <= i < k ==> IsWhitespace(s[i])) &&
    (forall i :: k + |r| <= i < |s| ==> IsWhitespace(s[i]))
  }

  /** String.prototype.trim: the result is the slice of s left once the
      whitespace before it and after it is removed, so it is empty exactly
      when s is blank, and otherwise neither starts nor ends with whitespace. */
  function Trim(s: string): (r: string)
    ensures r == [] <==> IsBlank(s)
    ensures r != [] ==> !IsWhitespace(r[0]) && !IsWhitespace(r[|r| - 1])
    ensures exists k :: StripsTo(s, k, r)
  {
    var t := TrimStart(s);
    var r := TrimEnd(t);
    var k := |s| - |t|;
    assert r == s[k..k + |r|];
    assert r == [] ==> t == [];
    forall i | k + |r| <= i < |s| ensures IsWhitespace(s[i]) {
      assert s[i] == t[i - k];
    }
    assert StripsTo(s, k, r);
    r
  }

  /** Trimming twice is trimming once. */
  lemma TrimIdempotent(s: string)
    ensures Trim(Trim(s)) == Trim(s)
  {
    var r := Trim(s);
    if r != [] {
      assert TrimStart(r) == r;
      assert TrimEnd(r) == r;
    }
  }

  /** The values a valid submission sends: both trimmed. */
  datatype Submission = Submission(title: string, author: string)

  /** The guard of the add-book handler: the submission is refused exactly
      when the title or the author is blank, and otherwise carries the
      trimmed values, both non-empty. */
  function Validate(titleInput: string, authorInput: string): (r: Option<Submission>)
    ensures r.None? <==> IsBlank(titleInput) || IsBlank(authorInput)
    ensures r.Some? ==> r.value.title != [] && r.value.author != []
    ensures r.Some? ==> r.value.title == Trim(titleInput) && r.value.author == Trim(authorInput)
  {
    var title := Trim(titleInput);
    var author := Trim(authorInput);
    if title == [] || author == [] then None else Some(Submission(title, author))
  }
}
