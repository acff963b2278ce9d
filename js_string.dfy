/**
 * The part of ECMAScript's String.prototype.trim that the to-do list relies on:
 * removing leading and trailing white space and line terminators.
 */
module JsString {

  /** The WhiteSpace and LineTerminator code points of the ECMAScript language
      specification (tab, vertical tab, form feed, the byte-order mark, every
      space separator, line feed, carriage return, line and paragraph separator). */
  predicate IsWhitespace(c: char) {
    c == '\t' || c == '\n' || c == '\U{000B}' || c == '\U{000C}' || c == '\r'
    || c == ' ' || c == '\U{00A0}' || c == '\U{1680}'
    || ('\U{2000}' <= c <= '\U{200A}')
    || c == '\U{2028}' || c == '\U{2029}' || c == '\U{202F}' || c == '\U{205F}'
    || c == '\U{3000}' || c == '\U{FEFF}'
  }

  /** A string that trims to the empty string ("blank"). */
  predicate AllWhitespace(s: string) {
    forall i :: 0 <= i < |s| ==> IsWhitespace(s[i])
  }

  /** The length of the longest all-white-space prefix of `s`. */
  function LeadingWhitespace(s: string): (n: nat)
    ensures n <= |s|
    ensures forall i :: 0 <= i < n ==> IsWhitespace(s[i])
    ensures n < |s| ==> !IsWhitespace(s[n])
  {
    if s != [] && IsWhitespace(s[0]) then 1 + LeadingWhitespace(s[1..]) else 0
  }

  /** The length of the longest all-white-space suffix of `s`. */
  function TrailingWhitespace(s: string): (n: nat)
    ensures n <= |s|
    ensures forall i :: |s| - n <= i < |s| ==> IsWhitespace(s[i])
    ensures n < |s| ==> !IsWhitespace(s[|s| - 1 - n])
  {
    if s != [] && IsWhitespace(s[|s| - 1]) then 1 + TrailingWhitespace(s[..|s| - 1]) else 0
  }

  /** String.prototype.trim: what is left of `s` once the white space at both
      ends is removed. It is empty exactly when `s` is blank, and otherwise an
      infix of `s` that neither starts nor ends with white space and outside of
      which `s` holds only white space. */
  function Trim(s: string): (r: string)
    ensures |r| <= |s|
    ensures r == [] <==> AllWhitespace(s)
    ensures r != [] ==> !IsWhitespace(r[0]) && !IsWhitespace(r[|r| - 1])
    ensures r != [] ==> var lead := LeadingWhitespace(s);
      lead + |r| <= |s| && r == s[lead..lead + |r|]
      && forall i :: 0 <= i < |s| && !(lead <= i < lead + |r|) ==> IsWhitespace(s[i])
  {
    var lead := LeadingWhitespace(s);
    if lead == |s| then
      []
    else
      var trail := TrailingWhitespace(s);
      assert lead < |s| - trail;
      var r := s[lead..|s| - trail];
      assert r[0] == s[lead] && r[|r| - 1] == s[|s| - 1 - trail];
      assert !AllWhitespace(s) by { assert !IsWhitespace(s[lead]); }
      r
  }

  /** Trimming twice is trimming once. */
  lemma TrimIdempotent(s: string)
    ensures Trim(Trim(s)) == Trim(s)
  {
  }
}
