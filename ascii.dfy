/** Character classes shared by the cipher pages: ASCII letters, the ASCII part
    of `toLowerCase`, the whitespace that `trim` and the regex class `\s`
    remove, and the regex word class `\w`. */
module Ascii {

  predicate IsUpper(c: char) { 'A' <= c <= 'Z' }

  predicate IsLower(c: char) { 'a' <= c <= 'z' }

  /** The regex `/[a-z]/i`. */
  predicate IsLetter(c: char) { IsUpper(c) || IsLower(c) }

  /** One character of `toLowerCase`, restricted to ASCII. */
  function ToLower(c: char): (r: char)
    ensures IsUpper(c) ==> IsLower(r) && r as int == c as int + 32
    ensures !IsUpper(c) ==> r == c
  {
    if IsUpper(c) then (c as int + 32) as char else c
  }

  function Lower(s: string): (r: string)
    ensures |r| == |s|
    ensures forall i :: 0 <= i < |s| ==> r[i] == ToLower(s[i])
  {
    seq(|s|, i requires 0 <= i < |s| => ToLower(s[i]))
  }

  /** A fixed set standing for the white space and line terminators that
      `String.prototype.trim` and the regex class `\s` recognise. */
  predicate IsSpace(c: char) {
    c == ' ' || c == '\t' || c == '\n' || c == '\r'
    || c as int == 0x0B || c as int == 0x0C || c as int == 0xA0 || c as int == 0xFEFF
    || c as int == 0x2028 || c as int == 0x2029
  }

  /** The regex class `\w`. */
  predicate IsWordChar(c: char) { IsLetter(c) || ('0' <= c <= '9') || c == '_' }

  predicate AllSpace(s: string) { forall i :: 0 <= i < |s| ==> IsSpace(s[i]) }

  /** The length of the run of white space that starts the text. */
  function LeadingSpaces(s: string): (n: nat)
    ensures n <= |s|
    ensures forall i :: 0 <= i < n ==> IsSpace(s[i])
    ensures n < |s| ==> !IsSpace(s[n])
  {
    if s == [] || !IsSpace(s[0]) then 0 else 1 + LeadingSpaces(s[1..])
  }

  /** The length of the run of white space that ends the text. */
  function TrailingSpaces(s: string): (n: nat)
    ensures n <= |s|
    ensures forall i :: |s| - n <= i < |s| ==> IsSpace(s[i])
    ensures n < |s| ==> !IsSpace(s[|s| - 1 - n])
  {
    if s == [] || !IsSpace(s[|s| - 1]) then 0 else 1 + TrailingSpaces(s[..|s| - 1])
  }

  /** `String.prototype.trimStart`. */
  function TrimStart(s: string): string {
    s[LeadingSpaces(s)..]
  }

  function TrimEnd(s: string): string {
    s[..|s| - TrailingSpaces(s)]
  }

  /** `String.prototype.trim`: leading and trailing white space removed. */
  function Trim(s: string): string {
    TrimEnd(TrimStart(s))
  }

  /** `!text.trim()` holds exactly when the text is empty or only white space. */
  lemma TrimEmptyIffAllSpace(s: string)
    ensures Trim(s) == [] <==> AllSpace(s)
  {
    var n := LeadingSpaces(s);
    var t := s[n..];
    if n < |s| {
      assert t[0] == s[n];
      assert TrailingSpaces(t) < |t|;
    }
  }

  /** The handlers' `!text.trim()` test. */
  method IsBlank(s: string) returns (b: bool)
    ensures b <==> AllSpace(s)
  {
    TrimEmptyIffAllSpace(s);
    b := Trim(s) == [];
  }

  /** How often `c` occurs in `s`. */
  function Occurrences(s: string, c: char): nat {
    if s == [] then 0
    else Occurrences(s[..|s| - 1], c) + (if s[|s| - 1] == c then 1 else 0)
  }

  lemma {:induction false} OccurrencesAbsent(s: string, c: char)
    requires c !in s
    ensures Occurrences(s, c) == 0
  {
    if s != [] {
      assert c !in s[..|s| - 1];
      OccurrencesAbsent(s[..|s| - 1], c);
    }
  }

  lemma OccurrencesSnoc(p: string, ch: char)
    ensures forall c :: Occurrences(p + [ch], c) == Occurrences(p, c) + if ch == c then 1 else 0
  {
    assert (p + [ch])[..|p + [ch]| - 1] == p;
  }
}
