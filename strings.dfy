/** `String.prototype.trim`, as used on the pending input before a task is
    added: it strips every leading and trailing ECMAScript white-space or
    line-terminator character and keeps the middle of the string as it is. */
module Strings {

  /** ECMAScript WhiteSpace (TAB, VT, FF, SP, NBSP, ZWNBSP and the Unicode
      space separators) and LineTerminator (LF, CR, LS, PS). All of them lie
      in the Basic Multilingual Plane, so each is one UTF-16 code unit. */
  predicate IsWhitespace(c: char): (b: bool)
    ensures b ==> c <= '\U{FEFF}'
  {
    || c == '\t' || c == '\n' || c == '\U{B}' || c == '\U{C}' || c == '\r'
    || c == ' ' || c == '\U{A0}' || c == '\U{1680}'
    || ('\U{2000}' <= c <= '\U{200A}')
    || c == '\U{2028}' || c == '\U{2029}' || c == '\U{202F}' || c == '\U{205F}'
    || c == '\U{3000}' || c == '\U{FEFF}'
  }

  /** Every character of `s` from position `lo` up to, not including,
      `hi` is white space. */
  predicate BlankBetween(s: string, lo: int, hi: int) {
    forall j :: lo <= j < hi && 0 <= j < |s| ==> IsWhitespace(s[j])
  }

  /** Every character of `s` is white space (true of the empty string). */
  predicate IsBlank(s: string) {
    BlankBetween(s, 0, |s|)
  }

  /** Neither end of `s` is white space: what `trim` leaves behind. */
  predicate IsTrimmed(s: string) {
    s == [] || (!IsWhitespace(s[0]) && !IsWhitespace(s[|s| - 1]))
  }

  /** The scan from position `i` past white space: it stops at the first
      character that is not white space, or at the end of `s`. */
  function SkipLeading(s: string, i: nat): (k: nat)
    requires i <= |s|
    ensures i <= k <= |s|
    ensures BlankBetween(s, i, k)
    ensures k < |s| ==> !IsWhitespace(s[k])
    decreases |s| - i
  {
    if i < |s| && IsWhitespace(s[i]) then SkipLeading(s, i + 1) else i
  }

  /** The scan from position `hi` back past white space, not below `lo`: it
      stops just after the last character that is not white space, or at
      `lo`. */
  function SkipTrailing(s: string, lo: nat, hi: nat): (k: nat)
    requires lo <= hi <= |s|
    ensures lo <= k <= hi
    ensures BlankBetween(s, k, hi)
    ensures lo < k ==> !IsWhitespace(s[k - 1])
    decreases hi
  {
    if lo < hi && IsWhitespace(s[hi - 1]) then SkipTrailing(s, lo, hi - 1) else hi
  }

  /** Where the trimmed text starts in `s`. */
  function TrimStart(s: string): nat {
    SkipLeading(s, 0)
  }

  /** Where the trimmed text ends in `s` (exclusive). */
  function TrimEnd(s: string): nat {
    SkipTrailing(s, TrimStart(s), |s|)
  }

  /** `s.trim()`: `s` splits into a blank prefix, the result and a blank
      suffix, and neither end of the result is white space. */
  function Trim(s: string): (r: string)
    ensures TrimStart(s) <= TrimEnd(s) <= |s|
    ensures s == s[..TrimStart(s)] + r + s[TrimEnd(s)..]
    ensures IsBlank(s[..TrimStart(s)]) && IsBlank(s[TrimEnd(s)..])
    ensures |r| <= |s| && IsTrimmed(r)
  {
    var lo, hi := TrimStart(s), TrimEnd(s);
    SplitAround(s, lo, hi);
    s[lo..hi]
  }

  /** Cutting `s` at `lo` and `hi` gives three pieces that join back to
      `s`; blank stretches of `s` are blank pieces. */
  lemma SplitAround(s: string, lo: nat, hi: nat)
    requires lo <= hi <= |s|
    requires BlankBetween(s, 0, lo) && BlankBetween(s, hi, |s|)
    requires lo < hi ==> !IsWhitespace(s[lo]) && !IsWhitespace(s[hi - 1])
    ensures s == s[..lo] + s[lo..hi] + s[hi..]
    ensures IsBlank(s[..lo]) && IsBlank(s[hi..])
    ensures IsTrimmed(s[lo..hi])
  {
    assert s == s[..lo] + s[lo..hi] + s[hi..];
  }

  /** `trim` yields the empty string exactly when `s` is blank, so the add
      handler's guard rejects precisely the inputs made of white space. */
  lemma TrimEmptyIffBlank(s: string)
    ensures Trim(s) == [] <==> IsBlank(s)
  {
    var lo, hi := TrimStart(s), TrimEnd(s);
    if lo < hi {
      assert !IsWhitespace(s[lo]);
    }
  }

  /** A string whose ends are not white space is left alone by `trim`. */
  lemma TrimOfTrimmed(s: string)
    requires IsTrimmed(s)
    ensures Trim(s) == s
  {
    assert TrimStart(s) == 0;
    assert s[0..|s|] == s;
  }

  /** `trim` is idempotent: the text stored in a task is its own trim. */
  lemma TrimIdempotent(s: string)
    ensures Trim(Trim(s)) == Trim(s)
  {
    TrimOfTrimmed(Trim(s));
  }
}
