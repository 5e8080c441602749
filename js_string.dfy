/**
 * The two JavaScript string builtins the search filter relies on:
 * `String.prototype.trim` and `String.prototype.includes`.
 * Strings are sequences of characters; no case folding takes place,
 * so every comparison here is case-sensitive.
 */
module JsString {

  /** The characters `trim` strips: ECMA-262's WhiteSpace and LineTerminator
      code points. The lemmas below hold for any set of characters chosen here. */
  predicate IsWhiteSpace(c: char) {
    || c == '\t' || c == '\n' || c == '\U{000B}' || c == '\U{000C}' || c == '\r'
    || c == ' ' || c == '\U{00A0}' || c == '\U{1680}'
    || ('\U{2000}' <= c <= '\U{200A}')
    || c == '\U{2028}' || c == '\U{2029}' || c == '\U{202F}' || c == '\U{205F}'
    || c == '\U{3000}' || c == '\U{FEFF}'
  }

  /** Every character of `s` is white space (vacuously true of ""). */
  predicate IsBlank(s: string) {
    forall i :: 0 <= i < |s| ==> IsWhiteSpace(s[i])
  }

  /** Neither end of `s` is white space. */
  predicate HasSolidEnds(s: string) {
    s == [] || (!IsWhiteSpace(s[0]) && !IsWhiteSpace(s[|s| - 1]))
  }

  /** Skips white space forwards from index `i`: the result is the first
      index at or after `i` that is not white space, or `|s|`. */
  function SkipSpace(s: string, i: nat): (k: nat)
    requires i <= |s|
    ensures i <= k <= |s|
    ensures forall j :: i <= j < k ==> IsWhiteSpace(s[j])
    ensures k == |s| || !IsWhiteSpace(s[k])
    decreases |s| - i
  {
    if i < |s| && IsWhiteSpace(s[i]) then SkipSpace(s, i + 1) else i
  }

  /** Skips white space backwards from index `j` down to `lo`: the result is
      just past the last index before `j` that is not white space, or `lo`. */
  function SkipSpaceBack(s: string, lo: nat, j: nat): (k: nat)
    requires lo <= j <= |s|
    ensures lo <= k <= j
    ensures forall i :: k <= i < j ==> IsWhiteSpace(s[i])
    ensures k == lo || !IsWhiteSpace(s[k - 1])
    decreases j
  {
    if lo < j && IsWhiteSpace(s[j - 1]) then SkipSpaceBack(s, lo, j - 1) else j
  }

  /** Where the trimmed string starts in `s`. */
  function TrimOffset(s: string): (lo: nat)
    ensures lo <= |s|
  {
    SkipSpace(s, 0)
  }

  /** `String.prototype.trim`: the slice of `s` left once the white space at
      both ends is removed. Only white space is removed, and only at the ends. */
  function Trim(s: string): (r: string)
    ensures HasSolidEnds(r)
    ensures var lo := TrimOffset(s);
      && lo + |r| <= |s|
      && r == s[lo..lo + |r|]
      && (forall i :: 0 <= i < lo ==> IsWhiteSpace(s[i]))
      && (forall i :: lo + |r| <= i < |s| ==> IsWhiteSpace(s[i]))
  {
    var lo := TrimOffset(s);
    var hi := SkipSpaceBack(s, lo, |s|);
    s[lo..hi]
  }

  /** A string trims to "" exactly when it is blank (empty or all white space). */
  lemma TrimEmptyIffBlank(s: string)
    ensures Trim(s) == [] <==> IsBlank(s)
  {
  }

  /** Trim is characterised without reference to its definition: whenever `s`
      splits as white space, then `m` with solid ends, then white space, the
      trimmed string is `m`. */
  lemma TrimIsTheSolidCore(s: string, lo: nat, m: string)
    requires lo + |m| <= |s| && s[lo..lo + |m|] == m
    requires HasSolidEnds(m)
    requires forall i :: 0 <= i < lo ==> IsWhiteSpace(s[i])
    requires forall i :: lo + |m| <= i < |s| ==> IsWhiteSpace(s[i])
    ensures Trim(s) == m
  {
  }

  /** Trimming a trimmed string changes nothing. */
  lemma TrimIdempotent(s: string)
    ensures Trim(Trim(s)) == Trim(s)
  {
  }

  /** A string with no white space at either end is its own trim. */
  lemma TrimKeepsSolidString(s: string)
    requires HasSolidEnds(s)
    ensures Trim(s) == s
  {
  }

  /** `String.prototype.includes`: `needle` occurs in `hay` as a contiguous
      substring, compared character by character. The empty needle occurs
      in every string. */
  function Contains(hay: string, needle: string): (r: bool)
    ensures r <==> exists i :: 0 <= i <= |hay| - |needle| && needle <= hay[i..]
    decreases |hay|
  {
    if needle <= hay then
      assert needle <= hay[0..];
      true
    else if hay == [] then
      false
    else
      var r := Contains(hay[1..], needle);
      assert forall i :: 1 <= i <= |hay| ==> hay[1..][i - 1..] == hay[i..];
      r
  }
}
