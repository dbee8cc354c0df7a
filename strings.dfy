/**
 * The string operations the pages rely on: `String.prototype.trim`,
 * `toLowerCase` (restricted to ASCII letters) and `includes`.
 */
module Strings {

  /** White space and line terminators as ECMAScript's `trim` removes them. */
  predicate IsSpace(c: char) {
    || c == '\t' || c == '\n' || c == '\U{000B}' || c == '\U{000C}' || c == '\r'
    || c == ' ' || c == '\U{00A0}' || c == '\U{1680}'
    || ('\U{2000}' <= c <= '\U{200A}')
    || c == '\U{2028}' || c == '\U{2029}' || c == '\U{202F}' || c == '\U{205F}'
    || c == '\U{3000}' || c == '\U{FEFF}'
  }

  predicate IsBlank(s: string) {
    forall k :: 0 <= k < |s| ==> IsSpace(s[k])
  }

  /** Drops leading white space. */
  function TrimStart(s: string): (r: string)
    ensures |r| <= |s| && r == s[|s| - |r|..]
    ensures IsBlank(s[..|s| - |r|])
    ensures r == [] || !IsSpace(r[0])
  {
    if s != [] && IsSpace(s[0]) then
      var t := s[1..];
      var r := TrimStart(t);
      assert s[..|s| - |r|] == [s[0]] + t[..|t| - |r|];
      BlankCons(s[0], t[..|t| - |r|]);
      r
    else s
  }

  lemma BlankCons(c: char, s: string)
    requires IsSpace(c) && IsBlank(s)
    ensures IsBlank([c] + s)
  {
    forall k | 0 <= k < |s| + 1 ensures IsSpace(([c] + s)[k]) {
      if k > 0 { assert ([c] + s)[k] == s[k - 1]; }
    }
  }

  /** Drops trailing white space. */
  function TrimEnd(s: string): (r: string)
    ensures |r| <= |s| && r == s[..|r|]
    ensures IsBlank(s[|r|..])
    ensures r == [] || !IsSpace(r[|r| - 1])
  {
    if s != [] && IsSpace(s[|s| - 1]) then
      var t := s[..|s| - 1];
      var r := TrimEnd(t);
      assert s[|r|..] == t[|r|..] + [s[|s| - 1]];
      r
    else s
  }

  /** `s.trim()`: neither starts nor ends with white space. */
  function Trim(s: string): (r: string)
    ensures |r| <= |s|
    ensures r == [] || (!IsSpace(r[0]) && !IsSpace(r[|r| - 1]))
  {
    TrimEnd(TrimStart(s))
  }

  /** What `trim` removes is white space: `s` is a blank prefix, the trimmed string and a blank suffix. */
  lemma TrimIsInfix(s: string) returns (i: nat)
    ensures i + |Trim(s)| <= |s| && Trim(s) <= s[i..]
    ensures IsBlank(s[..i]) && IsBlank(s[i + |Trim(s)|..])
  {
    var t := TrimStart(s);
    var r := TrimEnd(t);
    i := |s| - |t|;
    assert r <= s[i..];
    assert s[i + |r|..] == t[|r|..];
  }

  /** `s.trim() === ''` holds exactly when every character of `s` is white space. */
  lemma TrimEmptyIffBlank(s: string)
    ensures Trim(s) == [] <==> IsBlank(s)
  {
    var i := TrimIsInfix(s);
    if Trim(s) == [] {
      BlankHalves(s, i);
    } else {
      assert Trim(s)[0] == s[i];
    }
  }

  lemma BlankHalves(s: string, i: nat)
    requires i <= |s| && IsBlank(s[..i]) && IsBlank(s[i..])
    ensures IsBlank(s)
  {
    forall k | 0 <= k < |s| ensures IsSpace(s[k]) {
      if k < i { assert s[..i][k] == s[k]; } else { assert s[i..][k - i] == s[k]; }
    }
  }

  /** ASCII upper-case letters are lowered; every other character is kept. */
  function LowerChar(c: char): (r: char)
    ensures 'A' <= c <= 'Z' ==> r as int == c as int + 32
    ensures !('A' <= c <= 'Z') ==> r == c
  {
    if 'A' <= c <= 'Z' then (c as int + 32) as char else c
  }

  /** `s.toLowerCase()` on ASCII letters. */
  function Lower(s: string): (r: string)
    ensures |r| == |s|
    ensures forall k :: 0 <= k < |s| ==> r[k] == LowerChar(s[k])
  {
    if s == [] then [] else [LowerChar(s[0])] + Lower(s[1..])
  }

  /** `haystack.includes(needle)`. */
  predicate Contains(haystack: string, needle: string) {
    exists i :: 0 <= i <= |haystack| && needle <= haystack[i..]
  }

  /** The empty needle is found in every haystack, so an empty term keeps every row. */
  lemma EmptyNeedleFound(haystack: string)
    ensures Contains(haystack, "")
  {
    assert "" <= haystack[0..];
  }

  /** A needle longer than the haystack is never found. */
  lemma LongerNeedleMissing(haystack: string, needle: string)
    requires |needle| > |haystack|
    ensures !Contains(haystack, needle)
  {
  }

  /** A substring of a substring is a substring. */
  lemma ContainsTransitive(haystack: string, middle: string, needle: string)
    requires Contains(haystack, middle) && Contains(middle, needle)
    ensures Contains(haystack, needle)
  {
    var i :| 0 <= i <= |haystack| && middle <= haystack[i..];
    var j :| 0 <= j <= |middle| && needle <= middle[j..];
    assert needle <= haystack[i + j..] by {
      forall k | 0 <= k < |needle| ensures needle[k] == haystack[i + j + k] {
        assert needle[k] == middle[j + k];
      }
    }
  }
}
