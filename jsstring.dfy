/**
 * The few ECMAScript string built-ins the route uses: `trim`, `length`,
 * `toLowerCase` and `includes`. Strings are sequences of Unicode scalar
 * values; `length` counts UTF-16 code units as JavaScript does.
 */
module JsString {

  /** ECMAScript WhiteSpace and LineTerminator code points outside the U+2000..U+200A block. */
  const WHITE_SPACE: set<char> :=
    {'\t', '\n', '\U{000B}', '\U{000C}', '\r', ' ', '\U{00A0}', '\U{1680}',
     '\U{2028}', '\U{2029}', '\U{202F}', '\U{205F}', '\U{3000}', '\U{FEFF}'}

  /** A character `String.prototype.trim` strips. */
  predicate IsTrimmable(c: char) {
    c in WHITE_SPACE || ('\U{2000}' <= c <= '\U{200A}')
  }

  /** Position of the first character at or after `from` that is not white space, |s| if there is none. */
  function FirstNonWhite(s: string, from: nat): (i: nat)
    requires from <= |s|
    ensures from <= i <= |s|
    ensures i < |s| ==> !IsTrimmable(s[i])
    ensures forall k :: from <= k < i ==> IsTrimmable(s[k])
    decreases |s| - from
  {
    if from < |s| && IsTrimmable(s[from]) then FirstNonWhite(s, from + 1) else from
  }

  /** One past the last character of s[lo..hi] that is not white space, `lo` if there is none. */
  function EndOfNonWhite(s: string, lo: nat, hi: nat): (j: nat)
    requires lo <= hi <= |s|
    ensures lo <= j <= hi
    ensures j > lo ==> !IsTrimmable(s[j - 1])
    ensures forall k :: j <= k < hi ==> IsTrimmable(s[k])
    decreases hi
  {
    if lo < hi && IsTrimmable(s[hi - 1]) then EndOfNonWhite(s, lo, hi - 1) else hi
  }

  /** `String.prototype.trim`: white space dropped at both ends, so the result neither starts nor ends with it. */
  function Trim(s: string): (r: string)
    ensures |r| <= |s|
    ensures r == [] || (!IsTrimmable(r[0]) && !IsTrimmable(r[|r| - 1]))
  {
    var i := FirstNonWhite(s, 0);
    s[i..EndOfNonWhite(s, i, |s|)]
  }

  /** Trim keeps a slice of its input: what it drops before and after that slice is all white space. */
  lemma TrimDropsOnlyWhiteSpace(s: string)
    ensures exists i, j ::
      (0 <= i <= j <= |s| && Trim(s) == s[i..j]
       && (forall k :: 0 <= k < i ==> IsTrimmable(s[k]))
       && (forall k :: j <= k < |s| ==> IsTrimmable(s[k])))
  {
    var i := FirstNonWhite(s, 0);
    var j := EndOfNonWhite(s, i, |s|);
    assert Trim(s) == s[i..j];
  }

  /** Trim is determined by its characterisation: any slice with white-space margins and non-white ends is the trimmed string. */
  lemma TrimUnique(s: string, i: nat, j: nat)
    requires i < j <= |s|
    requires forall k :: 0 <= k < i ==> IsTrimmable(s[k])
    requires forall k :: j <= k < |s| ==> IsTrimmable(s[k])
    requires !IsTrimmable(s[i]) && !IsTrimmable(s[j - 1])
    ensures Trim(s) == s[i..j]
  {
    var i' := FirstNonWhite(s, 0);
    assert i' <= i;
    assert i' == i;
    var j' := EndOfNonWhite(s, i, |s|);
    assert j' >= j;
    assert j' == j;
  }

  /** A string made only of white space trims to the empty string, and only such a string does. */
  lemma TrimEmptyIff(s: string)
    ensures Trim(s) == [] <==> forall k :: 0 <= k < |s| ==> IsTrimmable(s[k])
  {
    var i := FirstNonWhite(s, 0);
    if Trim(s) != [] {
      assert s[i] == Trim(s)[0];
    }
  }

  /** JavaScript's `length`: the number of UTF-16 code units, two for a code point above U+FFFF. */
  function Utf16Length(s: string): (n: nat)
    ensures |s| <= n <= 2 * |s|
    ensures n == 0 <==> s == []
    decreases |s|
  {
    if s == [] then 0
    else Utf16Length(s[..|s| - 1]) + (if s[|s| - 1] as int > 0xFFFF then 2 else 1)
  }

  /** ASCII lower-casing of one character: upper-case letters map to their lower-case forms, nothing else moves. */
  function LowerChar(c: char): (d: char)
    ensures !('A' <= d <= 'Z')
    ensures d == c || 'A' <= c <= 'Z'
    ensures 'A' <= c <= 'Z' ==> d as int - c as int == 'a' as int - 'A' as int
  {
    if 'A' <= c <= 'Z' then (c as int - 'A' as int + 'a' as int) as char else c
  }

  /** `toLowerCase`, restricted to ASCII letters. */
  function ToLower(s: string): (r: string)
    ensures |r| == |s|
    ensures forall k :: 0 <= k < |s| ==> r[k] == LowerChar(s[k])
  {
    seq(|s|, k requires 0 <= k < |s| => LowerChar(s[k]))
  }

  /** Two strings that differ at most in the case of their letters, position by position. */
  predicate SameUpToCase(a: string, b: string) {
    |a| == |b| && forall k :: 0 <= k < |a| ==> LowerChar(a[k]) == LowerChar(b[k])
  }

  /** Lower-casing identifies exactly the strings that differ only in case. */
  lemma SameUpToCaseIff(a: string, b: string)
    ensures SameUpToCase(a, b) <==> ToLower(a) == ToLower(b)
  {
    if ToLower(a) == ToLower(b) {
      assert |a| == |ToLower(a)| == |ToLower(b)| == |b|;
      forall k | 0 <= k < |a|
        ensures LowerChar(a[k]) == LowerChar(b[k])
      {
        assert ToLower(a)[k] == ToLower(b)[k];
      }
    }
  }

  /** `needle` occurs in `hay` starting at position `i`. */
  predicate OccursAt(hay: string, needle: string, i: nat) {
    i + |needle| <= |hay| && hay[i..i + |needle|] == needle
  }

  /** `String.prototype.includes`: true exactly when `needle` occurs somewhere in `hay`. */
  function Includes(hay: string, needle: string): (b: bool)
    ensures b <==> exists i: nat :: OccursAt(hay, needle, i)
    decreases |hay|
  {
    if |needle| <= |hay| && hay[..|needle|] == needle then
      assert OccursAt(hay, needle, 0);
      true
    else if |hay| <= |needle| then
      assert forall i: nat :: !OccursAt(hay, needle, i) by {
        forall i: nat ensures !OccursAt(hay, needle, i) {
          if i == 0 {
          }
        }
      }
      false
    else
      var b := Includes(hay[1..], needle);
      assert forall i: nat :: OccursAt(hay[1..], needle, i) <==> OccursAt(hay, needle, i + 1) by {
        forall i: nat ensures OccursAt(hay[1..], needle, i) <==> OccursAt(hay, needle, i + 1) {
          if i + |needle| <= |hay[1..]| {
            assert hay[1..][i..i + |needle|] == hay[i + 1..i + 1 + |needle|];
          }
        }
      }
      assert b <==> exists i: nat :: OccursAt(hay, needle, i) by {
        if exists i: nat :: OccursAt(hay, needle, i) {
          var i: nat :| OccursAt(hay, needle, i);
          assert i != 0;
          assert OccursAt(hay[1..], needle, i - 1);
        }
      }
      b
  }

  /** The empty string contains only the empty string. */
  lemma EmptyIncludesOnlyEmpty(needle: string)
    ensures Includes("", needle) <==> needle == []
  {
    if needle == [] {
      assert OccursAt("", needle, 0);
    }
  }

  /** Lower-casing a concrete mixed-case address folds only its two capitals; the queries fold likewise. */
  lemma LowerExampleAddress()
    ensures ToLower("Alice@Example.com") == "alice@example.com"
    ensures ToLower("alice") == "alice" && ToLower("EXAMPLE") == "example" && ToLower("e@ex") == "e@ex"
  {
    var r := ToLower("Alice@Example.com");
    assert r[0] == 'a' && r[6] == 'e';
    assert forall k :: 0 <= k < |r| && k != 0 && k != 6 ==> r[k] == "Alice@Example.com"[k];
  }

  /** Case-insensitive containment on a concrete address: the lower-cased `Alice@Example.com` contains three differently cased queries. */
  lemma CaseInsensitiveExample()
    ensures Includes(ToLower("Alice@Example.com"), ToLower("alice"))
    ensures Includes(ToLower("Alice@Example.com"), ToLower("EXAMPLE"))
    ensures Includes(ToLower("Alice@Example.com"), ToLower("e@ex"))
  {
    LowerExampleAddress();
    var hay := "alice@example.com";
    assert OccursAt(hay, "alice", 0);
    assert OccursAt(hay, "example", 6);
    assert OccursAt(hay, "e@ex", 4);
  }
}
