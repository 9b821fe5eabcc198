/**
 * The few JavaScript string primitives the page script relies on:
 * the whitespace class shared by `String.prototype.trim` and the regular
 * expression escape `\s`, `trim` itself, `length` (counted in UTF-16 code
 * units) and a first-occurrence search.
 */
module JsText {

  /** ECMAScript WhiteSpace and LineTerminator code points: what `trim()` strips and `\s` matches. */
  predicate IsWhitespace(c: char)
  {
    var n := c as int;
    (0x09 <= n <= 0x0D) || n == 0x20 || n == 0xA0 || n == 0x1680 || (0x2000 <= n <= 0x200A) ||
    n == 0x2028 || n == 0x2029 || n == 0x202F || n == 0x205F || n == 0x3000 || n == 0xFEFF
  }

  predicate NoWhitespace(s: string)
  {
    forall k :: 0 <= k < |s| ==> !IsWhitespace(s[k])
  }

  /** The first index at or after `i` that holds a non-blank, or `|s|`. */
  function SkipBlanks(s: string, i: nat): (j: nat)
    requires i <= |s|
    ensures i <= j <= |s|
    ensures forall k :: i <= k < j ==> IsWhitespace(s[k])
    ensures j < |s| ==> !IsWhitespace(s[j])
    decreases |s| - i
  {
    if i < |s| && IsWhitespace(s[i]) then SkipBlanks(s, i + 1) else i
  }

  /** Going down from `j`, but not below `lo`: the end of the last non-blank, or `lo`. */
  function SkipBlanksBack(s: string, lo: nat, j: nat): (e: nat)
    requires lo <= j <= |s|
    ensures lo <= e <= j
    ensures forall k :: e <= k < j ==> IsWhitespace(s[k])
    ensures e > lo ==> !IsWhitespace(s[e - 1])
    decreases j
  {
    if j > lo && IsWhitespace(s[j - 1]) then SkipBlanksBack(s, lo, j - 1) else j
  }

  /** `r` is `s` without whitespace at either end: an infix whose outside is blank and whose ends are not. */
  ghost predicate IsTrimOf(r: string, s: string)
  {
    exists i, j {:trigger s[i..j]} ::
      0 <= i <= j <= |s| && r == s[i..j] &&
      (forall k :: 0 <= k < i ==> IsWhitespace(s[k])) &&
      (forall k :: j <= k < |s| ==> IsWhitespace(s[k])) &&
      (r != [] ==> !IsWhitespace(r[0]) && !IsWhitespace(r[|r| - 1]))
  }

  /** `String.prototype.trim`: strips whitespace at both ends (see TrimCharacterized). */
  function Trim(s: string): (r: string)
  {
    s[SkipBlanks(s, 0)..SkipBlanksBack(s, SkipBlanks(s, 0), |s|)]
  }

  /**
   * What `trim` returns: the infix of `s` whose outside is all whitespace and
   * whose two ends are not, empty exactly when `s` is all whitespace.
   */
  lemma TrimCharacterized(s: string)
    ensures IsTrimOf(Trim(s), s)
    ensures Trim(s) == [] <==> forall k :: 0 <= k < |s| ==> IsWhitespace(s[k])
  {
    var i := SkipBlanks(s, 0);
    var j := SkipBlanksBack(s, i, |s|);
    var r := s[i..j];
    assert r != [] ==> r[0] == s[i] && r[|r| - 1] == s[j - 1];
    assert i < |s| ==> j > i;
  }

  lemma {:induction false} SkipBlanksStopsAt(s: string, i: nat, m: nat)
    requires i <= m <= |s|
    requires forall k :: i <= k < m ==> IsWhitespace(s[k])
    requires m < |s| ==> !IsWhitespace(s[m])
    ensures SkipBlanks(s, i) == m
    decreases m - i
  {
    if i < m {
      SkipBlanksStopsAt(s, i + 1, m);
    }
  }

  lemma {:induction false} SkipBlanksBackStopsAt(s: string, lo: nat, j: nat, m: nat)
    requires lo <= m <= j <= |s|
    requires forall k :: m <= k < j ==> IsWhitespace(s[k])
    requires m > lo ==> !IsWhitespace(s[m - 1])
    ensures SkipBlanksBack(s, lo, j) == m
    decreases j - m
  {
    if m < j {
      SkipBlanksBackStopsAt(s, lo, j - 1, m);
    }
  }

  /** Only one infix of `s` meets the description of `trim`. */
  lemma TrimOfIsUnique(r: string, s: string)
    requires IsTrimOf(r, s)
    ensures r == Trim(s)
  {
    var i, j :| 0 <= i <= j <= |s| && r == s[i..j] &&
      (forall k :: 0 <= k < i ==> IsWhitespace(s[k])) &&
      (forall k :: j <= k < |s| ==> IsWhitespace(s[k])) &&
      (r != [] ==> !IsWhitespace(r[0]) && !IsWhitespace(r[|r| - 1]));
    if r == [] {
      assert i == j;
      SkipBlanksStopsAt(s, 0, |s|);
      SkipBlanksBackStopsAt(s, |s|, |s|, |s|);
    } else {
      assert s[i] == r[0] && s[j - 1] == r[|r| - 1];
      SkipBlanksStopsAt(s, 0, i);
      SkipBlanksBackStopsAt(s, i, |s|, j);
    }
  }

  /** `trim` leaves a string with no blank ends unchanged. */
  lemma TrimKeepsTrimmed(s: string)
    requires s != [] ==> !IsWhitespace(s[0]) && !IsWhitespace(s[|s| - 1])
    ensures Trim(s) == s
  {
    assert s == s[0..|s|];
    TrimOfIsUnique(s, s);
  }

  /** `trim` is idempotent. */
  lemma TrimIdempotent(s: string)
    ensures Trim(Trim(s)) == Trim(s)
  {
    TrimKeepsTrimmed(Trim(s));
  }

  /** Whitespace appended after a string with no blank ends is exactly what `trim` removes. */
  lemma TrimDropsTrailingBlanks(s: string, pad: string)
    requires s != [] ==> !IsWhitespace(s[0]) && !IsWhitespace(s[|s| - 1])
    requires forall k :: 0 <= k < |pad| ==> IsWhitespace(pad[k])
    ensures Trim(s + pad) == s
  {
    var u := s + pad;
    assert s == u[0..|s|];
    forall k | |s| <= k < |u| ensures IsWhitespace(u[k]) {
      assert u[k] == pad[k - |s|];
    }
    TrimOfIsUnique(s, u);
  }

  /** Width of one code point in UTF-16 code units: two for the supplementary planes. */
  function Utf16Units(c: char): nat
  {
    if c as int > 0xFFFF then 2 else 1
  }

  /** JavaScript's `length` of a string: the number of UTF-16 code units. */
  function Utf16Length(s: string): (n: nat)
    ensures |s| <= n <= 2 * |s|
    ensures (forall k :: 0 <= k < |s| ==> s[k] as int <= 0xFFFF) ==> n == |s|
  {
    if s == [] then 0 else Utf16Units(s[0]) + Utf16Length(s[1..])
  }

  /** `length` of a concatenation is the sum of the lengths. */
  lemma {:induction false} Utf16LengthAppend(s: string, t: string)
    ensures Utf16Length(s + t) == Utf16Length(s) + Utf16Length(t)
  {
    if s == [] {
      assert s + t == t;
    } else {
      assert (s + t)[1..] == s[1..] + t;
      Utf16LengthAppend(s[1..], t);
    }
  }

  /** The index of the first `c` in `s`, or `|s|` when there is none. */
  function IndexOf(s: string, c: char): (i: nat)
    ensures i <= |s|
    ensures i < |s| ==> s[i] == c
    ensures forall k :: 0 <= k < i ==> s[k] != c
  {
    if s == [] then 0 else if s[0] == c then 0 else 1 + IndexOf(s[1..], c)
  }
}
