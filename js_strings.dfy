/**
 * The few JavaScript string built-ins both core files rely on, stated on `seq<char>`:
 * `lastIndexOf`, `indexOf` and an ASCII-only `toLowerCase`.
 */
module JsStrings {

  /** `p` occurs in `s` starting at index `k`. */
  predicate MatchAt(s: string, p: string, k: int)
  {
    0 <= k && k + |p| <= |s| && s[k..k + |p|] == p
  }

  lemma MatchAtChar(s: string, c: char, k: int)
    ensures MatchAt(s, [c], k) <==> 0 <= k < |s| && s[k] == c
  {
    if 0 <= k < |s| {
      assert s[k..k + 1] == [s[k]];
    }
  }

  /** The value `lastIndexOf` clamps its position argument to: `min(max(from, 0), |s|)`. */
  function ClampPosition(s: string, from: int): (r: nat)
    ensures r <= |s|
    ensures 0 <= from <= |s| ==> r == from
  {
    if from < 0 then 0 else if from > |s| then |s| else from
  }

  /** The greatest match position at or below `j`, or -1. */
  function LastMatchFrom(s: string, p: string, j: int): (k: int)
    ensures k == -1 || 0 <= k <= j
    ensures k >= 0 ==> MatchAt(s, p, k)
    decreases j + 1
  {
    if j < 0 then -1
    else if MatchAt(s, p, j) then j
    else LastMatchFrom(s, p, j - 1)
  }

  /** No match lies between the one found and `j`. */
  lemma {:induction false} LastMatchFromIsLast(s: string, p: string, j: int, i: int)
    requires LastMatchFrom(s, p, j) < i <= j
    ensures !MatchAt(s, p, i)
    decreases j + 1
  {
    if i < j && !MatchAt(s, p, j) {
      LastMatchFromIsLast(s, p, j - 1, i);
    }
  }

  /** `s.lastIndexOf(p, from)` for a non-empty `p`. */
  function LastIndexOf(s: string, p: string, from: int): (k: int)
    requires |p| > 0
    ensures -1 <= k
    ensures k >= 0 ==> MatchAt(s, p, k) && k <= ClampPosition(s, from)
    ensures from >= 0 ==> k <= from
  {
    LastMatchFrom(s, p, ClampPosition(s, from))
  }

  /** `lastIndexOf` finds the last occurrence: none lies after it, up to `from`. */
  lemma LastIndexOfIsLast(s: string, p: string, from: int, i: int)
    requires |p| > 0 && LastIndexOf(s, p, from) < i <= from
    ensures !MatchAt(s, p, i)
  {
    if i <= ClampPosition(s, from) {
      LastMatchFromIsLast(s, p, ClampPosition(s, from), i);
    }
  }

  /** The least match position at or above `j`, or -1. */
  function FirstMatchFrom(s: string, p: string, j: nat): (k: int)
    ensures k == -1 || (j <= k && MatchAt(s, p, k))
    decreases |s| - j
  {
    if j + |p| > |s| then -1
    else if MatchAt(s, p, j) then j
    else FirstMatchFrom(s, p, j + 1)
  }

  /** No match lies between `j` and the one found (or anywhere from `j` on, when none is). */
  lemma {:induction false} FirstMatchFromIsFirst(s: string, p: string, j: nat, i: int)
    requires j <= i && (FirstMatchFrom(s, p, j) == -1 || i < FirstMatchFrom(s, p, j))
    ensures !MatchAt(s, p, i)
    decreases |s| - j
  {
    if j + |p| <= |s| && !MatchAt(s, p, j) && i > j {
      FirstMatchFromIsFirst(s, p, j + 1, i);
    }
  }

  /** `s.indexOf(p, from)` for a non-empty `p` and `from >= 0`. */
  function IndexOf(s: string, p: string, from: nat): (k: int)
    requires |p| > 0
    ensures k == -1 || (from <= k && MatchAt(s, p, k))
  {
    FirstMatchFrom(s, p, from)
  }

  /** `indexOf` finds the first occurrence at or after `from`. */
  lemma IndexOfIsFirst(s: string, p: string, from: nat, i: int)
    requires |p| > 0 && from <= i && (IndexOf(s, p, from) == -1 || i < IndexOf(s, p, from))
    ensures !MatchAt(s, p, i)
  {
    FirstMatchFromIsFirst(s, p, from, i);
  }

  /** ASCII `toLowerCase` of one character. */
  function LowerChar(c: char): char
  {
    if 'A' <= c <= 'Z' then (c as int + 32) as char else c
  }

  /** ASCII `toLowerCase` of a string. */
  function Lower(s: string): (r: string)
    ensures |r| == |s|
    ensures forall i :: 0 <= i < |s| ==> r[i] == LowerChar(s[i])
  {
    seq(|s|, i requires 0 <= i < |s| => LowerChar(s[i]))
  }

  /** `a.toLowerCase() === b.toLowerCase()` holds exactly when the strings agree letter by
      letter up to ASCII case: same length, and every position equal after folding. */
  lemma {:induction false} LowerEqualIff(a: string, b: string)
    ensures Lower(a) == Lower(b) <==>
            |a| == |b| && forall i :: 0 <= i < |a| ==> LowerChar(a[i]) == LowerChar(b[i])
  {
    if |a| == |b| && forall i :: 0 <= i < |a| ==> LowerChar(a[i]) == LowerChar(b[i]) {
      assert forall i :: 0 <= i < |a| ==> Lower(a)[i] == Lower(b)[i];
    }
    if Lower(a) == Lower(b) {
      assert |a| == |Lower(a)| == |Lower(b)| == |b|;
      forall i | 0 <= i < |a| ensures LowerChar(a[i]) == LowerChar(b[i]) {
        assert Lower(a)[i] == Lower(b)[i];
      }
    }
  }
}
