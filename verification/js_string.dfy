/**
 The few `String.prototype` operations the extension relies on, as the JavaScript
 engine defines them: `startsWith`, `includes`, `indexOf`, `replace` with a string
 pattern (first occurrence only) and `trim`.

 Strings are sequences of Unicode scalar values; every character the extension
 tests for lies in the Basic Multilingual Plane, so UTF-16 code units and scalar
 values agree on everything stated here.
 */
module JsString {
  import opened Wrappers

  /** `s.startsWith(p)`. */
  predicate StartsWith(s: string, p: string) {
    |p| <= |s| && s[..|p|] == p
  }

  /** `pat` occurs in `s` beginning at index `i`. */
  predicate OccursAt(s: string, pat: string, i: int) {
    0 <= i && i + |pat| <= |s| && s[i..i + |pat|] == pat
  }

  /** The first occurrence of `pat` in `s` at or after index `from`. */
  function IndexFrom(s: string, pat: string, from: nat): (r: Option<nat>)
    ensures r.Some? ==> from <= r.value && OccursAt(s, pat, r.value)
    ensures r.Some? ==> forall j :: from <= j < r.value ==> !OccursAt(s, pat, j)
    ensures r.None? ==> forall j :: from <= j ==> !OccursAt(s, pat, j)
    decreases |s| - from
  {
    if from + |pat| > |s| then None
    else if s[from..from + |pat|] == pat then Some(from)
    else IndexFrom(s, pat, from + 1)
  }

  /** `s.indexOf(pat)`: the first occurrence, or `None` for -1. */
  function IndexOf(s: string, pat: string): (r: Option<nat>)
    ensures r.Some? <==> exists i :: OccursAt(s, pat, i)
    ensures r.Some? ==> OccursAt(s, pat, r.value)
    ensures r.Some? ==> forall j :: 0 <= j < r.value ==> !OccursAt(s, pat, j)
  {
    IndexFrom(s, pat, 0)
  }

  /** `s.includes(sub)`. */
  predicate Includes(s: string, sub: string) {
    IndexOf(s, sub).Some?
  }

  /**
   `s.replace(pat, rep)` with a string pattern: only the FIRST occurrence is
   replaced. Neither replacement the extension uses contains a `$` pattern, so
   `rep` is inserted literally.
   */
  function ReplaceFirst(s: string, pat: string, rep: string): (r: string)
    ensures (forall i :: !OccursAt(s, pat, i)) ==> r == s
    ensures StartsWith(s, pat) ==> r == rep + s[|pat|..]
    ensures forall i :: OccursAt(s, pat, i) && (forall j :: 0 <= j < i ==> !OccursAt(s, pat, j)) ==>
              r == s[..i] + rep + s[i + |pat|..]
  {
    match IndexOf(s, pat)
    case None => s
    case Some(i) =>
      assert StartsWith(s, pat) ==> OccursAt(s, pat, 0);
      s[..i] + rep + s[i + |pat|..]
  }

  /** The ECMAScript LineTerminator characters. */
  predicate IsLineTerminator(c: char) {
    c == '\n' || c == '\r' || c == '\U{2028}' || c == '\U{2029}'
  }

  /** The ECMAScript WhiteSpace characters: TAB, VT, FF, SP, NBSP, ZWNBSP and the Zs category. */
  predicate IsWhiteSpace(c: char) {
    || c == '\t' || c == '\U{000B}' || c == '\U{000C}' || c == ' '
    || c == '\U{00A0}' || c == '\U{FEFF}' || c == '\U{1680}'
    || ('\U{2000}' <= c <= '\U{200A}')
    || c == '\U{202F}' || c == '\U{205F}' || c == '\U{3000}'
  }

  /** The characters `trim` strips. */
  predicate IsTrimmable(c: char) {
    IsWhiteSpace(c) || IsLineTerminator(c)
  }

  predicate AllTrimmable(s: string) {
    forall i :: 0 <= i < |s| ==> IsTrimmable(s[i])
  }

  /** The index of the first character `trim` keeps, scanning forward from `i`. */
  function TrimStartIndex(s: string, i: nat): (a: nat)
    requires i <= |s|
    ensures i <= a <= |s|
    ensures forall k :: i <= k < a ==> IsTrimmable(s[k])
    ensures a == |s| || !IsTrimmable(s[a])
    decreases |s| - i
  {
    if i < |s| && IsTrimmable(s[i]) then TrimStartIndex(s, i + 1) else i
  }

  /** The index just past the last character `trim` keeps, scanning backward from `j` down to `lo`. */
  function TrimEndIndex(s: string, lo: nat, j: nat): (b: nat)
    requires lo <= j <= |s|
    ensures lo <= b <= j
    ensures forall k :: b <= k < j ==> IsTrimmable(s[k])
    ensures b == lo || !IsTrimmable(s[b - 1])
    decreases j
  {
    if j > lo && IsTrimmable(s[j - 1]) then TrimEndIndex(s, lo, j - 1) else j
  }

  /**
   `s` splits at `a <= b` into trimmable characters before `a` and from `b` on,
   around a middle `s[a..b]` that is empty or neither starts nor ends with one.
   */
  ghost predicate TrimmedAt(s: string, a: int, b: int) {
    && 0 <= a <= b <= |s|
    && (forall k :: 0 <= k < a ==> IsTrimmable(s[k]))
    && (forall k :: b <= k < |s| ==> IsTrimmable(s[k]))
    && (a == b || (!IsTrimmable(s[a]) && !IsTrimmable(s[b - 1])))
  }

  /** How many leading characters `trim` drops. */
  function TrimOffset(s: string): (a: nat)
    ensures a <= |s|
  {
    TrimStartIndex(s, 0)
  }

  /** `s.trim()`. */
  function Trim(s: string): (r: string)
    ensures TrimOffset(s) + |r| <= |s|
    ensures TrimmedAt(s, TrimOffset(s), TrimOffset(s) + |r|)
    ensures r == s[TrimOffset(s)..TrimOffset(s) + |r|]
    ensures r == [] <==> AllTrimmable(s)
  {
    var a := TrimStartIndex(s, 0);
    var b := TrimEndIndex(s, a, |s|);
    assert a == b ==> a == |s|;
    s[a..b]
  }

  /** The split of `TrimmedAt` is unique whenever the middle is non-empty, so `Trim` is its only solution. */
  lemma TrimUnique(s: string, a: int, b: int)
    requires TrimmedAt(s, a, b)
    ensures Trim(s) == s[a..b]
  {
    var r := Trim(s);
    var a' := TrimOffset(s);
    var b' := a' + |r|;
    if a == b {
      assert AllTrimmable(s) by {
        forall i | 0 <= i < |s| ensures IsTrimmable(s[i]) {
          if i < a { } else { }
        }
      }
    } else {
      assert !IsTrimmable(s[a]) && !IsTrimmable(s[b - 1]);
    }
  }

  /** Trimming twice is trimming once. */
  lemma TrimIdempotent(s: string)
    ensures Trim(Trim(s)) == Trim(s)
  {
    var r := Trim(s);
    assert TrimmedAt(r, 0, |r|);
    TrimUnique(r, 0, |r|);
  }

  predicate IsDigit(c: char) {
    '0' <= c <= '9'
  }

  predicate AllDigits(s: string) {
    forall i :: 0 <= i < |s| ==> IsDigit(s[i])
  }

  /** The decimal numeral of `n`, as `String(n)` writes an array index. */
  function Decimal(n: nat): (r: string)
    ensures |r| > 0 && AllDigits(r)
  {
    var d := [('0' as int + n % 10) as char];
    if n < 10 then d else Decimal(n / 10) + d
  }
}
