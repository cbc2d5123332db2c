/** The string primitives the components rely on: `toLowerCase` (ASCII part),
    `includes` and `trim`, each as an executable function with an independent
    specification and a lemma connecting the two. */
module Text {

  /** Upper-case ASCII letters, the only characters `LowerChar` changes. */
  predicate IsUpper(c: char) {
    'A' <= c <= 'Z'
  }

  function LowerChar(c: char): (r: char)
    ensures !IsUpper(r)
    ensures IsUpper(c) ==> r as int == c as int + 32
    ensures !IsUpper(c) ==> r == c
  {
    if IsUpper(c) then (c as int + 32) as char else c
  }

  /** `String.prototype.toLowerCase` restricted to ASCII letters. */
  function ToLower(s: string): (r: string)
    ensures |r| == |s|
    ensures forall i :: 0 <= i < |s| ==> r[i] == LowerChar(s[i])
  {
    seq(|s|, i requires 0 <= i < |s| => LowerChar(s[i]))
  }

  /** Lower-casing twice is lower-casing once. */
  lemma ToLowerIdempotent(s: string)
    ensures ToLower(ToLower(s)) == ToLower(s)
  {
    var t := ToLower(s);
    assert forall i :: 0 <= i < |t| ==> LowerChar(t[i]) == t[i];
  }

  /** `pat` occurs in `s` starting at index `i`. */
  predicate OccursAt(s: string, pat: string, i: int) {
    0 <= i && i + |pat| <= |s| && s[i..i + |pat|] == pat
  }

  /** The specification of `includes`: some index where `pat` occurs. */
  ghost predicate Occurs(s: string, pat: string) {
    exists i :: OccursAt(s, pat, i)
  }

  predicate StartsWith(s: string, pat: string) {
    |pat| <= |s| && s[..|pat|] == pat
  }

  /** `String.prototype.includes`, scanning left to right. */
  function Includes(s: string, pat: string): bool
    decreases |s|
  {
    if StartsWith(s, pat) then true
    else if |s| == 0 then false
    else Includes(s[1..], pat)
  }

  /** The scanning search finds `pat` exactly when it occurs somewhere. */
  lemma {:induction false} IncludesIffOccurs(s: string, pat: string)
    ensures Includes(s, pat) <==> Occurs(s, pat)
    decreases |s|
  {
    if StartsWith(s, pat) {
      assert OccursAt(s, pat, 0);
    } else if |s| == 0 {
    } else {
      IncludesIffOccurs(s[1..], pat);
      if Occurs(s[1..], pat) {
        var i :| OccursAt(s[1..], pat, i);
        assert s[1..][i..i + |pat|] == s[i + 1..i + 1 + |pat|];
        assert OccursAt(s, pat, i + 1);
      }
      if Occurs(s, pat) {
        var i :| OccursAt(s, pat, i);
        assert s[1..][i - 1..i - 1 + |pat|] == s[i..i + |pat|];
        assert OccursAt(s[1..], pat, i - 1);
      }
    }
  }

  /** A character that `pat` has and `s` lacks rules out any occurrence. */
  lemma AbsentCharRulesOutOccurrence(s: string, pat: string, c: char)
    requires c in pat && c !in s
    ensures !Occurs(s, pat)
  {
    forall i | 0 <= i <= |s| - |pat|
      ensures !OccursAt(s, pat, i)
    {
      var k :| 0 <= k < |pat| && pat[k] == c;
      assert s[i..i + |pat|][k] == s[i + k];
    }
  }

  /** Lower-casing keeps an occurrence of a pattern that has no upper-case
      letter. */
  lemma OccursAfterLowering(s: string, pat: string, i: int)
    requires OccursAt(s, pat, i)
    requires forall j :: 0 <= j < |pat| ==> !IsUpper(pat[j])
    ensures OccursAt(ToLower(s), pat, i)
  {
    var t := ToLower(s);
    forall j | 0 <= j < |pat|
      ensures t[i..i + |pat|][j] == pat[j]
    {
      assert s[i..i + |pat|][j] == s[i + j];
    }
  }

  /** The upper-case partner of a lower-case ASCII letter. */
  function UpperOf(c: char): (u: char)
    requires 'a' <= c <= 'z'
    ensures IsUpper(u) && LowerChar(u) == c
  {
    (c as int - 32) as char
  }

  /** No occurrence of `pat` in the lower-cased `s` starts in [lo, hi) when
      the k-th letter of `pat`, in either case, is missing from the window
      of `s` those starts would put it in. */
  lemma NoOccurrenceInRange(s: string, pat: string, k: int, lo: int, hi: int)
    requires 0 <= k < |pat| && 0 <= lo <= hi && hi + k <= |s|
    requires 'a' <= pat[k] <= 'z'
    requires forall j :: lo + k <= j < hi + k ==> s[j] != pat[k] && s[j] != UpperOf(pat[k])
    ensures forall i :: lo <= i < hi ==> !OccursAt(ToLower(s), pat, i)
  {
    var t := ToLower(s);
    forall i | lo <= i < hi
      ensures !OccursAt(t, pat, i)
    {
      assert t[i + k] == LowerChar(s[i + k]) != pat[k];
      if i + |pat| <= |s| {
        assert t[i..i + |pat|][k] == t[i + k];
      }
    }
  }

  /** No occurrence starts before `hi` when the k-th letter of `pat` is
      missing from the first hi + k characters. */
  lemma NoOccurrenceBefore(s: string, pat: string, k: int, hi: int)
    requires 0 <= k < |pat| && 0 <= hi && hi + k <= |s|
    requires 'a' <= pat[k] <= 'z'
    requires pat[k] !in s[..hi + k] && UpperOf(pat[k]) !in s[..hi + k]
    ensures forall i :: i < hi ==> !OccursAt(ToLower(s), pat, i)
  {
    forall j | k <= j < hi + k
      ensures s[j] != pat[k] && s[j] != UpperOf(pat[k])
    {
      assert s[j] == s[..hi + k][j];
    }
    NoOccurrenceInRange(s, pat, k, 0, hi);
  }

  /** No occurrence starts at or after `lo` when the k-th letter of `pat` is
      missing from s[lo + k..]. */
  lemma NoOccurrenceFrom(s: string, pat: string, k: int, lo: int)
    requires 0 <= k < |pat| && 0 <= lo && lo + k <= |s|
    requires 'a' <= pat[k] <= 'z'
    requires pat[k] !in s[lo + k..] && UpperOf(pat[k]) !in s[lo + k..]
    ensures forall i :: lo <= i ==> !OccursAt(ToLower(s), pat, i)
  {
    var hi := |s| - k;
    forall j | lo + k <= j < hi + k
      ensures s[j] != pat[k] && s[j] != UpperOf(pat[k])
    {
      assert s[j] == s[lo + k..][j - lo - k];
    }
    NoOccurrenceInRange(s, pat, k, lo, hi);
  }

  /** No occurrence starts at `i` when the character that would have to
      match pat[k] differs from it in both cases. */
  lemma NoOccurrenceAt(s: string, pat: string, i: int, k: int)
    requires 0 <= i && 0 <= k < |pat| && i + k < |s|
    requires 'a' <= pat[k] <= 'z'
    requires s[i + k] != pat[k] && s[i + k] != UpperOf(pat[k])
    ensures !OccursAt(ToLower(s), pat, i)
  {
    NoOccurrenceInRange(s, pat, k, i, i + 1);
  }

  /** A letter of `pat` that `s` lacks in both cases rules out any
      occurrence of `pat` in the lower-cased `s`. */
  lemma NoOccurrenceWithoutLetter(s: string, pat: string, k: int)
    requires 0 <= k < |pat|
    requires 'a' <= pat[k] <= 'z'
    requires pat[k] !in s && UpperOf(pat[k]) !in s
    ensures !Occurs(ToLower(s), pat)
  {
    if k <= |s| {
      assert forall c :: c in s[k..] ==> c in s;
      NoOccurrenceFrom(s, pat, k, 0);
    }
  }

  /** The characters `String.prototype.trim` removes: ECMAScript WhiteSpace
      (TAB, VT, FF, SP, NBSP, ZWNBSP and the Zs separators) and
      LineTerminator (LF, CR, LS, PS). */
  predicate IsJsWhitespace(c: char) {
    var n := c as int;
    n == 0x09 || n == 0x0A || n == 0x0B || n == 0x0C || n == 0x0D || n == 0x20
    || n == 0xA0 || n == 0x1680 || (0x2000 <= n <= 0x200A) || n == 0x2028
    || n == 0x2029 || n == 0x202F || n == 0x205F || n == 0x3000 || n == 0xFEFF
  }

  /** Every character of `s` is white space (vacuously so for ""). */
  predicate IsBlank(s: string) {
    forall i :: 0 <= i < |s| ==> IsJsWhitespace(s[i])
  }

  function TrimStart(s: string): (r: string)
    ensures |r| <= |s|
    ensures r == s[|s| - |r|..]
    ensures |r| > 0 ==> !IsJsWhitespace(r[0])
    ensures IsBlank(s[..|s| - |r|])
  {
    if |s| > 0 && IsJsWhitespace(s[0]) then
      var r := TrimStart(s[1..]);
      assert s[..|s| - |r|] == [s[0]] + s[1..][..|s[1..]| - |r|];
      r
    else s
  }

  function TrimEnd(s: string): (r: string)
    ensures |r| <= |s|
    ensures r == s[..|r|]
    ensures |r| > 0 ==> !IsJsWhitespace(r[|r| - 1])
    ensures IsBlank(s[|r|..])
  {
    if |s| > 0 && IsJsWhitespace(s[|s| - 1]) then
      var r := TrimEnd(s[..|s| - 1]);
      assert s[|r|..] == s[..|s| - 1][|r|..] + [s[|s| - 1]];
      r
    else s
  }

  /** `String.prototype.trim`. */
  function Trim(s: string): string {
    TrimEnd(TrimStart(s))
  }

  /** `!s.trim()` holds exactly for blank strings: trimming leaves nothing
      precisely when every character is white space. */
  lemma TrimEmptyIffBlank(s: string)
    ensures Trim(s) == "" <==> IsBlank(s)
  {
    var t := TrimStart(s);
    if Trim(s) == "" {
      assert IsBlank(t[0..]);
      assert s == s[..|s| - |t|] + t;
    } else {
      assert t[0] == s[|s| - |t|];
    }
  }
}
