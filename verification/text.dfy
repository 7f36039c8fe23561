/** The few JavaScript string operations the forum code relies on
    (`startsWith`, `includes`, `split(c)[0]`, `toLowerCase`, `trim`), on
    strings as sequences of characters. */
module Text {

  /** `s.startsWith(p)` */
  predicate StartsWith(s: string, p: string) {
    |p| <= |s| && s[..|p|] == p
  }

  /** `sub` occurs in `s` at index `i` */
  predicate OccursAt(s: string, sub: string, i: int) {
    0 <= i && i + |sub| <= |s| && s[i..i + |sub|] == sub
  }

  /** `s.includes(sub)`, computed by trying every start position in turn */
  predicate Includes(s: string, sub: string)
    decreases |s|
  {
    StartsWith(s, sub) || (|s| > 0 && Includes(s[1..], sub))
  }

  /** The scan finds `sub` exactly when it occurs somewhere in `s`. */
  lemma {:induction false} IncludesIffOccurs(s: string, sub: string)
    ensures Includes(s, sub) <==> exists i :: OccursAt(s, sub, i)
    decreases |s|
  {
    if StartsWith(s, sub) {
      assert OccursAt(s, sub, 0);
    } else if |s| > 0 {
      IncludesIffOccurs(s[1..], sub);
      if Includes(s[1..], sub) {
        var i :| OccursAt(s[1..], sub, i);
        assert s[1..][i..i + |sub|] == s[i + 1..i + 1 + |sub|];
        assert OccursAt(s, sub, i + 1);
      }
      if i :| OccursAt(s, sub, i) {
        assert i != 0;
        assert s[1..][i - 1..i - 1 + |sub|] == s[i..i + |sub|];
        assert OccursAt(s[1..], sub, i - 1);
      }
    }
  }

  /** `s.split(c)[0]`: the part of `s` before the first `c` (all of `s`
      when there is none). */
  function Before(s: string, c: char): (r: string)
    ensures StartsWith(s, r)
    ensures c !in r
    ensures |r| == |s| || s[|r|] == c
  {
    if |s| == 0 || s[0] == c then "" else [s[0]] + Before(s[1..], c)
  }

  /** Upper-case ASCII letters */
  predicate IsUpper(ch: char) {
    'A' <= ch <= 'Z'
  }

  function LowerChar(ch: char): char {
    if IsUpper(ch) then (ch as int + 32) as char else ch
  }

  /** `s.toLowerCase()` on the ASCII letters */
  function Lower(s: string): (r: string)
    ensures |r| == |s|
    ensures forall i :: 0 <= i < |r| ==> !IsUpper(r[i])
    ensures forall i :: 0 <= i < |r| && !IsUpper(s[i]) ==> r[i] == s[i]
    ensures forall i :: 0 <= i < |r| && IsUpper(s[i]) ==> r[i] as int == s[i] as int + 32
  {
    seq(|s|, i requires 0 <= i < |s| => LowerChar(s[i]))
  }

  lemma LowerIdempotent(s: string)
    ensures Lower(Lower(s)) == Lower(s)
  {
  }

  /** Lower-casing works character by character and leaves spaces alone. */
  lemma LowerPadded(w1: string, t: string, w2: string)
    requires forall m :: 0 <= m < |w1| ==> !IsUpper(w1[m])
    requires forall m :: 0 <= m < |w2| ==> !IsUpper(w2[m])
    ensures Lower(w1 + t + w2) == w1 + Lower(t) + w2
  {
  }

  /** The characters `String.prototype.trim` removes: the ECMAScript
      WhiteSpace and LineTerminator code points. */
  predicate IsSpace(ch: char) {
    ch == ' ' || ch == '\t' || ch == '\n' || ch == '\r'
    || ch == '\U{000B}' || ch == '\U{000C}' || ch == '\U{00A0}' || ch == '\U{1680}'
    || ('\U{2000}' <= ch <= '\U{200A}')
    || ch == '\U{2028}' || ch == '\U{2029}' || ch == '\U{202F}' || ch == '\U{205F}'
    || ch == '\U{3000}' || ch == '\U{FEFF}'
  }

  /** The first index at or after `i` that does not hold a space. */
  function SkipSpaces(s: string, i: nat): (k: nat)
    requires i <= |s|
    ensures i <= k <= |s|
    ensures forall m :: i <= m < k ==> IsSpace(s[m])
    ensures k < |s| ==> !IsSpace(s[k])
    decreases |s| - i
  {
    if i == |s| || !IsSpace(s[i]) then i else SkipSpaces(s, i + 1)
  }

  /** The smallest `k >= lo` such that `s[k..j]` is all spaces. */
  function SkipSpacesBack(s: string, j: nat, lo: nat): (k: nat)
    requires lo <= j <= |s|
    ensures lo <= k <= j
    ensures forall m :: k <= m < j ==> IsSpace(s[m])
    ensures k > lo ==> !IsSpace(s[k - 1])
    decreases j
  {
    if j == lo || !IsSpace(s[j - 1]) then j else SkipSpacesBack(s, j - 1, lo)
  }

  datatype Span = Span(lo: nat, hi: nat)

  /** Where the trimmed text starts and ends: everything outside the span is
      space, and the span neither starts nor ends with one. */
  function TrimSpan(s: string): (sp: Span)
    ensures sp.lo <= sp.hi <= |s|
    ensures forall m :: 0 <= m < sp.lo ==> IsSpace(s[m])
    ensures forall m :: sp.hi <= m < |s| ==> IsSpace(s[m])
    ensures sp.lo < sp.hi ==> !IsSpace(s[sp.lo]) && !IsSpace(s[sp.hi - 1])
  {
    var lo := SkipSpaces(s, 0);
    Span(lo, SkipSpacesBack(s, |s|, lo))
  }

  predicate AllSpace(s: string) {
    forall m :: 0 <= m < |s| ==> IsSpace(s[m])
  }

  /** `s[lo..hi]` is an infix of `s` with only spaces around it. */
  predicate SpaceOutside(s: string, lo: int, hi: int) {
    && 0 <= lo <= hi <= |s|
    && (forall m :: 0 <= m < lo ==> IsSpace(s[m]))
    && (forall m :: hi <= m < |s| ==> IsSpace(s[m]))
  }

  /** `s.trim()`: the infix left once the spaces at both ends are cut off. */
  function Trim(s: string): (r: string)
    ensures |r| <= |s|
    ensures exists lo, hi :: SpaceOutside(s, lo, hi) && r == s[lo..hi]
    ensures |r| > 0 ==> !IsSpace(r[0]) && !IsSpace(r[|r| - 1])
    ensures AllSpace(s) ==> r == ""
  {
    var sp := TrimSpan(s);
    assert SpaceOutside(s, sp.lo, sp.hi);
    s[sp.lo..sp.hi]
  }

  /** Only one infix has spaces around it and none at its ends, so any
      such infix is what `trim` returns. */
  lemma TrimUnique(s: string, lo: int, hi: int)
    requires SpaceOutside(s, lo, hi)
    requires lo < hi ==> !IsSpace(s[lo]) && !IsSpace(s[hi - 1])
    ensures Trim(s) == s[lo..hi]
  {
    var sp := TrimSpan(s);
    if lo == hi {
      assert AllSpace(s) by {
        forall m | 0 <= m < |s|
          ensures IsSpace(s[m])
        {
          if m >= hi { } else { assert m < lo; }
        }
      }
    } else {
      assert !(sp.lo < lo);
      assert !(lo < sp.lo);
      assert !(sp.hi < hi);
      assert !(hi < sp.hi);
    }
  }

  /** Spaces added around a string vanish under `trim`. */
  lemma TrimPadded(w1: string, t: string, w2: string)
    requires AllSpace(w1) && AllSpace(w2)
    ensures Trim(w1 + t + w2) == Trim(t)
  {
    var s := w1 + t + w2;
    var sp := TrimSpan(t);
    var lo, hi := |w1| + sp.lo, |w1| + sp.hi;
    assert forall m :: 0 <= m < |t| ==> s[|w1| + m] == t[m];
    assert forall m :: 0 <= m < |w1| ==> s[m] == w1[m];
    assert forall m :: |w1| + |t| <= m < |s| ==> s[m] == w2[m - |w1| - |t|];
    assert SpaceOutside(s, lo, hi);
    assert s[lo..hi] == t[sp.lo..sp.hi];
    TrimUnique(s, lo, hi);
  }

  /** Trimming twice is trimming once. */
  lemma TrimIdempotent(s: string)
    ensures Trim(Trim(s)) == Trim(s)
  {
    var t := Trim(s);
    var sp := TrimSpan(t);
    if |t| > 0 {
      assert !IsSpace(t[0]) && !IsSpace(t[|t| - 1]);
      assert sp.lo == 0;
      assert sp.hi == |t|;
    }
  }
}
