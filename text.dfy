/** The Python string primitives the debate driver relies on: `pat in s`,
    `s.index(pat)`, `s.startswith(pat)` and `s.replace(pat, sub)`. */
module Text {
  import opened Wrappers

  /** `pat` occurs in `s` starting at index `k`. */
  predicate OccursAt(s: string, pat: string, k: nat)
  {
    k + |pat| <= |s| && s[k..k + |pat|] == pat
  }

  /** The first index at or after `from` where `pat` occurs in `s`. */
  function IndexFrom(s: string, pat: string, from: nat): (r: Option<nat>)
    decreases |s| - from
    ensures r.Some? ==> from <= r.value && OccursAt(s, pat, r.value)
    ensures r.Some? ==> forall k: nat :: from <= k < r.value ==> !OccursAt(s, pat, k)
    ensures r.None? ==> forall k: nat :: from <= k ==> !OccursAt(s, pat, k)
  {
    if |s| < from + |pat| then None
    else if s[from..from + |pat|] == pat then Some(from)
    else IndexFrom(s, pat, from + 1)
  }

  /** `s.index(pat)`: the first occurrence of `pat`; `None` where Python raises ValueError. */
  function IndexOf(s: string, pat: string): (r: Option<nat>)
    ensures r.Some? ==> OccursAt(s, pat, r.value)
    ensures r.Some? ==> forall k: nat :: k < r.value ==> !OccursAt(s, pat, k)
    ensures r.None? ==> forall k: nat :: !OccursAt(s, pat, k)
  {
    IndexFrom(s, pat, 0)
  }

  /** `pat in s`. */
  predicate Contains(s: string, pat: string)
  {
    IndexOf(s, pat).Some?
  }

  /** `s.startswith(pat)`. */
  predicate StartsWith(s: string, pat: string)
  {
    |pat| <= |s| && s[..|pat|] == pat
  }

  /** An occurrence inside the suffix `s[i:]` is an occurrence in `s`, shifted by `i`. */
  lemma OccursInSuffix(s: string, pat: string, i: nat, e: nat)
    requires i <= |s|
    ensures OccursAt(s[i..], pat, e) <==> OccursAt(s, pat, i + e)
  {
    if i + e + |pat| <= |s| {
      assert s[i..][e..e + |pat|] == s[i + e..i + e + |pat|];
    }
  }

  /** An occurrence at `k` that has no occurrence before it is what `index` returns. */
  lemma IndexOfIs(s: string, pat: string, k: nat)
    requires OccursAt(s, pat, k)
    requires forall j: nat :: j < k ==> !OccursAt(s, pat, j)
    ensures IndexOf(s, pat) == Some(k)
  {
  }

  /** `s.replace(pat, sub)` for a non-empty placeholder, as CPython computes it:
      find the leftmost occurrence, copy what precedes it, emit `sub`, and go
      on after the occurrence. */
  function Replace(s: string, pat: string, sub: string): (r: string)
    requires pat != []
    decreases |s|
    ensures |sub| == |pat| ==> |r| == |s|
    ensures |sub| < |pat| ==> |r| <= |s|
    ensures |sub| > |pat| ==> |r| >= |s|
  {
    var r := IndexOf(s, pat);
    if r.None? then s
    else s[..r.value] + (sub + Replace(s[r.value + |pat|..], pat, sub))
  }

  /** Reference definition of replacement by a left-to-right scan: at each
      position either the pattern starts there, and is replaced, or one
      character is copied. */
  function ReplaceScan(s: string, pat: string, sub: string): string
    requires pat != []
    decreases |s|
  {
    if |s| < |pat| then s
    else if s[..|pat|] == pat then sub + ReplaceScan(s[|pat|..], pat, sub)
    else [s[0]] + ReplaceScan(s[1..], pat, sub)
  }

  /** One character that does not start the pattern is copied by the scan. */
  lemma ScanStep(s: string, pat: string, sub: string, i: nat)
    requires pat != [] && 0 < i <= |s| && |pat| <= |s| && !OccursAt(s, pat, 0)
    requires ReplaceScan(s[1..], pat, sub) == s[1..][..i - 1] + ReplaceScan(s[i..], pat, sub)
    ensures ReplaceScan(s, pat, sub) == s[..i] + ReplaceScan(s[i..], pat, sub)
  {
    var x := ReplaceScan(s[i..], pat, sub);
    assert [s[0]] + (s[1..][..i - 1] + x) == s[..i] + x by {
      assert [s[0]] + s[1..][..i - 1] == s[..i];
    }
  }

  /** Scanning over a stretch with no occurrence copies it unchanged. */
  lemma {:induction false} ScanCopies(s: string, pat: string, sub: string, i: nat)
    requires pat != [] && i <= |s|
    requires forall k: nat :: k < i ==> !OccursAt(s, pat, k)
    ensures ReplaceScan(s, pat, sub) == s[..i] + ReplaceScan(s[i..], pat, sub)
    decreases i
  {
    if i == 0 {
      assert s[..0] == [] && s[0..] == s;
    } else if |s| < |pat| {
      assert ReplaceScan(s[i..], pat, sub) == s[i..];
      assert s[..i] + s[i..] == s;
    } else {
      var t := s[1..];
      forall k: nat | k < i - 1
        ensures !OccursAt(t, pat, k)
      {
        OccursInSuffix(s, pat, 1, k);
      }
      ScanCopies(t, pat, sub, i - 1);
      assert t[i - 1..] == s[i..];
      ScanStep(s, pat, sub, i);
    }
  }

  /** With no occurrence at all, scanning copies the whole string. */
  lemma {:induction false} ScanNoOccurrence(s: string, pat: string, sub: string)
    requires pat != []
    requires forall k: nat :: !OccursAt(s, pat, k)
    ensures ReplaceScan(s, pat, sub) == s
  {
    if |s| >= |pat| {
      var i := |s| - |pat| + 1;
      ScanCopies(s, pat, sub, i);
      assert ReplaceScan(s[i..], pat, sub) == s[i..];
      assert s[..i] + s[i..] == s;
    }
  }

  /** Scanning from an occurrence emits `sub` and resumes after the occurrence. */
  lemma ScanAtOccurrence(s: string, pat: string, sub: string, i: nat)
    requires pat != [] && OccursAt(s, pat, i)
    ensures ReplaceScan(s[i..], pat, sub) == sub + ReplaceScan(s[i + |pat|..], pat, sub)
  {
    var t := s[i..];
    assert t[..|pat|] == s[i..i + |pat|];
    assert t[|pat|..] == s[i + |pat|..];
  }

  /** `replace` copies what precedes the first occurrence, emits `sub`, and goes on
      after the occurrence. */
  lemma ReplaceUnfold(s: string, pat: string, sub: string, i: nat)
    requires pat != [] && IndexOf(s, pat) == Some(i)
    ensures i + |pat| <= |s|
    ensures Replace(s, pat, sub) == s[..i] + (sub + Replace(s[i + |pat|..], pat, sub))
  {
  }

  /** The scan does the same: it copies up to the first occurrence, then emits `sub`. */
  lemma ScanSplit(s: string, pat: string, sub: string, i: nat)
    requires pat != [] && IndexOf(s, pat) == Some(i)
    ensures i + |pat| <= |s|
    ensures ReplaceScan(s, pat, sub) == s[..i] + (sub + ReplaceScan(s[i + |pat|..], pat, sub))
  {
    ScanCopies(s, pat, sub, i);
    ScanAtOccurrence(s, pat, sub, i);
  }

  /** CPython's find-and-copy replacement agrees with the scanning definition. */
  lemma {:induction false} ReplaceIsScan(s: string, pat: string, sub: string)
    requires pat != []
    ensures Replace(s, pat, sub) == ReplaceScan(s, pat, sub)
    decreases |s|
  {
    var r := IndexOf(s, pat);
    if r.None? {
      ScanNoOccurrence(s, pat, sub);
    } else {
      var i := r.value;
      ReplaceUnfold(s, pat, sub, i);
      ScanSplit(s, pat, sub, i);
      ReplaceIsScan(s[i + |pat|..], pat, sub);
    }
  }

  /** A string with no occurrence of the placeholder is left as it is. */
  lemma ReplaceAbsent(s: string, pat: string, sub: string)
    requires pat != []
    requires forall k: nat :: !OccursAt(s, pat, k)
    ensures Replace(s, pat, sub) == s
  {
  }

  /** Replacing a placeholder by itself changes nothing. */
  lemma {:induction false} ReplaceSelf(s: string, pat: string)
    requires pat != []
    ensures Replace(s, pat, pat) == s
    decreases |s|
  {
    var r := IndexOf(s, pat);
    if r.Some? {
      var i := r.value;
      var rest := s[i + |pat|..];
      ReplaceUnfold(s, pat, pat, i);
      ReplaceSelf(rest, pat);
      assert s[..i] + (pat + rest) == s by {
        assert s[i..i + |pat|] == pat;
        assert s[..i] + (s[i..i + |pat|] + rest) == s;
      }
    }
  }
}
