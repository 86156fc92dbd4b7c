/**
 * The JavaScript string primitives the viewer relies on: `indexOf`,
 * `includes`, `replace` with a string pattern, `toLowerCase`, and the decimal
 * rendering of a number inside a template literal.
 */
module Text {
  import opened Wrappers

  /** `pat` occurs in `s` starting at index `i`. */
  predicate OccursAt(s: string, pat: string, i: nat) {
    i + |pat| <= |s| && s[i..i + |pat|] == pat
  }

  /** `s.indexOf(pat, k)`: the first occurrence at or after `k`, if any. */
  function IndexOfFrom(s: string, pat: string, k: nat): (r: Option<nat>)
    requires k <= |s|
    ensures r.Some? ==> k <= r.value && OccursAt(s, pat, r.value)
    ensures r.Some? ==> forall j :: k <= j < r.value ==> !OccursAt(s, pat, j)
    ensures r.None? ==> forall j :: k <= j ==> !OccursAt(s, pat, j)
    decreases |s| - k
  {
    if OccursAt(s, pat, k) then Some(k)
    else if k == |s| then None
    else IndexOfFrom(s, pat, k + 1)
  }

  /** `s.indexOf(pat)`, with `None` for the source's `-1`. */
  function IndexOf(s: string, pat: string): Option<nat> {
    IndexOfFrom(s, pat, 0)
  }

  /** `s.includes(pat)` */
  predicate Contains(s: string, pat: string) {
    IndexOf(s, pat).Some?
  }

  /** `includes` holds exactly when some occurrence exists. */
  lemma ContainsIff(s: string, pat: string)
    ensures Contains(s, pat) <==> exists i: nat :: OccursAt(s, pat, i)
  {
    if Contains(s, pat) {
      assert OccursAt(s, pat, IndexOf(s, pat).value);
    }
  }

  /** Every string includes the empty string. */
  lemma ContainsEmpty(s: string)
    ensures Contains(s, "")
  {
    assert OccursAt(s, "", 0);
  }

  /**
   * `s.replace(pat, rep)` with a string pattern: only the first occurrence is
   * replaced, and `s` is returned as it is when `pat` does not occur.
   * (The replacements used by the viewer contain no `$` patterns.)
   */
  function ReplaceFirst(s: string, pat: string, rep: string): string {
    match IndexOf(s, pat)
    case None => s
    case Some(i) => s[..i] + rep + s[i + |pat|..]
  }

  /** Without an occurrence, `replace` is the identity. */
  lemma ReplaceFirstAbsent(s: string, pat: string, rep: string)
    requires !Contains(s, pat)
    ensures ReplaceFirst(s, pat, rep) == s
  {
  }

  /** With a first occurrence at `i`, exactly that slice is replaced. */
  lemma ReplaceFirstAt(s: string, pat: string, rep: string, i: nat)
    requires OccursAt(s, pat, i)
    requires forall j :: 0 <= j < i ==> !OccursAt(s, pat, j)
    ensures ReplaceFirst(s, pat, rep) == s[..i] + rep + s[i + |pat|..]
  {
  }

  /** Replacing by a pattern of the same length keeps the length. */
  lemma ReplaceFirstLength(s: string, pat: string, rep: string)
    ensures Contains(s, pat) ==> |ReplaceFirst(s, pat, rep)| == |s| - |pat| + |rep|
    ensures |pat| == |rep| ==> |ReplaceFirst(s, pat, rep)| == |s|
  {
  }

  /**
   * Only the first occurrence changes: when the replacement has the pattern's
   * length, every later occurrence of the pattern that does not overlap the
   * first one is still there afterwards.
   */
  lemma ReplaceFirstOnlyFirst(s: string, pat: string, rep: string, i: nat, j: nat)
    requires |pat| == |rep|
    requires OccursAt(s, pat, i)
    requires forall k :: 0 <= k < i ==> !OccursAt(s, pat, k)
    requires i + |pat| <= j && OccursAt(s, pat, j)
    ensures OccursAt(ReplaceFirst(s, pat, rep), pat, j)
  {
    ReplaceFirstAt(s, pat, rep, i);
    var r := ReplaceFirst(s, pat, rep);
    assert |r| == |s|;
    forall k | j <= k < j + |pat|
      ensures r[k] == s[k]
    {
      assert r[k] == (s[..i] + rep + s[i + |pat|..])[k];
      assert (s[i + |pat|..])[k - i - |rep|] == s[k];
    }
    assert r[j..j + |pat|] == s[j..j + |pat|];
  }

  /** Occurrences in `p + t` at or after `|p|` are the occurrences in `t`, shifted. */
  lemma OccursShift(p: string, t: string, pat: string, j: nat)
    ensures OccursAt(p + t, pat, |p| + j) <==> OccursAt(t, pat, j)
  {
    if |p| + j + |pat| <= |p + t| {
      assert (p + t)[|p| + j..|p| + j + |pat|] == t[j..j + |pat|];
    }
  }

  /** With no occurrence starting in the prefix `p`, `indexOf` finds the first one in `t`, shifted. */
  lemma IndexOfSkipsPrefix(p: string, t: string, pat: string)
    requires forall k :: 0 <= k < |p| ==> !OccursAt(p + t, pat, k)
    ensures IndexOf(t, pat).None? ==> IndexOf(p + t, pat).None?
    ensures IndexOf(t, pat).Some? ==> IndexOf(p + t, pat) == Some(|p| + IndexOf(t, pat).value)
  {
    var s := p + t;
    var found := IndexOf(t, pat);
    if found.None? {
      forall k: nat | |p| <= k
        ensures !OccursAt(s, pat, k)
      {
        OccursShift(p, t, pat, k - |p|);
      }
    } else {
      var i := found.value;
      OccursShift(p, t, pat, i);
      forall k: nat | |p| <= k < |p| + i
        ensures !OccursAt(s, pat, k)
      {
        OccursShift(p, t, pat, k - |p|);
      }
    }
  }

  /**
   * A prefix in which no occurrence of the pattern starts passes through
   * `replace` untouched: the replacement happens in the rest.
   */
  lemma ReplaceFirstSkipsPrefix(p: string, t: string, pat: string, rep: string)
    requires forall k :: 0 <= k < |p| ==> !OccursAt(p + t, pat, k)
    ensures ReplaceFirst(p + t, pat, rep) == p + ReplaceFirst(t, pat, rep)
  {
    IndexOfSkipsPrefix(p, t, pat);
    var s := p + t;
    var found := IndexOf(t, pat);
    if found.None? {
      assert IndexOf(s, pat).None?;
    } else {
      var i := found.value;
      assert OccursAt(t, pat, i);
      assert IndexOf(s, pat) == Some(|p| + i);
      assert ReplaceFirst(s, pat, rep) == s[..|p| + i] + rep + s[|p| + i + |pat|..];
      assert ReplaceFirst(t, pat, rep) == t[..i] + rep + t[i + |pat|..];
      SpliceShift(p, t, |pat|, rep, i);
    }
  }

  /** Splicing at `|p| + i` in `p + t` is splicing at `i` in `t`. */
  lemma SpliceShift(p: string, t: string, n: nat, rep: string, i: nat)
    requires i + n <= |t|
    ensures (p + t)[..|p| + i] + rep + (p + t)[|p| + i + n..] == p + (t[..i] + rep + t[i + n..])
  {
    assert (p + t)[..|p| + i] == p + t[..i];
    assert (p + t)[|p| + i + n..] == t[i + n..];
  }

  // ---------------------------------------------------------------------------
  // Lower case (ASCII letters only).
  // ---------------------------------------------------------------------------

  function LowerChar(c: char): char {
    if 'A' <= c <= 'Z' then (c as int + 32) as char else c
  }

  /** `s.toLowerCase()`, restricted to the ASCII letters. */
  function Lower(s: string): (r: string)
    ensures |r| == |s|
    ensures forall i :: 0 <= i < |s| ==> r[i] == LowerChar(s[i])
    decreases |s|
  {
    if s == [] then [] else [LowerChar(s[0])] + Lower(s[1..])
  }

  /** Lowering twice is lowering once; the result has no upper-case letter. */
  lemma LowerIdempotent(s: string)
    ensures Lower(Lower(s)) == Lower(s)
    ensures forall i :: 0 <= i < |s| ==> !('A' <= Lower(s)[i] <= 'Z')
  {
    var once := Lower(s);
    var twice := Lower(once);
    forall i | 0 <= i < |s|
      ensures twice[i] == once[i] && !('A' <= once[i] <= 'Z')
    {
      assert once[i] == LowerChar(s[i]);
      assert twice[i] == LowerChar(once[i]);
    }
    assert |twice| == |once|;
  }

  // ---------------------------------------------------------------------------
  // Decimal rendering of a non-negative integer (`${n}` for an HTTP status).
  // ---------------------------------------------------------------------------

  function DigitChar(d: nat): char
    requires d < 10
  {
    ('0' as int + d) as char
  }

  predicate IsDigit(c: char) {
    '0' <= c <= '9'
  }

  /** The shortest decimal spelling of `n`: digits only, no leading zero. */
  function DecimalString(n: nat): (r: string)
    ensures |r| >= 1
    ensures forall i :: 0 <= i < |r| ==> IsDigit(r[i])
    ensures |r| > 1 ==> r[0] != '0'
    decreases n
  {
    if n < 10 then [DigitChar(n)] else DecimalString(n / 10) + [DigitChar(n % 10)]
  }

  /** The value a string of digits denotes, most significant digit first. */
  function DecimalValue(s: string): nat
    requires forall i :: 0 <= i < |s| ==> IsDigit(s[i])
    decreases |s|
  {
    if s == [] then 0
    else
      var last := s[|s| - 1];
      assert IsDigit(last);
      DecimalValue(s[..|s| - 1]) * 10 + (last as int - '0' as int)
  }

  /** Reading back the rendering gives the number. */
  lemma {:induction false} DecimalRoundTrip(n: nat)
    ensures DecimalValue(DecimalString(n)) == n
    decreases n
  {
    var r := DecimalString(n);
    if n >= 10 {
      DecimalRoundTrip(n / 10);
      assert r[..|r| - 1] == DecimalString(n / 10);
    }
  }
}
