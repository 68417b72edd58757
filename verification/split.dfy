/**
 * `String.prototype.trim` and `String.prototype.split` with a separator of
 * the form `X+` (one or more code units of a class), as used by the word and
 * sentence counters, together with an independent one-pass count of the
 * fragments that hold a non-whitespace code unit.
 */
module TextSplit {
  import opened Chars
  import opened Seqs

  predicate AllWhitespace(s: Text) {
    forall k :: 0 <= k < |s| ==> IsWhitespace(s[k])
  }

  /** A fragment with at least one non-whitespace code unit. */
  predicate HasContent(s: Text) {
    !AllWhitespace(s)
  }

  /** The number of leading whitespace code units. */
  function LeadingWhitespace(s: Text): (n: nat)
    ensures n <= |s|
    ensures forall k :: 0 <= k < n ==> IsWhitespace(s[k])
    ensures n < |s| ==> !IsWhitespace(s[n])
  {
    if s != [] && IsWhitespace(s[0]) then 1 + LeadingWhitespace(s[1..]) else 0
  }

  /** The number of trailing whitespace code units. */
  function TrailingWhitespace(s: Text): (n: nat)
    ensures n <= |s|
    ensures forall k :: |s| - n <= k < |s| ==> IsWhitespace(s[k])
    ensures n < |s| ==> !IsWhitespace(s[|s| - n - 1])
  {
    if s != [] && IsWhitespace(s[|s| - 1]) then 1 + TrailingWhitespace(s[..|s| - 1]) else 0
  }

  /** `trim()`: removes leading and trailing whitespace. */
  function Trim(s: Text): (r: Text)
    ensures r == [] <==> AllWhitespace(s)
    ensures r != [] ==> !IsWhitespace(r[0]) && !IsWhitespace(r[|r| - 1])
  {
    var t := s[LeadingWhitespace(s)..];
    t[..|t| - TrailingWhitespace(t)]
  }

  lemma LeadIsWhitespace(s: Text)
    ensures AllWhitespace(s[..LeadingWhitespace(s)])
  {
    var n := LeadingWhitespace(s);
    forall k | 0 <= k < n
      ensures IsWhitespace(s[..n][k])
    {
      assert s[..n][k] == s[k];
    }
  }

  lemma TrailIsWhitespace(t: Text)
    ensures AllWhitespace(t[|t| - TrailingWhitespace(t)..])
  {
    var m := TrailingWhitespace(t);
    var tail := t[|t| - m..];
    forall k | 0 <= k < |tail|
      ensures IsWhitespace(tail[k])
    {
      assert tail[k] == t[|t| - m + k];
    }
  }

  /** A sequence is its head, its middle and its tail put back together. */
  lemma Slices<T>(s: seq<T>, n: nat, m: nat)
    requires n + m <= |s|
    ensures s == s[..n] + s[n..][..|s| - n - m] + s[n..][|s| - n - m..]
  {
    var t := s[n..];
    assert s == s[..n] + t;
    assert t == t[..|t| - m] + t[|t| - m..];
  }

  /** The text is the trimmed text between two runs of whitespace. */
  lemma TrimParts(s: Text) returns (lead: Text, trail: Text)
    ensures s == lead + Trim(s) + trail
    ensures AllWhitespace(lead) && AllWhitespace(trail)
  {
    var n := LeadingWhitespace(s);
    var t := s[n..];
    var m := TrailingWhitespace(t);
    LeadIsWhitespace(s);
    TrailIsWhitespace(t);
    Slices(s, n, m);
    lead, trail := s[..n], t[|t| - m..];
  }

  /** Index of the first separator in `s`, or `|s|` when there is none. */
  function FirstSep(s: Text, sep: CodeUnit -> bool): (i: nat)
    ensures i <= |s|
    ensures i < |s| ==> sep(s[i])
    ensures forall k :: 0 <= k < i ==> !sep(s[k])
  {
    if s == [] then 0
    else if sep(s[0]) then 0
    else 1 + FirstSep(s[1..], sep)
  }

  /** End of the maximal run of separators that starts at `i` (greedy `+`). */
  function RunEnd(s: Text, sep: CodeUnit -> bool, i: nat): (j: nat)
    requires i <= |s|
    ensures i <= j <= |s|
    ensures forall k :: i <= k < j ==> sep(s[k])
    ensures j < |s| ==> !sep(s[j])
    decreases |s| - i
  {
    if i < |s| && sep(s[i]) then RunEnd(s, sep, i + 1) else i
  }

  /**
   * `s.split(/[sep]+/)`: the fragments between maximal runs of separators.
   * A separator run at the start or end yields an empty first or last
   * fragment, and the empty text yields one empty fragment, as in
   * ECMAScript.
   */
  function Split(s: Text, sep: CodeUnit -> bool): (r: seq<Text>)
    ensures |r| >= 1
    ensures forall f :: f in r ==> forall k :: 0 <= k < |f| ==> !sep(f[k])
    decreases |s|
  {
    var i := FirstSep(s, sep);
    if i == |s| then [s]
    else [s[..i]] + Split(s[RunEnd(s, sep, i)..], sep)
  }

  /** A text without separators is a single fragment. */
  lemma SplitNoSeparator(s: Text, sep: CodeUnit -> bool)
    requires forall k :: 0 <= k < |s| ==> !sep(s[k])
    ensures Split(s, sep) == [s]
  {
    assert FirstSep(s, sep) == |s|;
  }

  /**
   * A separator-free fragment followed by a maximal run of separators: the
   * fragment is the first piece, and the rest is split on its own.  With
   * `SplitNoSeparator` this determines `Split` on every text.
   */
  lemma SplitAtRun(a: Text, run: Text, b: Text, sep: CodeUnit -> bool)
    requires forall k :: 0 <= k < |a| ==> !sep(a[k])
    requires |run| > 0 && forall k :: 0 <= k < |run| ==> sep(run[k])
    requires b == [] || !sep(b[0])
    ensures Split(a + run + b, sep) == [a] + Split(b, sep)
  {
    var s := a + run + b;
    var n := |a| + |run|;
    forall k | 0 <= k < |a|
      ensures !sep(s[k])
    {
      assert s[k] == a[k];
    }
    forall k | |a| <= k < n
      ensures sep(s[k])
    {
      assert s[k] == run[k - |a|];
    }
    assert n < |s| ==> s[n] == b[0];
    FirstSepAt(s, sep, |a|);
    RunEndAt(s, sep, |a|, n);
    assert s[..|a|] == a && s[n..] == b;
  }

  /** The first separator is at `i` when none comes before it and one is there. */
  lemma FirstSepAt(s: Text, sep: CodeUnit -> bool, i: nat)
    requires i <= |s|
    requires forall k :: 0 <= k < i ==> !sep(s[k])
    requires i < |s| ==> sep(s[i])
    ensures FirstSep(s, sep) == i
  {
  }

  /** The run from `i` ends at `j` when separators fill `[i, j)` and none follows. */
  lemma RunEndAt(s: Text, sep: CodeUnit -> bool, i: nat, j: nat)
    requires i <= j <= |s|
    requires forall k :: i <= k < j ==> sep(s[k])
    requires j < |s| ==> !sep(s[j])
    ensures RunEnd(s, sep, i) == j
  {
  }

  /**
   * The number of maximal runs of separators in `s`; `inRun` says whether
   * `s` continues a run that started before it.
   */
  function SepRuns(s: Text, sep: CodeUnit -> bool, inRun: bool): nat {
    if s == [] then 0
    else if sep(s[0]) then (if inRun then 0 else 1) + SepRuns(s[1..], sep, true)
    else SepRuns(s[1..], sep, false)
  }

  lemma {:induction false} SepRunsAfterFragment(a: Text, t: Text, sep: CodeUnit -> bool, inRun: bool)
    requires |a| > 0 && forall k :: 0 <= k < |a| ==> !sep(a[k])
    ensures SepRuns(a + t, sep, inRun) == SepRuns(t, sep, false)
  {
    assert (a + t)[1..] == a[1..] + t;
    if |a| == 1 {
      assert a[1..] + t == t;
    } else {
      SepRunsAfterFragment(a[1..], t, sep, false);
    }
  }

  lemma {:induction false} SepRunsInsideRun(r: Text, t: Text, sep: CodeUnit -> bool)
    requires forall k :: 0 <= k < |r| ==> sep(r[k])
    ensures SepRuns(r + t, sep, true) == SepRuns(t, sep, true)
  {
    if r == [] {
      assert r + t == t;
    } else {
      assert (r + t)[1..] == r[1..] + t;
      SepRunsInsideRun(r[1..], t, sep);
    }
  }

  /** A separator-free fragment and a maximal run of separators hold exactly one run. */
  lemma SepRunsAtRun(a: Text, run: Text, b: Text, sep: CodeUnit -> bool)
    requires forall k :: 0 <= k < |a| ==> !sep(a[k])
    requires |run| > 0 && forall k :: 0 <= k < |run| ==> sep(run[k])
    requires b == [] || !sep(b[0])
    ensures SepRuns(a + run + b, sep, false) == 1 + SepRuns(b, sep, false)
  {
    var t := run + b;
    if a == [] {
      assert a + run + b == t;
    } else {
      assert a + run + b == a + t;
      SepRunsAfterFragment(a, t, sep, false);
    }
    SepRunsOfRun(run, b, sep);
  }

  /** A maximal run of separators counts once. */
  lemma SepRunsOfRun(run: Text, b: Text, sep: CodeUnit -> bool)
    requires |run| > 0 && forall k :: 0 <= k < |run| ==> sep(run[k])
    requires b == [] || !sep(b[0])
    ensures SepRuns(run + b, sep, false) == 1 + SepRuns(b, sep, false)
  {
    assert (run + b)[1..] == run[1..] + b;
    SepRunsInsideRun(run[1..], b, sep);
  }

  /** `split` yields one fragment more than there are maximal runs of separators. */
  lemma {:induction false} SplitCountsRuns(s: Text, sep: CodeUnit -> bool)
    ensures |Split(s, sep)| == 1 + SepRuns(s, sep, false)
    decreases |s|
  {
    var i := FirstSep(s, sep);
    if i == |s| {
      SepRunsNone(s, sep);
    } else {
      var j := RunEnd(s, sep, i);
      var a, run, b := s[..i], s[i..j], s[j..];
      assert s == a + run + b;
      SplitAtRun(a, run, b, sep);
      SepRunsAtRun(a, run, b, sep);
      SplitCountsRuns(b, sep);
    }
  }

  lemma {:induction false} SepRunsNone(s: Text, sep: CodeUnit -> bool)
    requires forall k :: 0 <= k < |s| ==> !sep(s[k])
    ensures SepRuns(s, sep, false) == 0
  {
    if s != [] {
      SepRunsNone(s[1..], sep);
    }
  }

  /**
   * Reference count for the counters: scanning left to right, a
   * non-whitespace code unit that is not a separator opens a new fragment
   * unless one was already seen since the last separator (or the start).
   * `seen` says whether the current fragment already holds one.
   */
  function Openings(s: Text, sep: CodeUnit -> bool, seen: bool): nat {
    if s == [] then 0
    else if sep(s[0]) then Openings(s[1..], sep, false)
    else if !IsWhitespace(s[0]) then (if seen then 0 else 1) + Openings(s[1..], sep, true)
    else Openings(s[1..], sep, seen)
  }

  /** The value of `seen` after scanning `s`. */
  function SeenAfter(s: Text, sep: CodeUnit -> bool, seen: bool): bool {
    if s == [] then seen
    else if sep(s[0]) then SeenAfter(s[1..], sep, false)
    else SeenAfter(s[1..], sep, seen || !IsWhitespace(s[0]))
  }

  lemma {:induction false} OpeningsAppend(a: Text, b: Text, sep: CodeUnit -> bool, seen: bool)
    ensures Openings(a + b, sep, seen)
         == Openings(a, sep, seen) + Openings(b, sep, SeenAfter(a, sep, seen))
    ensures SeenAfter(a + b, sep, seen) == SeenAfter(b, sep, SeenAfter(a, sep, seen))
  {
    if a == [] {
      assert a + b == b;
    } else {
      assert (a + b)[1..] == a[1..] + b;
      var next := if sep(a[0]) then false else seen || !IsWhitespace(a[0]);
      OpeningsAppend(a[1..], b, sep, next);
    }
  }

  /** A fragment without separators opens one fragment exactly when it has content. */
  lemma {:induction false} OpeningsFragment(f: Text, sep: CodeUnit -> bool, seen: bool)
    requires forall k :: 0 <= k < |f| ==> !sep(f[k])
    ensures Openings(f, sep, seen) == if !seen && HasContent(f) then 1 else 0
    ensures SeenAfter(f, sep, seen) == (seen || HasContent(f))
  {
    if f != [] {
      OpeningsFragment(f[1..], sep, seen || !IsWhitespace(f[0]));
      assert HasContent(f) == (!IsWhitespace(f[0]) || HasContent(f[1..])) by {
        if HasContent(f[1..]) {
          var k :| 0 <= k < |f[1..]| && !IsWhitespace(f[1..][k]);
          assert !IsWhitespace(f[k + 1]);
        }
      }
    }
  }

  /** A non-empty run of separators opens nothing and closes the current fragment. */
  lemma {:induction false} OpeningsSepRun(r: Text, sep: CodeUnit -> bool, seen: bool)
    requires |r| > 0
    requires forall k :: 0 <= k < |r| ==> sep(r[k])
    ensures Openings(r, sep, seen) == 0
    ensures SeenAfter(r, sep, seen) == false
  {
    if |r| > 1 {
      OpeningsSepRun(r[1..], sep, false);
    }
  }

  /** Whitespace opens nothing, whatever the separator. */
  lemma {:induction false} OpeningsBlank(s: Text, sep: CodeUnit -> bool, seen: bool)
    requires AllWhitespace(s)
    ensures Openings(s, sep, seen) == 0
  {
    if s != [] {
      OpeningsBlank(s[1..], sep, if sep(s[0]) then false else seen);
    }
  }

  /** A non-whitespace code unit that is not a separator opens at least one fragment. */
  lemma {:induction false} OpeningsPositive(s: Text, sep: CodeUnit -> bool, k: nat)
    requires k < |s| && !IsWhitespace(s[k]) && !sep(s[k])
    ensures Openings(s, sep, false) >= 1
  {
    if sep(s[0]) || IsWhitespace(s[0]) {
      OpeningsPositive(s[1..], sep, k - 1);
    }
  }

  /**
   * Counting the fragments of `split` that have content is the same as
   * counting openings in one pass over the text.
   */
  lemma {:induction false} SplitOpenings(s: Text, sep: CodeUnit -> bool)
    ensures |Filter(HasContent, Split(s, sep))| == Openings(s, sep, false)
    decreases |s|
  {
    var i := FirstSep(s, sep);
    if i == |s| {
      OpeningsFragment(s, sep, false);
    } else {
      var j := RunEnd(s, sep, i);
      var head, run, rest := s[..i], s[i..j], s[j..];
      assert s == head + (run + rest);
      OpeningsAppend(head, run + rest, sep, false);
      OpeningsFragment(head, sep, false);
      OpeningsAppend(run, rest, sep, SeenAfter(head, sep, false));
      OpeningsSepRun(run, sep, SeenAfter(head, sep, false));
      SplitOpenings(rest, sep);
      FilterAppend(HasContent, [head], Split(rest, sep));
    }
  }

  /** A non-empty separator run between two texts closes the first and adds nothing. */
  lemma OpeningsAcrossRun(a: Text, run: Text, b: Text, sep: CodeUnit -> bool)
    requires |run| > 0 && forall k :: 0 <= k < |run| ==> sep(run[k])
    ensures Openings(a + run + b, sep, false) == Openings(a, sep, false) + Openings(b, sep, false)
  {
    var x := SeenAfter(a, sep, false);
    OpeningsSepRun(run, sep, x);
    OpeningsAppend(run, b, sep, x);
    OpeningsAppend(a, run + b, sep, false);
    assert a + run + b == a + (run + b);
  }

  /** Replacing one non-empty separator run by another does not change the openings. */
  lemma OpeningsReplaceRun(a: Text, run1: Text, run2: Text, b: Text, sep: CodeUnit -> bool)
    requires |run1| > 0 && forall k :: 0 <= k < |run1| ==> sep(run1[k])
    requires |run2| > 0 && forall k :: 0 <= k < |run2| ==> sep(run2[k])
    ensures Openings(a + run1 + b, sep, false) == Openings(a + run2 + b, sep, false)
  {
    OpeningsAcrossRun(a, run1, b, sep);
    OpeningsAcrossRun(a, run2, b, sep);
  }

  /** When whitespace separates, whitespace leaves no fragment open. */
  lemma {:induction false} BlankCloses(s: Text)
    requires AllWhitespace(s)
    ensures SeenAfter(s, IsWhitespace, false) == false
  {
    if s != [] {
      BlankCloses(s[1..]);
    }
  }

  /** When whitespace separates, whitespace around a text adds no opening. */
  lemma OpeningsOuterWhitespace(lead: Text, s: Text, trail: Text)
    requires AllWhitespace(lead) && AllWhitespace(trail)
    ensures Openings(lead + s + trail, IsWhitespace, false) == Openings(s, IsWhitespace, false)
  {
    OpeningsAppend(lead, s + trail, IsWhitespace, false);
    OpeningsBlank(lead, IsWhitespace, false);
    BlankCloses(lead);
    OpeningsAppend(s, trail, IsWhitespace, false);
    OpeningsBlank(trail, IsWhitespace, SeenAfter(s, IsWhitespace, false));
    assert lead + s + trail == lead + (s + trail);
  }
}
