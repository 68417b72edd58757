/**
 * `calculateLetterDensity` of index.js: the frequency table of the
 * recognized letters of a text, ranked by count.
 */
module Density {
  import opened Chars
  import opened Seqs

  /** One `{letter, count, percentage}` object of the result. */
  datatype Entry = Entry(letter: CodeUnit, count: nat, percentage: real)

  /**
   * `text.toLowerCase().replace(/[^a-zàâäéèêëïîôùûüÿæœç]/g, '')`: the
   * recognized letters of the lowercased text, in order.
   */
  function Letters(text: Text): (r: Text)
    ensures forall k :: 0 <= k < |r| ==> IsRecognized(r[k])
  {
    Filter(IsRecognized, LowerCase(text))
  }

  /**
   * The letters one code unit contributes: itself when recognized, its letter
   * when it is the capital of one, `k` for the Kelvin sign, `i` for capital I
   * with dot above, and nothing for every other code unit.
   */
  lemma UnitLetters(u: CodeUnit)
    ensures IsRecognized(u) ==> Letters([u]) == [u]
    ensures forall c :: IsRecognized(c) && UpperUnit(c) == u ==> Letters([u]) == [c]
    ensures u == 0x212A ==> Letters([u]) == ['k' as CodeUnit]
    ensures u == 0x130 ==> Letters([u]) == ['i' as CodeUnit]
    ensures (!IsRecognized(u) && u != 0x212A && u != 0x130
             && forall c :: IsRecognized(c) ==> UpperUnit(c) != u) ==> Letters([u]) == []
  {
    SingleUnitLetters(u);
    forall c | IsRecognized(c) && UpperUnit(c) == u
      ensures Filter(IsRecognized, LowerUnit(u)) == [c]
    {
      CapitalLetters(c);
    }
    SpecialLetters();
    LetterSources(u);
  }

  /** The letters of a one-unit text are those of its lowercase form. */
  lemma SingleUnitLetters(u: CodeUnit)
    ensures Letters([u]) == Filter(IsRecognized, LowerUnit(u))
  {
    assert LowerCase([u]) == LowerUnit(u);
  }

  /** The capital of a recognized letter lowercases to that letter. */
  lemma CapitalLetters(c: CodeUnit)
    requires IsRecognized(c)
    ensures Filter(IsRecognized, LowerUnit(UpperUnit(c))) == [c]
  {
    LowerUpper(c);
  }

  /** The Kelvin sign yields `k`; capital I with dot above yields `i` and a non-letter. */
  lemma SpecialLetters()
    ensures Filter(IsRecognized, LowerUnit(0x212A)) == ['k' as CodeUnit]
    ensures Filter(IsRecognized, LowerUnit(0x130)) == ['i' as CodeUnit]
  {
    var l := LowerUnit(0x130);
    assert l[1..] == [0x307] && !IsRecognized(0x307);
    assert Filter(IsRecognized, l[1..]) == [];
  }

  /** Only a letter, the capital of one, U+212A or U+0130 lowercases to a letter. */
  lemma LetterSources(u: CodeUnit)
    ensures Filter(IsRecognized, LowerUnit(u)) != [] ==>
              || IsRecognized(u) || u == 0x212A || u == 0x130
              || exists c :: IsRecognized(c) && UpperUnit(c) == u
  {
    if 'A' as CodeUnit <= u <= 'Z' as CodeUnit {
      assert UpperUnit(u + 0x20) == u;
    } else if 0xC0 <= u <= 0xDE && u != 0xD7 {
      if IsRecognized(u + 0x20) {
        assert UpperUnit(u + 0x20) == u;
      }
    } else if u == 0x178 {
      assert UpperUnit(0xFF) == u;
    } else if u == 0x152 {
      assert UpperUnit(0x153) == u;
    }
  }

  /** `(count / letters.length) * 100`, as an exact rational. */
  function Percentage(count: nat, total: nat): (p: real)
    requires total > 0
    ensures 0.0 <= p
    ensures count <= total ==> p <= 100.0
  {
    (count as real) / (total as real) * 100.0
  }

  /** Index of the first occurrence of `x` in `s`, or `|s|` when it does not occur. */
  function FirstIndex<T(==)>(s: seq<T>, x: T): (i: nat)
    ensures i <= |s|
    ensures i < |s| <==> x in s
    ensures i < |s| ==> s[i] == x && x !in s[..i]
  {
    if s == [] then 0
    else if s[0] == x then 0
    else
      var i := 1 + FirstIndex(s[1..], x);
      assert s[..i] == [s[0]] + s[1..][..i - 1];
      i
  }

  lemma {:induction false} FirstIndexAppend<T>(s: seq<T>, y: T, x: T)
    requires x in s
    ensures FirstIndex(s + [y], x) == FirstIndex(s, x)
  {
    if s[0] != x {
      assert (s + [y])[1..] == s[1..] + [y];
      FirstIndexAppend(s[1..], y, x);
    }
  }

  /** In a sequence without repetitions, an element's first index is its index. */
  lemma FirstIndexDistinct<T>(s: seq<T>, i: nat)
    requires i < |s|
    requires forall p, q :: 0 <= p < q < |s| ==> s[p] != s[q]
    ensures FirstIndex(s, s[i]) == i
  {
  }

  /** The letters in order of first appearance: `Object.entries` order of the count object. */
  function Dedup(s: Text): (r: Text)
    ensures forall c :: c in r <==> c in s
    ensures forall p, q :: 0 <= p < q < |r| ==> r[p] != r[q]
  {
    if s == [] then []
    else
      var d := Dedup(s[..|s| - 1]);
      var c := s[|s| - 1];
      assert s == s[..|s| - 1] + [c];
      if c in d then d else d + [c]
  }

  /** The distinct letters come in the order in which they first appear. */
  lemma {:induction false} DedupFirstSeenOrder(s: Text)
    ensures forall p, q :: 0 <= p < q < |Dedup(s)| ==>
              FirstIndex(s, Dedup(s)[p]) < FirstIndex(s, Dedup(s)[q])
  {
    if s != [] {
      var init, c := s[..|s| - 1], s[|s| - 1];
      assert s == init + [c];
      DedupFirstSeenOrder(init);
      var d := Dedup(init);
      forall x | x in init
        ensures FirstIndex(s, x) == FirstIndex(init, x)
      {
        FirstIndexAppend(init, c, x);
      }
    }
  }

  /** After reading `prefix`: the counts so far and the keys in insertion order. */
  ghost predicate Tally(prefix: Text, counts: map<CodeUnit, nat>, order: Text) {
    && order == Dedup(prefix)
    && (forall c :: c in counts <==> c in prefix)
    && (forall c :: c in counts ==> counts[c] == multiset(prefix)[c])
  }

  /** Reading a letter already counted bumps its count. */
  lemma TallySeen(prefix: Text, letter: CodeUnit, counts: map<CodeUnit, nat>, order: Text)
    requires Tally(prefix, counts, order) && letter in counts
    ensures Tally(prefix + [letter], counts[letter := counts[letter] + 1], order)
  {
    DedupSnoc(prefix, letter);
    assert multiset(prefix + [letter]) == multiset(prefix) + multiset{letter};
  }

  /** Reading a new letter counts it once and adds it as the last key. */
  lemma TallyNew(prefix: Text, letter: CodeUnit, counts: map<CodeUnit, nat>, order: Text)
    requires Tally(prefix, counts, order) && letter !in counts
    ensures Tally(prefix + [letter], counts[letter := 1], order + [letter])
  {
    var s, m := prefix + [letter], counts[letter := 1];
    assert letter !in prefix;
    DedupSnoc(prefix, letter);
    assert order + [letter] == Dedup(s);
    assert multiset(s) == multiset(prefix) + multiset{letter};
    forall c
      ensures c in m <==> c in s
    {
      assert c in s <==> c in prefix || c == letter;
    }
    forall c | c in m
      ensures m[c] == multiset(s)[c]
    {
      if c == letter {
        assert multiset(prefix)[c] == 0;
      }
    }
  }

  lemma DedupSnoc(prefix: Text, letter: CodeUnit)
    ensures Dedup(prefix + [letter]) == if letter in prefix then Dedup(prefix) else Dedup(prefix) + [letter]
  {
    var s := prefix + [letter];
    assert s[..|s| - 1] == prefix;
  }

  /**
   * The counting loop of `calculateLetterDensity`: one pass over the letters
   * that fills the count object `letterCount`, whose keys keep insertion
   * order (`order`).
   */
  method CountLetters(letters: Text) returns (counts: map<CodeUnit, nat>, order: Text)
    ensures order == Dedup(letters)
    ensures forall c :: c in counts <==> c in letters
    ensures forall c :: c in counts ==> counts[c] == multiset(letters)[c]
  {
    counts := map[];
    order := [];
    var i := 0;
    while i < |letters|
      invariant 0 <= i <= |letters|
      invariant Tally(letters[..i], counts, order)
    {
      var letter := letters[i];
      assert letters[..i + 1] == letters[..i] + [letter];
      if letter in counts {
        TallySeen(letters[..i], letter, counts, order);
        counts := counts[letter := counts[letter] + 1];
      } else {
        TallyNew(letters[..i], letter, counts, order);
        counts := counts[letter := 1];
        order := order + [letter];
      }
      i := i + 1;
    }
    assert letters[..i] == letters;
  }

  predicate DistinctLetters(d: seq<Entry>) {
    forall p, q :: 0 <= p < q < |d| ==> d[p].letter != d[q].letter
  }

  /**
   * The order a stable descending sort by count leaves two entries of `orig`
   * in: higher count first, and on equal counts the earlier one in `orig`.
   */
  ghost predicate Precedes(x: Entry, y: Entry, orig: seq<Entry>) {
    x.count > y.count || (x.count == y.count && FirstIndex(orig, x) < FirstIndex(orig, y))
  }

  /**
   * `density.sort((a, b) => b.count - a.count)`: sorts in place, highest
   * count first; `Array.prototype.sort` is stable, so entries with equal
   * counts keep their relative order.
   */
  method SortByCountDescending(a: array<Entry>)
    requires DistinctLetters(a[..])
    modifies a
    ensures multiset(a[..]) == multiset(old(a[..]))
    ensures forall p, q :: 0 <= p < q < a.Length ==> a[p].count >= a[q].count
    ensures forall p, q :: 0 <= p < q < a.Length && a[p].count == a[q].count ==>
              FirstIndex(old(a[..]), a[p]) < FirstIndex(old(a[..]), a[q])
  {
    ghost var orig := a[..];
    var i := 0;
    while i < a.Length
      invariant 0 <= i <= a.Length
      invariant multiset(a[..]) == multiset(orig)
      invariant a[i..] == orig[i..]
      invariant forall p :: 0 <= p < i ==> a[p] in orig[..i]
      invariant forall p, q :: 0 <= p < q < i ==> Precedes(a[p], a[q], orig)
    {
      InsertLast(a, i, orig);
      i := i + 1;
    }
  }

  /** One step of the insertion sort: moves `a[i]` down into the sorted prefix `a[..i]`. */
  method InsertLast(a: array<Entry>, i: nat, ghost orig: seq<Entry>)
    requires i < a.Length == |orig|
    requires DistinctLetters(orig)
    requires multiset(a[..]) == multiset(orig)
    requires a[i..] == orig[i..]
    requires forall p :: 0 <= p < i ==> a[p] in orig[..i]
    requires forall p, q :: 0 <= p < q < i ==> Precedes(a[p], a[q], orig)
    modifies a
    ensures multiset(a[..]) == multiset(orig)
    ensures a[i + 1..] == orig[i + 1..]
    ensures forall p :: 0 <= p <= i ==> a[p] in orig[..i + 1]
    ensures forall p, q :: 0 <= p < q <= i ==> Precedes(a[p], a[q], orig)
  {
    var j: nat := i;
    assert a[i] == orig[i];
    while j > 0 && a[j - 1].count < a[j].count
      invariant Inserting(a[..], i, j, orig)
    {
      ghost var s := a[..];
      a[j - 1], a[j] := a[j], a[j - 1];
      assert a[..] == s[j - 1 := s[j]][j := s[j - 1]];
      SwapStep(s, i, j, orig);
      j := j - 1;
    }
    InsertDone(a[..], i, j, orig);
  }

  /**
   * The state of the insertion of `orig[i]`: it sits at `j`, the entries
   * after it up to `i` have smaller counts, and the others keep the order
   * of the sorted prefix they came from.
   */
  ghost predicate Inserting(s: seq<Entry>, i: nat, j: nat, orig: seq<Entry>) {
    && j <= i < |s| == |orig|
    && s[j] == orig[i]
    && multiset(s) == multiset(orig)
    && s[i + 1..] == orig[i + 1..]
    && (forall p :: 0 <= p <= i && p != j ==> s[p] in orig[..i])
    && (forall p, q :: 0 <= p < q <= i && p != j && q != j ==> Precedes(s[p], s[q], orig))
    && (forall q :: j < q <= i ==> s[q].count < s[j].count)
  }

  lemma SwapStep(s: seq<Entry>, i: nat, j: nat, orig: seq<Entry>)
    requires Inserting(s, i, j, orig)
    requires 0 < j && s[j - 1].count < s[j].count
    ensures Inserting(s[j - 1 := s[j]][j := s[j - 1]], i, j - 1, orig)
  {
    var t := s[j - 1 := s[j]][j := s[j - 1]];
    assert t[i + 1..] == s[i + 1..];
    forall p, q | 0 <= p < q <= i && p != j - 1 && q != j - 1
      ensures Precedes(t[p], t[q], orig)
    {
      var p' := if p == j then j - 1 else p;
      var q' := if q == j then j - 1 else q;
      assert t[p] == s[p'] && t[q] == s[q'];
    }
  }

  lemma InsertDone(s: seq<Entry>, i: nat, j: nat, orig: seq<Entry>)
    requires Inserting(s, i, j, orig)
    requires DistinctLetters(orig)
    requires j == 0 || s[j - 1].count >= s[j].count
    ensures forall p :: 0 <= p <= i ==> s[p] in orig[..i + 1]
    ensures forall p, q :: 0 <= p < q <= i ==> Precedes(s[p], s[q], orig)
  {
    FirstIndexDistinctEntries(orig, i);
    assert orig[..i + 1] == orig[..i] + [orig[i]];
    if j > 0 {
      FirstIndexInPrefix(orig, i, s[j - 1]);
      assert Precedes(s[j - 1], s[j], orig);
    }
  }

  lemma FirstIndexDistinctEntries(orig: seq<Entry>, i: nat)
    requires i < |orig| && DistinctLetters(orig)
    ensures FirstIndex(orig, orig[i]) == i
  {
    FirstIndexDistinct(orig, i);
  }

  lemma FirstIndexInPrefix(orig: seq<Entry>, i: nat, x: Entry)
    requires i <= |orig| && x in orig[..i]
    ensures FirstIndex(orig, x) < i
  {
    var k :| 0 <= k < i && orig[..i][k] == x;
    assert orig[k] == x;
  }

  /**
   * The entries of `Object.entries(letterCount).map(...)`: one per distinct
   * letter in first-appearance order, with its count and percentage.
   */
  function UnsortedEntries(letters: Text): (r: seq<Entry>)
    requires |letters| > 0
    ensures |r| == |Dedup(letters)|
  {
    var order := Dedup(letters);
    seq(|order|, k requires 0 <= k < |order| =>
      Entry(order[k], multiset(letters)[order[k]], Percentage(multiset(letters)[order[k]], |letters|)))
  }

  /** Each entry is a letter of the text, with its number of occurrences and its share. */
  ghost predicate ExactCounts(d: seq<Entry>, letters: Text) {
    forall i :: 0 <= i < |d| ==>
      && d[i].letter in letters
      && d[i].count == multiset(letters)[d[i].letter]
      && d[i].percentage == Percentage(d[i].count, |letters|)
  }

  /** The letters of the entries, in order. */
  function LettersOf(d: seq<Entry>): (r: Text)
    ensures |r| == |d| && forall i :: 0 <= i < |d| ==> r[i] == d[i].letter
  {
    seq(|d|, i requires 0 <= i < |d| => d[i].letter)
  }

  /** Each letter of the text has an entry. */
  ghost predicate CoversLetters(d: seq<Entry>, letters: Text) {
    forall c :: c in letters ==> c in LettersOf(d)
  }

  /**
   * Highest count first; on equal counts, the letter that appears first in
   * the text comes first.
   */
  ghost predicate RankedByCount(d: seq<Entry>, letters: Text) {
    forall p, q :: 0 <= p < q < |d| ==>
      || d[p].count > d[q].count
      || (d[p].count == d[q].count && FirstIndex(letters, d[p].letter) < FirstIndex(letters, d[q].letter))
  }

  /** The complete letter density table of `letters`. */
  ghost predicate IsDensityTable(d: seq<Entry>, letters: Text) {
    DistinctLetters(d) && ExactCounts(d, letters) && CoversLetters(d, letters) && RankedByCount(d, letters)
  }

  /** A stable descending sort of the unsorted entries is the density table. */
  lemma SortedEntriesFormTable(d: seq<Entry>, letters: Text)
    requires |letters| > 0
    requires multiset(d) == multiset(UnsortedEntries(letters))
    requires forall p, q :: 0 <= p < q < |d| ==> d[p].count >= d[q].count
    requires forall p, q :: 0 <= p < q < |d| && d[p].count == d[q].count ==>
               FirstIndex(UnsortedEntries(letters), d[p]) < FirstIndex(UnsortedEntries(letters), d[q])
    ensures IsDensityTable(d, letters)
  {
    var u := UnsortedEntries(letters);
    var order := Dedup(letters);
    DedupFirstSeenOrder(letters);
    assert forall i :: 0 <= i < |d| ==> d[i] in u by {
      forall i | 0 <= i < |d| ensures d[i] in u {
        assert d[i] in multiset(d);
      }
    }
    forall p, q | 0 <= p < q < |d|
      ensures d[p].letter != d[q].letter
      ensures d[p].count == d[q].count ==>
                FirstIndex(letters, d[p].letter) < FirstIndex(letters, d[q].letter)
    {
      var kp, kq := FirstIndex(u, d[p]), FirstIndex(u, d[q]);
      if d[p].count == d[q].count {
        assert order[kp] == d[p].letter && order[kq] == d[q].letter;
      }
    }
    forall c | c in letters
      ensures c in LettersOf(d)
    {
      var k := FirstIndex(order, c);
      assert u[k] in multiset(d);
      var i :| 0 <= i < |d| && d[i] == u[k];
      assert LettersOf(d)[i] == c;
    }
  }

  /** `.map(([letter, count]) => ({letter, count, percentage}))` over the counted letters. */
  function ToEntries(order: Text, counts: map<CodeUnit, nat>, total: nat): (r: seq<Entry>)
    requires total > 0
    requires forall c :: c in order ==> c in counts
    ensures |r| == |order|
    ensures forall k :: 0 <= k < |r| ==> r[k].letter == order[k] && r[k].count == counts[order[k]]
    ensures forall k :: 0 <= k < |r| ==> r[k].percentage == Percentage(r[k].count, total)
  {
    seq(|order|, k requires 0 <= k < |order| =>
      Entry(order[k], counts[order[k]], Percentage(counts[order[k]], total)))
  }

  lemma ToEntriesOfCounts(letters: Text, counts: map<CodeUnit, nat>, order: Text)
    requires |letters| > 0
    requires order == Dedup(letters)
    requires forall c :: c in counts <==> c in letters
    requires forall c :: c in counts ==> counts[c] == multiset(letters)[c]
    ensures ToEntries(order, counts, |letters|) == UnsortedEntries(letters)
  {
  }

  /** The letters of a density table are recognized and occur at least once. */
  lemma TableLettersRecognized(d: seq<Entry>, text: Text)
    requires ExactCounts(d, Letters(text))
    ensures forall i :: 0 <= i < |d| ==> IsRecognized(d[i].letter) && d[i].count >= 1
  {
    var letters := Letters(text);
    forall i | 0 <= i < |d|
      ensures IsRecognized(d[i].letter) && d[i].count >= 1
    {
      var k := FirstIndex(letters, d[i].letter);
      assert letters[k] == d[i].letter;
    }
  }

  /** The entries sorted into a fresh array by `SortByCountDescending`, read back. */
  method SortedCopy(entries: seq<Entry>) returns (sorted: seq<Entry>)
    requires DistinctLetters(entries)
    ensures multiset(sorted) == multiset(entries)
    ensures forall p, q :: 0 <= p < q < |sorted| ==> sorted[p].count >= sorted[q].count
    ensures forall p, q :: 0 <= p < q < |sorted| && sorted[p].count == sorted[q].count ==>
              FirstIndex(entries, sorted[p]) < FirstIndex(entries, sorted[q])
  {
    var a := new Entry[|entries|](k requires 0 <= k < |entries| => entries[k]);
    assert a[..] == entries;
    SortByCountDescending(a);
    sorted := a[..];
  }

  /**
   * `calculateLetterDensity(text)`: the letter density table of the text,
   * empty when the lowercased text has no recognized letter.
   */
  method LetterDensity(text: Text) returns (density: seq<Entry>)
    ensures density == [] <==> Letters(text) == []
    ensures DistinctLetters(density)
    ensures ExactCounts(density, Letters(text))
    ensures CoversLetters(density, Letters(text))
    ensures RankedByCount(density, Letters(text))
    ensures forall i :: 0 <= i < |density| ==> IsRecognized(density[i].letter) && density[i].count >= 1
  {
    var letters := Letters(text);
    if |letters| == 0 {
      return [];
    }
    var counts, order := CountLetters(letters);
    ToEntriesOfCounts(letters, counts, order);
    density := SortedCopy(ToEntries(order, counts, |letters|));
    SortedEntriesFormTable(density, letters);
    TableLettersRecognized(density, text);
    assert letters[0] in LettersOf(density);
  }

  /** The text without any occurrence of `c`. */
  function RemoveAll(s: Text, c: CodeUnit): (r: Text)
    ensures forall x :: x in r <==> x in s && x != c
    ensures forall x :: x != c ==> multiset(r)[x] == multiset(s)[x]
    ensures |r| + multiset(s)[c] == |s|
  {
    if s == [] then []
    else
      assert s == [s[0]] + s[1..];
      (if s[0] == c then [] else [s[0]]) + RemoveAll(s[1..], c)
  }

  /** Sum of the counts of the entries. */
  function SumCounts(d: seq<Entry>): nat {
    if d == [] then 0 else SumCounts(d[..|d| - 1]) + d[|d| - 1].count
  }

  /** Sum of the percentages of the entries. */
  function SumPercentages(d: seq<Entry>): real {
    if d == [] then 0.0 else SumPercentages(d[..|d| - 1]) + d[|d| - 1].percentage
  }

  /** Entries with distinct letters that count every letter of `letters` add up to its length. */
  lemma {:induction false} CountsAddUp(d: seq<Entry>, letters: Text)
    requires DistinctLetters(d)
    requires forall i :: 0 <= i < |d| ==> d[i].count == multiset(letters)[d[i].letter]
    requires forall c :: c in letters ==> c in LettersOf(d)
    ensures SumCounts(d) == |letters|
  {
    if letters != [] {
      assert letters[0] in LettersOf(d);
    }
    if d != [] {
      var init, c := d[..|d| - 1], d[|d| - 1].letter;
      var rest := RemoveAll(letters, c);
      forall x | x in rest
        ensures x in LettersOf(init)
      {
        var i :| 0 <= i < |d| && LettersOf(d)[i] == x;
        assert LettersOf(init)[i] == x;
      }
      CountsAddUp(init, rest);
    }
  }

  /** The counts of the density table add up to the number of recognized letters. */
  lemma TableCountsSum(d: seq<Entry>, letters: Text)
    requires IsDensityTable(d, letters)
    ensures SumCounts(d) == |letters|
  {
    CountsAddUp(d, letters);
  }

  lemma {:induction false} PercentagesScale(d: seq<Entry>, total: nat)
    requires total > 0
    requires forall i :: 0 <= i < |d| ==> d[i].percentage == Percentage(d[i].count, total)
    ensures SumPercentages(d) == (SumCounts(d) as real) / (total as real) * 100.0
  {
    if d != [] {
      var init := d[..|d| - 1];
      PercentagesScale(init, total);
      SharesAdd(SumCounts(init) as real, d[|d| - 1].count as real, total as real);
    }
  }

  /** The percentages of a non-empty density table add up to exactly 100. */
  lemma TablePercentagesSum(d: seq<Entry>, letters: Text)
    requires IsDensityTable(d, letters) && |letters| > 0
    ensures SumPercentages(d) == 100.0
  {
    TableCountsSum(d, letters);
    PercentagesScale(d, |letters|);
    WholeIsHundredPercent(|letters| as real);
  }

  lemma WholeIsHundredPercent(n: real)
    requires n > 0.0
    ensures n / n * 100.0 == 100.0
  {
  }

  lemma SharesAdd(a: real, b: real, t: real)
    requires t > 0.0
    ensures a / t * 100.0 + b / t * 100.0 == (a + b) / t * 100.0
  {
  }

  /** Two rankings of the same letters start with the same letter. */
  lemma RankingsAgreeOnHead(d1: seq<Entry>, d2: seq<Entry>, letters: Text)
    requires |d1| > 0 && |d2| > 0
    requires ExactCounts(d1, letters) && ExactCounts(d2, letters)
    requires RankedByCount(d1, letters) && RankedByCount(d2, letters)
    requires d1[0].letter in LettersOf(d2) && d2[0].letter in LettersOf(d1)
    ensures d1[0] == d2[0]
  {
    var a, b := d1[0].letter, d2[0].letter;
    if a != b {
      var k := FirstIndex(LettersOf(d2), a);
      var m := FirstIndex(LettersOf(d1), b);
      assert false;
    }
  }

  /** Dropping the same first letter from two sequences with the same letters. */
  lemma SameLettersAfterHead(d1: seq<Entry>, d2: seq<Entry>)
    requires |d1| > 0 && |d2| > 0 && d1[0].letter == d2[0].letter
    requires DistinctLetters(d1) && DistinctLetters(d2)
    requires forall c :: c in LettersOf(d1) <==> c in LettersOf(d2)
    ensures forall c :: c in LettersOf(d1[1..]) <==> c in LettersOf(d2[1..])
  {
    var t1, t2 := d1[1..], d2[1..];
    forall c | c in LettersOf(t1)
      ensures c in LettersOf(t2)
    {
      var i :| 0 <= i < |t1| && LettersOf(t1)[i] == c;
      assert LettersOf(d1)[i + 1] == c;
      assert c in LettersOf(d1);
      var j :| 0 <= j < |d2| && LettersOf(d2)[j] == c;
      assert LettersOf(t2)[j - 1] == c;
    }
    forall c | c in LettersOf(t2)
      ensures c in LettersOf(t1)
    {
      var j :| 0 <= j < |t2| && LettersOf(t2)[j] == c;
      assert LettersOf(d2)[j + 1] == c;
      assert c in LettersOf(d2);
      var i :| 0 <= i < |d1| && LettersOf(d1)[i] == c;
      assert LettersOf(t1)[i - 1] == c;
    }
  }

  /**
   * Two entry sequences for the same letters, each ranked by count and then
   * by first appearance, are the same sequence.
   */
  lemma {:induction false} RankingIsUnique(d1: seq<Entry>, d2: seq<Entry>, letters: Text)
    requires DistinctLetters(d1) && DistinctLetters(d2)
    requires ExactCounts(d1, letters) && ExactCounts(d2, letters)
    requires RankedByCount(d1, letters) && RankedByCount(d2, letters)
    requires forall c :: c in LettersOf(d1) <==> c in LettersOf(d2)
    ensures d1 == d2
  {
    if d1 != [] {
      assert LettersOf(d1)[0] in LettersOf(d2);
    }
    if d2 != [] {
      assert LettersOf(d2)[0] in LettersOf(d1);
    }
    if d1 != [] && d2 != [] {
      RankingsAgreeOnHead(d1, d2, letters);
      SameLettersAfterHead(d1, d2);
      RankingIsUnique(d1[1..], d2[1..], letters);
      assert d1 == [d1[0]] + d1[1..] && d2 == [d2[0]] + d2[1..];
    }
  }

  /**
   * The density table of a text is unique: the ranking by count and first
   * appearance fixes every position, so repeated calls agree.
   */
  lemma TableIsUnique(d1: seq<Entry>, d2: seq<Entry>, letters: Text)
    requires IsDensityTable(d1, letters) && IsDensityTable(d2, letters)
    ensures d1 == d2
  {
    forall c
      ensures c in LettersOf(d1) <==> c in LettersOf(d2)
    {
      if c in LettersOf(d1) {
        var i :| 0 <= i < |d1| && LettersOf(d1)[i] == c;
      }
      if c in LettersOf(d2) {
        var i :| 0 <= i < |d2| && LettersOf(d2)[i] == c;
      }
    }
    RankingIsUnique(d1, d2, letters);
  }

  lemma {:induction false} LowerCaseKeepsLetters(s: Text)
    requires forall k :: 0 <= k < |s| ==> IsRecognized(s[k])
    ensures LowerCase(s) == s
  {
    if s != [] {
      LowerCaseKeepsLetters(s[1..]);
      assert s == [s[0]] + s[1..];
    }
  }

  lemma {:induction false} FilterKeepsAll(s: Text)
    requires forall k :: 0 <= k < |s| ==> IsRecognized(s[k])
    ensures Filter(IsRecognized, s) == s
  {
    if s != [] {
      FilterKeepsAll(s[1..]);
      assert s == [s[0]] + s[1..];
    }
  }

  /** The recognized letters are already lowercase: analysing them again keeps them all. */
  lemma LettersIdempotent(text: Text)
    ensures Letters(Letters(text)) == Letters(text)
  {
    LowerCaseKeepsLetters(Letters(text));
    FilterKeepsAll(Letters(text));
  }

  /** Capitals count as their letters: the letters of an uppercased word are the word. */
  lemma CapitalsCountAsLetters(t: Text)
    requires AllRecognized(t)
    ensures Letters(Upper(t)) == t
  {
    LowerCaseUpper(t);
    FilterKeepsAll(t);
  }

  /** `showAll ? density : density.slice(0, maxItems)`: the entries on display. */
  function Shown(d: seq<Entry>, showAll: bool, maxItems: nat): (r: seq<Entry>)
    ensures |r| == if showAll || |d| <= maxItems then |d| else maxItems
    ensures r == d[..|r|]
  {
    if showAll || |d| <= maxItems then d else d[..maxItems]
  }

  /** `density.length > maxItems`: whether the "see more" button is displayed. */
  predicate HasHiddenEntries(d: seq<Entry>, maxItems: nat) {
    |d| > maxItems
  }

  /** The button is displayed exactly when the collapsed view leaves entries out. */
  lemma SeeMoreIffHidden(d: seq<Entry>, maxItems: nat)
    ensures HasHiddenEntries(d, maxItems) <==> Shown(d, false, maxItems) != d
  {
  }

  /** The collapsed view shows the most frequent letters: none hidden is more frequent. */
  lemma ShownAreMostFrequent(d: seq<Entry>, letters: Text, maxItems: nat)
    requires RankedByCount(d, letters)
    ensures var n := |Shown(d, false, maxItems)|;
            forall p, q :: 0 <= p < n <= q < |d| ==> d[p].count >= d[q].count
  {
  }
}
