/**
 * The three counters of index.js: `countCharacters`, `countWords` and
 * `countSentences`, and what they count.
 */
module Counters {
  import opened Chars
  import opened Seqs
  import opened TextSplit

  /**
   * `countCharacters(text, excludeSpaces)`: the length in code units, after
   * removing every whitespace code unit when `excludeSpaces` holds.
   */
  function CountCharacters(text: Text, excludeSpaces: bool): (n: nat)
    ensures n <= |text|
    ensures !excludeSpaces ==> n == |text|
    ensures excludeSpaces ==> n == |text| - |Filter(IsWhitespace, text)|
  {
    if excludeSpaces then
      FilterPartition(NotWhitespace, IsWhitespace, text);
      |Filter(NotWhitespace, text)|
    else
      |text|
  }

  /** The filter of `countWords`: a token with at least one code unit. */
  predicate NonEmpty(word: Text) {
    |word| > 0
  }

  /**
   * `countWords(text)`: 0 for blank text, else the tokens of `trim` then
   * `split(/\s+/)`.  The count is 0 exactly when the text is empty or all
   * whitespace.
   */
  function CountWords(text: Text): (n: nat)
    ensures n == 0 <==> AllWhitespace(text)
  {
    var trimmed := Trim(text);
    if trimmed == [] then 0
    else
      FirstTokenNonEmpty(trimmed);
      |Filter(NonEmpty, Split(trimmed, IsWhitespace))|
  }

  /** A text that starts with non-whitespace has a non-empty first token. */
  lemma FirstTokenNonEmpty(s: Text)
    requires s != [] && !IsWhitespace(s[0])
    ensures Filter(NonEmpty, Split(s, IsWhitespace)) != []
  {
    var parts := Split(s, IsWhitespace);
    var i := FirstSep(s, IsWhitespace);
    assert parts[0] == s[..i];
    assert NonEmpty(parts[0]);
  }

  /** The filter of `countSentences`: a fragment that is not blank once trimmed. */
  predicate NotBlank(fragment: Text) {
    Trim(fragment) != []
  }

  /**
   * `countSentences(text)`: 0 for blank text, else the non-blank fragments
   * of `split(/[.!?]+/)`.  The count is 0 exactly when every code unit is
   * whitespace or a terminator.
   */
  function CountSentences(text: Text): (n: nat)
    ensures n == 0 <==> forall k :: 0 <= k < |text| ==> IsWhitespace(text[k]) || IsTerminator(text[k])
  {
    if Trim(text) == [] then 0
    else
      NonBlankFragmentsAreRuns(text);
      OpeningsZeroIffNoContent(text);
      |Filter(NotBlank, Split(text, IsTerminator))|
  }

  /** The non-blank fragments of `split(/[.!?]+/)` are the sentence openings. */
  lemma NonBlankFragmentsAreRuns(text: Text)
    ensures |Filter(NotBlank, Split(text, IsTerminator))| == Openings(text, IsTerminator, false)
  {
    var parts := Split(text, IsTerminator);
    forall k | 0 <= k < |parts|
      ensures NotBlank(parts[k]) == HasContent(parts[k])
    {
    }
    FilterAgree(NotBlank, HasContent, parts);
    SplitOpenings(text, IsTerminator);
  }

  lemma {:induction false} NoContentNoOpenings(s: Text, seen: bool)
    requires forall k :: 0 <= k < |s| ==> IsWhitespace(s[k]) || IsTerminator(s[k])
    ensures Openings(s, IsTerminator, seen) == 0
  {
    if s != [] {
      NoContentNoOpenings(s[1..], if IsTerminator(s[0]) then false else seen);
    }
  }

  /** No sentence opens exactly when every code unit is whitespace or a terminator. */
  lemma OpeningsZeroIffNoContent(text: Text)
    ensures Openings(text, IsTerminator, false) == 0
        <==> forall k :: 0 <= k < |text| ==> IsWhitespace(text[k]) || IsTerminator(text[k])
  {
    if exists k :: 0 <= k < |text| && !IsWhitespace(text[k]) && !IsTerminator(text[k]) {
      var k :| 0 <= k < |text| && !IsWhitespace(text[k]) && !IsTerminator(text[k]);
      OpeningsPositive(text, IsTerminator, k);
    } else {
      NoContentNoOpenings(text, false);
    }
  }

  /** A token of `split(/\s+/)` is non-empty exactly when it has content. */
  lemma TokensHaveContent(s: Text)
    ensures Filter(NonEmpty, Split(s, IsWhitespace)) == Filter(HasContent, Split(s, IsWhitespace))
  {
    var parts := Split(s, IsWhitespace);
    forall k | 0 <= k < |parts|
      ensures NonEmpty(parts[k]) == HasContent(parts[k])
    {
      assert parts[k] in parts;
      if NonEmpty(parts[k]) {
        assert !IsWhitespace(parts[k][0]);
      }
    }
    FilterAgree(NonEmpty, HasContent, parts);
  }

  /**
   * The word count is the number of maximal runs of non-whitespace code
   * units in the text: an opening is a non-whitespace code unit at the start
   * or after whitespace.
   */
  lemma {:induction false} WordsAreRuns(text: Text)
    ensures CountWords(text) == Openings(text, IsWhitespace, false)
  {
    var trimmed := Trim(text);
    var lead, trail := TrimParts(text);
    if trimmed == [] {
      OpeningsBlank(text, IsWhitespace, false);
    } else {
      TokensHaveContent(trimmed);
      SplitOpenings(trimmed, IsWhitespace);
      OpeningsOuterWhitespace(lead, trimmed, trail);
    }
  }

  /** Leading and trailing whitespace do not change the word count. */
  lemma WordsIgnoreOuterWhitespace(lead: Text, text: Text, trail: Text)
    requires AllWhitespace(lead) && AllWhitespace(trail)
    ensures CountWords(lead + text + trail) == CountWords(text)
  {
    WordsAreRuns(lead + text + trail);
    WordsAreRuns(text);
    OpeningsOuterWhitespace(lead, text, trail);
  }

  /**
   * Only the presence of whitespace between two pieces of text matters, not
   * its length: a single space and a longer run give the same word count.
   */
  lemma WordsIgnoreGapWidth(a: Text, gap1: Text, gap2: Text, b: Text)
    requires |gap1| > 0 && AllWhitespace(gap1)
    requires |gap2| > 0 && AllWhitespace(gap2)
    ensures CountWords(a + gap1 + b) == CountWords(a + gap2 + b)
  {
    WordsAreRuns(a + gap1 + b);
    WordsAreRuns(a + gap2 + b);
    OpeningsReplaceRun(a, gap1, gap2, b, IsWhitespace);
  }

  /**
   * The sentence count is the number of maximal runs of non-terminator code
   * units that hold a non-whitespace code unit.
   */
  lemma {:induction false} SentencesAreRuns(text: Text)
    ensures CountSentences(text) == Openings(text, IsTerminator, false)
  {
    if Trim(text) == [] {
      OpeningsBlank(text, IsTerminator, false);
    } else {
      NonBlankFragmentsAreRuns(text);
    }
  }

  /** Text that is not blank and has no terminator is exactly one sentence. */
  lemma NoTerminatorIsOneSentence(text: Text)
    requires forall k :: 0 <= k < |text| ==> !IsTerminator(text[k])
    ensures CountSentences(text) == if AllWhitespace(text) then 0 else 1
  {
    SentencesAreRuns(text);
    OpeningsFragment(text, IsTerminator, false);
  }

  /**
   * A run of several terminators is a single sentence boundary: replacing
   * one non-empty run of terminators by another does not change the count.
   */
  lemma TerminatorRunIsOneBoundary(a: Text, run1: Text, run2: Text, b: Text)
    requires |run1| > 0 && forall k :: 0 <= k < |run1| ==> IsTerminator(run1[k])
    requires |run2| > 0 && forall k :: 0 <= k < |run2| ==> IsTerminator(run2[k])
    ensures CountSentences(a + run1 + b) == CountSentences(a + run2 + b)
  {
    SentencesAreRuns(a + run1 + b);
    SentencesAreRuns(a + run2 + b);
    OpeningsReplaceRun(a, run1, run2, b, IsTerminator);
  }

  /** Text without words has no sentence either: it is blank. */
  lemma NoWordsNoSentences(text: Text)
    ensures CountWords(text) == 0 ==> CountSentences(text) == 0
  {
    if CountWords(text) == 0 {
      assert forall k :: 0 <= k < |text| ==> IsWhitespace(text[k]);
    }
  }
}
