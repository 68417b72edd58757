/** Worked examples of each analysis function, proved on the model. */
module Examples {
  import opened Chars
  import opened Seqs
  import opened TextSplit
  import opened Counters
  import opened Density

  lemma CharacterExamples()
    ensures CountCharacters(Utf16(""), false) == 0
    ensures CountCharacters(Utf16("a b"), true) == 2
    ensures CountCharacters(Utf16("a b"), false) == 3
  {
  }

  /** `length` counts UTF-16 code units: an emoji outside the BMP counts twice. */
  lemma CodeUnitExample()
    ensures CountCharacters(Utf16("😀"), false) == 2
  {
  }

  const SP: CodeUnit := 0x20

  lemma BlankHasNoWords(t: Text)
    requires t == Utf16("") || t == Utf16("   ")
    ensures CountWords(t) == 0
  {
    assert Utf16("   ") == [SP, SP, SP];
  }

  /** A single code unit that is neither a separator nor whitespace opens one fragment. */
  lemma OpeningsSingle(x: CodeUnit, sep: CodeUnit -> bool)
    requires !sep(x) && !IsWhitespace(x)
    ensures Openings([x], sep, false) == 1
  {
    assert [x][1..] == [];
  }

  lemma ThreeWordsCodes(a: CodeUnit, b: CodeUnit, c: CodeUnit)
    requires !IsWhitespace(a) && !IsWhitespace(b) && !IsWhitespace(c)
    ensures Openings([a] + [SP, SP] + ([b] + [SP, SP, SP] + [c]), IsWhitespace, false) == 3
  {
    OpeningsSingle(a, IsWhitespace);
    OpeningsSingle(b, IsWhitespace);
    OpeningsSingle(c, IsWhitespace);
    OpeningsAcrossRun([b], [SP, SP, SP], [c], IsWhitespace);
    OpeningsAcrossRun([a], [SP, SP], [b] + [SP, SP, SP] + [c], IsWhitespace);
  }

  lemma ThreeWords(t: Text)
    requires t == Utf16("a  b   c")
    ensures CountWords(t) == 3
  {
    assert t == [0x61] + [SP, SP] + ([0x62] + [SP, SP, SP] + [0x63]);
    ThreeWordsCodes(0x61, 0x62, 0x63);
    WordsAreRuns(t);
  }

  lemma EmptyHasNoSentence(t: Text)
    requires t == Utf16("")
    ensures CountSentences(t) == 0
  {
  }

  lemma OneSentenceCodes(t: Text)
    requires t == [0x48, 0x65, 0x6C, 0x6C, 0x6F, 0x20, 0x77, 0x6F, 0x72, 0x6C, 0x64]
    ensures CountSentences(t) == 1
  {
    assert !IsWhitespace(t[0]);
    assert forall i :: 0 <= i < |t| ==> !IsTerminator(t[i]);
    NoTerminatorIsOneSentence(t);
  }

  /** Below U+10000 every character is one code unit of the same value. */
  lemma Utf16Bmp(s: string)
    requires forall i :: 0 <= i < |s| ==> s[i] as int < 0x1_0000
    ensures |Utf16(s)| == |s|
    ensures forall i :: 0 <= i < |s| ==> Utf16(s)[i] as int == s[i] as int
  {
    if s != [] {
      Utf16Bmp(s[1..]);
    }
  }

  /** The code units of "Hello world". */
  lemma HelloWorldCodes()
    ensures Utf16("Hello world") == [0x48, 0x65, 0x6C, 0x6C, 0x6F, 0x20, 0x77, 0x6F, 0x72, 0x6C, 0x64]
  {
    Utf16Bmp("Hello world");
  }

  lemma OneSentence(t: Text)
    requires t == Utf16("Hello world")
    ensures CountSentences(t) == 1
  {
    HelloWorldCodes();
    OneSentenceCodes(t);
  }

  lemma ThreeSentencesCodes(a: CodeUnit, b: CodeUnit, c: CodeUnit, end1: CodeUnit, end2: CodeUnit, end3: CodeUnit)
    requires !IsTerminator(a) && !IsTerminator(b) && !IsTerminator(c)
    requires !IsWhitespace(a) && !IsWhitespace(b) && !IsWhitespace(c)
    requires IsTerminator(end1) && IsTerminator(end2) && IsTerminator(end3)
    ensures Openings([a] + [end1] + ([SP, b] + [end2] + ([SP, c] + [end3] + [])), IsTerminator, false) == 3
  {
    assert !IsTerminator(SP) && IsWhitespace(SP);
    OpeningsSingle(a, IsTerminator);
    assert Openings([SP, b], IsTerminator, false) == 1 by {
      assert [SP, b][1..] == [b];
      OpeningsSingle(b, IsTerminator);
    }
    assert Openings([SP, c], IsTerminator, false) == 1 by {
      assert [SP, c][1..] == [c];
      OpeningsSingle(c, IsTerminator);
    }
    OpeningsAcrossRun([SP, c], [end3], [], IsTerminator);
    OpeningsAcrossRun([SP, b], [end2], [SP, c] + [end3] + [], IsTerminator);
    OpeningsAcrossRun([a], [end1], [SP, b] + [end2] + ([SP, c] + [end3] + []), IsTerminator);
  }

  lemma ThreeSentences(t: Text)
    requires t == Utf16("A. B! C?")
    ensures CountSentences(t) == 3
  {
    assert t == [0x41] + [0x2E] + ([SP, 0x42] + [0x21] + ([SP, 0x43] + [0x3F] + []));
    ThreeSentencesCodes(0x41, 0x42, 0x43, 0x2E, 0x21, 0x3F);
    SentencesAreRuns(t);
  }

  /** Punctuation alone is one word but no sentence. */
  lemma PunctuationOnly(t: Text)
    requires t == Utf16("...")
    ensures CountWords(t) == 1
    ensures CountSentences(t) == 0
  {
    assert t == [0x2E, 0x2E, 0x2E];
    assert !IsWhitespace(0x2E) && IsTerminator(0x2E);
    assert HasContent(t) by { assert !IsWhitespace(t[0]); }
    OpeningsFragment(t, IsWhitespace, false);
    WordsAreRuns(t);
  }

  lemma LettersStep(s: Text, k: nat)
    requires k < |s|
    ensures Letters(s[k..]) == Filter(IsRecognized, LowerUnit(s[k])) + Letters(s[k + 1..])
  {
    assert s[k..][1..] == s[k + 1..];
    FilterAppend(IsRecognized, LowerUnit(s[k]), LowerCase(s[k + 1..]));
  }

  /** Digits, punctuation and controls all sit below 'A' and are no letters. */
  lemma NoLettersBelowA(s: Text)
    requires forall i :: 0 <= i < |s| ==> s[i] < 'A' as CodeUnit
    ensures Letters(s) == []
  {
    if s != [] {
      var u := s[0];
      assert LowerUnit(u) == [u] && !IsRecognized(u);
      assert Filter(IsRecognized, [u]) == [];
      LettersStep(s, 0);
      assert s[0..] == s;
      NoLettersBelowA(s[1..]);
    }
  }

  /** Digits and punctuation contribute no letters, so the density table is empty. */
  lemma NoLetters(t: Text)
    requires t == Utf16("") || t == Utf16("123!!!")
    ensures Letters(t) == []
  {
    if t != [] {
      Utf16Bmp("123!!!");
      assert t == [0x31, 0x32, 0x33, 0x21, 0x21, 0x21];
      NoLettersBelowA(t);
    }
  }

  /** The letters of a text that starts with `u`. */
  lemma LettersCons(u: CodeUnit, rest: Text)
    ensures Letters([u] + rest) == Filter(IsRecognized, LowerUnit(u)) + Letters(rest)
  {
    LettersStep([u] + rest, 0);
    assert ([u] + rest)[0..] == [u] + rest;
    assert ([u] + rest)[1..] == rest;
  }

  lemma AccentedCapitalCodes()
    ensures Letters([0xC9, 0x74, 0xE9]) == [0xE9, 0x74, 0xE9]
  {
    assert Letters([]) == [];
    assert Filter(IsRecognized, LowerUnit(0xE9)) == [0xE9] by {
      assert LowerUnit(0xE9) == [0xE9] && IsRecognized(0xE9);
    }
    assert Filter(IsRecognized, LowerUnit(0x74)) == [0x74] by {
      assert LowerUnit(0x74) == [0x74] && IsRecognized(0x74);
    }
    assert Filter(IsRecognized, LowerUnit(0xC9)) == [0xE9] by {
      assert LowerUnit(0xC9) == [0xE9] && IsRecognized(0xE9);
    }
    LettersCons(0xE9, []);
    LettersCons(0x74, [0xE9]);
    LettersCons(0xC9, [0x74, 0xE9]);
    assert [0xE9] + [] == [0xE9];
    assert [0x74] + [0xE9] == [0x74, 0xE9];
    assert [0xC9] + [0x74, 0xE9] == [0xC9, 0x74, 0xE9];
  }

  /** Capital E with acute accent lowercases to a recognized letter. */
  lemma AccentedCapital(t: Text)
    requires t == Utf16("Été")
    ensures Letters(t) == Utf16("été")
  {
    Utf16Bmp("Été");
    Utf16Bmp("été");
    assert t == [0xC9, 0x74, 0xE9];
    assert Utf16("été") == [0xE9, 0x74, 0xE9];
    AccentedCapitalCodes();
  }
}
