# Text statistics core, in Dafny

This project models the text-analysis functions of a live text-statistics
page (`index.js`, lines 35–118):

- `countCharacters`: the length of the text, with or without whitespace;
- `countWords`: the tokens left after `trim` and `split(/\s+/)`;
- `countSentences`: the non-blank fragments of `split(/[.!?]+/)`;
- `calculateReadingTime`: a word count printed as a duration;
- `calculateLetterDensity`: the table of recognized letters, counted in one pass and sorted by count.

It also models the slice of the letter table shown on screen (line 153).

A JavaScript string is a sequence of UTF-16 code units, and `length`,
`trim`, `split` and the regular expressions without the `u` flag all work on
code units. The model therefore works on `Text = seq<CodeUnit>`. `Utf16`
encodes a Dafny string into that form for the examples.

Modules:

| file | module | contents |
|---|---|---|
| `chars.dfy` | `Chars` | code units, the class `\s`, `[.!?]`, the recognized alphabet, `toLowerCase` |
| `seqs.dfy` | `Seqs` | `filter` on sequences |
| `split.dfy` | `TextSplit` | `trim`, `split` on a run-of-class separator; `Openings`, an independent one-pass count of non-blank fragments |
| `counters.dfy` | `Counters` | the three counters and their characterisation |
| `decimal.dfy` | `Decimal` | decimal numerals |
| `reading_time.dfy` | `ReadingTime` | the reading time, and a parser that reads a duration back |
| `density.dfy` | `Density` | the counting loop, the in-place stable sort and the density table |
| `examples.dfy` | `Examples` | worked examples, proved |

Each counter is characterised against an independent reference:
- **Words and sentences.** `Openings` scans the text once and counts the places where a non-blank fragment starts. The word and sentence counts are proved equal to it (`WordsAreRuns`, `SentencesAreRuns`). The other counter properties follow from that equality.
- **Reading time.** Its partner is `ParseDuration`, which reads a duration string back and accepts only the forms the formatting prints. The round trip shows that the printed string names exactly `ceil(words / wpm)` minutes. The converse (`ParsedIsPrinted`) shows that every string the parser accepts is the printed form of its minutes.
- **Letter density.** `CountLetters` (a loop over a map) and `SortByCountDescending` (an in-place insertion sort on an array) are proved against pure specifications. The result is characterised by the predicate `IsDensityTable`, which is proved to have exactly one solution.

Three facts about the code that shape the model:
- **Code units.** Lengths are UTF-16 code units, as `length` counts them. An emoji outside the Basic Multilingual Plane counts 2 (`Examples.CodeUnitExample`).
- **Reading speed.** `wordsPerMinute` is `config.wordsPerMinute` (200). The model takes it as a positive parameter, and `DefaultWordsPerMinute` is 200.
- **No words, no sentences.** Text with no words is blank, so it has no sentences either (`Counters.NoWordsNoSentences`).

## Model

| member | source | states |
|---|---|---|
| Chars.IsWhitespace | index.js:37 | the class `\s`; within ASCII it is exactly tab, line feed, vertical tab, form feed, carriage return and space |
| Chars.IsTerminator | index.js:65 | the class `[.!?]`; a terminator is neither whitespace nor a recognized letter |
| Chars.IsRecognized | index.js:99 | the class `[a-zàâäéèêëïîôùûüÿæœç]`; every recognized letter lies below the surrogate range, so it is one code unit and one code point |
| Chars.LowerUnit | index.js:99 | `toLowerCase` of one code unit gives one or two code units and leaves every recognized letter unchanged; `LowerUpper` shows that it maps each capital back to its letter |
| Chars.LowerCase | index.js:99 | lowercasing never shortens the text; `LowerCaseUpper` shows that it undoes uppercasing on recognized letters |
| Chars.UpperUnit | index.js:99 | the capital of a recognized letter is a single code unit outside the recognized class |
| Chars.LowerUpper | index.js:99 | lowercasing the capital of a recognized letter gives back the letter |
| Chars.LowerCaseUpper | index.js:99 | lowercasing an uppercased text of recognized letters gives back the text |
| TextSplit.Trim | index.js:49 | the trimmed text is empty exactly when the text is all whitespace; otherwise it starts and ends with non-whitespace |
| TextSplit.TrimParts | index.js:49 | every text is whitespace, then its trimmed text, then whitespace |
| TextSplit.Split | index.js:53 | `split` on a greedy `X+` separator yields at least one fragment, and no fragment contains a separator; `SplitNoSeparator` and `SplitAtRun` determine the fragments |
| TextSplit.SplitNoSeparator | index.js:53 | a text without separators splits into itself alone |
| TextSplit.SplitAtRun | index.js:53 | a separator-free fragment followed by a maximal separator run is the first fragment, and the rest splits on its own |
| TextSplit.SplitCountsRuns | index.js:65 | `split` yields exactly one fragment more than the text has maximal runs of separators |
| TextSplit.SplitOpenings | index.js:53 | the number of non-blank fragments of the split equals the one-pass `Openings` count |
| TextSplit.OpeningsReplaceRun | index.js:53 | replacing one non-empty separator run by another leaves the fragment count unchanged |
| Counters.CountCharacters | index.js:35-40 | without `excludeSpaces` the result is the length; with it, the length minus the number of whitespace code units, never more than the length |
| Counters.TokensHaveContent | index.js:53 | after `split(/\s+/)`, the tokens that are non-empty are exactly the tokens with non-whitespace content |
| Counters.WordsAreRuns | index.js:47-54 | the word count equals the number of maximal runs of non-whitespace code units |
| Counters.CountWords | index.js:47-54 | the word count is 0 exactly when the text is empty or all whitespace |
| Counters.WordsIgnoreOuterWhitespace | index.js:49-53 | adding leading and trailing whitespace does not change the word count |
| Counters.WordsIgnoreGapWidth | index.js:53 | replacing one non-empty whitespace gap by another does not change the word count |
| Counters.SentencesAreRuns | index.js:61-67 | the sentence count equals the number of maximal runs of non-terminators that hold a non-whitespace code unit |
| Counters.CountSentences | index.js:61-67 | the sentence count is 0 exactly when every code unit is whitespace or a terminator |
| Counters.NoTerminatorIsOneSentence | index.js:65 | a text without `.`, `!` or `?` is one sentence, or none if it is blank |
| Counters.TerminatorRunIsOneBoundary | index.js:65 | a run of several terminators is one boundary: replacing it by any other non-empty run does not change the count |
| Counters.NoWordsNoSentences | index.js:47-67 | a text with no words has no sentences |
| Decimal.NatToString | index.js:80 | a number prints as a non-empty numeral of digits without leading zero |
| Decimal.ParseNatToString | index.js:80 | reading a printed number back gives the number |
| ReadingTime.Minutes | index.js:77 | `Math.ceil(wordCount / wordsPerMinute)`: the fewest minutes whose reading covers the words |
| ReadingTime.ReadingTime | index.js:74-90 | the reading time reads back as exactly `ceil(words / wpm)` minutes, and "0 minute" as 0 |
| ReadingTime.NoMinutesIffNoWords | index.js:75-77 | no minutes are needed exactly when there are no words |
| ReadingTime.Duration | index.js:79-89 | each duration string reads back as the minutes it was printed from |
| ReadingTime.HoursDuration | index.js:82-89 | from one hour on, the "1 hour", "{h} hours" and "{h}h {r}min" forms read back as `60*h + r` minutes |
| ReadingTime.ParsedIsPrinted | index.js:75-89 | every string the parser accepts is exactly the string printed for its minutes, so the formatting is one-to-one and the parser is its inverse |
| ReadingTime.ReadingTimeDistinguishesMinutes | index.js:74-90 | two word counts get the same reading time only if they need the same number of minutes |
| ReadingTime.MixedFormSplitsMinutes | index.js:82-89 | in the "{h}h {r}min" form, `h*60 + r` is the total and `0 < r < 60` |
| ReadingTime.DefaultSpeedMinutes | index.js:74-80 | at 200 words per minute: 0 → "0 minute", 200 → "1 minute", 201 → "2 minutes" |
| ReadingTime.DefaultSpeedHours | index.js:74-90 | at 200 words per minute: 12000 → "1 hour", 12200 → "1h 1min" |
| Density.Letters | index.js:99 | the kept code units are all recognized letters |
| Density.UnitLetters | index.js:99 | the letters one code unit yields after lowercasing: itself when recognized, its letter when it is a capital of one, `k` for the Kelvin sign, `i` for İ, and none for any other code unit |
| Density.LettersIdempotent | index.js:99 | filtering the recognized letters a second time changes nothing |
| Density.CapitalsCountAsLetters | index.js:99 | an uppercased word of recognized letters yields exactly that word's letters |
| Density.Percentage | index.js:113 | `(count / letters.length) * 100` is between 0 and 100 for a count no larger than the total |
| Density.Dedup | index.js:110 | the keys of the count object, in insertion order: each letter once, and exactly the letters of the text |
| Density.DedupFirstSeenOrder | index.js:110 | the keys come in the order in which their letters first appear |
| Density.CountLetters | index.js:104-107 | the loop's keys are exactly the letters, each mapped to its number of occurrences, and the key order is the order of first appearance |
| Density.SortByCountDescending | index.js:117 | the sort permutes the entries, leaves counts non-increasing, and keeps entries with equal counts in their original order |
| Density.SortedCopy | index.js:117 | the same as `SortByCountDescending`, stated on the sequence of entries |
| Density.ToEntriesOfCounts | index.js:110-114 | the entries built from the loop's map are one per distinct letter, in first-seen order, with its true count and percentage |
| Density.ToEntries | index.js:110-114 | one entry per key, in key order, with the key's count and its percentage of the total |
| Density.SortedEntriesFormTable | index.js:110-117 | the stably sorted entries form the density table |
| Density.LetterDensity | index.js:97-118 | the result is empty exactly when there are no recognized letters; otherwise it has distinct recognized letters, each once; every letter of the text has an entry with its exact count ≥ 1 and `100*count/total` percent; ordered by count, highest first, ties in order of first appearance |
| Density.TableLettersRecognized | index.js:99-107 | every letter in the table is recognized and counted at least once |
| Density.TableCountsSum | index.js:104-114 | the counts add up to the number of recognized letters |
| Density.TablePercentagesSum | index.js:110-114 | the percentages add up to exactly 100 |
| Density.TableIsUnique | index.js:97-118 | only one sequence satisfies the density table's description, so the result is determined by the text |
| Density.Shown | index.js:153 | `density.slice(0, maxItems)` unless all are shown: a prefix of length `min(maxItems, n)` |
| Density.SeeMoreIffHidden | index.js:153-171 | the "see more" button is displayed exactly when the collapsed view hides entries |
| Density.ShownAreMostFrequent | index.js:153 | no hidden entry has a higher count than a shown one |
| Examples.CharacterExamples | index.js:35-40 | `countCharacters("", false) == 0`, `countCharacters("a b", true) == 2`, `countCharacters("a b", false) == 3` |
| Examples.CodeUnitExample | index.js:39 | an emoji outside the Basic Multilingual Plane counts as 2 |
| Examples.BlankHasNoWords | index.js:49-50 | `countWords("") == 0` and `countWords("   ") == 0` |
| Examples.ThreeWords | index.js:47-54 | `countWords("a  b   c") == 3` |
| Examples.EmptyHasNoSentence | index.js:62 | `countSentences("") == 0` |
| Examples.OneSentence | index.js:61-67 | `countSentences("Hello world") == 1` |
| Examples.ThreeSentences | index.js:61-67 | `countSentences("A. B! C?") == 3` |
| Examples.PunctuationOnly | index.js:47-67 | "..." is one word but no sentence |
| Examples.NoLetters | index.js:99-101 | neither "" nor "123!!!" has a recognized letter, so their density is empty |
| Examples.AccentedCapital | index.js:99 | "Été" lowercases to the recognized letters "été" |

## Left out

- `animateNumber` (index.js:129-145) is left out. It is a timer-driven display effect.
- The HTML built by `displayLetterDensity` is left out, including `toFixed(2)` and the button styles; only the slice and the button condition are modelled.
- `updateAnalysis`, the event listeners, `prompt`/`confirm`, `parseInt` of user input and keyboard shortcuts are left out. They are DOM and input glue.
- The `localStorage` persistence is left out. It is I/O.
- Density.LetterDensity: percentages are exact reals `count / total * 100`, not IEEE doubles, so the rounding of the JavaScript result is not modelled.
- ReadingTime.Minutes: the ceiling is taken over exact integers. `Math.ceil` over a double division can differ only for word counts beyond 2^53, which the model does not treat specially.
- Chars.LowerUnit: `toLowerCase` is modelled only for the code units whose lowercase form can be a recognized letter. These are ASCII capitals, the Latin-1 capitals except U+00D7, Ÿ, Œ, the Kelvin sign and İ (which becomes `i` followed by U+0307). All other code units are left unchanged, since nothing else can lower into the recognized alphabet.
- Chars.IsWhitespace: `\s` and `trim` are modelled by the fixed ECMAScript WhiteSpace and LineTerminator set. Unicode updates to the space-separator category are not tracked.
- The `for … of` loop at index.js:105 iterates by code points. Every recognized letter is a single code unit, so the model iterates by code units.
- The reading time is built as an ASCII Dafny `string`, not as a sequence of code units.
