/** `calculateReadingTime` of index.js: a word count as a human-readable duration. */
module ReadingTime {
  import opened Decimal

  /** `config.wordsPerMinute`, the default reading speed. */
  const DefaultWordsPerMinute: nat := 200

  datatype Option<T> = None | Some(value: T)

  /** `Math.ceil(wordCount / wordsPerMinute)`: the fewest minutes that cover the words. */
  function Minutes(wordCount: nat, wordsPerMinute: nat): (m: nat)
    requires wordsPerMinute > 0
    ensures wordCount <= m * wordsPerMinute < wordCount + wordsPerMinute
  {
    var q := (wordCount + wordsPerMinute - 1) / wordsPerMinute;
    var r := (wordCount + wordsPerMinute - 1) % wordsPerMinute;
    assert q * wordsPerMinute + r == wordCount + wordsPerMinute - 1;
    q
  }

  /**
   * `calculateReadingTime(wordCount)` at reading speed `wordsPerMinute`:
   * "0 minute" for no words, else the duration of the minutes needed.  The
   * string names exactly `ceil(wordCount / wordsPerMinute)` minutes.
   */
  function ReadingTime(wordCount: nat, wordsPerMinute: nat): (r: string)
    requires wordsPerMinute > 0
    ensures ParseDuration(r) == Some(Minutes(wordCount, wordsPerMinute))
  {
    if wordCount == 0 then
      ReadsNoMinute();
      NoMinutesIffNoWords(wordCount, wordsPerMinute);
      "0 minute"
    else
      NoMinutesIffNoWords(wordCount, wordsPerMinute);
      Duration(Minutes(wordCount, wordsPerMinute))
  }

  /** No minutes are needed exactly when there are no words. */
  lemma NoMinutesIffNoWords(wordCount: nat, wordsPerMinute: nat)
    requires wordsPerMinute > 0
    ensures Minutes(wordCount, wordsPerMinute) == 0 <==> wordCount == 0
  {
    var m := Minutes(wordCount, wordsPerMinute);
    if m > 0 {
      assert m * wordsPerMinute >= wordsPerMinute;
    }
  }

  /**
   * The formatting of the minutes in `calculateReadingTime`, reached only
   * with at least one minute: "1 minute", "{m} minutes" below an hour,
   * "1 hour" or "{h} hours" on whole hours and "{h}h {r}min" otherwise.
   * The string reads back as the minutes it was made from.
   */
  function Duration(minutes: nat): (r: string)
    requires minutes > 0
    ensures ParseDuration(r) == Some(minutes)
  {
    if minutes == 1 then
      ReadsOneMinute();
      "1 minute"
    else if minutes < 60 then
      ReadsMinutes(minutes);
      NatToString(minutes) + " minutes"
    else
      HoursDuration(minutes / 60, minutes % 60)
  }

  /** The formatting from one hour on, from the whole hours and the remaining minutes. */
  function HoursDuration(hours: nat, remaining: nat): (r: string)
    requires hours >= 1 && remaining < 60
    ensures ParseDuration(r) == Some(60 * hours + remaining)
  {
    if remaining == 0 then
      if hours == 1 then
        ReadsOneHour();
        "1 hour"
      else
        ReadsHours(hours);
        NatToString(hours) + " hours"
    else
      ReadsMixed(hours, remaining);
      MixedForm(hours, remaining)
  }

  /** The template "{hours}h {remaining}min". */
  function MixedForm(hours: nat, remaining: nat): string {
    NatToString(hours) + "h " + NatToString(remaining) + "min"
  }

  /**
   * Reads back the number of minutes a duration string stands for: a
   * numeral without leading zeros, then a unit.
   */
  function ParseDuration(s: string): Option<nat> {
    var k := DigitPrefix(s);
    if k == 0 then None
    else
      var n := ParseDigits(s[..k]);
      if s[..k] != NatToString(n) then None else ParseUnit(n, s[k..])
  }

  /**
   * The minutes named by a leading number `n` followed by `unit`, accepted
   * only in the form the duration is printed in for that number.
   */
  function ParseUnit(n: nat, unit: string): Option<nat> {
    if unit == " minute" then (if n <= 1 then Some(n) else None)
    else if unit == " minutes" then (if 1 < n < 60 then Some(n) else None)
    else if unit == " hour" then (if n == 1 then Some(60) else None)
    else if unit == " hours" then (if n > 1 then Some(60 * n) else None)
    else if |unit| >= 2 && unit[..2] == "h " then ParseMixed(n, unit[2..])
    else None
  }

  /** The minutes of "{h}h {r}min", given `h` and the text after "h ". */
  function ParseMixed(h: nat, rest: string): Option<nat> {
    var j := DigitPrefix(rest);
    if j == 0 || rest[j..] != "min" then None
    else
      var r := ParseDigits(rest[..j]);
      if rest[..j] == NatToString(r) && h >= 1 && 0 < r < 60 then Some(60 * h + r) else None
  }

  /** A printed number followed by a unit that starts with a non-digit reads as that number and unit. */
  lemma ReadsBack(n: nat, unit: string)
    requires |unit| > 0 && !IsDigit(unit[0])
    ensures ParseDuration(NatToString(n) + unit) == ParseUnit(n, unit)
  {
    var s := NatToString(n) + unit;
    DigitPrefixOfNumeral(NatToString(n), unit);
    assert s[..|NatToString(n)|] == NatToString(n);
    assert s[|NatToString(n)|..] == unit;
    ParseNatToString(n);
  }

  /** The three fixed strings read back. */
  lemma ReadsNoMinute()
    ensures ParseDuration("0 minute") == Some(0)
  {
    assert NatToString(0) == "0";
    ReadsBack(0, " minute");
  }

  lemma ReadsOneMinute()
    ensures ParseDuration("1 minute") == Some(1)
  {
    assert NatToString(1) == "1";
    ReadsBack(1, " minute");
  }

  lemma ReadsOneHour()
    ensures ParseDuration("1 hour") == Some(60)
  {
    assert NatToString(1) == "1";
    ReadsBack(1, " hour");
  }

  lemma ReadsMinutes(m: nat)
    requires 1 < m < 60
    ensures ParseDuration(NatToString(m) + " minutes") == Some(m)
  {
    ReadsBack(m, " minutes");
  }

  lemma ReadsHours(h: nat)
    requires h > 1
    ensures ParseDuration(NatToString(h) + " hours") == Some(60 * h)
  {
    ReadsBack(h, " hours");
  }

  /** The mixed form reads back as its hours and remaining minutes. */
  lemma ReadsMixed(h: nat, r: nat)
    requires h >= 1 && 0 < r < 60
    ensures ParseDuration(MixedForm(h, r)) == Some(60 * h + r)
  {
    var rest := NatToString(r) + "min";
    assert MixedForm(h, r) == NatToString(h) + ("h " + rest);
    ReadsBack(h, "h " + rest);
    MixedUnit(h, rest);
    ReadsMixedTail(h, r);
  }

  lemma MixedUnit(h: nat, rest: string)
    ensures ParseUnit(h, "h " + rest) == ParseMixed(h, rest)
  {
    var unit := "h " + rest;
    assert unit[0] == 'h';
    assert unit[..2] == "h " && unit[2..] == rest;
  }

  lemma ReadsMixedTail(h: nat, r: nat)
    requires h >= 1 && 0 < r < 60
    ensures ParseMixed(h, NatToString(r) + "min") == Some(60 * h + r)
  {
    var rest := NatToString(r) + "min";
    DigitPrefixOfNumeral(NatToString(r), "min");
    assert rest[..|NatToString(r)|] == NatToString(r);
    assert rest[|NatToString(r)|..] == "min";
    ParseNatToString(r);
  }

  /**
   * Only the printed forms read back: a string that reads as `m` minutes is
   * the one printed for `m` minutes, so `ParseDuration` is the exact inverse
   * of the formatting.
   */
  lemma ParsedIsPrinted(s: string, m: nat)
    requires ParseDuration(s) == Some(m)
    ensures s == if m == 0 then "0 minute" else Duration(m)
  {
    var k := DigitPrefix(s);
    var n := ParseDigits(s[..k]);
    assert s == NatToString(n) + s[k..] by {
      assert s == s[..k] + s[k..];
    }
    UnitIsPrinted(n, s[k..], m);
  }

  /** A number and a unit that read as `m` minutes are the printed form of `m`. */
  lemma UnitIsPrinted(n: nat, unit: string, m: nat)
    requires ParseUnit(n, unit) == Some(m)
    ensures NatToString(n) + unit == if m == 0 then "0 minute" else Duration(m)
  {
    if unit == " minute" {
      MinutePrinted(n, m);
    } else if unit == " hour" {
      HourPrinted(n, m);
    } else if unit == " minutes" {
      MinutesPrinted(n, m);
    } else if unit == " hours" {
      HoursPrinted(n, m);
    } else {
      var rest := unit[2..];
      assert unit == "h " + rest by {
        assert unit == unit[..2] + rest;
      }
      MixedIsPrinted(n, rest, m);
    }
  }

  lemma MinutePrinted(n: nat, m: nat)
    requires ParseUnit(n, " minute") == Some(m)
    ensures NatToString(n) + " minute" == if m == 0 then "0 minute" else Duration(m)
  {
    assert n <= 1 && m == n;
    assert NatToString(0) == "0" && NatToString(1) == "1";
  }

  lemma HourPrinted(n: nat, m: nat)
    requires ParseUnit(n, " hour") == Some(m)
    ensures NatToString(n) + " hour" == if m == 0 then "0 minute" else Duration(m)
  {
    assert n == 1 && m == 60;
    assert NatToString(1) == "1";
    DurationFromHours(1, 0);
  }

  lemma MinutesPrinted(n: nat, m: nat)
    requires ParseUnit(n, " minutes") == Some(m)
    ensures NatToString(n) + " minutes" == if m == 0 then "0 minute" else Duration(m)
  {
    assert 1 < n < 60 && m == n;
  }

  lemma HoursPrinted(n: nat, m: nat)
    requires ParseUnit(n, " hours") == Some(m)
    ensures NatToString(n) + " hours" == if m == 0 then "0 minute" else Duration(m)
  {
    assert n > 1 && m == 60 * n;
    DurationFromHours(n, 0);
  }

  lemma MixedIsPrinted(h: nat, rest: string, m: nat)
    requires ParseMixed(h, rest) == Some(m)
    ensures NatToString(h) + ("h " + rest) == if m == 0 then "0 minute" else Duration(m)
  {
    var r := MixedParts(h, rest, m);
    MixedFormOf(h, r, rest);
    DurationFromHours(h, r);
  }

  lemma MixedFormOf(h: nat, r: nat, rest: string)
    requires rest == NatToString(r) + "min"
    ensures NatToString(h) + "h " + rest == MixedForm(h, r)
  {
  }

  /** What `ParseMixed` accepts: a printed number of minutes between 1 and 59, then "min". */
  lemma MixedParts(h: nat, rest: string, m: nat) returns (r: nat)
    requires ParseMixed(h, rest) == Some(m)
    ensures rest == NatToString(r) + "min"
    ensures h >= 1 && 0 < r < 60 && m == 60 * h + r
  {
    var j := DigitPrefix(rest);
    r := ParseDigits(rest[..j]);
    assert rest == rest[..j] + rest[j..];
  }

  /** From one hour on, the duration is formatted from its hours and remaining minutes. */
  lemma DurationFromHours(h: nat, r: nat)
    requires h >= 1 && r < 60
    ensures Duration(60 * h + r) == HoursDuration(h, r)
  {
    HoursAndMinutes(h, r);
  }

  /** `60 * h + r` splits back into `h` hours and `r` minutes. */
  lemma HoursAndMinutes(h: nat, r: nat)
    requires r < 60
    ensures (60 * h + r) / 60 == h && (60 * h + r) % 60 == r
  {
  }

  /** Different durations never print alike. */
  lemma ReadingTimeDistinguishesMinutes(w1: nat, w2: nat, wordsPerMinute: nat)
    requires wordsPerMinute > 0
    requires ReadingTime(w1, wordsPerMinute) == ReadingTime(w2, wordsPerMinute)
    ensures Minutes(w1, wordsPerMinute) == Minutes(w2, wordsPerMinute)
  {
  }

  /** In the mixed form the hours and remaining minutes add back up to the total. */
  lemma MixedFormSplitsMinutes(m: nat)
    requires m >= 60 && m % 60 != 0
    ensures var h, r := m / 60, m % 60;
            && Duration(m) == MixedForm(h, r)
            && h * 60 + r == m && 0 < r < 60 && h >= 1
  {
  }

  /** The examples below an hour, at the default speed of 200 words per minute. */
  lemma DefaultSpeedMinutes()
    ensures ReadingTime(0, DefaultWordsPerMinute) == "0 minute"
    ensures ReadingTime(200, DefaultWordsPerMinute) == "1 minute"
    ensures ReadingTime(201, DefaultWordsPerMinute) == "2 minutes"
  {
    assert Minutes(200, 200) == 1;
    assert Minutes(201, 200) == 2;
    assert NatToString(2) == "2";
  }

  /** The examples from an hour on, at the default speed of 200 words per minute. */
  lemma DefaultSpeedHours()
    ensures ReadingTime(12000, DefaultWordsPerMinute) == "1 hour"
    ensures ReadingTime(12200, DefaultWordsPerMinute) == "1h 1min"
  {
    assert Minutes(12000, 200) == 60;
    assert Minutes(12200, 200) == 61;
    assert NatToString(1) == "1";
  }
}
