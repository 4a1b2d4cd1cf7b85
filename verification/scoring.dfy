/** The end-of-session formulas (App.tsx, endSession): accuracy, the two
    per-minute rates and the score. Arithmetic is exact (`real`), and
    `Math.round` on these values is floor(x + 1/2). */
module Scoring {
  import opened Types

  /** Math.round: the nearest integer, a half rounding upwards. */
  function Round(x: real): (r: int)
    ensures r as real - 0.5 <= x < r as real + 0.5
  {
    (x + 0.5).Floor
  }

  lemma RoundOfInt(n: int)
    ensures Round(n as real) == n
  {
  }

  lemma RoundShift(x: real, n: int)
    ensures Round(x + n as real) == Round(x) + n
  {
  }

  lemma RoundMonotone(x: real, y: real)
    requires x <= y
    ensures Round(x) <= Round(y)
  {
  }

  /** The divisor of both rates: the configured duration in minutes,
      never less than one second's worth. */
  function ElapsedMinutes(duration: int): (m: real)
    ensures m >= 1.0 / 60.0 && m >= duration as real / 60.0
    ensures m == 1.0 / 60.0 || m == duration as real / 60.0
  {
    if 1.0 / 60.0 <= duration as real / 60.0 then duration as real / 60.0 else 1.0 / 60.0
  }

  /** Accuracy in percent of the completed passages; 0 when nothing was
      completed. */
  function FinalAccuracy(correct: nat, expected: nat): (acc: int)
    ensures expected == 0 ==> acc == 0
    ensures correct <= expected ==> 0 <= acc <= 100
    ensures 0 < expected && correct == expected ==> acc == 100
  {
    if expected > 0 then
      var ratio := correct as real / expected as real;
      assert 0.0 <= ratio;
      assert correct <= expected ==> ratio <= 1.0;
      assert ratio * expected as real == correct as real;
      assert correct == expected ==> ratio == 1.0;
      RoundOfInt(0);
      RoundOfInt(100);
      if correct <= expected then
        RoundMonotone(0.0, ratio * 100.0);
        RoundMonotone(ratio * 100.0, 100.0);
        Round(ratio * 100.0)
      else
        Round(ratio * 100.0)
    else 0
  }

  /** The accuracy is the percentage of correct characters, rounded to
      the nearest integer. */
  lemma FinalAccuracyRounds(correct: nat, expected: nat)
    requires 0 < expected
    ensures var acc := FinalAccuracy(correct, expected);
      acc as real - 0.5 <= correct as real / expected as real * 100.0 < acc as real + 0.5
  {
  }

  /** A count turned into a per-minute rate over the configured duration
      (cpm from keystrokes, kpm from completed passages). */
  function Rate(count: nat, duration: int): (r: int)
    ensures r >= 0
  {
    var m := ElapsedMinutes(duration);
    var q := count as real / m;
    assert q >= 0.0;
    RoundMonotone(0.0, q);
    RoundOfInt(0);
    Round(q)
  }

  /** Rates use the configured duration: over a duration of d >= 1
      seconds, a count c gives round(60 c / d). */
  lemma RateOverDuration(count: nat, duration: int)
    requires duration >= 1
    ensures Rate(count, duration) == Round(count as real * 60.0 / duration as real)
  {
    var m := ElapsedMinutes(duration);
    assert m == duration as real / 60.0;
    assert count as real / m == count as real * 60.0 / duration as real;
  }

  /** A one-minute session reports its count unchanged. */
  lemma RateOfOneMinute(count: nat)
    ensures Rate(count, 60) == count
  {
    RateOverDuration(count, 60);
    assert count as real * 60.0 / 60.0 == count as real;
    RoundOfInt(count);
  }

  /** A duration of at most one second is treated as one second. */
  lemma RateOfShortDuration(count: nat, duration: int)
    requires duration <= 1
    ensures Rate(count, duration) == 60 * count
  {
    var m := ElapsedMinutes(duration);
    assert m == 1.0 / 60.0;
    assert count as real / m == (60 * count) as real;
    RoundOfInt(60 * count);
  }

  /** The score: 25 per completed passage, half the accuracy, and half
      of cpm / 3 capped at 100. */
  function Score(words: nat, acc: int, cpm: int): (s: int)
    ensures 0 <= acc <= 100 && 0 <= cpm ==> 25 * words <= s <= 25 * words + 100
  {
    var capped := if 100.0 <= cpm as real / 3.0 then 100.0 else cpm as real / 3.0;
    var x := words as real * 25.0 + acc as real * 0.5 + capped * 0.5;
    if 0 <= acc <= 100 && 0 <= cpm then
      RoundMonotone((25 * words) as real, x);
      RoundMonotone(x, (25 * words + 100) as real);
      RoundOfInt(25 * words);
      RoundOfInt(25 * words + 100);
      Round(x)
    else
      Round(x)
  }

  /** Each further completed passage adds exactly 25 to the score. */
  lemma ScorePerPassage(words: nat, acc: int, cpm: int)
    ensures Score(words + 1, acc, cpm) == Score(words, acc, cpm) + 25
  {
    var capped := if 100.0 <= cpm as real / 3.0 then 100.0 else cpm as real / 3.0;
    var x := words as real * 25.0 + acc as real * 0.5 + capped * 0.5;
    assert (words + 1) as real * 25.0 + acc as real * 0.5 + capped * 0.5 == x + 25 as real;
    RoundShift(x, 25);
  }

  /** The score never falls when accuracy or cpm rises. */
  lemma ScoreMonotone(words: nat, acc: int, acc': int, cpm: int, cpm': int)
    requires acc <= acc' && cpm <= cpm'
    ensures Score(words, acc, cpm) <= Score(words, acc', cpm')
  {
    var capped := if 100.0 <= cpm as real / 3.0 then 100.0 else cpm as real / 3.0;
    var capped' := if 100.0 <= cpm' as real / 3.0 then 100.0 else cpm' as real / 3.0;
    assert capped <= capped';
    RoundMonotone(words as real * 25.0 + acc as real * 0.5 + capped * 0.5,
                  words as real * 25.0 + acc' as real * 0.5 + capped' * 0.5);
  }

  /** The summary endSession records, from the session's counters, the
      configured duration, and the player's name, tier and date. */
  function FinalStats(name: string, level: Level, duration: int, words: nat,
                      keystrokes: nat, correct: nat, expected: nat, date: string): (st: SessionStats)
    ensures st.name == name && st.level == level && st.duration == duration
    ensures st.words == words && st.date == date
    ensures st.cpm >= 0 && st.kpm >= 0
    ensures correct <= expected ==> 0 <= st.acc <= 100 && 25 * words <= st.score <= 25 * words + 100
  {
    var acc := FinalAccuracy(correct, expected);
    var cpm := Rate(keystrokes, duration);
    var kpm := Rate(words, duration);
    SessionStats(name, level, duration, words, acc, kpm, cpm, Score(words, acc, cpm), date)
  }

  /** Which formula fills which field of the summary: accuracy from the
      character counters, cpm from keystrokes and kpm from completed
      passages over the configured duration, and the score from passages,
      accuracy and cpm. */
  lemma FinalStatsFields(name: string, level: Level, duration: int, words: nat,
                         keystrokes: nat, correct: nat, expected: nat, date: string)
    ensures var st := FinalStats(name, level, duration, words, keystrokes, correct, expected, date);
      st.acc == FinalAccuracy(correct, expected) &&
      st.cpm == Rate(keystrokes, duration) && st.kpm == Rate(words, duration) &&
      st.score == Score(words, st.acc, st.cpm)
  {
  }

  /** Since correct and expected counters always agree, the recorded
      accuracy is 100 after at least one completed passage and 0 before. */
  lemma AccuracyOfAgreeingCounters(chars: nat)
    ensures FinalAccuracy(chars, chars) == (if chars > 0 then 100 else 0)
  {
  }

  /** One passage "abc" completed with three input events in a one-minute
      session: accuracy 100, cpm 3, kpm 1, score round(75.5) = 76. */
  lemma OneMinuteExample(name: string, level: Level, date: string)
    ensures var st := FinalStats(name, level, 60, 1, 3, 3, 3, date);
      st.acc == 100 && st.cpm == 3 && st.kpm == 1 && st.score == 76
  {
    RateOfOneMinute(3);
    RateOfOneMinute(1);
    var capped := if 100.0 <= 3 as real / 3.0 then 100.0 else 3 as real / 3.0;
    assert capped == 1.0;
    assert 1 as real * 25.0 + 100 as real * 0.5 + capped * 0.5 == 75.5;
  }
}
