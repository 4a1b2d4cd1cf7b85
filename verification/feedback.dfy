/** The live feedback shown while a session runs (App.tsx): accuracy that
    combines completed passages with the current input, characters per
    minute over the time elapsed so far, and the colour class of every
    character of the target passage. */
module Feedback {
  import opened Types
  import opened Scoring

  // ---------------------------------------------------------------- live accuracy

  /** Agreeing positions among the first n of the input, compared start
      to start; input positions beyond the target never agree. */
  function MatchesIn(input: string, target: string, n: nat): (c: nat)
    requires n <= |input|
    ensures c <= n
  {
    if n == 0 then 0
    else MatchesIn(input, target, n - 1) + (if n - 1 < |target| && target[n - 1] == input[n - 1] then 1 else 0)
  }

  /** The agreeing positions of the whole current input. */
  function LiveMatches(input: string, target: string): (m: nat)
    ensures m <= |input|
  {
    MatchesIn(input, target, |input|)
  }

  lemma {:induction false} MatchesInBound(input: string, target: string, n: nat)
    requires n <= |input|
    ensures MatchesIn(input, target, n) <= Min(n, |target|)
  {
    if n > 0 {
      MatchesInBound(input, target, n - 1);
    }
  }

  lemma {:induction false} MatchesInAll(input: string, target: string, n: nat)
    requires n <= |input|
    ensures MatchesIn(input, target, n) == n <==>
      n <= |target| && forall i :: 0 <= i < n ==> input[i] == target[i]
  {
    if n > 0 {
      MatchesInAll(input, target, n - 1);
      MatchesInBound(input, target, n - 1);
    }
  }

  /** Live matches never exceed the shorter of input and target, and
      reach the input's length exactly when the input is a prefix of the
      target. */
  lemma LiveMatchesBounds(input: string, target: string)
    ensures LiveMatches(input, target) <= Min(|input|, |target|)
    ensures LiveMatches(input, target) == |input| <==> input <= target
  {
    MatchesInBound(input, target, |input|);
    MatchesInAll(input, target, |input|);
    if |input| <= |target| && forall i :: 0 <= i < |input| ==> input[i] == target[i] {
      assert input == target[..|input|];
    }
  }

  /** Live accuracy in percent: the same percentage as the final one,
      over completed-passage counters plus the current input compared
      position by position with the target. */
  function LiveAccuracy(totalExpected: nat, totalCorrect: nat, input: string, target: string): (acc: int)
    ensures totalCorrect <= totalExpected ==> 0 <= acc <= 100
    ensures totalExpected + |input| == 0 ==> acc == 0
    ensures totalExpected + |input| > 0 ==>
      var ratio := (totalCorrect + LiveMatches(input, target)) as real / (totalExpected + |input|) as real;
      acc as real - 0.5 <= ratio * 100.0 < acc as real + 0.5
  {
    LiveMatchesBounds(input, target);
    var correct, expected := totalCorrect + LiveMatches(input, target), totalExpected + |input|;
    if expected > 0 then
      FinalAccuracyRounds(correct, expected);
      FinalAccuracy(correct, expected)
    else
      FinalAccuracy(correct, expected)
  }

  /** With agreeing counters, an input that is a correct prefix of the
      target shows 100 (once anything is expected at all). */
  lemma LiveAccuracyOfCorrectPrefix(chars: nat, input: string, target: string)
    requires input <= target && chars + |input| > 0
    ensures LiveAccuracy(chars, chars, input, target) == 100
  {
    LiveMatchesBounds(input, target);
  }

  /** "ax" typed against "ab" with no completed passage: one of two
      characters agrees, and the live figure is 50. */
  lemma LiveAccuracyExample()
    ensures LiveAccuracy(0, 0, "ax", "ab") == 50
  {
    assert MatchesIn("ax", "ab", 1) == 1;
    assert MatchesIn("ax", "ab", 2) == 1;
  }

  // ---------------------------------------------------------------- live cpm

  /** Characters per minute over the seconds elapsed so far (configured
      duration minus time left); 0 before the first second has passed. */
  function LiveCpm(duration: int, timeLeft: int, keystrokes: nat): (cpm: int)
    ensures cpm >= 0
    ensures duration - timeLeft <= 0 ==> cpm == 0
  {
    var elapsed := duration - timeLeft;
    if elapsed <= 0 then 0
    else
      var q := keystrokes as real / (elapsed as real / 60.0);
      assert q >= 0.0;
      RoundMonotone(0.0, q);
      RoundOfInt(0);
      Round(q)
  }

  lemma LiveCpmFormula(duration: int, timeLeft: int, keystrokes: nat)
    requires duration - timeLeft > 0
    ensures LiveCpm(duration, timeLeft, keystrokes) ==
      Round(keystrokes as real * 60.0 / (duration - timeLeft) as real)
  {
    var e := (duration - timeLeft) as real;
    assert keystrokes as real / (e / 60.0) == keystrokes as real * 60.0 / e;
  }

  /** When the clock has run out, the live figure equals the cpm recorded
      in the summary. */
  lemma LiveCpmAtTimeout(duration: int, keystrokes: nat)
    requires duration >= 1
    ensures LiveCpm(duration, 0, keystrokes) == Rate(keystrokes, duration)
  {
    LiveCpmFormula(duration, 0, keystrokes);
    RateOverDuration(keystrokes, duration);
  }

  // ---------------------------------------------------------------- highlight

  /** The colour class of one target character. */
  datatype Mark = Matched | Mismatched | Untyped

  /** The class of target position j as the code computes it: the input
      is aligned with the target at their ENDS, so target position j
      faces input position j - (|target| - |input|). */
  function MarkAt(target: string, input: string, j: nat): (m: Mark)
    requires j < |target|
    ensures m == Untyped <==> j < |target| - |input|
  {
    var k := j - (|target| - |input|);
    if k < 0 then Untyped
    else if input[k] == target[j] then Matched
    else Mismatched
  }

  function Highlight(target: string, input: string): (marks: seq<Mark>)
    ensures |marks| == |target|
  {
    seq(|target|, j requires 0 <= j < |target| => MarkAt(target, input, j))
  }

  /** One class per target character, in target order: the first
      |target| - |input| characters are untyped, every later one is
      matched or mismatched against the end-aligned input character. */
  lemma HighlightClasses(target: string, input: string, j: nat)
    requires j < |target|
    ensures |Highlight(target, input)| == |target|
    ensures Highlight(target, input)[j] == Untyped <==> j < |target| - |input|
    ensures j >= |target| - |input| ==>
      (Highlight(target, input)[j] == Matched <==> input[j - (|target| - |input|)] == target[j])
  {
  }

  /** An input at least as long as the target leaves nothing untyped. */
  lemma HighlightLongInput(target: string, input: string)
    requires |input| >= |target|
    ensures forall j :: 0 <= j < |target| ==> Highlight(target, input)[j] != Untyped
  {
  }

  /** End alignment at work: "a" typed against "abc" marks the last
      character as mismatched and the first as untyped, although the
      input is a correct start of the target. */
  lemma HighlightMisalignedExample()
    ensures "a" <= "abc"
    ensures Highlight("abc", "a") == [Untyped, Untyped, Mismatched]
  {
    assert Highlight("abc", "a")[2] == Mismatched;
  }

  /** The start-aligned classification: input position j faces target
      position j, as for live accuracy. */
  function IntendedHighlight(target: string, input: string): (marks: seq<Mark>)
    ensures |marks| == |target|
    ensures forall j :: 0 <= j < |target| ==> (marks[j] == Untyped <==> |input| <= j)
  {
    seq(|target|, j requires 0 <= j < |target| =>
      if j >= |input| then Untyped else if input[j] == target[j] then Matched else Mismatched)
  }

  function CountMatched(marks: seq<Mark>): nat {
    if marks == [] then 0 else CountMatched(marks[..|marks| - 1]) + (if marks[|marks| - 1] == Matched then 1 else 0)
  }

  lemma {:induction false} CountMatchedPrefix(input: string, target: string, n: nat)
    requires n <= |input|
    ensures MatchesIn(input, target, n) == CountMatched(IntendedHighlight(target, input)[..Min(n, |target|)])
  {
    if n > 0 {
      CountMatchedPrefix(input, target, n - 1);
      var marks := IntendedHighlight(target, input);
      if n <= |target| {
        assert marks[..n][..n - 1] == marks[..n - 1];
      }
    }
  }

  /** The start-aligned classification agrees with live accuracy: it
      marks as matched exactly as many characters as live accuracy counts
      correct, and a correct prefix of the target shows as matched
      characters followed by untyped ones. */
  lemma IntendedHighlightAgreesWithAccuracy(target: string, input: string)
    ensures CountMatched(IntendedHighlight(target, input)) == LiveMatches(input, target)
    ensures input <= target ==> forall j :: 0 <= j < |target| ==>
      IntendedHighlight(target, input)[j] == (if j < |input| then Matched else Untyped)
  {
    var marks := IntendedHighlight(target, input);
    CountMatchedPrefix(input, target, |input|);
    if |input| < |target| {
      forall k | |input| <= k < |target| ensures marks[k] != Matched { }
      CountMatchedUntypedTail(marks, |input|);
    } else {
      assert marks[..|target|] == marks;
    }
  }

  lemma {:induction false} CountMatchedUntypedTail(marks: seq<Mark>, n: nat)
    requires n <= |marks|
    requires forall k :: n <= k < |marks| ==> marks[k] != Matched
    ensures CountMatched(marks) == CountMatched(marks[..n])
  {
    if |marks| > n {
      CountMatchedUntypedTail(marks[..|marks| - 1], n);
      assert marks[..|marks| - 1][..n] == marks[..n];
    } else {
      assert marks[..n] == marks;
    }
  }

  /** Both alignments coincide when input and target have equal length. */
  lemma HighlightAlignmentsAgreeOnEqualLength(target: string, input: string)
    requires |input| == |target|
    ensures Highlight(target, input) == IntendedHighlight(target, input)
  {
  }
}
