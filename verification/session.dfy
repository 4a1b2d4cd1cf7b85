/** The typing-session engine of App.tsx: the session state the component
    keeps, and one method per handler that changes it. Math.random is a
    `roll` in [0, 1) passed to every handler that picks a passage; the
    date of a summary is passed in as `today`. */
module Session {
  import opened Types
  import opened Scoring
  import opened PlayerName
  import opened Leaderboard
  import opened PassageBank
  import opened Feedback

  class TypingSession {
    const bank: Bank
    var playerName: string
    var level: Level
    var duration: int
    var status: GameStatus
    var targetText: string
    var userInput: string
    var timeLeft: int
    /** One per input event, whatever the change to the text. */
    var typedCharCount: nat
    var totalCorrectChars: nat
    var totalExpectedChars: nat
    /** Passages completed in this session. */
    var wordsCorrect: nat
    var sessionStats: Option<SessionStats>
    var leaderboard: seq<SessionStats>

    /** The counters' invariant. Completed passages add the same amount
        to the correct and the expected counters, each completion is also
        a keystroke; an idle session has a full clock, an empty input and
        zero counters; a finished one has a summary, whose accuracy is 0
        or 100. */
    ghost predicate Consistent()
      reads this
    {
      WellFormed(bank) && duration > 0 &&
      totalCorrectChars == totalExpectedChars &&
      wordsCorrect <= typedCharCount &&
      (status == Idle ==>
        timeLeft == duration && userInput == [] &&
        typedCharCount == 0 && totalExpectedChars == 0 && wordsCorrect == 0) &&
      (status == Finished ==> sessionStats.Some?) &&
      (sessionStats.Some? ==> sessionStats.value.acc == 0 || sessionStats.value.acc == 100)
    }

    /** The session invariant between handlers: the counters' invariant,
        and a running session has time left, since the timeout ends it as
        soon as the clock reaches zero. */
    ghost predicate Valid()
      reads this
    {
      Consistent() && (status == Running ==> 0 < timeLeft)
    }

    /** The component as mounted: the stored leaderboard and name, tier
        Medium, 120 seconds, idle, and a first passage staged. */
    constructor (bank: Bank, storedBoard: seq<SessionStats>, storedName: string, roll: real)
      requires WellFormed(bank) && 0.0 <= roll < 1.0
      ensures Valid()
      ensures this.bank == bank && leaderboard == storedBoard && playerName == storedName
      ensures level == Medium && duration == 120 && status == Idle && timeLeft == 120
      ensures targetText == PickRandomText(bank, Medium, roll) && userInput == []
      ensures typedCharCount == 0 && totalCorrectChars == 0 && totalExpectedChars == 0 && wordsCorrect == 0
      ensures sessionStats == None
    {
      this.bank := bank;
      playerName := storedName;
      level := Medium;
      duration := 120;
      status := Idle;
      targetText := PickRandomText(bank, Medium, roll);
      userInput := [];
      timeLeft := 120;
      typedCharCount, totalCorrectChars, totalExpectedChars, wordsCorrect := 0, 0, 0, 0;
      sessionStats := None;
      leaderboard := storedBoard;
    }

    /** The summary endSession would record now. Because the counters
        agree, its accuracy is 100 once a passage was completed and 0
        before. */
    function Summary(today: string): (st: SessionStats)
      requires Consistent()
      reads this
      ensures st.words == wordsCorrect && st.duration == duration && st.level == level && st.date == today
      ensures st.acc == (if totalExpectedChars > 0 then 100 else 0)
      ensures 25 * wordsCorrect <= st.score <= 25 * wordsCorrect + 100
    {
      AccuracyOfAgreeingCounters(totalExpectedChars);
      FinalStats(DisplayName(playerName), level, duration, wordsCorrect,
                 typedCharCount, totalCorrectChars, totalExpectedChars, today)
    }

    /** Which value each field of the summary holds: the trimmed name or
        "Guest", accuracy over the character counters, cpm from keystrokes
        and kpm from completed passages over the configured duration, and
        the score from passages, accuracy and cpm. */
    lemma SummaryFields(today: string)
      requires Consistent()
      ensures var st := Summary(today);
        st.name == DisplayName(playerName) &&
        st.acc == FinalAccuracy(totalCorrectChars, totalExpectedChars) &&
        st.cpm == Rate(typedCharCount, duration) && st.kpm == Rate(wordsCorrect, duration) &&
        st.score == Score(wordsCorrect, st.acc, st.cpm)
    {
      FinalStatsFields(DisplayName(playerName), level, duration, wordsCorrect,
                       typedCharCount, totalCorrectChars, totalExpectedChars, today);
    }

    /** endSession: from Running only, stop, record the summary and put
        it on the leaderboard; any other state is left as it is. */
    method EndSession(today: string)
      requires Consistent()
      modifies this`status, this`sessionStats, this`leaderboard
      ensures Valid()
      ensures old(status) != Running ==> unchanged(this)
      ensures old(status) == Running ==>
        status == Finished &&
        sessionStats == Some(old(Summary(today))) &&
        leaderboard == Record(old(leaderboard), old(Summary(today))) &&
        SortedDesc(leaderboard) && |leaderboard| == Min(MaxEntries, |old(leaderboard)| + 1)
    {
      if status != Running {
        return;
      }
      var st := Summary(today);
      Finish(st);
    }

    /** The second half of endSession: status Finished, the summary kept
        for display, and the leaderboard with the summary added, sorted
        and cut to ten. */
    method Finish(st: SessionStats)
      requires Consistent() && status == Running && (st.acc == 0 || st.acc == 100)
      modifies this`status, this`sessionStats, this`leaderboard
      ensures Valid()
      ensures status == Finished && sessionStats == Some(st)
      ensures leaderboard == Record(old(leaderboard), st)
      ensures SortedDesc(leaderboard) && |leaderboard| == Min(MaxEntries, |old(leaderboard)| + 1)
    {
      var board := Record(leaderboard, st);
      RecordShape(leaderboard, st);
      status := Finished;
      sessionStats := Some(st);
      leaderboard := board;
    }

    /** resetSession: back to Idle with an empty input, a full clock and
        zeroed counters; a new passage only when `resetTarget` holds. */
    method ResetSession(resetTarget: bool, roll: real)
      requires Valid() && 0.0 <= roll < 1.0
      modifies this`status, this`userInput, this`timeLeft, this`typedCharCount,
        this`totalCorrectChars, this`totalExpectedChars, this`wordsCorrect, this`targetText
      ensures Valid()
      ensures status == Idle && userInput == [] && timeLeft == duration
      ensures typedCharCount == 0 && totalCorrectChars == 0 && totalExpectedChars == 0 && wordsCorrect == 0
      ensures targetText == if resetTarget then PickRandomText(bank, level, roll) else old(targetText)
    {
      status := Idle;
      userInput := [];
      timeLeft := duration;
      typedCharCount := 0;
      totalCorrectChars := 0;
      totalExpectedChars := 0;
      wordsCorrect := 0;
      if resetTarget {
        targetText := PickRandomText(bank, level, roll);
      }
    }

    /** startSession: a reset that keeps the passage, then Running. */
    method StartSession()
      requires Valid()
      modifies this`status, this`userInput, this`timeLeft, this`typedCharCount,
        this`totalCorrectChars, this`totalExpectedChars, this`wordsCorrect, this`targetText
      ensures Valid()
      ensures status == Running && userInput == [] && timeLeft == duration
      ensures typedCharCount == 0 && totalCorrectChars == 0 && totalExpectedChars == 0 && wordsCorrect == 0
      ensures targetText == old(targetText)
    {
      ResetSession(false, 0.0);
      status := Running;
    }

    /** handleNextText: clear the input and stage a new passage of the
        current tier, in any state, counters untouched. */
    method HandleNextText(roll: real)
      requires Valid() && 0.0 <= roll < 1.0
      modifies this`userInput, this`targetText
      ensures Valid()
      ensures userInput == [] && targetText == PickRandomText(bank, level, roll)
    {
      userInput := [];
      targetText := PickRandomText(bank, level, roll);
    }

    /** handleInputChange: ignored unless Running. Every event counts one
        keystroke. Text equal to the passage completes it: one more
        passage, its length added to both character counters, and the
        next passage staged with an empty input. Any other text just
        becomes the input. */
    method HandleInputChange(value: string, roll: real)
      requires Valid() && 0.0 <= roll < 1.0
      modifies this`userInput, this`typedCharCount, this`wordsCorrect,
        this`totalCorrectChars, this`totalExpectedChars, this`targetText
      ensures Valid()
      ensures old(status) != Running ==> unchanged(this)
      ensures old(status) == Running ==> typedCharCount == old(typedCharCount) + 1
      ensures old(status) == Running && value == old(targetText) ==>
        wordsCorrect == old(wordsCorrect) + 1 &&
        totalExpectedChars == old(totalExpectedChars) + |old(targetText)| &&
        totalCorrectChars == old(totalCorrectChars) + |old(targetText)| &&
        userInput == [] && targetText == PickRandomText(bank, level, roll)
      ensures old(status) == Running && value != old(targetText) ==>
        wordsCorrect == old(wordsCorrect) &&
        totalExpectedChars == old(totalExpectedChars) &&
        totalCorrectChars == old(totalCorrectChars) &&
        userInput == value && targetText == old(targetText)
    {
      if status != Running {
        return;
      }
      userInput := value;
      typedCharCount := typedCharCount + 1;
      if value == targetText {
        wordsCorrect := wordsCorrect + 1;
        totalExpectedChars := totalExpectedChars + |targetText|;
        totalCorrectChars := totalCorrectChars + |targetText|;
        HandleNextText(roll);
      }
    }

    /** One second of the interval timer, which runs only while Running,
        followed by the timeout check that the new time triggers: at zero
        the session ends. */
    method Tick(today: string)
      requires Valid()
      modifies this`timeLeft, this`status, this`sessionStats, this`leaderboard
      ensures Valid()
      ensures old(status) != Running ==> unchanged(this)
      ensures old(status) == Running ==> timeLeft == old(timeLeft) - 1
      ensures old(status) == Running && old(timeLeft) > 1 ==>
        (status == Running && sessionStats == old(sessionStats) && leaderboard == old(leaderboard))
      ensures old(status) == Running && old(timeLeft) == 1 ==>
        (status == Finished && sessionStats == Some(old(Summary(today))) &&
         leaderboard == Record(old(leaderboard), old(Summary(today))))
    {
      if status != Running {
        return;
      }
      timeLeft := timeLeft - 1;
      if timeLeft <= 0 {
        EndSession(today);
      }
    }

    /** The tier selector: switch tier and stage a passage of it. */
    method SetLevel(l: Level, roll: real)
      requires Valid() && 0.0 <= roll < 1.0
      modifies this`level, this`targetText
      ensures Valid()
      ensures level == l && targetText == PickRandomText(bank, l, roll)
    {
      level := l;
      targetText := PickRandomText(bank, l, roll);
    }

    /** The duration selector: the clock follows only while Idle. */
    method SetDuration(d: int)
      requires Valid() && d > 0
      modifies this`duration, this`timeLeft
      ensures Valid()
      ensures duration == d && timeLeft == (if old(status) == Idle then d else old(timeLeft))
    {
      duration := d;
      if status == Idle {
        timeLeft := d;
      }
    }

    /** The name field. */
    method SetPlayerName(name: string)
      requires Valid()
      modifies this`playerName
      ensures Valid() && playerName == name
    {
      playerName := name;
    }

    /** currentAccuracy: count the input positions that agree with the
        target, start to start, then the percentage over completed
        passages plus the current input. */
    method CurrentAccuracy() returns (acc: int)
      requires Valid()
      ensures acc == LiveAccuracy(totalExpectedChars, totalCorrectChars, userInput, targetText)
      ensures 0 <= acc <= 100
      ensures status == Idle ==> acc == 0
    {
      var correctCharsInWord := 0;
      for i := 0 to |userInput|
        invariant correctCharsInWord == MatchesIn(userInput, targetText, i)
      {
        if i < |targetText| && targetText[i] == userInput[i] {
          correctCharsInWord := correctCharsInWord + 1;
        }
      }
      var expected := totalExpectedChars + |userInput|;
      var correct := totalCorrectChars + correctCharsInWord;
      acc := FinalAccuracy(correct, expected);
    }

    /** currentCpm: keystrokes per minute over the seconds elapsed; an idle
        session has a full clock and shows 0. */
    function CurrentCpm(): (cpm: int)
      requires Valid()
      reads this
      ensures cpm >= 0
      ensures status == Idle ==> cpm == 0
    {
      LiveCpm(duration, timeLeft, typedCharCount)
    }

    /** getTargetTextHtml without the markup: walk the target from its
        last character to its first, pairing it with the input from its
        last character, and prepend each character's class. */
    method TargetTextHighlight() returns (marks: seq<Mark>)
      ensures marks == Highlight(targetText, userInput)
      ensures |marks| == |targetText|
    {
      var t, u := |targetText|, |userInput|;
      ghost var spec := Highlight(targetText, userInput);
      marks := [];
      for i := 0 to t
        invariant marks == spec[t - i..]
      {
        var targetIndex := t - 1 - i;
        var typedIndex := u - 1 - i;
        var m: Mark;
        if typedIndex >= 0 {
          if userInput[typedIndex] == targetText[targetIndex] {
            m := Matched;
          } else {
            m := Mismatched;
          }
        } else {
          m := Untyped;
        }
        assert spec[targetIndex] == m;
        marks := [m] + marks;
        assert spec[t - (i + 1)..] == [spec[targetIndex]] + spec[t - i..];
      }
    }
  }

  /** The summary of a one-minute session by an unnamed player who
      completed one three-character passage with three input events. */
  lemma GuestOneMinuteSummary(s: TypingSession, date: string)
    requires s.Consistent()
    requires s.playerName == "" && s.level == Medium && s.duration == 60
    requires s.wordsCorrect == 1 && s.typedCharCount == 3 && s.totalExpectedChars == 3
    ensures s.Summary(date) == SessionStats("Guest", Medium, 60, 1, 100, 1, 3, 76, date)
  {
    OneMinuteExample("Guest", Medium, date);
  }

  /** A player types the one passage "abc" of a one-minute session in
      three input events. */
  method TypeOnePassage() returns (s: TypingSession)
    ensures fresh(s) && s.Valid()
    ensures s.playerName == "" && s.level == Medium && s.duration == 60
    ensures s.wordsCorrect == 1 && s.typedCharCount == 3 && s.totalExpectedChars == 3
    ensures s.status == Running && s.timeLeft == 60
  {
    var bank := map[Medium := ["abc"]];
    s := new TypingSession(bank, [], "", 0.0);
    assert s.targetText == "abc";
    s.SetDuration(60);
    s.StartSession();
    s.HandleInputChange("a", 0.0);
    s.HandleInputChange("ab", 0.0);
    s.HandleInputChange("abc", 0.0);
  }
}
