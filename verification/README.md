# Arabic typing practice — session engine in Dafny

This project models the typing-session engine of the `arabic-typing-practice`
web application (`App.tsx`, `types.ts`). A player picks a difficulty tier
and a duration, starts a session, and types passages drawn at random from a
bank. Each input event counts as one keystroke. Text equal to the passage
completes it: the passage counter goes up, the passage length is added to
both character counters, and a new passage is staged. While the session
runs, a one-second timer counts down and live feedback is shown:

- accuracy over completed passages plus the current input;
- characters per minute over the elapsed time;
- a colour class for every character of the passage.

When the clock reaches zero the session ends. The engine computes a
summary (accuracy, cpm, kpm, score), records it with the player's trimmed
name, and puts it on a leaderboard. The leaderboard is sorted by
descending score with a stable sort and cut to ten entries.

Modules:

- `Types`: the tier, the session status and the summary record.
- `Scoring`: `Math.round`, the end-of-session formulas and the summary.
- `PlayerName`: `trim()` with the `'Guest'` fallback.
- `Leaderboard`: append, stable descending sort, keep ten.
- `PassageBank`: `pickRandomText`. `Math.random` is a `roll` in [0, 1).
- `Feedback`: live accuracy, live cpm, and the per-character highlight.
- `Session`: class `TypingSession`. Its fields are the component's state
  and its methods are the handlers. `Valid()` is the invariant every
  handler keeps: the correct and expected counters agree, an idle session
  has a full clock and zero counters, a running one has time left, and a
  finished one has a summary whose accuracy is 0 or 100.

`Session.TypeOnePassage` is a client of the class: one passage "abc", a
60-second session and three input events complete the passage. For that
state, `Session.GuestOneMinuteSummary` gives the summary the session records
when its clock runs out: accuracy 100, cpm 3, kpm 1 and score 76.

Strings are sequences of Unicode code points. JavaScript string lengths and
indices count UTF-16 code units, so the model agrees with the application
for text inside the Basic Multilingual Plane, which holds all Arabic
passages.

## Model

| member | source | states |
|---|---|---|
| Scoring.Round | arabic-typing-practice/App.tsx:374-377 | `Math.round` gives the integer r with r - 1/2 <= x < r + 1/2, so halves round upwards |
| Scoring.ElapsedMinutes | arabic-typing-practice/App.tsx:373 | the divisor is the larger of 1/60 and duration/60, and it is one of the two |
| Scoring.FinalAccuracy | arabic-typing-practice/App.tsx:374 | 0 when nothing is expected; between 0 and 100 when correct <= expected; exactly 100 when all expected characters are correct |
| Scoring.FinalAccuracyRounds | arabic-typing-practice/App.tsx:374 | when characters were expected, the accuracy is the percentage correct/expected * 100 rounded to the nearest integer: within 1/2 of it, halves upwards |
| Scoring.Rate | arabic-typing-practice/App.tsx:375-376 | a per-minute rate over the configured duration is never negative |
| Scoring.RateOverDuration | arabic-typing-practice/App.tsx:373-376 | for a duration d >= 1 the rate of a count c is round(60 c / d) |
| Scoring.RateOfOneMinute | arabic-typing-practice/App.tsx:373-376 | over 60 seconds the rate equals the count |
| Scoring.RateOfShortDuration | arabic-typing-practice/App.tsx:373 | a duration of at most one second counts as one second: the rate is 60 times the count |
| Scoring.Score | arabic-typing-practice/App.tsx:377 | with accuracy in 0..100 and cpm >= 0, the score lies between 25 per passage and that plus 100 |
| Scoring.ScorePerPassage | arabic-typing-practice/App.tsx:377 | each further completed passage adds exactly 25 to the score |
| Scoring.ScoreMonotone | arabic-typing-practice/App.tsx:377 | the score does not fall when accuracy or cpm rises |
| Scoring.FinalStats | arabic-typing-practice/App.tsx:373-389 | the summary carries the given name, tier, duration, passages and date; its rates are not negative; its accuracy and score are in range when correct <= expected |
| Scoring.FinalStatsFields | arabic-typing-practice/App.tsx:373-389 | the summary's accuracy, cpm, kpm and score are exactly the end-of-session accuracy, the keystroke rate, the passage rate and the score over them |
| Scoring.AccuracyOfAgreeingCounters | arabic-typing-practice/App.tsx:459-462 | since completion adds the same length to both counters, the final accuracy is 100 after a completion and 0 before |
| Scoring.OneMinuteExample | arabic-typing-practice/App.tsx:373-377 | one three-character passage with three input events over 60 seconds scores accuracy 100, cpm 3, kpm 1, score 76 |
| PlayerName.TrimStart | arabic-typing-practice/App.tsx:380 | the result is a suffix of the input, only trimmable characters are dropped, and it does not start with one |
| PlayerName.TrimEnd | arabic-typing-practice/App.tsx:380 | the result is a prefix of the input, only trimmable characters are dropped, and it does not end with one |
| PlayerName.Trim | arabic-typing-practice/App.tsx:380 | `trim()` is never longer than the name, and a non-empty result neither starts nor ends with white space |
| PlayerName.TrimIsMiddle | arabic-typing-practice/App.tsx:380 | `trim()` keeps a contiguous middle part of the name and drops only white space on either side; the part kept has no white space at either end |
| PlayerName.TrimEmptyIff | arabic-typing-practice/App.tsx:380 | the trimmed name is empty exactly when every character is white space |
| PlayerName.DisplayName | arabic-typing-practice/App.tsx:380 | the recorded name is never empty and has no surrounding white space; an all-white-space name becomes "Guest"; any other name is recorded trimmed |
| Leaderboard.InsertDescSplit | arabic-typing-practice/App.tsx:394-395 | insertion puts the new entry after every entry scoring at least as much; the entry after it scores less |
| Leaderboard.InsertDesc | arabic-typing-practice/App.tsx:394-395 | one insertion step of the sort adds exactly one entry |
| Leaderboard.InsertDescAt | arabic-typing-practice/App.tsx:394-395 | in a sorted board the new entry goes after all entries with the same or a higher score and before all lower ones |
| Leaderboard.InsertDescCount | arabic-typing-practice/App.tsx:394-395 | insertion adds exactly the new entry to the multiset of entries |
| Leaderboard.InsertDescSorted | arabic-typing-practice/App.tsx:395 | insertion into a board sorted by descending score keeps it sorted |
| Leaderboard.InsertDescStable | arabic-typing-practice/App.tsx:395 | insertion keeps the order of equal-score entries and puts the new entry last among them |
| Leaderboard.SortDescSorted | arabic-typing-practice/App.tsx:395 | `sort((a, b) => b.score - a.score)` yields descending scores |
| Leaderboard.SortDescPermutation | arabic-typing-practice/App.tsx:395 | the sort is a permutation: the same entries, each as often |
| Leaderboard.SortDesc | arabic-typing-practice/App.tsx:395 | the sort keeps the number of entries |
| Leaderboard.SortDescStable | arabic-typing-practice/App.tsx:395 | the sort is stable: the entries of each score keep their relative order |
| Leaderboard.StableSortUnique | arabic-typing-practice/App.tsx:395 | two descending sequences with the same entries of every score, in the same order, are equal |
| Leaderboard.SortDescIsTheStableSort | arabic-typing-practice/App.tsx:395 | the modelled sort equals every stable descending sort of its input, so it matches `Array.prototype.sort`, which is stable |
| Leaderboard.SortDescOfSorted | arabic-typing-practice/App.tsx:395 | sorting an already sorted board changes nothing |
| Leaderboard.RecordShape | arabic-typing-practice/App.tsx:393-396 | the new board has min(10, n + 1) entries in descending order; each comes from the old board or is the new summary, and none occurs more often than there |
| Leaderboard.Record | arabic-typing-practice/App.tsx:394-396 | the new board has min(10, n + 1) entries |
| Leaderboard.RecordOnSortedBoard | arabic-typing-practice/App.tsx:393-396 | on a sorted board the summary is inserted after every entry with the same or a higher score, then the board is cut to ten |
| Leaderboard.RecordAdmission | arabic-typing-practice/App.tsx:393-396 | a full sorted board is unchanged by a summary that does not beat its tenth entry; otherwise the summary is on the new board |
| PassageBank.Pool | arabic-typing-practice/App.tsx:27 | the tier's pool, or the Medium pool when the bank has no entry for the tier |
| PassageBank.PickIndex | arabic-typing-practice/App.tsx:28 | floor(roll * n) is an index below n for every roll in [0, 1) |
| PassageBank.PickRandomText | arabic-typing-practice/App.tsx:26-29 | the chosen passage belongs to the pool of the tier, or to the Medium pool as a fallback |
| PassageBank.PickIndexOf | arabic-typing-practice/App.tsx:28 | every roll in [k/n, (k+1)/n) is a legal roll and picks index k |
| PassageBank.PickReachesEvery | arabic-typing-practice/App.tsx:26-29 | every passage of the pool is chosen by some roll |
| Feedback.MatchesIn | arabic-typing-practice/App.tsx:488-493 | the agreeing positions among the first n input characters number at most n |
| Feedback.MatchesInBound | arabic-typing-practice/App.tsx:488-493 | the agreeing positions number at most the length of the target |
| Feedback.MatchesInAll | arabic-typing-practice/App.tsx:488-493 | all n first positions agree exactly when the first n input characters start the target |
| Feedback.LiveMatches | arabic-typing-practice/App.tsx:488-493 | the characters of the current input that agree with the passage number at most the input length |
| Feedback.LiveMatchesBounds | arabic-typing-practice/App.tsx:488-493 | the live match count is at most min(input, target); it equals the input length exactly when the input is a prefix of the target |
| Feedback.LiveAccuracy | arabic-typing-practice/App.tsx:494-496 | live accuracy is the rounded percentage of correct characters (completed plus agreeing live ones) among expected ones (completed plus typed); in 0..100 when the counters are consistent, and 0 when nothing is expected |
| Feedback.LiveAccuracyExample | arabic-typing-practice/App.tsx:487-497 | with no completed passage, "ax" typed against "ab" shows 50 |
| Feedback.LiveAccuracyOfCorrectPrefix | arabic-typing-practice/App.tsx:487-497 | with agreeing counters, a correct prefix of the passage shows 100 |
| Feedback.LiveCpm | arabic-typing-practice/App.tsx:499-504 | live cpm is never negative, and it is 0 before the first second has passed |
| Feedback.LiveCpmFormula | arabic-typing-practice/App.tsx:500-503 | after e > 0 elapsed seconds, live cpm is round(60 k / e) |
| Feedback.LiveCpmAtTimeout | arabic-typing-practice/App.tsx:499-504 | when the clock is at zero, live cpm equals the cpm recorded in the summary |
| Feedback.Highlight | arabic-typing-practice/App.tsx:467-485 | one class per character of the passage |
| Feedback.MarkAt | arabic-typing-practice/App.tsx:470-482 | a character is untyped exactly when it lies before the end-aligned input |
| Feedback.HighlightClasses | arabic-typing-practice/App.tsx:469-482 | the first \|target\| - \|input\| characters are untyped; each later one is matched exactly when it equals the end-aligned input character |
| Feedback.HighlightLongInput | arabic-typing-practice/App.tsx:474-482 | an input at least as long as the passage leaves no character untyped |
| Feedback.HighlightMisalignedExample | arabic-typing-practice/App.tsx:469-482 | "a" typed against "abc" is a correct start, yet it shows untyped, untyped, mismatched |
| Feedback.IntendedHighlight | arabic-typing-practice/App.tsx:467-485 | corrected form: one class per passage character; a character is untyped exactly when it lies at or past the end of the input |
| Feedback.IntendedHighlightAgreesWithAccuracy | arabic-typing-practice/App.tsx:487-497 | the start-aligned highlight marks as many characters matched as live accuracy counts correct; a correct prefix shows matched characters followed by untyped ones |
| Feedback.HighlightAlignmentsAgreeOnEqualLength | arabic-typing-practice/App.tsx:469-482 | when input and passage have equal length, end and start alignment give the same classes |
| Session.TypingSession.constructor | arabic-typing-practice/App.tsx:320-348 | mounted state: stored board and name, tier Medium, 120 seconds, idle, full clock, zero counters, a passage of the Medium pool staged |
| Session.TypingSession.Summary | arabic-typing-practice/App.tsx:373-389 | the summary has the session's passages, duration, tier and date; accuracy 100 after a completion and 0 before; score between 25 per passage and that plus 100 |
| Session.TypingSession.SummaryFields | arabic-typing-practice/App.tsx:373-389 | the summary records the display name of the player name and the end-of-session accuracy, cpm, kpm and score over the session's counters and duration |
| Session.TypingSession.EndSession | arabic-typing-practice/App.tsx:368-400 | outside Running nothing changes; from Running the status is Finished, the summary is recorded, and the board is the old one with the summary added, sorted and cut to min(10, n + 1) |
| Session.TypingSession.Finish | arabic-typing-practice/App.tsx:371-397 | Finished, the summary kept, and the board is the old one with the summary added, sorted and cut to min(10, n + 1) |
| Session.TypingSession.ResetSession | arabic-typing-practice/App.tsx:402-414 | Idle, empty input, full clock, zero counters; a new passage of the current tier only when asked |
| Session.TypingSession.StartSession | arabic-typing-practice/App.tsx:416-420 | Running with empty input, full clock and zero counters, passage kept |
| Session.TypingSession.HandleNextText | arabic-typing-practice/App.tsx:422-426 | empty input and a new passage of the current tier; counters and status untouched |
| Session.TypingSession.HandleInputChange | arabic-typing-practice/App.tsx:454-465 | ignored unless Running. Otherwise one more keystroke. Text equal to the passage adds one passage and its length to both counters and stages a new passage with empty input. Other text becomes the input, counters unchanged |
| Session.TypingSession.Tick | arabic-typing-practice/App.tsx:436-452 | only while Running: one second less; at zero the session ends with the summary taken before the tick and the updated board |
| Session.TypingSession.SetLevel | arabic-typing-practice/App.tsx:516 | the tier is set and a passage of that tier is staged |
| Session.TypingSession.SetDuration | arabic-typing-practice/App.tsx:518 | the duration is set; the clock follows it only while idle |
| Session.TypingSession.SetPlayerName | arabic-typing-practice/App.tsx:99 | the name field is set and nothing else changes |
| Session.TypingSession.CurrentAccuracy | arabic-typing-practice/App.tsx:487-497 | the loop computes live accuracy over the counters and the current input; the result is in 0..100 and is 0 while idle |
| Session.TypingSession.CurrentCpm | arabic-typing-practice/App.tsx:499-504 | live cpm is not negative and is 0 while idle |
| Session.TypingSession.TargetTextHighlight | arabic-typing-practice/App.tsx:467-485 | the backward loop that prepends each class yields exactly the end-aligned highlight of the passage |
| Session.GuestOneMinuteSummary | arabic-typing-practice/App.tsx:373-389 | an unnamed player's one-minute session with one three-character passage and three events records "Guest", accuracy 100, kpm 1, cpm 3, score 76 |
| Session.TypeOnePassage | arabic-typing-practice/App.tsx:416-465 | a new session set to 60 seconds, started, with "a", "ab", "abc" typed against "abc": Running, full clock, one passage, three keystrokes, three characters |

## Left out

- Storage: `localStorage` reads and writes are not modelled. The stored board and name are constructor parameters. `endSession` re-reads the board from storage; the model uses the `leaderboard` field, which the code keeps equal to what it stores.
- Presentation: the modal flag, input focus, document language and direction, dark mode, translations and the `Language` enum are not modelled.
- Timer plumbing: `setInterval`/`clearInterval` and React's render scheduling are not modelled. `Tick` is one interval callback followed by the timeout effect that the new time triggers.
- Floating point: all arithmetic is exact (`real`) and `Math.round` is floor(x + 1/2). A double-precision rounding difference at an exact .5 boundary is not captured.
- Date: the summary's date is the parameter `today`; the `id-ID` locale formatting is not modelled.
- Random choice: `Math.random` is the parameter `roll` in [0, 1). Its distribution is not modelled.
- PassageBank.PickRandomText: requires every pool of the bank to be non-empty and a Medium pool to exist; with an empty pool the code would yield `undefined`, which is not modelled.
- Session.TypingSession.SetDuration: requires a positive duration; the selector offers only positive durations.
- Disabled controls: the Start button and the tier, duration and language selectors are disabled while Running. The handlers are modelled as written, with no guards.
- Session.TypingSession.TargetTextHighlight: yields one class per character instead of HTML `<span>` markup; the markup text itself is not modelled.
- Session.TypingSession.CurrentCpm: the function states bounds only; the formula is stated by `Feedback.LiveCpmFormula`.
- Text encoding: strings are sequences of code points, while JavaScript lengths and indices count UTF-16 code units. Outside the Basic Multilingual Plane the expected count of live accuracy (App.tsx:494) and the highlight indices (App.tsx:471-475) would differ; Arabic passages lie inside it.
- Passage bank contents: the passages of each tier are not modelled; the bank is a constructor parameter.

## Findings

| source | as written | input that shows it | evidently intended | confidence | as-written member | corrected member |
|---|---|---|---|---|---|---|
| arabic-typing-practice/App.tsx:469-482 | The highlight pairs the passage and the input from their ends: passage position j faces input position j - (\|passage\| - \|input\|). | Passage "abc", input "a": classes untyped, untyped, mismatched, although "a" is a correct start. | Start alignment, as live accuracy uses (lines 489-493): passage position j faces input position j, so the example shows matched, untyped, untyped. | medium, not executed | Feedback.HighlightMisalignedExample | Feedback.IntendedHighlightAgreesWithAccuracy |
