/** The value types shared by the typing-practice engine: the difficulty
    tier of a passage, the state of a practice session, and the summary
    recorded when a session finishes. */
module Types {

  /** Difficulty tier a passage is drawn from. */
  datatype Level = Letters | Easy | Medium | Hard

  /** Where a practice session stands: nothing in progress, the clock
      running and input accepted, or the clock stopped with a summary. */
  datatype GameStatus = Idle | Running | Finished

  /** The summary of one finished session; it is what the leaderboard
      stores. `words` counts completed passages, `acc` is a percentage,
      `kpm` and `cpm` are per-minute rates. */
  datatype SessionStats = SessionStats(
    name: string,
    level: Level,
    duration: int,
    words: nat,
    acc: int,
    kpm: int,
    cpm: int,
    score: int,
    date: string)

  datatype Option<+T> = None | Some(value: T)

  function Min(a: int, b: int): int { if a <= b then a else b }
}
