/** The leaderboard update of endSession (App.tsx): append the new
    summary, sort by descending score with JavaScript's stable
    Array.prototype.sort, and keep the first ten. */
module Leaderboard {
  import opened Types

  const MaxEntries: nat := 10

  predicate SortedDesc(s: seq<SessionStats>) {
    forall i, j :: 0 <= i < j < |s| ==> s[i].score >= s[j].score
  }

  /** The entries of `s` whose score is `k`, in their order in `s`. A sort
      is stable exactly when it leaves each of these unchanged. */
  function WithScore(s: seq<SessionStats>, k: int): (r: seq<SessionStats>)
    ensures |r| <= |s|
  {
    if s == [] then []
    else (if s[0].score == k then [s[0]] else []) + WithScore(s[1..], k)
  }

  /** Where `x` goes in `s`: after every entry scoring at least as much. */
  function InsertionPoint(s: seq<SessionStats>, x: SessionStats): (p: nat)
    ensures p <= |s|
  {
    if s == [] || s[0].score < x.score then 0 else 1 + InsertionPoint(s[1..], x)
  }

  function InsertDesc(s: seq<SessionStats>, x: SessionStats): (r: seq<SessionStats>)
    ensures |r| == |s| + 1
  {
    if s == [] || s[0].score < x.score then [x] + s else [s[0]] + InsertDesc(s[1..], x)
  }

  /** Stable insertion sort, descending by score. */
  function SortDesc(s: seq<SessionStats>): (r: seq<SessionStats>)
    ensures |r| == |s|
  {
    if s == [] then [] else InsertDesc(SortDesc(s[..|s| - 1]), s[|s| - 1])
  }

  /** The leaderboard after a session finishes with summary `e`. */
  function Record(board: seq<SessionStats>, e: SessionStats): (r: seq<SessionStats>)
    ensures |r| == Min(MaxEntries, |board| + 1)
  {
    SortDesc(board + [e])[..Min(MaxEntries, |board| + 1)]
  }

  // ---------------------------------------------------------------- insertion

  /** `x` lands at its insertion point, after every entry scoring at
      least as much; the entry at that point, if any, scores less. */
  lemma {:induction false} InsertDescSplit(s: seq<SessionStats>, x: SessionStats)
    ensures var p := InsertionPoint(s, x);
      InsertDesc(s, x) == s[..p] + [x] + s[p..] &&
      (forall i :: 0 <= i < p ==> s[i].score >= x.score) &&
      (p < |s| ==> s[p].score < x.score)
  {
    if s != [] && s[0].score >= x.score {
      var p := InsertionPoint(s, x);
      InsertDescSplit(s[1..], x);
      ConsSplit(s, x, p);
      forall i | 0 < i < p ensures s[i].score >= x.score {
        assert s[i] == s[1..][i - 1];
      }
    }
  }

  /** Splitting the tail at p - 1 and putting the head back is splitting
      at p. */
  lemma ConsSplit(s: seq<SessionStats>, x: SessionStats, p: nat)
    requires 0 < p <= |s|
    ensures [s[0]] + (s[1..][..p - 1] + [x] + s[1..][p - 1..]) == s[..p] + [x] + s[p..]
  {
    assert s[1..][..p - 1] == s[1..p] && s[1..][p - 1..] == s[p..];
    assert s[..p] == [s[0]] + s[1..p];
  }

  /** In a sorted board, `x` lands at its insertion point: every entry
      before it scores at least as much (so ties go before `x`), every
      entry after it scores less. */
  lemma InsertDescAt(s: seq<SessionStats>, x: SessionStats)
    requires SortedDesc(s)
    ensures var p := InsertionPoint(s, x);
      InsertDesc(s, x) == s[..p] + [x] + s[p..] &&
      (forall i :: 0 <= i < p ==> s[i].score >= x.score) &&
      (forall i :: p <= i < |s| ==> s[i].score < x.score)
  {
    InsertDescSplit(s, x);
    var p := InsertionPoint(s, x);
    forall i | p <= i < |s| ensures s[i].score < x.score {
      assert s[p].score >= s[i].score;
    }
  }

  lemma {:induction false} InsertDescCount(s: seq<SessionStats>, x: SessionStats)
    ensures multiset(InsertDesc(s, x)) == multiset(s) + multiset{x}
  {
    if s != [] && s[0].score >= x.score {
      InsertDescCount(s[1..], x);
      assert s == [s[0]] + s[1..];
    }
  }

  lemma InsertDescSorted(s: seq<SessionStats>, x: SessionStats)
    requires SortedDesc(s)
    ensures SortedDesc(InsertDesc(s, x))
  {
    InsertDescAt(s, x);
    var p := InsertionPoint(s, x);
    var r := InsertDesc(s, x);
    forall i | 0 <= i < |r| ensures r[i] == if i < p then s[i] else if i == p then x else s[i - 1] {
    }
    forall i, j | 0 <= i < j < |r| ensures r[i].score >= r[j].score {
      if i < p && j > p {
        assert s[i].score >= s[j - 1].score;
      }
    }
  }

  lemma {:induction false} WithScoreAppend(a: seq<SessionStats>, b: seq<SessionStats>, k: int)
    ensures WithScore(a + b, k) == WithScore(a, k) + WithScore(b, k)
  {
    if a == [] {
      assert a + b == b;
    } else {
      var h := if a[0].score == k then [a[0]] else [];
      WithScoreAppend(a[1..], b, k);
      assert (a + b)[0] == a[0];
      assert (a + b)[1..] == a[1..] + b;
      assert WithScore(a + b, k) == h + WithScore(a[1..] + b, k);
      assert WithScore(a, k) == h + WithScore(a[1..], k);
    }
  }

  lemma {:induction false} WithScoreNone(s: seq<SessionStats>, k: int)
    requires forall i :: 0 <= i < |s| ==> s[i].score != k
    ensures WithScore(s, k) == []
  {
    if s != [] {
      WithScoreNone(s[1..], k);
    }
  }

  /** Inserting into a sorted board puts `x` after every entry of equal
      score: the entries of each score keep their order, `x` last. */
  lemma {:induction false} InsertDescStable(s: seq<SessionStats>, x: SessionStats, k: int)
    requires SortedDesc(s)
    ensures WithScore(InsertDesc(s, x), k) == WithScore(s, k) + (if x.score == k then [x] else [])
  {
    var h := if x.score == k then [x] else [];
    if s == [] {
      assert InsertDesc(s, x) == [x];
    } else if s[0].score < x.score {
      assert InsertDesc(s, x) == [x] + s;
      assert ([x] + s)[1..] == s;
      assert WithScore([x] + s, k) == h + WithScore(s, k);
      if x.score == k {
        forall i | 0 <= i < |s| ensures s[i].score != k {
          assert s[0].score >= s[i].score;
        }
        WithScoreNone(s, k);
      }
    } else {
      var t := InsertDesc(s[1..], x);
      assert InsertDesc(s, x) == [s[0]] + t;
      SortedTail(s);
      InsertDescStable(s[1..], x, k);
      assert ([s[0]] + t)[1..] == t;
    }
  }

  lemma SortedTail(s: seq<SessionStats>)
    requires s != [] && SortedDesc(s)
    ensures SortedDesc(s[1..])
  {
    forall i, j | 0 <= i < j < |s| - 1 ensures s[1..][i].score >= s[1..][j].score {
      assert s[1..][i] == s[i + 1] && s[1..][j] == s[j + 1];
    }
  }

  // ---------------------------------------------------------------- sorting

  /** SortDesc yields a descending order. */
  lemma {:induction false} SortDescSorted(s: seq<SessionStats>)
    ensures SortedDesc(SortDesc(s))
  {
    if s != [] {
      SortDescSorted(s[..|s| - 1]);
      InsertDescSorted(SortDesc(s[..|s| - 1]), s[|s| - 1]);
    }
  }

  /** SortDesc rearranges its input: the same entries, each as often. */
  lemma {:induction false} SortDescPermutation(s: seq<SessionStats>)
    ensures multiset(SortDesc(s)) == multiset(s)
  {
    if s != [] {
      var init, last := s[..|s| - 1], s[|s| - 1];
      SortDescPermutation(init);
      InsertDescCount(SortDesc(init), last);
      MultisetSnoc(s);
    }
  }

  lemma MultisetSnoc(s: seq<SessionStats>)
    requires s != []
    ensures multiset(s) == multiset(s[..|s| - 1]) + multiset{s[|s| - 1]}
  {
    assert s == s[..|s| - 1] + [s[|s| - 1]];
  }

  /** SortDesc is stable: for every score, the entries with that score
      appear in the same order as in the input. */
  lemma {:induction false} SortDescStable(s: seq<SessionStats>, k: int)
    ensures WithScore(SortDesc(s), k) == WithScore(s, k)
  {
    if s != [] {
      var init, last := s[..|s| - 1], s[|s| - 1];
      SortDescSorted(init);
      SortDescStable(init, k);
      InsertDescStable(SortDesc(init), last, k);
      WithScoreSnoc(s, k);
    }
  }

  lemma WithScoreSnoc(s: seq<SessionStats>, k: int)
    requires s != []
    ensures WithScore(s, k) ==
      WithScore(s[..|s| - 1], k) + (if s[|s| - 1].score == k then [s[|s| - 1]] else [])
  {
    var init, last := s[..|s| - 1], s[|s| - 1];
    assert s == init + [last];
    WithScoreAppend(init, [last], k);
    assert [last][1..] == [];
  }

  lemma {:induction false} WithScoreHead(s: seq<SessionStats>)
    requires s != []
    ensures WithScore(s, s[0].score) != [] && WithScore(s, s[0].score)[0] == s[0]
  {
  }

  lemma {:induction false} WithScoreMembers(s: seq<SessionStats>, k: int, x: SessionStats)
    requires x in WithScore(s, k)
    ensures x in s && x.score == k
  {
    if s[0] != x || s[0].score != k {
      WithScoreMembers(s[1..], k, x);
    }
  }

  lemma {:induction false} InWithScore(s: seq<SessionStats>, i: nat)
    requires i < |s|
    ensures s[i] in WithScore(s, s[i].score)
  {
    if i > 0 {
      InWithScore(s[1..], i - 1);
    }
  }

  /** There is only one stable descending order: two sorted sequences
      with the same entries of every score, in the same order, are equal. */
  lemma {:induction false} StableSortUnique(t: seq<SessionStats>, u: seq<SessionStats>)
    requires SortedDesc(t) && SortedDesc(u)
    requires forall k :: WithScore(t, k) == WithScore(u, k)
    ensures t == u
  {
    if t == [] {
      if u != [] {
        WithScoreHead(u);
      }
    } else if u == [] {
      WithScoreHead(t);
    } else {
      var k := t[0].score;
      InWithScore(t, 0);
      InWithScore(u, 0);
      WithScoreMembers(u, k, t[0]);
      WithScoreMembers(t, u[0].score, u[0]);
      assert u[0].score >= k by {
        var j :| 0 <= j < |u| && u[j] == t[0];
      }
      assert k >= u[0].score by {
        var j :| 0 <= j < |t| && t[j] == u[0];
      }
      WithScoreHead(t);
      WithScoreHead(u);
      assert t[0] == u[0];
      forall j ensures WithScore(t[1..], j) == WithScore(u[1..], j) {
        var h := if t[0].score == j then [t[0]] else [];
        assert WithScore(t, j) == h + WithScore(t[1..], j);
        assert WithScore(u, j) == h + WithScore(u[1..], j);
        assert (h + WithScore(t[1..], j))[|h|..] == WithScore(t[1..], j);
        assert (h + WithScore(u[1..], j))[|h|..] == WithScore(u[1..], j);
      }
      StableSortUnique(t[1..], u[1..]);
      assert t == [t[0]] + t[1..] && u == [u[0]] + u[1..];
    }
  }

  /** SortDesc agrees with every stable descending sort of its input. */
  lemma SortDescIsTheStableSort(s: seq<SessionStats>, t: seq<SessionStats>)
    requires SortedDesc(t) && forall k :: WithScore(t, k) == WithScore(s, k)
    ensures SortDesc(s) == t
  {
    SortDescSorted(s);
    forall k ensures WithScore(SortDesc(s), k) == WithScore(t, k) {
      SortDescStable(s, k);
    }
    StableSortUnique(SortDesc(s), t);
  }

  /** Sorting an already sorted board changes nothing. */
  lemma SortDescOfSorted(s: seq<SessionStats>)
    requires SortedDesc(s)
    ensures SortDesc(s) == s
  {
    SortDescIsTheStableSort(s, s);
  }

  // ---------------------------------------------------------------- recording

  /** The new board holds min(10, n + 1) entries in descending score,
      each drawn from the old board plus the new summary, none repeated
      more often than there. */
  lemma RecordShape(board: seq<SessionStats>, e: SessionStats)
    ensures var r := Record(board, e);
      |r| == Min(MaxEntries, |board| + 1) && SortedDesc(r) &&
      multiset(r) <= multiset(board + [e]) &&
      forall x :: x in r ==> x in board || x == e
  {
    var sorted := SortDesc(board + [e]);
    SortDescSorted(board + [e]);
    SortDescPermutation(board + [e]);
    var n := Min(MaxEntries, |board| + 1);
    assert sorted == sorted[..n] + sorted[n..];
    assert multiset(sorted) == multiset(sorted[..n]) + multiset(sorted[n..]);
    forall x | x in sorted[..n] ensures x in board || x == e {
      assert x in multiset(board + [e]);
    }
  }

  /** On a sorted board the new summary is inserted after every entry
      with the same or a higher score, then the board is cut to ten. */
  lemma RecordOnSortedBoard(board: seq<SessionStats>, e: SessionStats)
    requires SortedDesc(board)
    ensures var p := InsertionPoint(board, e);
      Record(board, e) == (board[..p] + [e] + board[p..])[..Min(MaxEntries, |board| + 1)] &&
      (forall i :: 0 <= i < p ==> board[i].score >= e.score) &&
      (forall i :: p <= i < |board| ==> board[i].score < e.score)
  {
    InsertDescSorted(board, e);
    InsertDescAt(board, e);
    forall k ensures WithScore(InsertDesc(board, e), k) == WithScore(board + [e], k) {
      InsertDescStable(board, e, k);
      WithScoreAppend(board, [e], k);
      assert [e][1..] == [];
    }
    SortDescIsTheStableSort(board + [e], InsertDesc(board, e));
  }

  /** A full sorted board is unchanged by a summary that does not beat
      its tenth entry; a summary that does beat it, or any summary while
      the board has room, makes it onto the board. */
  lemma RecordAdmission(board: seq<SessionStats>, e: SessionStats)
    requires SortedDesc(board)
    ensures |board| >= MaxEntries && e.score <= board[MaxEntries - 1].score ==>
      Record(board, e) == board[..MaxEntries]
    ensures |board| < MaxEntries || e.score > board[MaxEntries - 1].score ==>
      e in Record(board, e)
  {
    RecordOnSortedBoard(board, e);
    var p := InsertionPoint(board, e);
    var n := Min(MaxEntries, |board| + 1);
    var full := board[..p] + [e] + board[p..];
    if |board| >= MaxEntries && e.score <= board[MaxEntries - 1].score {
      assert p >= MaxEntries;
      assert full[..n] == board[..MaxEntries];
    } else {
      assert p < n;
      assert full[..n][p] == e;
    }
  }
}
