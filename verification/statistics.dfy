/** The statistics service: the current streak of a run of results, the
    projection of the leaderboard query's rows into leaderboard entries, and
    the season's player histories restricted to players with enough games. */
module Statistics {
  import opened Wrappers
  import opened Ordering
  import opened Entities
  import opened Users

  /** `count` consecutive results that were all wins or all losses. */
  datatype WinOrLoss = WinOrLoss(count: int, isWin: bool)

  /** The number of leading entries whose outcome is `isWin`. */
  function LeadingRun(s: seq<WinOrLoss>, isWin: bool): (n: nat)
    ensures n <= |s|
    ensures forall i :: 0 <= i < n ==> s[i].isWin == isWin
    ensures n < |s| ==> s[n].isWin != isWin
    decreases |s|
  {
    if |s| == 0 || s[0].isWin != isWin then 0 else 1 + LeadingRun(s[1..], isWin)
  }

  /** The leading run is the only prefix of matching entries that is
      followed by a mismatch or by the end. */
  lemma RunIsUnique(s: seq<WinOrLoss>, isWin: bool, n: nat)
    requires n <= |s|
    requires forall i :: 0 <= i < n ==> s[i].isWin == isWin
    requires n < |s| ==> s[n].isWin != isWin
    ensures LeadingRun(s, isWin) == n
  {
  }

  /** The number of results in a list of groups. */
  function Total(s: seq<WinOrLoss>): int
    decreases |s|
  {
    if |s| == 0 then 0 else Total(s[..|s| - 1]) + s[|s| - 1].count
  }

  /** The current streak: the results in the leading run of groups sharing
      the first group's outcome, and that outcome; no groups is a winning
      streak of zero. */
  function Streak(s: seq<WinOrLoss>): (int, bool) {
    if |s| == 0 then (0, true)
    else (Total(s[..LeadingRun(s, s[0].isWin)]), s[0].isWin)
  }

  /** `CalculateStreak`: start from the first group and add the following
      groups while their outcome matches, stopping at the first that does
      not. */
  method CalculateStreak(winOrLosses: seq<WinOrLoss>) returns (streak: int, isWinning: bool)
    ensures (streak, isWinning) == Streak(winOrLosses)
  {
    if |winOrLosses| == 0 {
      return 0, true;
    }
    isWinning := winOrLosses[0].isWin;
    streak := winOrLosses[0].count;
    assert winOrLosses[..1][..0] == [];
    var i := 1;
    while i < |winOrLosses| && winOrLosses[i].isWin == isWinning
      invariant 1 <= i <= |winOrLosses|
      invariant forall k :: 0 <= k < i ==> winOrLosses[k].isWin == isWinning
      invariant streak == Total(winOrLosses[..i])
    {
      assert winOrLosses[..i + 1][..i] == winOrLosses[..i];
      streak := streak + winOrLosses[i].count;
      i := i + 1;
    }
    RunIsUnique(winOrLosses, isWinning, i);
  }

  /** Once a group with the other outcome has been seen, nothing after it
      changes the streak. */
  lemma StreakIgnoresLaterGroups(s: seq<WinOrLoss>, t: seq<WinOrLoss>)
    requires exists k :: 0 <= k < |s| && s[k].isWin != s[0].isWin
    ensures Streak(s + t) == Streak(s)
  {
    var b := s[0].isWin;
    var n := LeadingRun(s, b);
    assert n < |s|;
    RunIsUnique(s + t, b, n);
    assert (s + t)[..n] == s[..n];
  }

  /** When every group is a single match, the streak is the number of
      leading matches with the first match's outcome. */
  lemma SingleMatchStreak(s: seq<WinOrLoss>)
    requires |s| > 0 && forall i :: 0 <= i < |s| ==> s[i].count == 1
    ensures Streak(s).0 == LeadingRun(s, s[0].isWin)
  {
    TotalOfSingles(s[..LeadingRun(s, s[0].isWin)]);
  }

  lemma {:induction false} TotalOfSingles(s: seq<WinOrLoss>)
    requires forall i :: 0 <= i < |s| ==> s[i].count == 1
    ensures Total(s) == |s|
    decreases |s|
  {
    if |s| > 0 {
      TotalOfSingles(s[..|s| - 1]);
    }
  }

  /** One row of the leaderboard query: totals for the season, the length
      of the current streak and its kind (1 winning, 0 losing), and the
      latest rating in the season. */
  datatype LeaderboardRow = LeaderboardRow(
    userId: Id,
    name: string,
    mmr: Option<int>,
    wins: int,
    loses: int,
    streakLength: int,
    streakTypeIsWin: int)

  datatype LeaderboardEntry = LeaderboardEntry(
    userId: Id,
    name: string,
    wins: int,
    loses: int,
    winningStreak: int,
    losingStreak: int,
    mmr: Option<int>)

  /** A rating is shown only once a player has ten games in the season. */
  const RankedGames: int := 10

  /** The projection of one query row. */
  function ToEntry(x: LeaderboardRow): (e: LeaderboardEntry)
    ensures e.userId == x.userId && e.name == x.name && e.wins == x.wins && e.loses == x.loses
  {
    LeaderboardEntry(
      x.userId, x.name, x.wins, x.loses,
      if x.streakTypeIsWin == 1 then x.streakLength else 0,
      if x.streakTypeIsWin == 0 then x.streakLength else 0,
      if x.wins + x.loses >= RankedGames then x.mmr else None)
  }

  /** `GetLeaderboardAsync` after the query: one entry per row, in row order. */
  function Leaderboard(rows: seq<LeaderboardRow>): (r: seq<LeaderboardEntry>)
    ensures |r| == |rows|
    ensures forall i :: 0 <= i < |rows| ==> r[i] == ToEntry(rows[i])
  {
    seq(|rows|, i requires 0 <= i < |rows| => ToEntry(rows[i]))
  }

  /** An entry shows at most one streak, of the row's kind, and shows the
      whole streak when the kind is known; the rating appears exactly when
      the player has ten or more games and a rating. */
  lemma EntryShowsOneStreak(x: LeaderboardRow)
    ensures var e := ToEntry(x);
      && (e.winningStreak == 0 || e.losingStreak == 0)
      && (e.winningStreak != 0 ==> x.streakTypeIsWin == 1 && e.winningStreak == x.streakLength)
      && (e.losingStreak != 0 ==> x.streakTypeIsWin == 0 && e.losingStreak == x.streakLength)
      && (x.streakTypeIsWin == 0 || x.streakTypeIsWin == 1 ==> e.winningStreak + e.losingStreak == x.streakLength)
      && (e.mmr.Some? <==> x.wins + x.loses >= 10 && x.mmr.Some?)
      && (e.mmr.Some? ==> e.mmr == x.mmr)
  {
  }

  /** The rows `GetPlayerHistoryAsync` loads: live rows whose live match
      belongs to the season, of one player when a user id is given. */
  predicate Selected(db: Db, seasonId: Id, userId: Option<Id>, h: int) {
    LiveHistory(db, h) && RowSeason(db, h) == Some(seasonId)
    && (userId.None? || db.histories[h].playerId == userId.value)
  }

  function SelectedRows(db: Db, seasonId: Id, userId: Option<Id>): (s: set<int>)
    ensures forall h :: h in s <==> Selected(db, seasonId, userId, h)
  {
    set h | 0 <= h < |db.histories| && Selected(db, seasonId, userId, h)
  }

  /** `OrderBy(x => x.MatchId)`; rows of one match keep row order. */
  function ByMatchId(db: Db): (key: map<Id, int>)
    ensures forall h :: h in key <==> 0 <= h < |db.histories|
  {
    map h | 0 <= h < |db.histories| :: db.histories[h].matchId
  }

  /** How many of the listed rows belong to player `p`. */
  function Occurrences(db: Db, rows: seq<int>, p: Id): nat
    decreases |rows|
  {
    if |rows| == 0 then 0
    else (if OfPlayer(db, rows[0], p) then 1 else 0) + Occurrences(db, rows[1..], p)
  }

  predicate OfPlayer(db: Db, h: int, p: Id) {
    0 <= h < |db.histories| && db.histories[h].playerId == p
  }

  /** The selected rows of player `p`. */
  function RowsOfPlayer(db: Db, seasonId: Id, userId: Option<Id>, p: Id): (s: set<int>)
    ensures forall h :: h in s <==> Selected(db, seasonId, userId, h) && db.histories[h].playerId == p
  {
    set h | h in SelectedRows(db, seasonId, userId) && db.histories[h].playerId == p
  }

  /** Counting a player's rows along a listing without repetitions counts
      the player's rows in the listed set. */
  lemma {:induction false} OccurrencesCountRows(db: Db, rows: seq<int>, s: set<int>, p: Id)
    requires Distinct(rows)
    requires forall i :: 0 <= i < |rows| ==> rows[i] in s
    requires forall h :: h in s ==> h in rows
    requires forall h :: h in s ==> 0 <= h < |db.histories|
    ensures Occurrences(db, rows, p) == |set h | h in s && db.histories[h].playerId == p|
    decreases |rows|
  {
    if |rows| == 0 {
      assert s == {};
    } else {
      TailListsRest(rows, s);
      OccurrencesCountRows(db, rows[1..], s - {rows[0]}, p);
      CountWithout(db, s, rows[0], p);
    }
  }

  /** The tail of a listing without repetitions lists the rest of the set. */
  lemma TailListsRest(rows: seq<int>, s: set<int>)
    requires |rows| > 0 && Distinct(rows)
    requires forall i :: 0 <= i < |rows| ==> rows[i] in s
    requires forall h :: h in s ==> h in rows
    ensures Distinct(rows[1..])
    ensures forall i :: 0 <= i < |rows[1..]| ==> rows[1..][i] in s - {rows[0]}
    ensures forall h :: h in s - {rows[0]} ==> h in rows[1..]
  {
    forall h | h in s - {rows[0]}
      ensures h in rows[1..]
    {
      var i :| 0 <= i < |rows| && rows[i] == h;
      assert rows[1..][i - 1] == h;
    }
  }

  /** Taking row `x` out of the set takes it out of the player's count. */
  lemma CountWithout(db: Db, s: set<int>, x: int, p: Id)
    requires x in s
    requires forall h :: h in s ==> 0 <= h < |db.histories|
    ensures |set h | h in s && db.histories[h].playerId == p|
         == (if db.histories[x].playerId == p then 1 else 0) + |set h | h in s - {x} && db.histories[h].playerId == p|
  {
    var mine := set h | h in s && db.histories[h].playerId == p;
    var restMine := set h | h in s - {x} && db.histories[h].playerId == p;
    if db.histories[x].playerId == p {
      assert mine == restMine + {x};
    } else {
      assert mine == restMine;
    }
  }

  /** `GetPlayerHistoryAsync`: the selected rows in match-id order, without
      the rows of players who have fewer than ten selected rows. */
  function PlayerHistory(db: Db, seasonId: Id, userId: Option<Id>): (r: seq<int>)
    ensures SortedBy(ByMatchId(db), r)
    ensures forall h :: h in r <==>
      Selected(db, seasonId, userId, h) && |RowsOfPlayer(db, seasonId, userId, db.histories[h].playerId)| >= RankedGames
  {
    var rows := SelectedRows(db, seasonId, userId);
    var listed := OrderBy(ByMatchId(db), rows);
    SortedIsDistinct(ByMatchId(db), listed);
    forall p | true
      ensures Occurrences(db, listed, p) == |RowsOfPlayer(db, seasonId, userId, p)|
    {
      OccurrencesCountRows(db, listed, rows, p);
      assert (set h | h in rows && db.histories[h].playerId == p) == RowsOfPlayer(db, seasonId, userId, p);
    }
    var keep := h => 0 <= h < |db.histories| && Occurrences(db, listed, db.histories[h].playerId) >= RankedGames;
    FilterSorted(ByMatchId(db), listed, keep);
    Filter(listed, keep)
  }
}
