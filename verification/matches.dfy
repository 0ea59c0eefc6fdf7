/** Match submission and the per-match rating update of the matches service:
    validation, the duplicate-submission check, winner flags, the prior
    rating of each player, the MMR delta rule, and `CalculateMMR`. The
    engine is an oracle: `None` stands for a failed call. */
module Matches {
  import opened Wrappers
  import opened Ordering
  import opened Entities
  import opened EngineApi
  import opened Users

  datatype MatchTeam = MatchTeam(member1: Id, member2: Id, score: int)

  /** A `SubmitMatchV2Request`. */
  datatype SubmitRequest = SubmitRequest(team1: MatchTeam, team2: MatchTeam)

  datatype MatchError =
    | PlayersNotUnique
    | MatchAlreadyExists
    | PlayersNotFound
    | EngineFailed
    | DuplicateResultId
    | NotLatestSeason

  /** The single-match engine call. */
  type Engine = CalcRequest -> Option<CalcResponse>

  const DuplicateWindow: int := 10 * TicksPerMinute

  function RequestMembers(req: SubmitRequest): set<Id> {
    {req.team1.member1, req.team1.member2, req.team2.member1, req.team2.member2}
  }

  predicate MembersUnique(req: SubmitRequest) {
    |RequestMembers(req)| == 4
  }

  /** Either member slot of `t` holds `p`. */
  predicate OnTeam(t: Team, p: Id) {
    t.playerOne == p || t.playerTwo == p
  }

  /** The stored match has the given two players on one side with one score
      and the other two on the other side with the other score, in either
      orientation; the query behind `CheckExistingMatch`. */
  predicate SameGame(m: Match, req: SubmitRequest) {
    var a := req.team1;
    var b := req.team2;
    || (OnTeam(m.teamOne, a.member1) && OnTeam(m.teamOne, a.member2) && m.teamOne.score == a.score
        && OnTeam(m.teamTwo, b.member1) && OnTeam(m.teamTwo, b.member2) && m.teamTwo.score == b.score)
    || (OnTeam(m.teamOne, b.member1) && OnTeam(m.teamOne, b.member2) && m.teamOne.score == b.score
        && OnTeam(m.teamTwo, a.member1) && OnTeam(m.teamTwo, a.member2) && m.teamTwo.score == a.score)
  }

  /** A live match created strictly after `now` minus ten minutes is the same game. */
  predicate IsRecentDuplicate(db: Db, id: int, req: SubmitRequest, now: Time) {
    LiveMatch(db, id) && db.matches[id].createdAt > now - DuplicateWindow && SameGame(db.matches[id], req)
  }

  /** `CheckExistingMatch`, computed by scanning the match table. */
  function CheckExistingMatch(db: Db, req: SubmitRequest, now: Time): (r: bool)
    ensures r <==> exists id :: IsRecentDuplicate(db, id, req, now)
  {
    ScanForDuplicate(db, req, now, 0)
  }

  function ScanForDuplicate(db: Db, req: SubmitRequest, now: Time, from: nat): (r: bool)
    requires from <= |db.matches|
    ensures r <==> exists id :: from <= id && IsRecentDuplicate(db, id, req, now)
    decreases |db.matches| - from
  {
    if from == |db.matches| then false
    else IsRecentDuplicate(db, from, req, now) || ScanForDuplicate(db, req, now, from + 1)
  }

  function TeamSet(t: Team): set<Id> {
    {t.playerOne, t.playerTwo}
  }

  predicate TeamsDistinct(m: Match) {
    |{m.teamOne.playerOne, m.teamOne.playerTwo, m.teamTwo.playerOne, m.teamTwo.playerTwo}| == 4
  }

  /** Four values make a four-element set only when they are pairwise distinct. */
  lemma FourDistinct(a: Id, b: Id, c: Id, d: Id)
    ensures |{a, b, c, d}| == 4 ==> a != b && a != c && a != d && b != c && b != d && c != d
  {
    if a == b || a == c || a == d || b == c || b == d || c == d {
      var s := {a, b, c, d};
      if a == b { assert s == {a, c, d}; }
      else if a == c { assert s == {a, b, d}; }
      else if a == d { assert s == {a, b, c}; }
      else if b == c { assert s == {a, b, d}; }
      else if b == d { assert s == {a, b, c}; }
      else { assert s == {a, b, c}; }
    }
  }

  /** For a request of four distinct players and a stored match of four
      distinct players, the member-by-member query is exactly "same two teams
      as sets with the same scores, in either orientation". */
  lemma SameGameIsSameTeams(m: Match, req: SubmitRequest)
    requires MembersUnique(req) && TeamsDistinct(m)
    ensures SameGame(m, req) <==>
      || (TeamSet(m.teamOne) == {req.team1.member1, req.team1.member2} && m.teamOne.score == req.team1.score
          && TeamSet(m.teamTwo) == {req.team2.member1, req.team2.member2} && m.teamTwo.score == req.team2.score)
      || (TeamSet(m.teamOne) == {req.team2.member1, req.team2.member2} && m.teamOne.score == req.team2.score
          && TeamSet(m.teamTwo) == {req.team1.member1, req.team1.member2} && m.teamTwo.score == req.team1.score)
  {
    FourDistinct(req.team1.member1, req.team1.member2, req.team2.member1, req.team2.member2);
    FourDistinct(m.teamOne.playerOne, m.teamOne.playerTwo, m.teamTwo.playerOne, m.teamTwo.playerTwo);
  }

  /** `CreateMatch`'s winner rule: strictly the higher score wins. */
  function NewMatch(seasonId: Id, req: SubmitRequest, now: Time): (m: Match)
    ensures Members(m) == [req.team1.member1, req.team1.member2, req.team2.member1, req.team2.member2]
    ensures m.teamOne.score == req.team1.score && m.teamTwo.score == req.team2.score
    ensures m.seasonId == Some(seasonId) && m.createdAt == now && m.deletedAt.None?
  {
    var s1, s2 := req.team1.score, req.team2.score;
    Match(Some(seasonId),
          Team(req.team1.member1, req.team1.member2, s1, s1 > s2),
          Team(req.team2.member1, req.team2.member2, s2, s2 > s1),
          now, None)
  }

  /** A tie has no winner; otherwise exactly one team wins, the one with the
      higher score. */
  lemma WinnerFlags(seasonId: Id, req: SubmitRequest, now: Time)
    ensures var m := NewMatch(seasonId, req, now);
      && (m.teamOne.winner <==> req.team1.score > req.team2.score)
      && (m.teamTwo.winner <==> req.team2.score > req.team1.score)
      && (req.team1.score == req.team2.score ==> !m.teamOne.winner && !m.teamTwo.winner)
      && (req.team1.score != req.team2.score ==> m.teamOne.winner != m.teamTwo.winner)
  {
  }

  /** What `PlayerRatingForUserAsync` returns: the latest history row, whether
      it belongs to the target season, and the rating sent to the engine. */
  datatype PlayerInfo = PlayerInfo(history: Option<PlayerHistory>, isCurrentSeason: bool, rating: PlayerRating)

  function PlayerRatingFor(db: Db, p: Id, seasonId: Id): (r: PlayerInfo)
    ensures r.rating.id == p
    ensures r.history.None? <==> LatestPlayerHistory(db, p).None?
    ensures r.history.Some? ==> r.history.value == db.histories[LatestPlayerHistory(db, p).value.row]
    ensures r.rating.isPreviousSeasonRating.None? <==> LatestPlayerHistory(db, p).None?
    ensures r.isCurrentSeason <==> LatestPlayerHistory(db, p).Some? && LatestPlayerHistory(db, p).value.seasonId == seasonId
    ensures r.rating.isPreviousSeasonRating.Some? ==> r.rating.isPreviousSeasonRating.value == !r.isCurrentSeason
    ensures r.history.Some? ==> r.rating.mu == Some(r.history.value.mu) && r.rating.sigma == Some(r.history.value.sigma)
    ensures r.history.None? ==> r.rating == PlayerRating(p, None, None, None)
  {
    match LatestPlayerHistory(db, p)
    case None => PlayerInfo(None, false, PlayerRating(p, None, None, None))
    case Some(l) =>
      var h := db.histories[l.row];
      var current := l.seasonId == seasonId;
      PlayerInfo(Some(h), current, PlayerRating(p, Some(h.mu), Some(h.sigma), Some(!current)))
  }

  /** `MMRDeltaForPlayer`: how much the player's MMR moved in this match. */
  function MmrDelta(p: Id, history: Option<PlayerHistory>, isCurrentSeason: bool,
                    results: map<Id, PlayerResult>): (r: Option<int>)
    ensures r.None? <==> p !in results
    ensures r.Some? && !isCurrentSeason ==> r.value == 0
    ensures r.Some? && (history.None? || history.value.mmr.None?) ==> r.value == 0
    ensures r.Some? && isCurrentSeason && history.Some? && history.value.mmr.Some? ==>
      history.value.mmr.value + r.value == results[p].mmr
  {
    if p !in results then None
    else if !isCurrentSeason then Some(0)
    else if history.Some? && history.value.mmr.Some? then Some(results[p].mmr - history.value.mmr.value)
    else Some(0)
  }

  /** The engine request for a stored match, built from the members' prior ratings. */
  function RequestFor(m: Match, ratings: seq<PlayerRating>): (req: CalcRequest)
    requires |ratings| == 4
    ensures req.team1.score == Some(m.teamOne.score) && req.team2.score == Some(m.teamTwo.score)
    ensures req.team1.players + req.team2.players == ratings
  {
    CalcRequest(CalcTeam(Some(m.teamOne.score), ratings[..2]), CalcTeam(Some(m.teamTwo.score), ratings[2..]))
  }

  /** The history rows a response produces for match `matchId`, one per
      returned player in response order. */
  function HistoryRows(results: seq<PlayerResult>, matchId: Id, now: Time): (rows: seq<PlayerHistory>)
    ensures |rows| == |results|
    ensures forall i :: 0 <= i < |rows| ==>
      rows[i] == PlayerHistory(results[i].id, matchId, Some(results[i].mmr), results[i].mu, results[i].sigma, now, None)
  {
    seq(|results|, i requires 0 <= i < |results| =>
      PlayerHistory(results[i].id, matchId, Some(results[i].mmr), results[i].mu, results[i].sigma, now, None))
  }

  /** The calculation row of a match from the seats' prior info and the results. */
  function CalculationRow(matchId: Id, infos: seq<(Id, Option<PlayerHistory>, bool)>,
                          results: map<Id, PlayerResult>, now: Time): (c: MmrCalculation)
    requires |infos| == 4
    ensures c.matchId == matchId && c.deletedAt.None?
    ensures c.teamOnePlayerOneDelta == MmrDelta(infos[0].0, infos[0].1, infos[0].2, results)
    ensures c.teamOnePlayerTwoDelta == MmrDelta(infos[1].0, infos[1].1, infos[1].2, results)
    ensures c.teamTwoPlayerOneDelta == MmrDelta(infos[2].0, infos[2].1, infos[2].2, results)
    ensures c.teamTwoPlayerTwoDelta == MmrDelta(infos[3].0, infos[3].1, infos[3].2, results)
  {
    MmrCalculation(matchId,
      MmrDelta(infos[0].0, infos[0].1, infos[0].2, results),
      MmrDelta(infos[1].0, infos[1].1, infos[1].2, results),
      MmrDelta(infos[2].0, infos[2].1, infos[2].2, results),
      MmrDelta(infos[3].0, infos[3].1, infos[3].2, results),
      now, None)
  }

  /** `CalculateMMR`: rate one stored match and record the new histories and
      the calculation row. It writes nothing when the engine fails or returns
      a player id twice. */
  function CalculateMmr(db: Db, seasonId: Id, matchId: Id, engine: Engine, now: Time): (r: Outcome<MatchError>)
    requires 0 <= matchId < |db.matches|
    ensures !r.Aborted?
    ensures r.Rejected? ==> r.error == EngineFailed || r.error == DuplicateResultId
    ensures r.Done? ==> exists resp ::
              && engine(MatchRequest(db, seasonId, matchId)) == Some(resp)
              && ResultsById(resp).Some?
              && r.db == RecordRating(db, seasonId, matchId, resp, ResultsById(resp).value, now)
    ensures r == Rejected(EngineFailed) <==> engine(MatchRequest(db, seasonId, matchId)).None?
  {
    match engine(MatchRequest(db, seasonId, matchId))
    case None => Rejected(EngineFailed)
    case Some(resp) =>
      match ResultsById(resp)
      case None => Rejected(DuplicateResultId)
      case Some(results) => Done(RecordRating(db, seasonId, matchId, resp, results, now))
  }

  /** The writes of a successful `CalculateMMR`: one history row per returned
      player and one calculation row; no other table changes. */
  function RecordRating(db: Db, seasonId: Id, matchId: Id, resp: CalcResponse,
                        results: map<Id, PlayerResult>, now: Time): (r: Db)
    requires 0 <= matchId < |db.matches|
    ensures r == db.(histories := r.histories, calculations := r.calculations)
    ensures r.histories == db.histories + HistoryRows(AllResults(resp), matchId, now)
    ensures r.calculations == db.calculations + [CalculationRow(matchId, SeatInfos(db, seasonId, matchId), results, now)]
  {
    db.(histories := db.histories + HistoryRows(AllResults(resp), matchId, now),
        calculations := db.calculations + [CalculationRow(matchId, SeatInfos(db, seasonId, matchId), results, now)])
  }

  /** Seat by seat: player id, latest history, whether it is from the season. */
  function SeatInfos(db: Db, seasonId: Id, matchId: Id): (infos: seq<(Id, Option<PlayerHistory>, bool)>)
    requires 0 <= matchId < |db.matches|
    ensures |infos| == 4
    ensures forall i :: 0 <= i < 4 ==> infos[i].0 == Members(db.matches[matchId])[i]
  {
    var ms := Members(db.matches[matchId]);
    seq(4, i requires 0 <= i < 4 =>
      var info := PlayerRatingFor(db, ms[i], seasonId); (ms[i], info.history, info.isCurrentSeason))
  }

  /** The engine request `CalculateMMR` sends. */
  function MatchRequest(db: Db, seasonId: Id, matchId: Id): (req: CalcRequest)
    requires 0 <= matchId < |db.matches|
    ensures |req.team1.players| == 2 && |req.team2.players| == 2
    ensures forall i :: 0 <= i < 4 ==>
      (req.team1.players + req.team2.players)[i] == PlayerRatingFor(db, Members(db.matches[matchId])[i], seasonId).rating
  {
    var ms := Members(db.matches[matchId]);
    RequestFor(db.matches[matchId], seq(4, i requires 0 <= i < 4 => PlayerRatingFor(db, ms[i], seasonId).rating))
  }

  /** `SubmitMatch`: three checks that throw before any write, then the match
      is saved and rated. A rating failure leaves the saved match behind. A
      deleted player is not found. */
  function SubmitMatch(db: Db, seasonId: Id, req: SubmitRequest, engine: Engine, now: Time): (r: Outcome<MatchError>)
    ensures r == Rejected(PlayersNotUnique) <==> !MembersUnique(req)
    ensures r == Rejected(MatchAlreadyExists) <==> MembersUnique(req) && CheckExistingMatch(db, req, now)
    ensures r == Rejected(PlayersNotFound) <==>
      MembersUnique(req) && !CheckExistingMatch(db, req, now) && !AllLive(db, RequestMembers(req))
    ensures r.Rejected? ==> r.error in {PlayersNotUnique, MatchAlreadyExists, PlayersNotFound}
    ensures !r.Rejected? ==> r.db.matches == db.matches + [NewMatch(seasonId, req, now)]
    ensures r.Aborted? ==> r.db == db.(matches := db.matches + [NewMatch(seasonId, req, now)])
    ensures r.Done? ==> r.db == db.(matches := r.db.matches, histories := r.db.histories, calculations := r.db.calculations)
    ensures !r.Rejected? ==>
      var saved := db.(matches := db.matches + [NewMatch(seasonId, req, now)]);
      var rated := CalculateMmr(saved, seasonId, |db.matches|, engine, now);
      && (r.Done? <==> rated.Done?)
      && (r.Done? ==> r.db == rated.db)
      && (r.Aborted? ==> r.error == rated.error)
    ensures !r.Rejected? ==>
      var saved := db.(matches := db.matches + [NewMatch(seasonId, req, now)]);
      var answer := engine(MatchRequest(saved, seasonId, |db.matches|));
      (r.Done? <==> answer.Some? && ResultsById(answer.value).Some?)
    ensures r.Done? ==>
      && |r.db.calculations| == |db.calculations| + 1
      && r.db.calculations[|db.calculations|].matchId == |db.matches|
      && r.db.calculations[..|db.calculations|] == db.calculations
      && |db.histories| <= |r.db.histories| && r.db.histories[..|db.histories|] == db.histories
      && forall i :: |db.histories| <= i < |r.db.histories| ==> r.db.histories[i].matchId == |db.matches|
  {
    if !MembersUnique(req) then Rejected(PlayersNotUnique)
    else if CheckExistingMatch(db, req, now) then Rejected(MatchAlreadyExists)
    else if !AllLive(db, RequestMembers(req)) then Rejected(PlayersNotFound)
    else
      var saved := db.(matches := db.matches + [NewMatch(seasonId, req, now)]);
      var rated := CalculateMmr(saved, seasonId, |db.matches|, engine, now);
      if rated.Rejected? then Aborted(saved, rated.error) else rated
  }

  /** A successful submission makes the same submission a duplicate for the
      next ten minutes. */
  lemma ResubmissionIsRejected(db: Db, seasonId: Id, req: SubmitRequest, engine: Engine, now: Time, later: Time)
    requires !SubmitMatch(db, seasonId, req, engine, now).Rejected?
    requires now <= later < now + DuplicateWindow
    ensures SubmitMatch(SubmitMatch(db, seasonId, req, engine, now).After(db), seasonId, req, engine, later)
      == Rejected(MatchAlreadyExists)
  {
    var db' := SubmitMatch(db, seasonId, req, engine, now).After(db);
    assert IsRecentDuplicate(db', |db.matches|, req, later);
  }
}
