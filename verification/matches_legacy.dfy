/** Season recalculation in the older matches service. Submission, the
    duplicate check, the winner rule, the delta rule and the per-match
    `CalculateMMR` are the same as in the current service and are reused
    from `Matches`; what differs is that recalculation rates the season's
    matches one at a time, each call reading the histories the previous one
    saved. */
module MatchesLegacy {
  import opened Wrappers
  import opened Ordering
  import opened Entities
  import opened EngineApi
  import opened Matches
  import opened RatingBatch

  /** A successful `CalculateMMR` appends to the two rating tables only, one
      calculation row for the match and history rows for that match. */
  lemma CalculateMmrExtends(db: Db, seasonId: Id, matchId: Id, engine: Engine, now: Time)
    requires 0 <= matchId < |db.matches|
    requires CalculateMmr(db, seasonId, matchId, engine, now).Done?
    ensures var d := CalculateMmr(db, seasonId, matchId, engine, now).db;
      && Extends(db, d) && AddsRowsOf(db, d, {matchId})
      && CalcMatchIds(d.calculations[|db.calculations|..]) == [matchId]
  {
    var resp := engine(MatchRequest(db, seasonId, matchId)).value;
    var results := ResultsById(resp).value;
    StepExtends(db, RecordRating(db, seasonId, matchId, resp, results, now), matchId,
                HistoryRows(AllResults(resp), matchId, now),
                CalculationRow(matchId, SeatInfos(db, seasonId, matchId), results, now));
  }

  /** The `foreach` calling `CalculateMMR` per match: each call saves before
      the next one reads, and an exception leaves the earlier matches saved. */
  function RateEach(db: Db, seasonId: Id, ids: seq<Id>, engine: Engine, now: Time): (r: Outcome<MatchError>)
    requires ValidIds(db, ids)
    ensures !r.Rejected?
    ensures Extends(db, r.db) && AddsRowsOf(db, r.db, IdSet(ids))
    decreases |ids|
  {
    if |ids| == 0 then
      ExtendsReflexive(db);
      Done(db)
    else
      match CalculateMmr(db, seasonId, ids[0], engine, now)
      case Rejected(e) =>
        ExtendsReflexive(db);
        Aborted(db, e)
      case Done(d) =>
        CalculateMmrExtends(db, seasonId, ids[0], engine, now);
        ValidIdsTail(db, d, ids);
        var rest := RateEach(d, seasonId, ids[1..], engine, now);
        ExtendsTransitive(db, d, rest.db, {ids[0]}, IdSet(ids[1..]));
        IdSetCons(ids);
        rest
  }

  /** When every match is rated, there is one new calculation row per match,
      in the order the matches were read. */
  lemma {:induction false} RateEachWritesInOrder(db: Db, seasonId: Id, ids: seq<Id>, engine: Engine, now: Time)
    requires ValidIds(db, ids)
    ensures RateEach(db, seasonId, ids, engine, now).Done? ==>
      CalcMatchIds(RateEach(db, seasonId, ids, engine, now).db.calculations[|db.calculations|..]) == ids
    decreases |ids|
  {
    if |ids| == 0 {
      assert db.calculations[|db.calculations|..] == [];
    } else if RateEach(db, seasonId, ids, engine, now).Done? {
      var d := CalculateMmr(db, seasonId, ids[0], engine, now).db;
      CalculateMmrExtends(db, seasonId, ids[0], engine, now);
      ValidIdsTail(db, d, ids);
      RateEachWritesInOrder(d, seasonId, ids[1..], engine, now);
      var rest := RateEach(d, seasonId, ids[1..], engine, now);
      PrependOrder(db.calculations, d.calculations, rest.db.calculations, ids);
    }
  }

  /** Rating one match at a time is rating a batch of one at a time: the
      second call of a two-match season sees the first call's rows, exactly
      like the second batch does. */
  lemma RateEachFirstStep(db: Db, seasonId: Id, ids: seq<Id>, engine: Engine, now: Time)
    requires ValidIds(db, ids) && |ids| > 0
    requires CalculateMmr(db, seasonId, ids[0], engine, now).Done?
    ensures var d := CalculateMmr(db, seasonId, ids[0], engine, now).db;
      d.matches == db.matches && RateEach(db, seasonId, ids, engine, now) == RateEach(d, seasonId, ids[1..], engine, now)
  {
  }

  /** The older `RecalculateMMRForMatchesInSeason`: the same guard and
      clearing as the current one, then `CalculateMMR` per match. */
  function RecalculateLegacy(db: Db, seasonId: Id, from: Option<Id>, engine: Engine, now: Time): (r: Outcome<MatchError>)
    ensures r.Rejected? <==> LatestSeasonId(db) != Some(seasonId)
    ensures r.Rejected? ==> r.error == NotLatestSeason
    ensures !r.Rejected? ==> Extends(ClearMmrCalculations(db, seasonId, from, now), r.db)
    ensures !r.Rejected? ==> forall i :: |db.calculations| <= i < |r.db.calculations| ==>
      r.db.calculations[i].deletedAt.None? && InScope(db, r.db.calculations[i].matchId, seasonId, from)
    ensures r.Done? ==> CalcMatchIds(r.db.calculations[|db.calculations|..]) == SeasonMatches(db, seasonId, from)
  {
    if LatestSeasonId(db) != Some(seasonId) then Rejected(NotLatestSeason)
    else
      var cleared := ClearMmrCalculations(db, seasonId, from, now);
      ClearKeepsScope(db, seasonId, from, now);
      var ids := SeasonMatches(db, seasonId, from);
      var r := RateEach(cleared, seasonId, ids, engine, now);
      RateEachWritesInOrder(cleared, seasonId, ids, engine, now);
      assert forall x :: x in IdSet(ids) ==> InScope(db, x, seasonId, from);
      r
  }

  /** Clearing touches no match, so the matches in scope are the same before
      and after it. */
  lemma ClearKeepsScope(db: Db, seasonId: Id, from: Option<Id>, now: Time)
    ensures SeasonMatches(ClearMmrCalculations(db, seasonId, from, now), seasonId, from) == SeasonMatches(db, seasonId, from)
  {
    var cleared := ClearMmrCalculations(db, seasonId, from, now);
    assert cleared.matches == db.matches;
    ScopeIdsSameMatches(db, cleared, seasonId, from, |db.matches|);
  }

  /** Both versions clear exactly the same rows before re-rating. */
  lemma VersionsClearAlike(db: Db, seasonId: Id, from: Option<Id>, batch: BatchEngine, single: Engine, now: Time)
    requires LatestSeasonId(db) == Some(seasonId)
    ensures var a := Recalculate(db, seasonId, from, batch, now).db;
      var b := RecalculateLegacy(db, seasonId, from, single, now).db;
      a.histories[..|db.histories|] == b.histories[..|db.histories|]
      && a.calculations[..|db.calculations|] == b.calculations[..|db.calculations|]
  {
  }
}
