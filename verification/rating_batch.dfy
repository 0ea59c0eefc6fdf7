/** Season recalculation in the current matches service: clear the season's
    ratings from some match on, then re-rate its matches in batches of 200,
    one engine call per batch.

    Within a batch every request is built from the ratings stored before the
    batch, while the deltas written for a later match of the batch are taken
    against the histories produced earlier in the same batch. */
module RatingBatch {
  import opened Wrappers
  import opened Ordering
  import opened Entities
  import opened EngineApi
  import opened Users
  import opened Matches

  /** The batch engine call: one response per request, in order; `None`
      stands for a failed call. */
  type BatchEngine = seq<CalcRequest> -> Option<seq<CalcResponse>>

  const BatchSize: nat := 200

  predicate ValidIds(db: Db, ids: seq<Id>) {
    forall i :: 0 <= i < |ids| ==> 0 <= ids[i] < |db.matches|
  }

  /** `UserIdsForMatches`: every member of every match of the batch. */
  function BatchUsers(db: Db, ids: seq<Id>): (users: set<Id>)
    requires ValidIds(db, ids)
    ensures forall p :: p in users <==> exists i, k :: 0 <= i < |ids| && 0 <= k < 4 && Members(db.matches[ids[i]])[k] == p
  {
    set i, k | 0 <= i < |ids| && 0 <= k < 4 :: Members(db.matches[ids[i]])[k]
  }

  /** An entry of `PlayerRatingsForUsersAsync`: the latest history, whether it
      is from the season being rated, and the rating sent to the engine. */
  datatype Known = Known(history: PlayerHistory, isCurrentSeason: bool, rating: PlayerRating)

  /** `PlayerRatingsForUsersAsync`: the players of `users` that have a latest
      history with a season; a present entry always says whether that
      rating is from a previous season. */
  function BatchRatings(db: Db, users: set<Id>, seasonId: Id): (ratings: map<Id, Known>)
    ensures forall p :: p in ratings <==> p in users && LatestPlayerHistory(db, p).Some?
    ensures forall p :: p in ratings ==>
      && ratings[p].history == db.histories[LatestPlayerHistory(db, p).value.row]
      && (ratings[p].isCurrentSeason <==> LatestPlayerHistory(db, p).value.seasonId == seasonId)
      && ratings[p].rating == PlayerRating(p, Some(ratings[p].history.mu), Some(ratings[p].history.sigma),
                                           Some(!ratings[p].isCurrentSeason))
  {
    map p | p in users && LatestPlayerHistory(db, p).Some? ::
      var l := LatestPlayerHistory(db, p).value;
      var h := db.histories[l.row];
      Known(h, l.seasonId == seasonId, PlayerRating(p, Some(h.mu), Some(h.sigma), Some(l.seasonId != seasonId)))
  }

  /** `RatingForPlayer`: the known rating, or a rating with only the id. */
  function RatingForPlayer(ratings: map<Id, Known>, p: Id): (r: PlayerRating)
    ensures r.id == p || p in ratings
    ensures p !in ratings ==> r == PlayerRating(p, None, None, None)
  {
    if p in ratings then ratings[p].rating else PlayerRating(p, None, None, None)
  }

  /** The batch path sends the same rating for a player as the single-match
      path: a player without history gets the id-only rating in both, and a
      player with history gets its mu, sigma and previous-season flag. */
  lemma BatchRatingIsSingleRating(db: Db, users: set<Id>, seasonId: Id, p: Id)
    requires p in users
    ensures RatingForPlayer(BatchRatings(db, users, seasonId), p) == PlayerRatingFor(db, p, seasonId).rating
  {
  }

  /** `CalculationRequestsForMatches`: one request per match, all built from
      the ratings as they were before the batch. */
  function BatchRequests(db: Db, ids: seq<Id>, ratings: map<Id, Known>): (reqs: seq<CalcRequest>)
    requires ValidIds(db, ids)
    ensures |reqs| == |ids|
    ensures forall i :: 0 <= i < |ids| ==>
      reqs[i] == RequestFor(db.matches[ids[i]],
                            seq(4, k requires 0 <= k < 4 => RatingForPlayer(ratings, Members(db.matches[ids[i]])[k])))
  {
    seq(|ids|, i requires 0 <= i < |ids| =>
      RequestFor(db.matches[ids[i]],
                 seq(4, k requires 0 <= k < 4 => RatingForPlayer(ratings, Members(db.matches[ids[i]])[k]))))
  }

  /** The first match of a batch is asked for with exactly the request the
      single-match path would send. */
  lemma FirstRequestIsMatchRequest(db: Db, seasonId: Id, ids: seq<Id>)
    requires ValidIds(db, ids) && |ids| > 0
    ensures BatchRequests(db, ids, BatchRatings(db, BatchUsers(db, ids), seasonId))[0]
         == MatchRequest(db, seasonId, ids[0])
  {
    var users := BatchUsers(db, ids);
    var ms := Members(db.matches[ids[0]]);
    forall k | 0 <= k < 4
      ensures RatingForPlayer(BatchRatings(db, users, seasonId), ms[k]) == PlayerRatingFor(db, ms[k], seasonId).rating
    {
      assert ms[k] in users;
      BatchRatingIsSingleRating(db, users, seasonId, ms[k]);
    }
    var batchSeats := seq(4, k requires 0 <= k < 4 => RatingForPlayer(BatchRatings(db, users, seasonId), ms[k]));
    var singleSeats := seq(4, k requires 0 <= k < 4 => PlayerRatingFor(db, ms[k], seasonId).rating);
    assert batchSeats == singleSeats;
  }

  /** A seat's prior rating as `PlayerInfoForId` sees it during the batch. */
  datatype Seat = Seat(history: Option<PlayerHistory>, isCurrentSeason: bool)

  /** `latestPlayerHistoryMap` before the first match: the known ratings. */
  function InitialSeats(ratings: map<Id, Known>): (seats: map<Id, Seat>)
    ensures seats.Keys == ratings.Keys
    ensures forall p :: p in seats ==> seats[p] == Seat(Some(ratings[p].history), ratings[p].isCurrentSeason)
  {
    map p | p in ratings :: Seat(Some(ratings[p].history), ratings[p].isCurrentSeason)
  }

  /** `PlayerInfoForId`: a player missing from the map counts as having no
      history in the current season. */
  function SeatFor(seats: map<Id, Seat>, p: Id): (s: Seat)
    ensures p !in seats ==> s == Seat(None, true)
    ensures p in seats ==> s == seats[p]
  {
    if p in seats then seats[p] else Seat(None, true)
  }

  function SeatInfosFrom(seats: map<Id, Seat>, m: Match): (infos: seq<(Id, Option<PlayerHistory>, bool)>)
    ensures |infos| == 4
    ensures forall k :: 0 <= k < 4 ==>
      infos[k] == (Members(m)[k], SeatFor(seats, Members(m)[k]).history, SeatFor(seats, Members(m)[k]).isCurrentSeason)
  {
    seq(4, k requires 0 <= k < 4 =>
      (Members(m)[k], SeatFor(seats, Members(m)[k]).history, SeatFor(seats, Members(m)[k]).isCurrentSeason))
  }

  /** The defaults differ (the batch treats a missing player as current
      season, the single path as not), but a player without history gets a
      zero delta either way, so the first match of a batch gets exactly the
      calculation row the single-match path writes. */
  lemma FirstSeatsAgree(db: Db, seasonId: Id, ids: seq<Id>, results: map<Id, PlayerResult>, now: Time)
    requires ValidIds(db, ids) && |ids| > 0
    ensures var seats := InitialSeats(BatchRatings(db, BatchUsers(db, ids), seasonId));
      CalculationRow(ids[0], SeatInfosFrom(seats, db.matches[ids[0]]), results, now)
      == CalculationRow(ids[0], SeatInfos(db, seasonId, ids[0]), results, now)
  {
    var users := BatchUsers(db, ids);
    var seats := InitialSeats(BatchRatings(db, users, seasonId));
    var batch := SeatInfosFrom(seats, db.matches[ids[0]]);
    var single := SeatInfos(db, seasonId, ids[0]);
    forall k | 0 <= k < 4
      ensures MmrDelta(batch[k].0, batch[k].1, batch[k].2, results) == MmrDelta(single[k].0, single[k].1, single[k].2, results)
    {
      assert Members(db.matches[ids[0]])[k] in users;
    }
  }

  /** `d` is `db` with rows appended to the two rating tables and nothing
      else changed. */
  predicate Extends(db: Db, d: Db) {
    && d == db.(histories := d.histories, calculations := d.calculations)
    && |db.histories| <= |d.histories| && d.histories[..|db.histories|] == db.histories
    && |db.calculations| <= |d.calculations| && d.calculations[..|db.calculations|] == db.calculations
  }

  /** Every rating row `d` adds over `db` is live and belongs to a match of `ids`. */
  predicate AddsRowsOf(db: Db, d: Db, ids: set<Id>)
    requires Extends(db, d)
  {
    && (forall i :: |db.histories| <= i < |d.histories| ==> d.histories[i].deletedAt.None? && d.histories[i].matchId in ids)
    && (forall i :: |db.calculations| <= i < |d.calculations| ==> d.calculations[i].deletedAt.None? && d.calculations[i].matchId in ids)
  }

  lemma ExtendsTransitive(a: Db, b: Db, c: Db, ids: set<Id>, more: set<Id>)
    requires Extends(a, b) && Extends(b, c)
    requires AddsRowsOf(a, b, ids) && AddsRowsOf(b, c, more)
    ensures Extends(a, c) && AddsRowsOf(a, c, ids + more)
  {
    assert c.histories[..|a.histories|] == c.histories[..|b.histories|][..|a.histories|];
    assert c.calculations[..|a.calculations|] == c.calculations[..|b.calculations|][..|a.calculations|];
    forall i | |a.histories| <= i < |b.histories|
      ensures c.histories[i] == b.histories[i]
    {
      assert c.histories[..|b.histories|][i] == c.histories[i];
    }
    forall i | |a.calculations| <= i < |b.calculations|
      ensures c.calculations[i] == b.calculations[i]
    {
      assert c.calculations[..|b.calculations|][i] == c.calculations[i];
    }
  }

  /** The match ids of a run of calculation rows, in row order. */
  function CalcMatchIds(cs: seq<MmrCalculation>): (ids: seq<Id>)
    ensures |ids| == |cs|
    ensures forall i :: 0 <= i < |cs| ==> ids[i] == cs[i].matchId
  {
    seq(|cs|, i requires 0 <= i < |cs| => cs[i].matchId)
  }

  /** The rows written for one match, followed by those for the rest, are
      in the order of the match ids. */
  lemma PrependOrder(base: seq<MmrCalculation>, mid: seq<MmrCalculation>, all: seq<MmrCalculation>, ids: seq<Id>)
    requires |ids| > 0
    requires |base| <= |mid| <= |all| && all[..|mid|] == mid
    requires CalcMatchIds(mid[|base|..]) == [ids[0]]
    requires CalcMatchIds(all[|mid|..]) == ids[1..]
    ensures CalcMatchIds(all[|base|..]) == ids
  {
    assert all[|base|..] == mid[|base|..] + all[|mid|..];
    assert CalcMatchIds(all[|base|..]) == CalcMatchIds(mid[|base|..]) + CalcMatchIds(all[|mid|..]);
    assert ids == [ids[0]] + ids[1..];
  }

  /** The update of `latestPlayerHistoryMap` after one match: every
      returned player's entry becomes the new history row, counted as
      current season; everyone else keeps theirs. */
  function UpdateSeats(seats: map<Id, Seat>, matchId: Id, results: map<Id, PlayerResult>, now: Time): (r: map<Id, Seat>)
    ensures r.Keys == seats.Keys + results.Keys
    ensures forall p :: p in results ==>
      r[p] == Seat(Some(PlayerHistory(p, matchId, Some(results[p].mmr), results[p].mu, results[p].sigma, now, None)), true)
    ensures forall p :: p in seats && p !in results ==> r[p] == seats[p]
  {
    map p | p in seats.Keys + results.Keys ::
      if p in results then Seat(Some(PlayerHistory(p, matchId, Some(results[p].mmr), results[p].mu, results[p].sigma, now, None)), true)
      else seats[p]
  }

  /** Every response has distinct player ids. */
  predicate AllDistinct(resps: seq<CalcResponse>)
    decreases |resps|
  {
    |resps| == 0 || (ResultsById(resps[0]).Some? && AllDistinct(resps[1..]))
  }

  /** The loop over the responses. It fails as soon as a response repeats a
      player id; since the batch saves only after the loop, a failure writes
      nothing of the batch. */
  function Replay(db: Db, ids: seq<Id>, resps: seq<CalcResponse>, seats: map<Id, Seat>, now: Time): (r: Result<Db, MatchError>)
    requires ValidIds(db, ids) && |ids| == |resps|
    ensures r.Ok? <==> AllDistinct(resps)
    ensures r.Err? ==> r.error == DuplicateResultId
    ensures r.Ok? ==> Extends(db, r.value) && AddsRowsOf(db, r.value, IdSet(ids))
    ensures r.Ok? ==> CalcMatchIds(r.value.calculations[|db.calculations|..]) == ids
    decreases |ids|
  {
    if |ids| == 0 then
      ExtendsReflexive(db);
      Ok(db)
    else
      match ResultsById(resps[0])
      case None => Err(DuplicateResultId)
      case Some(results) =>
        var rows := HistoryRows(AllResults(resps[0]), ids[0], now);
        var row := CalculationRow(ids[0], SeatInfosFrom(seats, db.matches[ids[0]]), results, now);
        var db' := db.(histories := db.histories + rows, calculations := db.calculations + [row]);
        ValidIdsTail(db, db', ids);
        var rest := Replay(db', ids[1..], resps[1..], UpdateSeats(seats, ids[0], results, now), now);
        if rest.Err? then rest
        else
          StepThenRest(db, db', rest.value, ids, rows, row);
          rest
  }

  function IdSet(ids: seq<Id>): (s: set<Id>)
    ensures forall x :: x in s <==> x in ids
  {
    set k | 0 <= k < |ids| :: ids[k]
  }

  lemma IdSetCons(ids: seq<Id>)
    requires |ids| > 0
    ensures IdSet(ids) == {ids[0]} + IdSet(ids[1..])
  {
    assert ids == [ids[0]] + ids[1..];
  }

  lemma ValidIdsTail(db: Db, d: Db, ids: seq<Id>)
    requires |ids| > 0 && d.matches == db.matches && ValidIds(db, ids)
    ensures ValidIds(d, ids[1..])
  {
    forall k | 0 <= k < |ids[1..]| ensures 0 <= ids[1..][k] < |d.matches| {
      assert ids[1..][k] == ids[k + 1];
    }
  }

  /** One step writes one calculation row and some history rows, all for
      its match. */
  lemma StepExtends(db: Db, d: Db, matchId: Id, rows: seq<PlayerHistory>, c: MmrCalculation)
    requires d == db.(histories := db.histories + rows, calculations := db.calculations + [c])
    requires forall i :: 0 <= i < |rows| ==> rows[i].matchId == matchId && rows[i].deletedAt.None?
    requires c.matchId == matchId && c.deletedAt.None?
    ensures Extends(db, d) && AddsRowsOf(db, d, {matchId})
    ensures CalcMatchIds(d.calculations[|db.calculations|..]) == [matchId]
  {
    assert d.histories[..|db.histories|] == db.histories;
    assert d.calculations[..|db.calculations|] == db.calculations;
    assert forall i :: |db.histories| <= i < |d.histories| ==> d.histories[i] == rows[i - |db.histories|];
    assert d.calculations[|db.calculations|..] == [c];
  }

  /** One step followed by the rest of the batch. */
  lemma StepThenRest(db: Db, db': Db, d: Db, ids: seq<Id>, rows: seq<PlayerHistory>, c: MmrCalculation)
    requires |ids| > 0
    requires db' == db.(histories := db.histories + rows, calculations := db.calculations + [c])
    requires forall i :: 0 <= i < |rows| ==> rows[i].matchId == ids[0] && rows[i].deletedAt.None?
    requires c.matchId == ids[0] && c.deletedAt.None?
    requires Extends(db', d) && AddsRowsOf(db', d, IdSet(ids[1..]))
    requires CalcMatchIds(d.calculations[|db'.calculations|..]) == ids[1..]
    ensures Extends(db, d) && AddsRowsOf(db, d, IdSet(ids))
    ensures CalcMatchIds(d.calculations[|db.calculations|..]) == ids
  {
    StepExtends(db, db', ids[0], rows, c);
    ExtendsTransitive(db, db', d, {ids[0]}, IdSet(ids[1..]));
    IdSetCons(ids);
    PrependOrder(db.calculations, db'.calculations, d.calculations, ids);
  }

  /** `CalculateMMROfBatch`: one engine call for the whole batch, then the
      loop, then one save. An empty batch and a response list of the wrong
      length return without writing; a failed call or a repeated player id
      throws before the save. */
  function CalculateMmrOfBatch(db: Db, seasonId: Id, ids: seq<Id>, engine: BatchEngine, now: Time): (r: Outcome<MatchError>)
    requires ValidIds(db, ids)
    ensures !r.Aborted?
    ensures |ids| == 0 ==> r == Done(db)
    ensures |ids| > 0 ==>
      (r == Rejected(EngineFailed) <==> engine(BatchRequests(db, ids, BatchRatings(db, BatchUsers(db, ids), seasonId))).None?)
    ensures var out := engine(BatchRequests(db, ids, BatchRatings(db, BatchUsers(db, ids), seasonId)));
      |ids| > 0 && out.Some? && |out.value| != |ids| ==> r == Done(db)
    ensures r.Rejected? ==> r.error == EngineFailed || r.error == DuplicateResultId
    ensures r.Done? ==> Extends(db, r.db) && AddsRowsOf(db, r.db, IdSet(ids))
    ensures r.Done? ==> r.db == db || CalcMatchIds(r.db.calculations[|db.calculations|..]) == ids
  {
    var ratings := BatchRatings(db, BatchUsers(db, ids), seasonId);
    var requests := BatchRequests(db, ids, ratings);
    if |requests| == 0 then
      ExtendsReflexive(db);
      Done(db)
    else
      match engine(requests)
      case None => Rejected(EngineFailed)
      case Some(resps) =>
        if |resps| != |requests| then
          ExtendsReflexive(db);
          Done(db)
        else
          match Replay(db, ids, resps, InitialSeats(ratings), now)
          case Err(e) => Rejected(e)
          case Ok(d) => Done(d)
  }

  lemma ExtendsReflexive(db: Db)
    ensures Extends(db, db) && AddsRowsOf(db, db, {})
  {
  }

  /** A batch of one match whose engine answers like the single-match engine
      writes exactly what `CalculateMMR` writes. */
  lemma BatchOfOneIsSingle(db: Db, seasonId: Id, matchId: Id, batch: BatchEngine, single: Engine, now: Time)
    requires 0 <= matchId < |db.matches|
    requires single(MatchRequest(db, seasonId, matchId)).None? ==>
      batch([MatchRequest(db, seasonId, matchId)]).None?
    requires single(MatchRequest(db, seasonId, matchId)).Some? ==>
      batch([MatchRequest(db, seasonId, matchId)]) == Some([single(MatchRequest(db, seasonId, matchId)).value])
    ensures CalculateMmrOfBatch(db, seasonId, [matchId], batch, now) == CalculateMmr(db, seasonId, matchId, single, now)
  {
    var ids := [matchId];
    var ratings := BatchRatings(db, BatchUsers(db, ids), seasonId);
    FirstRequestIsMatchRequest(db, seasonId, ids);
    assert BatchRequests(db, ids, ratings) == [MatchRequest(db, seasonId, matchId)];
    match single(MatchRequest(db, seasonId, matchId))
    case None =>
    case Some(resp) =>
      var seats := InitialSeats(ratings);
      match ResultsById(resp)
      case None =>
        assert Replay(db, ids, [resp], seats, now) == Err(DuplicateResultId);
      case Some(results) =>
        FirstSeatsAgree(db, seasonId, ids, results, now);
        var d := RecordRating(db, seasonId, matchId, resp, results, now);
        assert Replay(d, [], [], UpdateSeats(seats, matchId, results, now), now) == Ok(d);
        assert Replay(db, ids, [resp], seats, now) == Ok(d);
  }

  /** The matches of a season from `from` on, whose ratings recalculation
      replaces; only live rows are ever seen. */
  predicate InScope(db: Db, matchId: Id, seasonId: Id, from: Option<Id>) {
    LiveMatch(db, matchId) && db.matches[matchId].seasonId == Some(seasonId)
    && (from.None? || matchId >= from.value)
  }

  /** `ClearMMRCalculations`: soft-delete every live history and calculation
      row of a match in scope. */
  function ClearMmrCalculations(db: Db, seasonId: Id, from: Option<Id>, now: Time): (r: Db)
    ensures r == db.(histories := r.histories, calculations := r.calculations)
    ensures |r.histories| == |db.histories| && |r.calculations| == |db.calculations|
    ensures forall i :: 0 <= i < |db.histories| ==>
      r.histories[i] == if LiveHistory(db, i) && InScope(db, db.histories[i].matchId, seasonId, from)
                        then db.histories[i].(deletedAt := Some(now)) else db.histories[i]
    ensures forall i :: 0 <= i < |db.calculations| ==>
      r.calculations[i] == if LiveCalculation(db, i) && InScope(db, db.calculations[i].matchId, seasonId, from)
                           then db.calculations[i].(deletedAt := Some(now)) else db.calculations[i]
  {
    db.(histories := seq(|db.histories|, i requires 0 <= i < |db.histories| =>
          if LiveHistory(db, i) && InScope(db, db.histories[i].matchId, seasonId, from)
          then db.histories[i].(deletedAt := Some(now)) else db.histories[i]),
        calculations := seq(|db.calculations|, i requires 0 <= i < |db.calculations| =>
          if LiveCalculation(db, i) && InScope(db, db.calculations[i].matchId, seasonId, from)
          then db.calculations[i].(deletedAt := Some(now)) else db.calculations[i]))
  }

  /** After clearing no live rating row of a match in scope is left, and the
      rows of the other matches are as they were. */
  lemma ClearLeavesNoRatingsInScope(db: Db, seasonId: Id, from: Option<Id>, now: Time)
    ensures var c := ClearMmrCalculations(db, seasonId, from, now);
      && (forall i :: LiveHistory(c, i) ==> !InScope(c, c.histories[i].matchId, seasonId, from))
      && (forall i :: LiveCalculation(c, i) ==> !InScope(c, c.calculations[i].matchId, seasonId, from))
      && (forall i :: LiveHistory(db, i) && !InScope(db, db.histories[i].matchId, seasonId, from) ==> LiveHistory(c, i))
  {
  }

  /** The season's matches in scope among the first `n`, in id order (the
      order of the primary key, which the query reads without an ORDER BY). */
  function ScopeIds(db: Db, seasonId: Id, from: Option<Id>, n: nat): (ids: seq<Id>)
    requires n <= |db.matches|
    ensures forall id :: id in ids <==> 0 <= id < n && InScope(db, id, seasonId, from)
    ensures forall i, j :: 0 <= i < j < |ids| ==> ids[i] < ids[j]
    ensures ValidIds(db, ids)
    decreases n
  {
    if n == 0 then []
    else
      var prefix := ScopeIds(db, seasonId, from, n - 1);
      assert forall i :: 0 <= i < |prefix| ==> prefix[i] in prefix;
      if InScope(db, n - 1, seasonId, from) then prefix + [n - 1] else prefix
  }

  function SeasonMatches(db: Db, seasonId: Id, from: Option<Id>): seq<Id> {
    ScopeIds(db, seasonId, from, |db.matches|)
  }

  function Flatten(chunks: seq<seq<Id>>): seq<Id>
    decreases |chunks|
  {
    if |chunks| == 0 then [] else chunks[0] + Flatten(chunks[1..])
  }

  /** `Chunk(n)`: consecutive pieces of `n`, the last one possibly shorter;
      concatenated they give back the input. */
  function Chunk(s: seq<Id>, n: nat): (chunks: seq<seq<Id>>)
    requires n > 0
    ensures Flatten(chunks) == s
    ensures forall i :: 0 <= i < |chunks| ==> 0 < |chunks[i]| <= n
    ensures forall i :: 0 <= i < |chunks| - 1 ==> |chunks[i]| == n
    decreases |s|
  {
    if |s| == 0 then []
    else if |s| <= n then
      assert Flatten([s]) == s + Flatten([]);
      [s]
    else
      var rest := Chunk(s[n..], n);
      assert ([s[..n]] + rest)[1..] == rest;
      [s[..n]] + rest
  }

  /** Every id of a chunk is an id of the flattened sequence. */
  lemma {:induction false} FlattenHolds(chunks: seq<seq<Id>>, i: nat, j: nat)
    requires i < |chunks| && j < |chunks[i]|
    ensures chunks[i][j] in Flatten(chunks)
    decreases i
  {
    if i == 0 {
      assert Flatten(chunks) == chunks[0] + Flatten(chunks[1..]);
      assert Flatten(chunks)[j] == chunks[0][j];
    } else {
      FlattenHolds(chunks[1..], i - 1, j);
      assert chunks[1..][i - 1] == chunks[i];
    }
  }

  /** Every id of every chunk. */
  function AllIds(chunks: seq<seq<Id>>): (ids: set<Id>)
    ensures forall x :: x in ids <==> exists b, k :: 0 <= b < |chunks| && 0 <= k < |chunks[b]| && chunks[b][k] == x
  {
    set b, k | 0 <= b < |chunks| && 0 <= k < |chunks[b]| :: chunks[b][k]
  }

  lemma AllIdsSplit(chunks: seq<seq<Id>>)
    requires |chunks| > 0
    ensures AllIds(chunks) == IdSet(chunks[0]) + AllIds(chunks[1..])
  {
    forall x | x in AllIds(chunks)
      ensures x in IdSet(chunks[0]) + AllIds(chunks[1..])
    {
      var b, k :| 0 <= b < |chunks| && 0 <= k < |chunks[b]| && chunks[b][k] == x;
      if b > 0 {
        assert chunks[1..][b - 1][k] == x;
      }
    }
    forall x | x in IdSet(chunks[0]) + AllIds(chunks[1..])
      ensures x in AllIds(chunks)
    {
      if x in IdSet(chunks[0]) {
        var k :| 0 <= k < |chunks[0]| && chunks[0][k] == x;
      } else {
        var b, k :| 0 <= b < |chunks[1..]| && 0 <= k < |chunks[1..][b]| && chunks[1..][b][k] == x;
        assert chunks[b + 1][k] == x;
      }
    }
  }

  /** The latest season by id among the live ones. */
  function LatestSeasonId(db: Db): (r: Option<Id>)
    ensures r.None? <==> forall id :: !LiveSeason(db, id)
    ensures r.Some? ==> LiveSeason(db, r.value) && forall id :: LiveSeason(db, id) ==> id <= r.value
  {
    var live := set id | id in db.seasons && LiveSeason(db, id);
    assert forall id :: LiveSeason(db, id) ==> id in live;
    if live == {} then None else Some(Greatest(live))
  }

  /** The `foreach` over the batches; an exception in a batch leaves the
      batches before it saved. */
  function RunBatches(db: Db, seasonId: Id, batches: seq<seq<Id>>, engine: BatchEngine, now: Time): (r: Outcome<MatchError>)
    requires forall i :: 0 <= i < |batches| ==> ValidIds(db, batches[i])
    ensures !r.Rejected?
    ensures Extends(db, r.db) && AddsRowsOf(db, r.db, AllIds(batches))
    decreases |batches|
  {
    if |batches| == 0 then
      ExtendsReflexive(db);
      Done(db)
    else
      match CalculateMmrOfBatch(db, seasonId, batches[0], engine, now)
      case Rejected(e) =>
        ExtendsReflexive(db);
        Aborted(db, e)
      case Done(d) =>
        ValidTail(db, d, batches);
        var rest := RunBatches(d, seasonId, batches[1..], engine, now);
        AllIdsSplit(batches);
        ExtendsTransitive(db, d, rest.db, IdSet(batches[0]), AllIds(batches[1..]));
        rest
  }

  lemma ValidTail(db: Db, d: Db, batches: seq<seq<Id>>)
    requires |batches| > 0 && d.matches == db.matches
    requires forall i :: 0 <= i < |batches| ==> ValidIds(db, batches[i])
    ensures forall i :: 0 <= i < |batches[1..]| ==> ValidIds(d, batches[1..][i])
  {
    forall i | 0 <= i < |batches[1..]| ensures ValidIds(d, batches[1..][i]) {
      assert batches[1..][i] == batches[i + 1];
    }
  }

  /** `RecalculateMMRForMatchesInSeason`: only the latest season may be
      recalculated; its ratings from `from` on are cleared and saved, then
      its matches in scope are re-rated in batches of 200. */
  function Recalculate(db: Db, seasonId: Id, from: Option<Id>, engine: BatchEngine, now: Time): (r: Outcome<MatchError>)
    ensures r.Rejected? <==> LatestSeasonId(db) != Some(seasonId)
    ensures r.Rejected? ==> r.error == NotLatestSeason
    ensures !r.Rejected? ==> Extends(ClearMmrCalculations(db, seasonId, from, now), r.db)
    ensures !r.Rejected? ==> forall i :: |db.histories| <= i < |r.db.histories| ==>
      r.db.histories[i].deletedAt.None? && InScope(db, r.db.histories[i].matchId, seasonId, from)
    ensures !r.Rejected? ==> forall i :: |db.calculations| <= i < |r.db.calculations| ==>
      r.db.calculations[i].deletedAt.None? && InScope(db, r.db.calculations[i].matchId, seasonId, from)
  {
    if LatestSeasonId(db) != Some(seasonId) then Rejected(NotLatestSeason)
    else
      var cleared := ClearMmrCalculations(db, seasonId, from, now);
      var ids := SeasonMatches(cleared, seasonId, from);
      var batches := Chunk(ids, BatchSize);
      ChunksValid(cleared, ids, batches);
      forall x | x in AllIds(batches)
        ensures InScope(db, x, seasonId, from)
      {
        var b, k :| 0 <= b < |batches| && 0 <= k < |batches[b]| && batches[b][k] == x;
        FlattenHolds(batches, b, k);
      }
      RunBatches(cleared, seasonId, batches, engine, now)
  }

  /** The pieces of a sequence of valid match ids are valid. */
  lemma ChunksValid(db: Db, ids: seq<Id>, chunks: seq<seq<Id>>)
    requires ValidIds(db, ids) && Flatten(chunks) == ids
    ensures forall b :: 0 <= b < |chunks| ==> ValidIds(db, chunks[b])
  {
    forall b, k | 0 <= b < |chunks| && 0 <= k < |chunks[b]|
      ensures 0 <= chunks[b][k] < |db.matches|
    {
      FlattenHolds(chunks, b, k);
    }
  }

  /** An engine that, whenever it answers, answers one response per
      request and no response repeating a player id. */
  ghost predicate Honest(engine: BatchEngine) {
    forall reqs :: engine(reqs).Some? ==> |engine(reqs).value| == |reqs| && AllDistinct(engine(reqs).value)
  }

  /** An engine whose call never fails. */
  ghost predicate Reliable(engine: BatchEngine) {
    forall reqs :: engine(reqs).Some?
  }

  /** The request list batch `ids` sends from state `db`. */
  function BatchCall(db: Db, seasonId: Id, ids: seq<Id>): seq<CalcRequest>
    requires ValidIds(db, ids)
  {
    BatchRequests(db, ids, BatchRatings(db, BatchUsers(db, ids), seasonId))
  }

  /** With an honest engine a batch either writes one calculation row per
      match, in batch order, or throws because the call failed; with a
      reliable engine it always writes. */
  lemma HonestBatchRatesEveryMatch(db: Db, seasonId: Id, ids: seq<Id>, engine: BatchEngine, now: Time)
    requires ValidIds(db, ids) && Honest(engine)
    ensures var r := CalculateMmrOfBatch(db, seasonId, ids, engine, now);
      && (r.Done? ==> CalcMatchIds(r.db.calculations[|db.calculations|..]) == ids)
      && (r.Rejected? ==> r.error == EngineFailed && engine(BatchCall(db, seasonId, ids)).None?)
      && (Reliable(engine) ==> r.Done?)
  {
    var requests := BatchCall(db, seasonId, ids);
    if |ids| == 0 {
      assert db.calculations[|db.calculations|..] == [];
    } else if engine(requests).Some? {
      var resps := engine(requests).value;
      assert |resps| == |ids| && AllDistinct(resps);
    }
  }

  /** The calculation rows after `base` are those up to `mid`, then the rest. */
  lemma CalcMatchIdsSplit(base: nat, mid: seq<MmrCalculation>, all: seq<MmrCalculation>)
    requires base <= |mid| <= |all| && all[..|mid|] == mid
    ensures CalcMatchIds(all[base..]) == CalcMatchIds(mid[base..]) + CalcMatchIds(all[|mid|..])
  {
    assert all[base..] == mid[base..] + all[|mid|..];
  }

  lemma FlattenPrefixCons(chunks: seq<seq<Id>>, k: nat)
    requires k < |chunks|
    ensures Flatten(chunks[..k + 1]) == chunks[0] + Flatten(chunks[1..][..k])
  {
    assert chunks[..k + 1][1..] == chunks[1..][..k];
  }

  /** The run stopped at batch `k`: `d` holds, after the first `base` rows,
      the calculation rows of exactly the batches before `k`, and the call
      for batch `k` from `d` fails. */
  predicate StoppedAt(base: nat, d: Db, seasonId: Id, batches: seq<seq<Id>>, engine: BatchEngine, k: int) {
    && 0 <= k < |batches| && ValidIds(d, batches[k])
    && base <= |d.calculations|
    && CalcMatchIds(d.calculations[base..]) == Flatten(batches[..k])
    && engine(BatchCall(d, seasonId, batches[k])).None?
  }

  /** With an honest engine the batches either all write, one calculation
      row per match in order, or the run stops at the first batch whose
      call fails, with the batches before it saved whole and nothing of
      the rest; with a reliable engine they all write. */
  lemma {:induction false} HonestRunRatesInOrder(db: Db, seasonId: Id, batches: seq<seq<Id>>, engine: BatchEngine, now: Time)
    requires forall i :: 0 <= i < |batches| ==> ValidIds(db, batches[i])
    requires Honest(engine)
    ensures var r := RunBatches(db, seasonId, batches, engine, now);
      && (r.Done? ==> CalcMatchIds(r.db.calculations[|db.calculations|..]) == Flatten(batches))
      && (r.Aborted? ==>
            r.error == EngineFailed && exists k :: StoppedAt(|db.calculations|, r.db, seasonId, batches, engine, k))
      && (Reliable(engine) ==> r.Done?)
    decreases |batches|
  {
    var r := RunBatches(db, seasonId, batches, engine, now);
    if |batches| == 0 {
      assert r == Done(db);
      assert db.calculations[|db.calculations|..] == [];
    } else {
      var first := CalculateMmrOfBatch(db, seasonId, batches[0], engine, now);
      HonestBatchRatesEveryMatch(db, seasonId, batches[0], engine, now);
      if first.Rejected? {
        assert r == Aborted(db, first.error);
        assert batches[..0] == [];
        assert db.calculations[|db.calculations|..] == [];
        assert StoppedAt(|db.calculations|, r.db, seasonId, batches, engine, 0);
      } else {
        var d := first.db;
        ValidTail(db, d, batches);
        assert r == RunBatches(d, seasonId, batches[1..], engine, now);
        HonestRunRatesInOrder(d, seasonId, batches[1..], engine, now);
        CalcMatchIdsSplit(|db.calculations|, d.calculations, r.db.calculations);
        if r.Aborted? {
          var k :| StoppedAt(|d.calculations|, r.db, seasonId, batches[1..], engine, k);
          FlattenPrefixCons(batches, k);
          assert batches[1..][k] == batches[k + 1];
          assert StoppedAt(|db.calculations|, r.db, seasonId, batches, engine, k + 1);
        }
      }
    }
  }

  /** Which matches are in scope depends on the matches table alone. */
  lemma {:induction false} ScopeIdsSameMatches(a: Db, b: Db, seasonId: Id, from: Option<Id>, n: nat)
    requires a.matches == b.matches && n <= |a.matches|
    ensures ScopeIds(a, seasonId, from, n) == ScopeIds(b, seasonId, from, n)
    decreases n
  {
    if n > 0 {
      ScopeIdsSameMatches(a, b, seasonId, from, n - 1);
    }
  }

  /** Recalculating the latest season with an honest engine either re-rates
      every match in scope, writing one calculation row per match in id
      order, or stops at the first batch whose call fails, with the batches
      before it saved whole and nothing of the later ones; with a reliable
      engine every match in scope is re-rated. */
  lemma RecalculateRatesEveryMatch(db: Db, seasonId: Id, from: Option<Id>, engine: BatchEngine, now: Time)
    requires LatestSeasonId(db) == Some(seasonId) && Honest(engine)
    ensures var r := Recalculate(db, seasonId, from, engine, now);
      && (r.Done? ==> CalcMatchIds(r.db.calculations[|db.calculations|..]) == SeasonMatches(db, seasonId, from))
      && (r.Aborted? ==>
            var batches := Chunk(SeasonMatches(db, seasonId, from), BatchSize);
            r.error == EngineFailed && exists k :: StoppedAt(|db.calculations|, r.db, seasonId, batches, engine, k))
      && (Reliable(engine) ==> r.Done?)
  {
    var cleared := ClearMmrCalculations(db, seasonId, from, now);
    var ids := SeasonMatches(cleared, seasonId, from);
    ScopeIdsSameMatches(db, cleared, seasonId, from, |db.matches|);
    var batches := Chunk(ids, BatchSize);
    ChunksValid(cleared, ids, batches);
    HonestRunRatesInOrder(cleared, seasonId, batches, engine, now);
    var r := Recalculate(db, seasonId, from, engine, now);
    assert r == RunBatches(cleared, seasonId, batches, engine, now);
    if r.Aborted? {
      var k :| StoppedAt(|cleared.calculations|, r.db, seasonId, batches, engine, k);
      assert StoppedAt(|db.calculations|, r.db, seasonId, Chunk(SeasonMatches(db, seasonId, from), BatchSize), engine, k);
    }
  }
}
