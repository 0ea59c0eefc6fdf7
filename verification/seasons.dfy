/** Season selection: the current season (with the per-instance cache of a
    non-null answer) and the list of started seasons. */
module Seasons {
  import opened Wrappers
  import opened Ordering
  import opened Entities

  /** Season `id` exists and has a start. */
  predicate Scheduled(db: Db, id: Id) {
    id in db.seasons && db.seasons[id].startsAt.Some?
  }

  /** Live seasons that have started by `now`. A season without a start is
      never among them: in SQL, `starts_at <= now` is not true for NULL. */
  function Started(db: Db, now: Time): (s: set<Id>)
    ensures forall id :: id in s <==> LiveSeason(db, id) && Scheduled(db, id) && db.seasons[id].startsAt.value <= now
  {
    set id | id in db.seasons && LiveSeason(db, id) && Scheduled(db, id) && db.seasons[id].startsAt.value <= now
  }

  /** `OrderByDescending(x => x.StartsAt)` over `ids`. */
  function LatestFirst(db: Db, ids: set<Id>): (key: map<Id, int>)
    requires forall id :: id in ids ==> Scheduled(db, id)
    ensures key.Keys == ids
  {
    map id | id in ids && Scheduled(db, id) :: -db.seasons[id].startsAt.value
  }

  /** The season with the latest start among those started; `None` when no
      season has started yet. */
  function CurrentSeasonId(db: Db, now: Time): (r: Option<Id>)
    ensures r.None? <==> Started(db, now) == {}
    ensures r.Some? ==> r.value in Started(db, now)
    ensures r.Some? ==> forall id :: id in Started(db, now) ==>
      db.seasons[id].startsAt.value <= db.seasons[r.value].startsAt.value
  {
    var started := Started(db, now);
    if started == {} then None
    else
      var m := First(LatestFirst(db, started), started);
      assert forall id :: id in started && id != m ==> Before(LatestFirst(db, started), m, id);
      Some(m)
  }

  /** A `SeasonService` instance: it remembers the last non-null answer. */
  datatype SeasonService = SeasonService(cached: Option<Id>)

  /** `CurrentSeasonIdAsync` on one instance: the answer and the instance
      afterwards. A cached id is returned without reading the store; a null
      answer leaves the cache empty. */
  function CurrentSeasonIdAsync(svc: SeasonService, db: Db, now: Time): (r: (Option<Id>, SeasonService))
    ensures svc.cached.Some? ==> r == (svc.cached, svc)
    ensures svc.cached.None? ==> r.0 == CurrentSeasonId(db, now) && r.1.cached == r.0
  {
    if svc.cached.Some? then (svc.cached, svc)
    else
      var id := CurrentSeasonId(db, now);
      (id, SeasonService(id))
  }

  /** Calls in order, each against the store and clock of its moment. */
  function CallMany(svc: SeasonService, dbs: seq<(Db, Time)>): (r: seq<Option<Id>>)
    ensures |r| == |dbs|
    decreases |dbs|
  {
    if |dbs| == 0 then []
    else
      var (id, next) := CurrentSeasonIdAsync(svc, dbs[0].0, dbs[0].1);
      [id] + CallMany(next, dbs[1..])
  }

  /** Once an instance has produced an id, every later call on it produces the
      same id, whatever the store or clock says by then. */
  lemma {:induction false} CachedIdIsSticky(svc: SeasonService, dbs: seq<(Db, Time)>, i: nat)
    requires i < |dbs|
    requires CallMany(svc, dbs)[i].Some?
    ensures forall j :: i <= j < |dbs| ==> CallMany(svc, dbs)[j] == CallMany(svc, dbs)[i]
    decreases i
  {
    var (id, next) := CurrentSeasonIdAsync(svc, dbs[0].0, dbs[0].1);
    if i == 0 {
      assert next.cached == id;
      StaysCached(next, dbs[1..]);
    } else {
      CachedIdIsSticky(next, dbs[1..], i - 1);
    }
  }

  /** An instance holding an id answers it on every call. */
  lemma {:induction false} StaysCached(svc: SeasonService, dbs: seq<(Db, Time)>)
    requires svc.cached.Some?
    ensures forall j :: 0 <= j < |dbs| ==> CallMany(svc, dbs)[j] == svc.cached
    decreases |dbs|
  {
    if |dbs| > 0 {
      StaysCached(svc, dbs[1..]);
    }
  }

  /** A null answer is not remembered: until some call finds a season, each
      call reads the store afresh. */
  lemma {:induction false} NullIsNotCached(dbs: seq<(Db, Time)>, i: nat)
    requires i < |dbs|
    requires forall j :: 0 <= j < i ==> CallMany(SeasonService(None), dbs)[j].None?
    ensures CallMany(SeasonService(None), dbs)[i] == CurrentSeasonId(dbs[i].0, dbs[i].1)
    decreases i
  {
    if i > 0 {
      var (id, next) := CurrentSeasonIdAsync(SeasonService(None), dbs[0].0, dbs[0].1);
      assert CallMany(SeasonService(None), dbs)[0] == id;
      forall j | 0 <= j < i - 1
        ensures CallMany(SeasonService(None), dbs[1..])[j].None?
      {
        assert CallMany(SeasonService(None), dbs)[j + 1] == CallMany(next, dbs[1..])[j];
      }
      NullIsNotCached(dbs[1..], i - 1);
    }
  }

  /** `GetAllSeasonsAsync`: the started seasons, latest start first. */
  function AllSeasons(db: Db, now: Time): (r: seq<Id>)
    ensures forall id :: id in r <==> id in Started(db, now)
    ensures |r| == |Started(db, now)|
    ensures forall i, j :: 0 <= i < j < |r| ==>
              Scheduled(db, r[i]) && Scheduled(db, r[j]) && db.seasons[r[j]].startsAt.value <= db.seasons[r[i]].startsAt.value
  {
    var started := Started(db, now);
    var r := OrderBy(LatestFirst(db, started), started);
    assert forall i, j :: 0 <= i < j < |r| ==> Before(LatestFirst(db, started), r[i], r[j]);
    r
  }

  /** A season without a start is neither current nor listed. */
  lemma UnscheduledIsNeverStarted(db: Db, now: Time, id: Id)
    requires id in db.seasons && db.seasons[id].startsAt.None?
    ensures CurrentSeasonId(db, now) != Some(id)
    ensures id !in AllSeasons(db, now)
  {
  }

  /** The season list and the current season agree: the list starts with it. */
  lemma AllSeasonsStartWithCurrent(db: Db, now: Time)
    ensures CurrentSeasonId(db, now).None? <==> AllSeasons(db, now) == []
    ensures CurrentSeasonId(db, now).Some? ==> AllSeasons(db, now)[0] == CurrentSeasonId(db, now).value
  {
    var started := Started(db, now);
    if started != {} {
      var r := AllSeasons(db, now);
      var key := LatestFirst(db, started);
      assert r[0] == First(key, started);
    }
  }
}
