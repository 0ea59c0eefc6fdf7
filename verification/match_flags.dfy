/** Player reports about a match: raising a flag, listing the flags still
    waiting for a moderator, and resolving one. */
module MatchFlags {
  import opened Wrappers
  import opened Ordering
  import opened Entities

  datatype FlagError = MatchNotFound | AlreadyFlagged | FlagNotFound

  /** The flags `playerId` raised on `matchId` that are still pending. */
  function OpenFlagsOf(db: Db, matchId: Id, playerId: Id): (s: set<Id>)
    ensures forall f :: f in s <==>
      f in db.flags && db.flags[f].matchId == matchId && db.flags[f].flaggedBy == playerId && db.flags[f].status == FlagPending
  {
    set f | f in db.flags && db.flags[f].matchId == matchId && db.flags[f].flaggedBy == playerId && db.flags[f].status == FlagPending
  }

  /** `CreateFlagAsync`: the match must exist, and the player may hold only
      one pending flag on it; the new flag is pending and gets the next id. */
  function CreateFlag(db: Db, matchId: Id, playerId: Id, reason: string, now: Time): (r: Result<(Db, Id), FlagError>)
    ensures r.Err? <==> !LiveMatch(db, matchId) || OpenFlagsOf(db, matchId, playerId) != {}
    ensures r.Err? ==> r.error == if LiveMatch(db, matchId) then AlreadyFlagged else MatchNotFound
    ensures r.Ok? ==> var (d, f) := r.value;
      && f !in db.flags
      && d.flags.Keys == db.flags.Keys + {f}
      && (forall g :: g in db.flags ==> d.flags[g] == db.flags[g])
      && d == db.(flags := d.flags)
      && var flag := d.flags[f];
      && flag.matchId == matchId && flag.flaggedBy == playerId && flag.reason == reason
      && flag.status == FlagPending && flag.resolvedBy.None? && flag.resolvedAt.None?
      && flag.createdAt == now && flag.updatedAt == now
  {
    if !LiveMatch(db, matchId) then Err(MatchNotFound)
    else if OpenFlagsOf(db, matchId, playerId) != {} then Err(AlreadyFlagged)
    else
      var f := FreshId(db.flags.Keys);
      Ok((db.(flags := db.flags[f := MatchFlag(matchId, playerId, reason, FlagPending, None, None, None, now, now)]), f))
  }

  /** `ResolveFlagAsync`: an unknown flag is an error; any known flag,
      resolved or not, is (re)written as resolved by `resolvedBy` with the
      given note. */
  function ResolveFlag(db: Db, flagId: Id, resolvedBy: Id, note: Option<string>, now: Time): (r: Result<Db, FlagError>)
    ensures r.Err? <==> flagId !in db.flags
    ensures r.Err? ==> r.error == FlagNotFound
    ensures r.Ok? ==>
      && r.value == db.(flags := r.value.flags)
      && r.value.flags.Keys == db.flags.Keys
      && (forall g :: g in db.flags && g != flagId ==> r.value.flags[g] == db.flags[g])
      && var old_ := db.flags[flagId];
      && var new_ := r.value.flags[flagId];
      && new_.status == FlagResolved && new_.resolvedBy == Some(resolvedBy) && new_.resolutionNote == note
      && new_.resolvedAt == Some(now) && new_.updatedAt == now
      && new_.matchId == old_.matchId && new_.flaggedBy == old_.flaggedBy && new_.reason == old_.reason
      && new_.createdAt == old_.createdAt
  {
    if flagId !in db.flags then Err(FlagNotFound)
    else
      var f := db.flags[flagId];
      Ok(db.(flags := db.flags[flagId := f.(status := FlagResolved, resolvedBy := Some(resolvedBy),
                                            resolvedAt := Some(now), resolutionNote := note, updatedAt := now)]))
  }

  /** A player who just flagged a match cannot flag it again until that
      flag is resolved; after resolution they can. */
  lemma FlagBlocksUntilResolved(db: Db, matchId: Id, playerId: Id, reason: string, again: string,
                                 resolver: Id, note: Option<string>, now: Time, later: Time)
    requires CreateFlag(db, matchId, playerId, reason, now).Ok?
    ensures var (d, f) := CreateFlag(db, matchId, playerId, reason, now).value;
      && CreateFlag(d, matchId, playerId, again, later) == Err(AlreadyFlagged)
      && ResolveFlag(d, f, resolver, note, later).Ok?
      && CreateFlag(ResolveFlag(d, f, resolver, note, later).value, matchId, playerId, again, later).Ok?
  {
    var (d, f) := CreateFlag(db, matchId, playerId, reason, now).value;
    assert f in OpenFlagsOf(d, matchId, playerId);
    var e := ResolveFlag(d, f, resolver, note, later).value;
    assert OpenFlagsOf(e, matchId, playerId) == {} by {
      forall g | g in e.flags && g != f
        ensures !(e.flags[g].matchId == matchId && e.flags[g].flaggedBy == playerId && e.flags[g].status == FlagPending)
      {
        assert g !in OpenFlagsOf(db, matchId, playerId);
      }
    }
  }

  /** Resolving twice leaves the second resolution: the later call
      overwrites the earlier one instead of being refused. */
  lemma SecondResolutionWins(db: Db, flagId: Id, first: Id, note1: Option<string>, t1: Time,
                             second: Id, note2: Option<string>, t2: Time)
    requires flagId in db.flags
    ensures ResolveFlag(ResolveFlag(db, flagId, first, note1, t1).value, flagId, second, note2, t2)
         == ResolveFlag(db, flagId, second, note2, t2)
  {
    var once := ResolveFlag(db, flagId, first, note1, t1).value;
    var f := db.flags[flagId];
    var g := once.flags[flagId];
    assert g.(status := FlagResolved, resolvedBy := Some(second), resolvedAt := Some(t2), resolutionNote := note2, updatedAt := t2)
        == f.(status := FlagResolved, resolvedBy := Some(second), resolvedAt := Some(t2), resolutionNote := note2, updatedAt := t2);
    assert once == db.(flags := db.flags[flagId := g]);
    var h := f.(status := FlagResolved, resolvedBy := Some(second), resolvedAt := Some(t2), resolutionNote := note2, updatedAt := t2);
    assert ResolveFlag(once, flagId, second, note2, t2) == Ok(once.(flags := once.flags[flagId := h]));
    assert once.flags[flagId := h] == db.flags[flagId := h];
  }

  /** What the moderator list shows of a flag. */
  datatype FlagDetails = FlagDetails(
    id: Id,
    matchId: Id,
    reason: string,
    flaggedByName: string,
    flaggedById: Id,
    createdAt: Time,
    status: FlagStatus,
    resolutionNote: Option<string>,
    resolvedByName: Option<string>,
    resolvedAt: Option<Time>)

  /** The pending flags, newest first; equal creation times by id. */
  function NewestFlagsFirst(db: Db): (key: map<Id, int>)
    ensures key.Keys == db.flags.Keys
  {
    map f | f in db.flags :: -db.flags[f].createdAt
  }

  function PendingFlagIds(db: Db): (s: set<Id>)
    ensures forall f :: f in s <==> f in db.flags && db.flags[f].status == FlagPending
  {
    set f | f in db.flags && db.flags[f].status == FlagPending
  }

  /** The flagger's name, when the flagger exists, is not deleted (the
      query filter hides a deleted player from the include) and has one. */
  function NameOf(db: Db, p: Id): Option<string> {
    if LivePlayer(db, p) then db.players[p].name else None
  }

  /** A flag the list shows: its match is not deleted (the query filter
      hides a deleted match from the include) and can be mapped
      (`mapsMatch` stands for the match mapper, which is not part of this
      model), and its flagger has a name. */
  predicate Listable(db: Db, mapsMatch: Id -> bool, f: Id) {
    f in db.flags && LiveMatch(db, db.flags[f].matchId) && mapsMatch(db.flags[f].matchId)
    && NameOf(db, db.flags[f].flaggedBy).Some?
  }

  /** The ids of the flags `GetPendingFlagsAsync` returns, in its order. */
  function ListedFlags(db: Db, mapsMatch: Id -> bool): (r: seq<Id>)
    ensures forall i :: 0 <= i < |r| ==> Waiting(db, mapsMatch, r[i])
    ensures forall f :: Waiting(db, mapsMatch, f) ==> f in r
    ensures forall i, j :: 0 <= i < j < |r| ==> NewerFlag(db, r[i], r[j])
  {
    var loaded := OrderBy(NewestFlagsFirst(db), PendingFlagIds(db));
    var keep := f => Listable(db, mapsMatch, f);
    var r := Filter(loaded, keep);
    FilterSorted(NewestFlagsFirst(db), loaded, keep);
    NewestFirstIsNewer(db, r);
    assert forall i :: 0 <= i < |r| ==> r[i] in r;
    r
  }

  /** The key order is the `NewerFlag` order. */
  lemma NewestFirstIsNewer(db: Db, r: seq<Id>)
    requires SortedBy(NewestFlagsFirst(db), r)
    ensures forall i, j :: 0 <= i < j < |r| ==> NewerFlag(db, r[i], r[j])
  {
    var key := NewestFlagsFirst(db);
    forall i, j | 0 <= i < j < |r|
      ensures NewerFlag(db, r[i], r[j])
    {
      assert Before(key, r[i], r[j]);
    }
  }

  /** Flag `a` is listed before flag `b`: created later, or at the same
      time with a smaller id. */
  predicate NewerFlag(db: Db, a: Id, b: Id) {
    a in db.flags && b in db.flags
    && (db.flags[a].createdAt > db.flags[b].createdAt || (db.flags[a].createdAt == db.flags[b].createdAt && a < b))
  }

  /** A pending flag the list shows. */
  predicate Waiting(db: Db, mapsMatch: Id -> bool, f: Id) {
    f in db.flags && db.flags[f].status == FlagPending && Listable(db, mapsMatch, f)
  }

  function Details(db: Db, f: Id): (d: FlagDetails)
    requires f in db.flags && NameOf(db, db.flags[f].flaggedBy).Some?
    ensures d.id == f && d.matchId == db.flags[f].matchId && d.flaggedById == db.flags[f].flaggedBy
    ensures d.createdAt == db.flags[f].createdAt && d.status == db.flags[f].status
    ensures Some(d.flaggedByName) == NameOf(db, db.flags[f].flaggedBy)
  {
    var flag := db.flags[f];
    FlagDetails(f, flag.matchId, flag.reason, NameOf(db, flag.flaggedBy).value, flag.flaggedBy, flag.createdAt,
                flag.status, flag.resolutionNote,
                if flag.resolvedBy.Some? then NameOf(db, flag.resolvedBy.value) else None,
                flag.resolvedAt)
  }

  /** `d` shows a pending, listable flag: the flag's own match, reason,
      flagger, creation time and resolution fields, the flagger's name, and
      the resolver's name when the resolver is found. */
  predicate Shows(db: Db, mapsMatch: Id -> bool, d: FlagDetails) {
    && Waiting(db, mapsMatch, d.id)
    && var flag := db.flags[d.id];
       && d.status == FlagPending && d.createdAt == flag.createdAt
       && d.matchId == flag.matchId && d.reason == flag.reason && d.flaggedById == flag.flaggedBy
       && Some(d.flaggedByName) == NameOf(db, flag.flaggedBy)
       && d.resolutionNote == flag.resolutionNote && d.resolvedAt == flag.resolvedAt
       && d.resolvedByName == (if flag.resolvedBy.Some? then NameOf(db, flag.resolvedBy.value) else None)
  }

  /** The details of each listed flag, in list order. */
  function DetailsOf(db: Db, mapsMatch: Id -> bool, ids: seq<Id>): (r: seq<FlagDetails>)
    requires forall i :: 0 <= i < |ids| ==> Waiting(db, mapsMatch, ids[i])
    ensures |r| == |ids|
    ensures forall i :: 0 <= i < |ids| ==> r[i].id == ids[i] && Shows(db, mapsMatch, r[i])
    decreases |ids|
  {
    if |ids| == 0 then []
    else
      assert Waiting(db, mapsMatch, ids[0]);
      [Details(db, ids[0])] + DetailsOf(db, mapsMatch, ids[1..])
  }

  /** `GetPendingFlagsAsync`: only pending flags, newest first, skipping
      those whose match cannot be mapped or whose flagger has no name. */
  function PendingFlags(db: Db, mapsMatch: Id -> bool): (r: seq<FlagDetails>)
    ensures forall i :: 0 <= i < |r| ==> Shows(db, mapsMatch, r[i])
    ensures forall f :: Waiting(db, mapsMatch, f) ==> exists i :: 0 <= i < |r| && r[i].id == f
    ensures forall i, j :: 0 <= i < j < |r| ==>
      r[i].createdAt > r[j].createdAt || (r[i].createdAt == r[j].createdAt && r[i].id < r[j].id)
  {
    var ids := ListedFlags(db, mapsMatch);
    var r := DetailsOf(db, mapsMatch, ids);
    forall f | Waiting(db, mapsMatch, f)
      ensures exists i :: 0 <= i < |r| && r[i].id == f
    {
      var i :| 0 <= i < |ids| && ids[i] == f;
      assert r[i].id == f;
    }
    r
  }
}
