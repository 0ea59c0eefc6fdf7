/** The user service's selectors over player histories, and claiming a
    player for the signed-in identity. */
module Users {
  import opened Wrappers
  import opened Ordering
  import opened Entities

  /** A player's latest rating row (index into `histories`) and the season of
      the match it belongs to. */
  datatype Latest = Latest(row: int, seasonId: Id)

  /** Live history rows of player `p` among the first `n` rows. */
  function RowsBelow(db: Db, p: Id, n: int): (rows: set<int>)
    requires 0 <= n <= |db.histories|
    ensures forall i :: i in rows <==> 0 <= i < n && LiveHistory(db, i) && db.histories[i].playerId == p
  {
    set i | 0 <= i < n && LiveHistory(db, i) && db.histories[i].playerId == p
  }

  function RowsOf(db: Db, p: Id): set<int> {
    RowsBelow(db, p, |db.histories|)
  }

  /** `OrderByDescending(x => x.MatchId)` over history rows; equal match ids
      keep row order. */
  function NewestFirst(db: Db): (key: map<Id, int>)
    ensures forall i :: i in key <==> 0 <= i < |db.histories|
  {
    map i | 0 <= i < |db.histories| :: -db.histories[i].matchId
  }

  /** `h` is the player's row with the greatest match id. */
  predicate IsNewestRow(db: Db, p: Id, h: int) {
    IsFirst(NewestFirst(db), RowsOf(db, p), h)
  }

  /** The season of the live match a history row belongs to, if any. */
  function RowSeason(db: Db, h: int): Option<Id>
    requires 0 <= h < |db.histories|
  {
    var m := db.histories[h].matchId;
    if LiveMatch(db, m) then db.matches[m].seasonId else None
  }

  /** `LatestPlayerHistoryAsync`: the player's row with the greatest match id,
      paired with that match's season; `None` when the player has no rows or
      that row's match has no season. */
  function LatestPlayerHistory(db: Db, p: Id): (r: Option<Latest>)
    ensures r.Some? ==> IsNewestRow(db, p, r.value.row) && RowSeason(db, r.value.row) == Some(r.value.seasonId)
    ensures r.Some? ==> forall i :: i in RowsOf(db, p) ==>
      db.histories[i].matchId <= db.histories[r.value.row].matchId
    ensures r.None? <==> RowsOf(db, p) == {} || exists h :: IsNewestRow(db, p, h) && RowSeason(db, h).None?
  {
    var rows := RowsOf(db, p);
    if rows == {} then None
    else
      var h := First(NewestFirst(db), rows);
      assert forall i :: i in rows && i != h ==> Before(NewestFirst(db), h, i);
      forall g | IsNewestRow(db, p, g)
        ensures g == h
      {
        FirstUnique(NewestFirst(db), rows, g, h);
      }
      match RowSeason(db, h)
      case None => None
      case Some(s) => Some(Latest(h, s))
  }

  /** `LatestPlayerHistoriesAsync`: one grouped pass over the history table
      keeping, per requested player, the row with the greatest match id, then
      dropping rows whose match has no season. It agrees with asking
      `LatestPlayerHistory` player by player. */
  method LatestPlayerHistories(db: Db, ids: set<Id>) returns (r: map<Id, Latest>)
    ensures forall p :: p in r <==> p in ids && LatestPlayerHistory(db, p).Some?
    ensures forall p :: p in r ==> r[p] == LatestPlayerHistory(db, p).value
  {
    var key := NewestFirst(db);
    var best: map<Id, int> := map[];
    var i := 0;
    while i < |db.histories|
      invariant 0 <= i <= |db.histories|
      invariant forall p :: p in best <==> p in ids && RowsBelow(db, p, i) != {}
      invariant forall p :: p in best ==> IsFirst(key, RowsBelow(db, p, i), best[p])
    {
      var row := db.histories[i];
      ghost var p := row.playerId;
      assert forall q :: q != p || !LiveHistory(db, i) ==> RowsBelow(db, q, i + 1) == RowsBelow(db, q, i);
      if LiveHistory(db, i) && row.playerId in ids {
        assert RowsBelow(db, p, i + 1) == RowsBelow(db, p, i) + {i};
        if row.playerId !in best {
          assert RowsBelow(db, p, i) == {};
          assert IsFirst(key, RowsBelow(db, p, i + 1), i);
          best := best[row.playerId := i];
        } else {
          FirstOfInsert(key, RowsBelow(db, p, i), best[p], i);
          if row.matchId > db.histories[best[row.playerId]].matchId {
            best := best[row.playerId := i];
          }
        }
      }
      i := i + 1;
    }
    r := map p | p in best && RowSeason(db, best[p]).Some? :: Latest(best[p], RowSeason(db, best[p]).value);
    forall p | p in ids && RowsOf(db, p) != {}
      ensures p in best && best[p] == First(key, RowsOf(db, p))
    {
      FirstUnique(key, RowsOf(db, p), best[p], First(key, RowsOf(db, p)));
    }
  }

  /** `IdentityTaken` is the unique-index violation the final save raises. */
  datatype ClaimError = UserNotFound | AlreadyClaimed | IdentityTaken

  /** Some player other than `p`, deleted or not, is bound to `identity`; the
      unique index on the identity column sees every row. */
  predicate HeldElsewhere(db: Db, identity: string, p: Id) {
    exists q :: q in db.players && q != p && db.players[q].identityUserId == Some(identity)
  }

  /** `ClaimUserForCurrentAuthenticatedUserAsync`: bind an unclaimed player to
      the caller's identity. The lookup goes through the query filter, so a
      deleted player is not found; the save fails when the identity is
      already bound to another player. */
  function ClaimPlayer(db: Db, identity: string, p: Id): (r: Outcome<ClaimError>)
    ensures r == Rejected(UserNotFound) <==> !LivePlayer(db, p)
    ensures r == Rejected(AlreadyClaimed) <==>
      LivePlayer(db, p) && db.players[p].identityUserId.Some? && db.players[p].identityUserId != Some(identity)
    ensures r == Rejected(IdentityTaken) <==>
      LivePlayer(db, p) && db.players[p].identityUserId.None? && HeldElsewhere(db, identity, p)
    ensures r.Aborted? == false
    ensures HasIdentity(db, p, identity) ==> r == Done(db)
    ensures r.Done? ==> r.db.players.Keys == db.players.Keys && HasIdentity(r.db, p, identity)
    ensures r.Done? ==> r.db.players[p].name == db.players[p].name
    ensures r.Done? ==> forall q :: q in db.players && q != p ==> r.db.players[q] == db.players[q]
    ensures r.Done? ==> r.db == db.(players := r.db.players)
  {
    if !LivePlayer(db, p) then Rejected(UserNotFound)
    else
      var user := db.players[p];
      if user.identityUserId == Some(identity) then Done(db)
      else if user.identityUserId.Some? then Rejected(AlreadyClaimed)
      else if HeldElsewhere(db, identity, p) then Rejected(IdentityTaken)
      else Done(db.(players := db.players[p := user.(identityUserId := Some(identity))]))
  }

  /** Claiming twice is the same as claiming once. */
  lemma ClaimIdempotent(db: Db, identity: string, p: Id)
    requires ClaimPlayer(db, identity, p).Done?
    ensures ClaimPlayer(ClaimPlayer(db, identity, p).db, identity, p) == ClaimPlayer(db, identity, p)
  {
  }

  /** Claiming keeps each identity on at most one player: after a successful
      claim, `p` is the only player bound to the caller's identity. */
  lemma ClaimKeepsIdentitiesUnique(db: Db, identity: string, p: Id)
    requires IdentitiesUnique(db)
    ensures var r := ClaimPlayer(db, identity, p);
      r.Done? ==>
        && IdentitiesUnique(r.db)
        && forall q :: q in r.db.players && r.db.players[q].identityUserId == Some(identity) ==> q == p
  {
    var r := ClaimPlayer(db, identity, p);
    if r.Done? && r.db != db {
      assert !HeldElsewhere(db, identity, p);
    }
  }

  /** After one identity claims a player, every other identity is refused. */
  lemma ClaimIsExclusive(db: Db, identity: string, other: string, p: Id)
    requires ClaimPlayer(db, identity, p).Done? && other != identity
    ensures ClaimPlayer(ClaimPlayer(db, identity, p).db, other, p) == Rejected(AlreadyClaimed)
  {
  }
}
