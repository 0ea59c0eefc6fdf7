/** The match-making service: the queue, pending matches that every drawn
    player must accept, promotion to an active match with shuffled seats,
    and cancelling or submitting an active match.

    Every service method is one atomic transition of the store. Guid keys
    are fresh keys of their table; `FirstOrDefault` without an ordering
    picks the least key. */
module Matchmaking {
  import opened Wrappers
  import opened Ordering
  import opened Entities
  import opened EngineApi
  import opened Seasons
  import opened Matches

  datatype QueueError =
    | UserNotLinked
    | MatchNotFound
    | MatchNotPending
    | NotFourPlayers
    | NoActiveSeason
    | SubmitFailed(reason: MatchError)

  /** The pending match an entry's navigation property loads: `None` when
      the foreign key is null or names no row. */
  function PendingOf(db: Db, q: Id): (r: Option<Id>)
    requires q in db.queue
    ensures r.Some? ==> r.value in db.pending && db.queue[q].pendingMatch == r
  {
    var pm := db.queue[q].pendingMatch;
    if pm.Some? && pm.value in db.pending then pm else None
  }

  /** The one filter used by enqueue, dequeue, the queue count and the
      quorum: the entry is in no pending match, or in a declined one. */
  predicate Eligible(db: Db, q: Id) {
    q in db.queue && (PendingOf(db, q).None? || db.pending[PendingOf(db, q).value].status == Declined)
  }

  function EligibleEntries(db: Db): (s: set<Id>)
    ensures forall q :: q in s <==> Eligible(db, q)
  {
    set q | q in db.queue && Eligible(db, q)
  }

  /** The queue entry is the signed-in caller's. */
  predicate CallerOwns(db: Db, identity: string, q: Id)
    requires q in db.queue
  {
    HasIdentity(db, db.queue[q].playerId, identity)
  }

  // ---------------------------------------------------------------------
  // Joining and leaving the queue
  // ---------------------------------------------------------------------

  /** The eligible entry of player `p`, if any. */
  function EntryOfPlayer(db: Db, p: Id): (r: Option<Id>)
    ensures r.Some? ==> Eligible(db, r.value) && db.queue[r.value].playerId == p
    ensures r.None? <==> forall q :: Eligible(db, q) ==> db.queue[q].playerId != p
  {
    var own := set q | q in db.queue && Eligible(db, q) && db.queue[q].playerId == p;
    if own == {} then
      assert forall q :: Eligible(db, q) && db.queue[q].playerId == p ==> q in own;
      None
    else Some(Least(own))
  }

  /** The eligible entry of any player bound to `identity`, if any. */
  function EntryOfCaller(db: Db, identity: string): (r: Option<Id>)
    ensures r.Some? ==> Eligible(db, r.value) && CallerOwns(db, identity, r.value)
    ensures r.None? <==> forall q :: Eligible(db, q) ==> !CallerOwns(db, identity, q)
  {
    var own := set q | q in db.queue && Eligible(db, q) && CallerOwns(db, identity, q);
    if own == {} then
      assert forall q :: Eligible(db, q) && CallerOwns(db, identity, q) ==> q in own;
      None
    else Some(Least(own))
  }

  /** `AddPlayerToQueueAsync`: an unlinked identity is refused; a player who
      already waits in the queue changes nothing; otherwise a new entry is
      saved and the quorum check runs. `expiresAt` is the expiry the new
      pending match gets, should one be drawn. */
  function Enqueue(db: Db, identity: string, now: Time, expiresAt: Time): (r: Outcome<QueueError>)
    ensures r.Rejected? <==> PlayerOfIdentity(db, identity).None?
    ensures r.Rejected? ==> r.error == UserNotLinked
    ensures !r.Aborted?
    ensures r.Done? && EntryOfPlayer(db, PlayerOfIdentity(db, identity).value).Some? ==> r.db == db
    ensures r.Done? && EntryOfPlayer(db, PlayerOfIdentity(db, identity).value).None? ==>
      var q := FreshId(db.queue.Keys);
      && q !in db.queue
      && r.db == QuorumCheck(db.(queue := db.queue[q := QueuedPlayer(PlayerOfIdentity(db, identity).value, now, None, None)]), now, expiresAt)
  {
    match PlayerOfIdentity(db, identity)
    case None => Rejected(UserNotLinked)
    case Some(p) =>
      if EntryOfPlayer(db, p).Some? then Done(db)
      else
        var q := FreshId(db.queue.Keys);
        Done(QuorumCheck(db.(queue := db.queue[q := QueuedPlayer(p, now, None, None)]), now, expiresAt))
  }

  /** `RemovePlayerFromQueueAsync`: delete the caller's eligible entry, if
      there is one. */
  function Dequeue(db: Db, identity: string): (r: Db)
    ensures EntryOfCaller(db, identity).None? ==> r == db
    ensures EntryOfCaller(db, identity).Some? ==>
      && r == db.(queue := r.queue)
      && r.queue.Keys == db.queue.Keys - {EntryOfCaller(db, identity).value}
      && forall q :: q in r.queue ==> r.queue[q] == db.queue[q]
  {
    match EntryOfCaller(db, identity)
    case None => db
    case Some(q) => db.(queue := db.queue - {q})
  }

  /** Joining an empty-enough queue and leaving it again restores the store:
      when the caller waits nowhere and fewer than three others wait, no
      match is drawn and dequeuing removes exactly the entry just added. */
  lemma EnqueueThenDequeue(db: Db, identity: string, now: Time, expiresAt: Time)
    requires PlayerOfIdentity(db, identity).Some?
    requires forall q :: Eligible(db, q) ==> !CallerOwns(db, identity, q)
    requires |EligibleEntries(db)| < 3
    ensures Enqueue(db, identity, now, expiresAt).Done?
    ensures Dequeue(Enqueue(db, identity, now, expiresAt).db, identity) == db
  {
    var p := PlayerOfIdentity(db, identity).value;
    var q := FreshId(db.queue.Keys);
    var entry := QueuedPlayer(p, now, None, None);
    var added := db.(queue := db.queue[q := entry]);
    EnqueueAddsEntry(db, identity, now, expiresAt);
    CallerFindsNewEntry(db, identity, q, entry);
    assert added.queue - {q} == db.queue;
  }

  /** Under the same conditions joining only adds the caller's entry. */
  lemma EnqueueAddsEntry(db: Db, identity: string, now: Time, expiresAt: Time)
    requires PlayerOfIdentity(db, identity).Some?
    requires forall q :: Eligible(db, q) ==> !CallerOwns(db, identity, q)
    requires |EligibleEntries(db)| < 3
    ensures var q := FreshId(db.queue.Keys);
      Enqueue(db, identity, now, expiresAt)
      == Done(db.(queue := db.queue[q := QueuedPlayer(PlayerOfIdentity(db, identity).value, now, None, None)]))
  {
    var p := PlayerOfIdentity(db, identity).value;
    var q := FreshId(db.queue.Keys);
    var entry := QueuedPlayer(p, now, None, None);
    assert EntryOfPlayer(db, p).None?;
    EligibleAfterAdd(db, q, entry);
  }

  /** When the caller waited nowhere, the caller's entry after adding one is
      the added one. */
  lemma CallerFindsNewEntry(db: Db, identity: string, q: Id, entry: QueuedPlayer)
    requires q !in db.queue && entry.pendingMatch.None? && HasIdentity(db, entry.playerId, identity)
    requires forall e :: Eligible(db, e) ==> !CallerOwns(db, identity, e)
    ensures EntryOfCaller(db.(queue := db.queue[q := entry]), identity) == Some(q)
  {
    var added := db.(queue := db.queue[q := entry]);
    forall e | Eligible(added, e) && CallerOwns(added, identity, e)
      ensures e == q
    {
      if e != q {
        assert Eligible(db, e) && CallerOwns(db, identity, e);
      }
    }
    assert Eligible(added, q) && CallerOwns(added, identity, q);
    var own := set e | e in added.queue && Eligible(added, e) && CallerOwns(added, identity, e);
    assert own == {q};
  }

  /** A new entry with no pending match adds one eligible entry and leaves
      every other entry's eligibility as it was. */
  lemma EligibleAfterAdd(db: Db, q: Id, entry: QueuedPlayer)
    requires q !in db.queue && entry.pendingMatch.None?
    ensures EligibleEntries(db.(queue := db.queue[q := entry])) == EligibleEntries(db) + {q}
    ensures |EligibleEntries(db.(queue := db.queue[q := entry]))| == |EligibleEntries(db)| + 1
  {
    var added := db.(queue := db.queue[q := entry]);
    assert forall e :: e != q ==> (Eligible(added, e) <==> Eligible(db, e));
    assert EligibleEntries(added) == EligibleEntries(db) + {q};
  }

  // ---------------------------------------------------------------------
  // Drawing a pending match
  // ---------------------------------------------------------------------

  /** `OrderBy(x => x.CreatedAt)` over queue entries. */
  function QueueOrder(db: Db): (key: map<Id, int>)
    ensures key.Keys == db.queue.Keys
  {
    map q | q in db.queue :: db.queue[q].createdAt
  }

  /** The entries of pending match `m`: its `QueuedPlayers` collection. */
  function MatchEntries(db: Db, m: Id): (s: set<Id>)
    ensures forall q :: q in s <==> q in db.queue && db.queue[q].pendingMatch == Some(m)
  {
    set q | q in db.queue && db.queue[q].pendingMatch == Some(m)
  }

  /** `drawn` lists four distinct eligible entries, oldest first, each older
      than every eligible entry left out. */
  ghost predicate OldestFour(db: Db, drawn: seq<Id>) {
    && |drawn| == 4 && Distinct(drawn)
    && (forall i :: 0 <= i < 4 ==> Eligible(db, drawn[i]))
    && SortedBy(QueueOrder(db), drawn)
    && forall i, e :: 0 <= i < 4 && Eligible(db, e) && e !in drawn ==> Before(QueueOrder(db), drawn[i], e)
  }

  /** `queuedPlayers.Take(4)` of the eligible entries in queue order. */
  function Drawn(db: Db): (drawn: seq<Id>)
    requires |EligibleEntries(db)| >= 4
    ensures OldestFour(db, drawn)
  {
    var key := QueueOrder(db);
    var all := OrderBy(key, EligibleEntries(db));
    var drawn := all[..4];
    forall i, e | 0 <= i < 4 && Eligible(db, e) && e !in drawn
      ensures Before(key, drawn[i], e)
    {
      var j :| 0 <= j < |all| && all[j] == e;
      assert j >= 4;
    }
    forall i, j | 0 <= i < j < 4
      ensures drawn[i] != drawn[j]
    {
      BeforeAsymmetric(key, all[i], all[j]);
    }
    drawn
  }

  /** A new Guid for a pending match: no row has it and no entry refers to it. */
  function NewPendingId(db: Db): (m: Id)
    ensures m !in db.pending
    ensures forall q :: q in db.queue ==> db.queue[q].pendingMatch != Some(m)
  {
    var refs := set q | q in db.queue && db.queue[q].pendingMatch.Some? :: db.queue[q].pendingMatch.value;
    assert forall q :: q in db.queue && db.queue[q].pendingMatch.Some? ==> db.queue[q].pendingMatch.value in refs;
    FreshId(db.pending.Keys + refs)
  }

  /** The store after pending match `m` is created holding the entries
      `drawn`; nothing else changes. */
  predicate DrawsMatch(db: Db, r: Db, m: Id, drawn: seq<Id>, now: Time, expiresAt: Time) {
    && m !in db.pending
    && r == db.(queue := r.queue, pending := r.pending)
    && r.pending == db.pending[m := PendingMatch(Pending, now, None, expiresAt, None)]
    && r.queue.Keys == db.queue.Keys
    && (forall q :: q in drawn ==> q in db.queue && r.queue[q] == db.queue[q].(pendingMatch := Some(m)))
    && (forall q :: q in db.queue && q !in drawn ==> r.queue[q] == db.queue[q])
  }

  /** `CheckIfMatchCanBeMade`: with at least four eligible entries, the four
      oldest are drawn into one new pending match. */
  function QuorumCheck(db: Db, now: Time, expiresAt: Time): (r: Db)
    ensures |EligibleEntries(db)| < 4 ==> r == db
    ensures |EligibleEntries(db)| >= 4 ==>
      && OldestFour(db, Drawn(db))
      && DrawsMatch(db, r, NewPendingId(db), Drawn(db), now, expiresAt)
  {
    if |EligibleEntries(db)| < 4 then db
    else
      var m := NewPendingId(db);
      var drawn := Drawn(db);
      var queue := map q | q in db.queue :: if q in drawn then db.queue[q].(pendingMatch := Some(m)) else db.queue[q];
      db.(queue := queue, pending := db.pending[m := PendingMatch(Pending, now, None, expiresAt, None)])
  }

  /** The drawn entries leave the eligible set and nothing else does: a
      quorum shrinks the queue count by exactly four. */
  lemma QuorumTakesFour(db: Db, now: Time, expiresAt: Time)
    requires |EligibleEntries(db)| >= 4
    ensures var r := QuorumCheck(db, now, expiresAt);
      && (forall q :: Eligible(r, q) <==> Eligible(db, q) && q !in Drawn(db))
      && MatchEntries(r, NewPendingId(db)) == set i | 0 <= i < 4 :: Drawn(db)[i]
  {
    DrawEffects(db, QuorumCheck(db, now, expiresAt), NewPendingId(db), Drawn(db), now, expiresAt);
  }

  lemma DrawEffects(db: Db, r: Db, m: Id, drawn: seq<Id>, now: Time, expiresAt: Time)
    requires DrawsMatch(db, r, m, drawn, now, expiresAt)
    requires forall q :: q in db.queue ==> db.queue[q].pendingMatch != Some(m)
    ensures forall q :: Eligible(r, q) <==> Eligible(db, q) && q !in drawn
    ensures MatchEntries(r, m) == set i | 0 <= i < |drawn| :: drawn[i]
  {
    forall q | q in db.queue && q !in drawn
      ensures PendingOf(r, q) == PendingOf(db, q)
    {
    }
    var listed := set i | 0 <= i < |drawn| :: drawn[i];
    forall q | q in MatchEntries(r, m)
      ensures q in listed
    {
      var i :| 0 <= i < |drawn| && drawn[i] == q;
    }
    forall i | 0 <= i < |drawn|
      ensures drawn[i] in MatchEntries(r, m)
    {
      var q := drawn[i];
      assert q in drawn;
      assert q in db.queue && r.queue[q] == db.queue[q].(pendingMatch := Some(m));
    }
  }

  /** A quorum changes no entry's player, time or acceptance, and no table
      besides the queue and the pending matches. */
  lemma QuorumKeepsEntries(db: Db, now: Time, expiresAt: Time)
    ensures var r := QuorumCheck(db, now, expiresAt);
      && r == db.(queue := r.queue, pending := r.pending)
      && r.queue.Keys == db.queue.Keys
      && forall q :: q in db.queue ==> r.queue[q] == db.queue[q].(pendingMatch := r.queue[q].pendingMatch)
  {
  }

  /** After a quorum the queue count is four lower. */
  lemma QuorumCountsDown(db: Db, now: Time, expiresAt: Time)
    requires |EligibleEntries(db)| >= 4
    ensures |EligibleEntries(QuorumCheck(db, now, expiresAt))| == |EligibleEntries(db)| - 4
  {
    QuorumTakesFour(db, now, expiresAt);
    RemoveFour(EligibleEntries(db), EligibleEntries(QuorumCheck(db, now, expiresAt)), Drawn(db));
  }

  lemma RemoveFour(all: set<Id>, rest: set<Id>, d: seq<Id>)
    requires |d| == 4 && Distinct(d) && forall i :: 0 <= i < 4 ==> d[i] in all
    requires forall q :: q in rest <==> q in all && q !in d
    ensures |rest| == |all| - 4
  {
    var four := {d[0], d[1], d[2], d[3]};
    assert |four| == 4;
    forall q
      ensures q in rest <==> q in all - four
    {
      assert q in d <==> q in four;
    }
    assert rest == all - four;
    assert all == rest + four;
  }

  // ---------------------------------------------------------------------
  // Pending matches: status, accept, decline
  // ---------------------------------------------------------------------

  /** The caller has an entry in pending match `m`; everything else is
      reported as "Match not found". */
  predicate Participates(db: Db, identity: string, m: Id) {
    m in db.pending && exists q :: q in db.queue && db.queue[q].pendingMatch == Some(m) && CallerOwns(db, identity, q)
  }

  /** The caller's entry in pending match `m`: `QueuedPlayers.First(...)`. */
  function EntryIn(db: Db, identity: string, m: Id): (q: Id)
    requires Participates(db, identity, m)
    ensures q in MatchEntries(db, m) && CallerOwns(db, identity, q)
  {
    var own := set q | q in db.queue && db.queue[q].pendingMatch == Some(m) && CallerOwns(db, identity, q);
    assert forall q :: q in db.queue && db.queue[q].pendingMatch == Some(m) && CallerOwns(db, identity, q) ==> q in own;
    Least(own)
  }

  /** `PendingMatchStatusAsync`. */
  function PendingStatus(db: Db, identity: string, m: Id): (r: Result<MatchStatus, QueueError>)
    ensures r.Err? <==> !Participates(db, identity, m)
    ensures r.Err? ==> r.error == MatchNotFound
    ensures r.Ok? ==> m in db.pending && r.value == db.pending[m].status
  {
    if Participates(db, identity, m) then Ok(db.pending[m].status) else Err(MatchNotFound)
  }

  /** Every entry of `m` other than `q` has already accepted `m`. */
  predicate OthersAccepted(db: Db, m: Id, q: Id) {
    forall e :: e in db.queue && db.queue[e].pendingMatch == Some(m) && e != q ==>
      db.queue[e].lastAcceptedMatchId == Some(m)
  }

  /** Every entry of `m` has accepted `m`. */
  predicate AllAccepted(db: Db, m: Id) {
    forall e :: e in db.queue && db.queue[e].pendingMatch == Some(m) ==> db.queue[e].lastAcceptedMatchId == Some(m)
  }

  /** The saved part of `AcceptPendingMatchAsync`: the caller's entry records
      the acceptance, the match becomes Accepted once everyone has accepted,
      and its update time is set. */
  function RecordAcceptance(db: Db, identity: string, m: Id, now: Time): (r: Db)
    requires Participates(db, identity, m)
    ensures r.queue.Keys == db.queue.Keys && r.pending.Keys == db.pending.Keys
    ensures r.queue[EntryIn(db, identity, m)].lastAcceptedMatchId == Some(m)
    ensures AllAccepted(r, m) <==> OthersAccepted(db, m, EntryIn(db, identity, m))
    ensures db.pending[m].status == Pending ==> (r.pending[m].status == Accepted <==> AllAccepted(r, m))
  {
    var q := EntryIn(db, identity, m);
    var queue := db.queue[q := db.queue[q].(lastAcceptedMatchId := Some(m))];
    var all := forall e :: e in queue && queue[e].pendingMatch == Some(m) ==> queue[e].lastAcceptedMatchId == Some(m);
    var status := if all then Accepted else db.pending[m].status;
    var r := db.(queue := queue, pending := db.pending[m := db.pending[m].(status := status, updatedAt := Some(now))]);
    assert all <==> AllAccepted(r, m);
    r
  }

  /** A Guid for a new active match: no row has it and no pending match
      refers to it. */
  function NewActiveId(db: Db): (a: Id)
    ensures a !in db.active
    ensures forall m :: m in db.pending ==> db.pending[m].activeMatch != Some(a)
  {
    var refs := set m | m in db.pending && db.pending[m].activeMatch.Some? :: db.pending[m].activeMatch.value;
    assert forall m :: m in db.pending && db.pending[m].activeMatch.Some? ==> db.pending[m].activeMatch.value in refs;
    FreshId(db.active.Keys + refs)
  }

  /** `OrderBy(_ => random.Next())`: the entries sorted by one random number
      each; `randoms` stands for the numbers drawn. */
  function Shuffle(entries: set<Id>, randoms: Id -> int): (r: seq<Id>)
    ensures |r| == |entries| && Distinct(r)
    ensures forall i :: 0 <= i < |r| ==> r[i] in entries
    ensures forall q :: q in entries ==> q in r
  {
    var key := map q | q in entries :: randoms(q);
    var r := OrderBy(key, entries);
    forall i, j | 0 <= i < j < |r|
      ensures r[i] != r[j]
    {
      BeforeAsymmetric(key, r[i], r[j]);
    }
    r
  }

  /** The four seats of an active match in order: team one, then team two. */
  function Seats(a: ActiveMatch): seq<Id> {
    [a.teamOnePlayerOne, a.teamOnePlayerTwo, a.teamTwoPlayerOne, a.teamTwoPlayerTwo]
  }

  /** The players of a list of queue entries. */
  function PlayersOf(db: Db, entries: seq<Id>): (ps: seq<Id>)
    requires forall i :: 0 <= i < |entries| ==> entries[i] in db.queue
    ensures |ps| == |entries|
    ensures forall i :: 0 <= i < |entries| ==> ps[i] == db.queue[entries[i]].playerId
  {
    seq(|entries|, i requires 0 <= i < |entries| => db.queue[entries[i]].playerId)
  }

  /** The new active match: the players of `order` in seat order. */
  function SeatMatch(db: Db, order: seq<Id>, now: Time): (s: ActiveMatch)
    requires |order| == 4 && forall i :: 0 <= i < 4 ==> order[i] in db.queue
    ensures s.createdAt == now && Seats(s) == PlayersOf(db, order)
  {
    ActiveMatch(now, db.queue[order[0]].playerId, db.queue[order[1]].playerId,
                db.queue[order[2]].playerId, db.queue[order[3]].playerId)
  }

  /** `PromotePendingMatchToActiveMatch`: exactly four entries are required;
      their players take the seats of a new active match in shuffled order,
      and the pending match links to it. */
  function Promote(db: Db, m: Id, randoms: Id -> int, now: Time): (r: Outcome<QueueError>)
    requires m in db.pending
    ensures !r.Rejected?
    ensures r.Aborted? <==> |MatchEntries(db, m)| != 4
    ensures r.Aborted? ==> r == Aborted(db, NotFourPlayers)
    ensures r.Done? ==>
      var a := NewActiveId(db);
      && a !in db.active
      && r.db == db.(active := r.db.active, pending := r.db.pending)
      && r.db.active == db.active[a := SeatMatch(db, Shuffle(MatchEntries(db, m), randoms), now)]
      && r.db.pending == db.pending[m := db.pending[m].(activeMatch := Some(a))]
  {
    var entries := MatchEntries(db, m);
    if |entries| != 4 then Aborted(db, NotFourPlayers)
    else
      var a := NewActiveId(db);
      var seated := SeatMatch(db, Shuffle(entries, randoms), now);
      Done(db.(active := db.active[a := seated], pending := db.pending[m := db.pending[m].(activeMatch := Some(a))]))
  }

  /** The seats of a promoted match hold exactly the players of the pending
      match's entries, one seat per entry. */
  lemma PromotionSeatsThePlayers(db: Db, m: Id, randoms: Id -> int, now: Time)
    requires m in db.pending && |MatchEntries(db, m)| == 4
    ensures Promote(db, m, randoms, now).Done?
    ensures var seats := Seats(Promote(db, m, randoms, now).db.active[NewActiveId(db)]);
      && |seats| == 4
      && (forall i :: 0 <= i < 4 ==> exists e :: e in MatchEntries(db, m) && db.queue[e].playerId == seats[i])
      && (forall e :: e in MatchEntries(db, m) ==> db.queue[e].playerId in seats)
  {
    var order := Shuffle(MatchEntries(db, m), randoms);
    var seats := Seats(Promote(db, m, randoms, now).db.active[NewActiveId(db)]);
    forall e | e in MatchEntries(db, m)
      ensures db.queue[e].playerId in seats
    {
      var i :| 0 <= i < |order| && order[i] == e;
      assert seats[i] == db.queue[e].playerId;
    }
    forall i | 0 <= i < 4
      ensures exists e :: e in MatchEntries(db, m) && db.queue[e].playerId == seats[i]
    {
      assert order[i] in MatchEntries(db, m);
    }
  }

  /** `AcceptPendingMatchAsync`: the two guards, then the acceptance is
      saved; when it completes the match, promotion runs after that save. */
  function Accept(db: Db, identity: string, m: Id, randoms: Id -> int, now: Time): (r: Outcome<QueueError>)
    ensures r == Rejected(MatchNotFound) <==> !Participates(db, identity, m)
    ensures r == Rejected(MatchNotPending) <==> Participates(db, identity, m) && db.pending[m].status != Pending
    ensures r.Rejected? ==> r.error in {MatchNotFound, MatchNotPending}
    ensures !r.Rejected? ==>
      var q := EntryIn(db, identity, m);
      var saved := RecordAcceptance(db, identity, m, now);
      && saved.queue[q].lastAcceptedMatchId == Some(m)
      && (saved.pending[m].status == Accepted <==> OthersAccepted(db, m, q))
      && (!OthersAccepted(db, m, q) ==> r == Done(saved))
      && (OthersAccepted(db, m, q) ==> r == Promote(saved, m, randoms, now))
  {
    if !Participates(db, identity, m) then Rejected(MatchNotFound)
    else if db.pending[m].status != Pending then Rejected(MatchNotPending)
    else
      var saved := RecordAcceptance(db, identity, m, now);
      if saved.pending[m].status == Accepted then Promote(saved, m, randoms, now) else Done(saved)
  }

  /** Accepting again while others are still deciding changes nothing more. */
  lemma AcceptIsIdempotent(db: Db, identity: string, m: Id, randoms: Id -> int, now: Time)
    requires Accept(db, identity, m, randoms, now).Done?
    requires Accept(db, identity, m, randoms, now).db.pending[m].status == Pending
    ensures var once := Accept(db, identity, m, randoms, now).db;
      Accept(once, identity, m, randoms, now) == Done(once)
  {
    var q := EntryIn(db, identity, m);
    var once := Accept(db, identity, m, randoms, now).db;
    assert once == RecordAcceptance(db, identity, m, now);
    assert Participates(once, identity, m) by {
      assert once.queue[q].pendingMatch == Some(m) && CallerOwns(once, identity, q);
    }
    SameEntryAfterAcceptance(db, identity, m, now);
    assert RecordAcceptance(once, identity, m, now) == once;
  }

  /** Recording an acceptance does not change which entry is the caller's. */
  lemma SameEntryAfterAcceptance(db: Db, identity: string, m: Id, now: Time)
    requires Participates(db, identity, m)
    ensures Participates(RecordAcceptance(db, identity, m, now), identity, m)
    ensures EntryIn(RecordAcceptance(db, identity, m, now), identity, m) == EntryIn(db, identity, m)
  {
    var once := RecordAcceptance(db, identity, m, now);
    var q := EntryIn(db, identity, m);
    assert once.queue[q].pendingMatch == Some(m) && CallerOwns(once, identity, q);
    var a := set e | e in db.queue && db.queue[e].pendingMatch == Some(m) && CallerOwns(db, identity, e);
    var b := set e | e in once.queue && once.queue[e].pendingMatch == Some(m) && CallerOwns(once, identity, e);
    assert a == b;
  }

  /** `DeclinePendingMatchAsync`: the two guards, then the caller's entry is
      deleted and the match is marked Declined. */
  function Decline(db: Db, identity: string, m: Id, now: Time): (r: Outcome<QueueError>)
    ensures r == Rejected(MatchNotFound) <==> !Participates(db, identity, m)
    ensures r == Rejected(MatchNotPending) <==> Participates(db, identity, m) && db.pending[m].status != Pending
    ensures r.Rejected? ==> r.error in {MatchNotFound, MatchNotPending}
    ensures !r.Aborted?
    ensures r.Done? ==>
      && r.db == db.(queue := r.db.queue, pending := r.db.pending)
      && r.db.queue.Keys == db.queue.Keys - {EntryIn(db, identity, m)}
      && (forall e :: e in r.db.queue ==> r.db.queue[e] == db.queue[e])
      && r.db.pending.Keys == db.pending.Keys
      && r.db.pending[m].status == Declined && r.db.pending[m].updatedAt == Some(now)
      && forall n :: n in db.pending && n != m ==> r.db.pending[n] == db.pending[n]
  {
    if !Participates(db, identity, m) then Rejected(MatchNotFound)
    else if db.pending[m].status != Pending then Rejected(MatchNotPending)
    else
      var q := EntryIn(db, identity, m);
      Done(db.(queue := db.queue - {q},
               pending := db.pending[m := db.pending[m].(status := Declined, updatedAt := Some(now))]))
  }

  /** After a decline the other players of the match are back in the queue,
      and no other entry changes eligibility. */
  lemma DeclineRequeuesOthers(db: Db, identity: string, m: Id, now: Time)
    requires Decline(db, identity, m, now).Done?
    ensures var r := Decline(db, identity, m, now).db;
      && (forall e :: e in MatchEntries(db, m) && e != EntryIn(db, identity, m) ==> Eligible(r, e))
      && (forall e :: e in db.queue && db.queue[e].pendingMatch != Some(m) ==> (Eligible(r, e) <==> Eligible(db, e)))
  {
  }

  // ---------------------------------------------------------------------
  // Active matches
  // ---------------------------------------------------------------------

  datatype ActiveMatchView = ActiveMatchView(createdAt: Time, team1: seq<Id>, team2: seq<Id>)

  /** `ActiveMatchesAsync`: every active match by id, each team listing its
      two seats in order. */
  function ActiveMatches(db: Db): (r: map<Id, ActiveMatchView>)
    ensures r.Keys == db.active.Keys
    ensures forall a :: a in r ==> |r[a].team1| == 2 && |r[a].team2| == 2 && r[a].team1 + r[a].team2 == Seats(db.active[a])
  {
    map a | a in db.active :: ActiveMatchView(db.active[a].createdAt,
      [db.active[a].teamOnePlayerOne, db.active[a].teamOnePlayerTwo],
      [db.active[a].teamTwoPlayerOne, db.active[a].teamTwoPlayerTwo])
  }

  /** The caller sits in one of the four seats. */
  predicate Seated(db: Db, identity: string, a: Id)
    requires a in db.active
  {
    var s := db.active[a];
    || HasIdentity(db, s.teamOnePlayerOne, identity) || HasIdentity(db, s.teamOnePlayerTwo, identity)
    || HasIdentity(db, s.teamTwoPlayerOne, identity) || HasIdentity(db, s.teamTwoPlayerTwo, identity)
  }

  /** `ReadActiveMatch`: an unknown match and a match the caller does not
      play in are both "Match not found". */
  function ReadActiveMatch(db: Db, identity: string, a: Id): (r: Result<ActiveMatch, QueueError>)
    ensures r.Ok? <==> a in db.active && Seated(db, identity, a)
    ensures r.Ok? ==> r.value == db.active[a]
    ensures r.Err? ==> r.error == MatchNotFound
  {
    if a !in db.active || !Seated(db, identity, a) then Err(MatchNotFound)
    else Ok(db.active[a])
  }

  /** The pending match that links to active match `a`, if any. */
  function PendingOfActive(db: Db, a: Id): (r: Option<Id>)
    ensures r.Some? ==> r.value in db.pending && db.pending[r.value].activeMatch == Some(a)
    ensures r.None? <==> forall m :: m in db.pending ==> db.pending[m].activeMatch != Some(a)
  {
    var linked := set m | m in db.pending && db.pending[m].activeMatch == Some(a);
    if linked == {} then
      assert forall m :: m in db.pending && db.pending[m].activeMatch == Some(a) ==> m in linked;
      None
    else Some(Least(linked))
  }

  /** `RemoveActiveMatch`: delete the active match, and with it the pending
      match that led to it and that match's queue entries. */
  function RemoveActive(db: Db, a: Id): (r: Db)
    ensures r == db.(queue := r.queue, pending := r.pending, active := r.active)
    ensures r.active == db.active - {a}
    ensures PendingOfActive(db, a).None? ==> r.pending == db.pending && r.queue == db.queue
    ensures PendingOfActive(db, a).Some? ==>
      var m := PendingOfActive(db, a).value;
      && r.pending == db.pending - {m}
      && r.queue.Keys == db.queue.Keys - MatchEntries(db, m)
      && forall e :: e in r.queue ==> r.queue[e] == db.queue[e]
  {
    match PendingOfActive(db, a)
    case None => db.(active := db.active - {a})
    case Some(m) =>
      db.(queue := db.queue - MatchEntries(db, m), pending := db.pending - {m}, active := db.active - {a})
  }

  /** `CancelActiveMatchAsync`. */
  function Cancel(db: Db, identity: string, a: Id): (r: Outcome<QueueError>)
    ensures r.Rejected? <==> !(a in db.active && Seated(db, identity, a))
    ensures r.Rejected? ==> r.error == MatchNotFound
    ensures !r.Aborted?
    ensures r.Done? ==> r.db == RemoveActive(db, a)
  {
    match ReadActiveMatch(db, identity, a)
    case Err(e) => Rejected(e)
    case Ok(_) => Done(RemoveActive(db, a))
  }

  /** The submission built from an active match's seats and the two scores. */
  function SubmissionFor(s: ActiveMatch, team1Score: int, team2Score: int): (req: SubmitRequest)
    ensures [req.team1.member1, req.team1.member2, req.team2.member1, req.team2.member2] == Seats(s)
    ensures req.team1.score == team1Score && req.team2.score == team2Score
  {
    SubmitRequest(MatchTeam(s.teamOnePlayerOne, s.teamOnePlayerTwo, team1Score),
                  MatchTeam(s.teamTwoPlayerOne, s.teamTwoPlayerTwo, team2Score))
  }

  /** `SubmitActiveMatchResultAsync`: the seat check, then the current
      season, then the match is submitted; the active match is removed only
      once the submission has succeeded. */
  function Submit(db: Db, identity: string, a: Id, team1Score: int, team2Score: int, engine: Engine, now: Time): (r: Outcome<QueueError>)
    ensures r == Rejected(MatchNotFound) <==> !(a in db.active && Seated(db, identity, a))
    ensures r == Rejected(NoActiveSeason) <==> a in db.active && Seated(db, identity, a) && CurrentSeasonId(db, now).None?
    ensures (a in db.active && Seated(db, identity, a) && CurrentSeasonId(db, now).Some?) ==>
      var sub := SubmitMatch(db, CurrentSeasonId(db, now).value, SubmissionFor(db.active[a], team1Score, team2Score), engine, now);
      && (sub.Rejected? ==> r == Rejected(SubmitFailed(sub.error)))
      && (sub.Aborted? ==> r == Aborted(sub.db, SubmitFailed(sub.error)) && r.db.active == db.active)
      && (sub.Done? ==> r == Done(RemoveActive(sub.db, a)) && a !in r.db.active
                        && r.db.matches == db.matches + [NewMatch(CurrentSeasonId(db, now).value, SubmissionFor(db.active[a], team1Score, team2Score), now)])
  {
    match ReadActiveMatch(db, identity, a)
    case Err(e) => Rejected(e)
    case Ok(s) =>
      match CurrentSeasonId(db, now)
      case None => Rejected(NoActiveSeason)
      case Some(season) =>
        match SubmitMatch(db, season, SubmissionFor(s, team1Score, team2Score), engine, now)
        case Rejected(e) => Rejected(SubmitFailed(e))
        case Aborted(d, e) => Aborted(d, SubmitFailed(e))
        case Done(d) => Done(RemoveActive(d, a))
  }

  /** Promotion of a full match followed by cancel by one of its players:
      the active table is back to what it was, and the pending match and its
      entries are gone. */
  lemma PromoteThenCancel(db: Db, m: Id, randoms: Id -> int, now: Time, identity: string)
    requires Participates(db, identity, m) && |MatchEntries(db, m)| == 4
    ensures Promote(db, m, randoms, now).Done?
    ensures var p := Promote(db, m, randoms, now).db;
      var c := Cancel(p, identity, NewActiveId(db));
      && c.Done?
      && c.db.active == db.active
      && c.db.pending == db.pending - {m}
      && c.db.queue.Keys == db.queue.Keys - MatchEntries(db, m)
  {
    PromotionSeatsThePlayers(db, m, randoms, now);
    var p := Promote(db, m, randoms, now).db;
    var a := NewActiveId(db);
    var q := EntryIn(db, identity, m);
    var seats := Seats(p.active[a]);
    assert db.queue[q].playerId in seats;
    assert p.players == db.players;
    assert Seated(p, identity, a);
    CancelLinked(db, p, m, a, identity);
  }

  lemma CancelLinked(db: Db, p: Db, m: Id, a: Id, identity: string)
    requires m in db.pending && a !in db.active
    requires forall n :: n in db.pending ==> db.pending[n].activeMatch != Some(a)
    requires a in p.active
    requires p == db.(active := db.active[a := p.active[a]], pending := db.pending[m := db.pending[m].(activeMatch := Some(a))])
    requires Seated(p, identity, a)
    ensures var c := Cancel(p, identity, a);
      && c.Done?
      && c.db.active == db.active
      && c.db.pending == db.pending - {m}
      && c.db.queue.Keys == db.queue.Keys - MatchEntries(db, m)
  {
    var linked := set n | n in p.pending && p.pending[n].activeMatch == Some(a);
    assert forall n :: n in linked ==> n == m;
    assert m in linked;
    assert linked == {m};
    assert PendingOfActive(p, a) == Some(m);
    assert MatchEntries(p, m) == MatchEntries(db, m);
    assert p.active - {a} == db.active;
  }

  // ---------------------------------------------------------------------
  // Queue status
  // ---------------------------------------------------------------------

  datatype AssignedMatch = AssignedMatch(id: Id, status: MatchStatus, expiresAt: Time)

  datatype QueueStatus = QueueStatus(playersInQueue: nat, isUserInQueue: bool, assignedMatch: Option<AssignedMatch>)

  /** The caller's newest entry, eligible or not. */
  function NewestEntryOfCaller(db: Db, identity: string): (r: Option<Id>)
    ensures r.None? <==> forall q :: q in db.queue ==> !CallerOwns(db, identity, q)
    ensures r.Some? ==> r.value in db.queue && CallerOwns(db, identity, r.value)
    ensures r.Some? ==> forall q :: q in db.queue && CallerOwns(db, identity, q) ==>
      db.queue[q].createdAt <= db.queue[r.value].createdAt
  {
    var own := set q | q in db.queue && CallerOwns(db, identity, q);
    if own == {} then
      assert forall q :: q in db.queue && CallerOwns(db, identity, q) ==> q in own;
      None
    else
      var key := map q | q in own :: -db.queue[q].createdAt;
      var q := First(key, own);
      forall e | e in own
        ensures db.queue[e].createdAt <= db.queue[q].createdAt
      {
        if e != q {
          assert Before(key, q, e);
        }
      }
      Some(q)
  }

  /** `MatchMakingQueueStatusAsync`: the number of eligible entries, whether
      the caller has any entry, and the undeclined pending match of the
      caller's newest entry. */
  function QueueStatusOf(db: Db, identity: string): (r: QueueStatus)
    ensures r.playersInQueue == |EligibleEntries(db)|
    ensures r.isUserInQueue <==> exists q :: q in db.queue && CallerOwns(db, identity, q)
    ensures r.assignedMatch.Some? ==>
      && r.isUserInQueue
      && r.assignedMatch.value.id in db.pending
      && r.assignedMatch.value.status == db.pending[r.assignedMatch.value.id].status != Declined
      && r.assignedMatch.value.expiresAt == db.pending[r.assignedMatch.value.id].expiresAt
      && db.queue[NewestEntryOfCaller(db, identity).value].pendingMatch == Some(r.assignedMatch.value.id)
    ensures r.assignedMatch.None? && r.isUserInQueue ==> Eligible(db, NewestEntryOfCaller(db, identity).value)
  {
    var newest := NewestEntryOfCaller(db, identity);
    var assignedMatch :=
      if newest.Some? && PendingOf(db, newest.value).Some?
         && db.pending[PendingOf(db, newest.value).value].status != Declined
      then
        var m := PendingOf(db, newest.value).value;
        Some(AssignedMatch(m, db.pending[m].status, db.pending[m].expiresAt))
      else None;
    QueueStatus(|EligibleEntries(db)|, newest.Some?, assignedMatch)
  }

  /** After a successful enqueue the caller shows up as queued. */
  lemma EnqueuedCallerIsQueued(db: Db, identity: string, now: Time, expiresAt: Time)
    requires Enqueue(db, identity, now, expiresAt).Done?
    ensures QueueStatusOf(Enqueue(db, identity, now, expiresAt).db, identity).isUserInQueue
  {
    var p := PlayerOfIdentity(db, identity).value;
    var r := Enqueue(db, identity, now, expiresAt).db;
    match EntryOfPlayer(db, p)
    case Some(e) =>
      assert e in r.queue && CallerOwns(r, identity, e);
    case None =>
      var q := FreshId(db.queue.Keys);
      var added := db.(queue := db.queue[q := QueuedPlayer(p, now, None, None)]);
      QuorumKeepsEntries(added, now, expiresAt);
      assert q in r.queue && r.queue[q].playerId == p;
      assert CallerOwns(r, identity, q);
  }
}
