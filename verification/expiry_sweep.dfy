/** The background sweep that declines pending matches nobody finished
    accepting in time, and the delay before its next run. */
module ExpirySweep {
  import opened Wrappers
  import opened Ordering
  import opened Entities

  /** A pending match is given up one second after its expiry. */
  const Grace: int := TicksPerSecond

  const FrequentDelay: int := TicksPerSecond
  const IdleDelay: int := 20 * TicksPerSecond

  /** The matches the sweep loads: those with status Pending. */
  function PendingIds(db: Db): (s: set<Id>)
    ensures forall m :: m in s <==> m in db.pending && db.pending[m].status == Pending
  {
    set m | m in db.pending && db.pending[m].status == Pending
  }

  /** Match `m` is still Pending and its response window is over. */
  predicate Overdue(db: Db, m: Id, now: Time) {
    m in db.pending && db.pending[m].status == Pending && !(db.pending[m].expiresAt + Grace > now)
  }

  /** Entry `q` belongs to match `m` and never accepted it. */
  predicate Missing(db: Db, m: Id, q: Id)
    requires q in db.queue
  {
    db.queue[q].pendingMatch == Some(m) && db.queue[q].lastAcceptedMatchId != Some(m)
  }

  /** The loop body for match `m`: an overdue match is declined and the
      entries that did not accept it are deleted. */
  function Step(w: Db, m: Id, now: Time): (r: Db)
    ensures !Overdue(w, m, now) ==> r == w
  {
    if !Overdue(w, m, now) then w
    else w.(pending := w.pending[m := Declining(w.pending[m], now)], queue := WithoutMissing(w.queue, m))
  }

  function Declining(p: PendingMatch, now: Time): PendingMatch {
    p.(status := Declined, updatedAt := Some(now))
  }

  /** The queue without the entries of `m` that did not accept it. */
  function WithoutMissing(queue: map<Id, QueuedPlayer>, m: Id): (r: map<Id, QueuedPlayer>)
    ensures forall q :: q in r <==> q in queue && !(queue[q].pendingMatch == Some(m) && queue[q].lastAcceptedMatchId != Some(m))
    ensures forall q :: q in r ==> r[q] == queue[q]
  {
    map q | q in queue && !(queue[q].pendingMatch == Some(m) && queue[q].lastAcceptedMatchId != Some(m)) :: queue[q]
  }

  /** The pending table after the sweep over `ms`: overdue matches declined. */
  function ExpirePending(db: Db, ms: set<Id>, now: Time): (r: map<Id, PendingMatch>)
    ensures r.Keys == db.pending.Keys
    ensures forall m :: m in db.pending ==>
      r[m] == if m in ms && Overdue(db, m, now) then Declining(db.pending[m], now) else db.pending[m]
  {
    map m | m in db.pending :: if m in ms && Overdue(db, m, now) then Declining(db.pending[m], now) else db.pending[m]
  }

  /** The queue after the sweep over `ms`: the entries it drops are gone. */
  function ExpireQueue(db: Db, ms: set<Id>, now: Time): (r: map<Id, QueuedPlayer>)
    ensures forall q :: q in r <==> q in db.queue && !Dropped(db, ms, q, now)
    ensures forall q :: q in r ==> r[q] == db.queue[q]
  {
    map q | q in db.queue && !Dropped(db, ms, q, now) :: db.queue[q]
  }

  /** The whole sweep at once, for the matches in `ms`: each overdue one is
      declined; entries of an overdue one that did not accept it are
      deleted; every other row is kept as it was. */
  function Expire(db: Db, ms: set<Id>, now: Time): (r: Db)
  {
    db.(pending := ExpirePending(db, ms, now), queue := ExpireQueue(db, ms, now))
  }

  /** Entry `q` is deleted by the sweep over `ms`. */
  predicate Dropped(db: Db, ms: set<Id>, q: Id, now: Time)
    requires q in db.queue
  {
    db.queue[q].pendingMatch.Some? && db.queue[q].pendingMatch.value in ms
    && Overdue(db, db.queue[q].pendingMatch.value, now) && Missing(db, db.queue[q].pendingMatch.value, q)
  }

  /** Sweeping no match changes nothing. */
  lemma ExpireNothing(db: Db, now: Time)
    ensures Expire(db, {}, now) == db
  {
    assert ExpirePending(db, {}, now) == db.pending;
    assert ExpireQueue(db, {}, now) == db.queue;
  }

  /** One more loop iteration extends the bulk sweep by one match. */
  lemma StepExtendsExpire(db: Db, ms: set<Id>, m: Id, now: Time)
    requires m !in ms
    ensures Step(Expire(db, ms, now), m, now) == Expire(db, ms + {m}, now)
  {
    var w := Expire(db, ms, now);
    assert Overdue(w, m, now) <==> Overdue(db, m, now);
    if Overdue(db, m, now) {
      PendingStep(db, ms, m, now);
      QueueStep(db, ms, m, now);
    } else {
      assert ExpirePending(db, ms, now) == ExpirePending(db, ms + {m}, now);
      assert ExpireQueue(db, ms, now) == ExpireQueue(db, ms + {m}, now);
    }
  }

  lemma PendingStep(db: Db, ms: set<Id>, m: Id, now: Time)
    requires m !in ms && Overdue(db, m, now)
    ensures ExpirePending(db, ms, now)[m := Declining(db.pending[m], now)] == ExpirePending(db, ms + {m}, now)
  {
  }

  lemma QueueStep(db: Db, ms: set<Id>, m: Id, now: Time)
    requires m !in ms && Overdue(db, m, now)
    ensures WithoutMissing(ExpireQueue(db, ms, now), m) == ExpireQueue(db, ms + {m}, now)
  {
    var a := WithoutMissing(ExpireQueue(db, ms, now), m);
    var b := ExpireQueue(db, ms + {m}, now);
    assert a.Keys == b.Keys;
  }

  /** `DoWorkAsync`: `cancelAt` is the iteration at whose start the
      cancellation token is first seen set, if any. With nothing Pending the
      sweep reports false; a cancelled sweep reports false and saves
      nothing; otherwise every loaded match is checked, the changes are
      saved, and the sweep reports true, whether or not anything expired.
      The matches are taken in id order. */
  method Sweep(db: Db, cancelAt: Option<nat>, now: Time) returns (found: bool, r: Db)
    ensures PendingIds(db) == {} ==> !found && r == db
    ensures PendingIds(db) != {} && cancelAt.Some? && cancelAt.value < |PendingIds(db)| ==> !found && r == db
    ensures PendingIds(db) != {} && !(cancelAt.Some? && cancelAt.value < |PendingIds(db)|) ==>
      found && r == Expire(db, PendingIds(db), now)
  {
    var ids := PendingIds(db);
    if ids == {} {
      return false, db;
    }
    var order := InIdOrder(ids);
    var cancelled, w := CheckEach(db, order, cancelAt, now);
    if cancelled {
      return false, db;
    }
    return true, w;
  }

  /** The loop over the loaded matches, in the order given; `cancelled`
      when the token is seen set before the last iteration. */
  method CheckEach(db: Db, order: seq<Id>, cancelAt: Option<nat>, now: Time) returns (cancelled: bool, w: Db)
    requires Distinct(order)
    ensures cancelled <==> cancelAt.Some? && cancelAt.value < |order|
    ensures !cancelled ==> w == Expire(db, Prefix(order, |order|), now)
  {
    w := db;
    var i := 0;
    while i < |order|
      invariant 0 <= i <= |order|
      invariant !(cancelAt.Some? && cancelAt.value < i)
      invariant w == StepAlong(db, order, i, now)
    {
      if cancelAt.Some? && cancelAt.value <= i {
        return true, w;
      }
      w := Step(w, order[i], now);
      i := i + 1;
    }
    StepAlongExpires(db, order, |order|, now);
    return false, w;
  }

  /** The state after stepping through the first `n` entries of `order`. */
  function StepAlong(db: Db, order: seq<Id>, n: nat, now: Time): Db
    requires n <= |order|
  {
    if n == 0 then db else Step(StepAlong(db, order, n - 1, now), order[n - 1], now)
  }

  /** Stepping through distinct entries one at a time expires them as one
      set: the order of the sweep does not matter. */
  lemma {:induction false} StepAlongExpires(db: Db, order: seq<Id>, n: nat, now: Time)
    requires Distinct(order) && n <= |order|
    ensures StepAlong(db, order, n, now) == Expire(db, Prefix(order, n), now)
  {
    if n == 0 {
      StepAlongStarts(db, order, now);
    } else {
      var k := n - 1;
      StepAlongExpires(db, order, k, now);
      StepAlongAdvances(db, order, k, now);
      assert k + 1 == n;
    }
  }

  lemma StepAlongStarts(db: Db, order: seq<Id>, now: Time)
    ensures StepAlong(db, order, 0, now) == Expire(db, Prefix(order, 0), now)
  {
    assert Prefix(order, 0) == {};
    ExpireNothing(db, now);
  }

  lemma StepAlongAdvances(db: Db, order: seq<Id>, i: nat, now: Time)
    requires Distinct(order) && i < |order|
    requires StepAlong(db, order, i, now) == Expire(db, Prefix(order, i), now)
    ensures StepAlong(db, order, i + 1, now) == Expire(db, Prefix(order, i + 1), now)
  {
    SweepAdvance(db, order, i, now);
  }

  /** The ids of `s` in increasing order. */
  function InIdOrder(s: set<Id>): (r: seq<Id>)
    ensures Distinct(r) && |r| == |s| && Prefix(r, |r|) == s
  {
    var key := map m | m in s :: m;
    var r := OrderBy(key, s);
    SortedIsDistinct(key, r);
    assert Prefix(r, |r|) == s;
    r
  }

  /** The loop invariant is kept by one iteration. */
  lemma SweepAdvance(db: Db, order: seq<Id>, i: nat, now: Time)
    requires Distinct(order) && i < |order|
    ensures Step(Expire(db, Prefix(order, i), now), order[i], now) == Expire(db, Prefix(order, i + 1), now)
  {
    PrefixGrows(order, i);
    StepExtendsExpire(db, Prefix(order, i), order[i], now);
  }

  /** `ExecuteAsync`'s choice: poll again after one second while pending
      matches exist, after twenty seconds otherwise. */
  function NextDelay(found: bool): (d: int)
    ensures found ==> d == TicksPerSecond
    ensures !found ==> d == 20 * TicksPerSecond
  {
    if found then FrequentDelay else IdleDelay
  }

  /** One iteration of `ExecuteAsync`'s loop: a sweep, then the delay
      before the next one, which is short exactly when the sweep went
      through with some match Pending. */
  method Round(db: Db, cancelAt: Option<nat>, now: Time) returns (delay: int, r: Db)
    ensures delay == TicksPerSecond <==>
      PendingIds(db) != {} && !(cancelAt.Some? && cancelAt.value < |PendingIds(db)|)
    ensures delay != TicksPerSecond ==> delay == 20 * TicksPerSecond && r == db
    ensures delay == TicksPerSecond ==> r == Expire(db, PendingIds(db), now)
  {
    var found;
    found, r := Sweep(db, cancelAt, now);
    delay := NextDelay(found);
  }

  /** Matches that are Accepted or Declined are never changed by a sweep,
      nor are Pending ones still inside their window; players who accepted
      an expired match keep their entry. */
  lemma SweepSparesSettledMatches(db: Db, now: Time)
    ensures var r := Expire(db, PendingIds(db), now);
      && (forall m :: m in db.pending && db.pending[m].status != Pending ==> r.pending[m] == db.pending[m])
      && (forall m :: m in db.pending && db.pending[m].expiresAt + Grace > now ==> r.pending[m] == db.pending[m])
      && forall q :: q in db.queue && db.queue[q].pendingMatch.Some? && db.queue[q].lastAcceptedMatchId == db.queue[q].pendingMatch ==>
           q in r.queue
  {
  }

  /** An overdue match ends Declined with none of its non-accepting players
      left in the queue. */
  lemma SweepDeclinesOverdue(db: Db, m: Id, now: Time)
    requires Overdue(db, m, now)
    ensures var r := Expire(db, PendingIds(db), now);
      && r.pending[m].status == Declined && r.pending[m].updatedAt == Some(now)
      && forall q :: q in r.queue ==> !Missing(db, m, q)
  {
  }
}
