/** The persistent state shared by the services: one immutable record holding
    every table the matchmaking and rating services read or write.

    Tables with database-generated `long` keys that are only ever appended to
    (`matches`, `player_histories`, `mmr_calculations`) are sequences whose
    index is the row id. Tables whose rows are deleted (queue, pending and
    active matches, tokens) or addressed by arbitrary ids (players, seasons,
    flags) are maps. Rows with a `DeletedAt` column are soft-deleted: the
    context's query filter hides them, which `Live*` below restates once.
    The filter also hides the tokens of a deleted player (`VisibleToken`);
    it hides that player's queue entries and active matches as well, which
    this model does not restate. */
module Entities {
  import opened Wrappers
  import opened Ordering

  /** Instants as .NET ticks: 100 ns since an arbitrary epoch. */
  type Time = int

  const TicksPerSecond: int := 10_000_000
  const TicksPerMinute: int := 60 * TicksPerSecond

  datatype Player = Player(name: Option<string>, identityUserId: Option<string>, deletedAt: Option<Time>)

  /** `startsAt` is a nullable column: a season may have no start yet. */
  datatype Season = Season(startsAt: Option<Time>, deletedAt: Option<Time>)

  /** One side of a played match, with its two members and score. */
  datatype Team = Team(playerOne: Id, playerTwo: Id, score: int, winner: bool)

  datatype Match = Match(
    seasonId: Option<Id>,
    teamOne: Team,
    teamTwo: Team,
    createdAt: Time,
    deletedAt: Option<Time>)

  /** A player's rating after a match; `mu` and `sigma` are the engine's
      opaque values and are only copied, never computed with. */
  datatype PlayerHistory = PlayerHistory(
    playerId: Id,
    matchId: Id,
    mmr: Option<int>,
    mu: real,
    sigma: real,
    createdAt: Time,
    deletedAt: Option<Time>)

  /** The MMR change of each seat of a match. */
  datatype MmrCalculation = MmrCalculation(
    matchId: Id,
    teamOnePlayerOneDelta: Option<int>,
    teamOnePlayerTwoDelta: Option<int>,
    teamTwoPlayerOneDelta: Option<int>,
    teamTwoPlayerTwoDelta: Option<int>,
    createdAt: Time,
    deletedAt: Option<Time>)

  datatype MatchStatus = Pending | Accepted | Declined

  /** A queue entry; `pendingMatch` is the foreign key to the pending match
      the entry was drawn into. */
  datatype QueuedPlayer = QueuedPlayer(
    playerId: Id,
    createdAt: Time,
    pendingMatch: Option<Id>,
    lastAcceptedMatchId: Option<Id>)

  datatype PendingMatch = PendingMatch(
    status: MatchStatus,
    createdAt: Time,
    updatedAt: Option<Time>,
    expiresAt: Time,
    activeMatch: Option<Id>)

  /** Seats 1 and 2 form team one, seats 3 and 4 team two. */
  datatype ActiveMatch = ActiveMatch(
    createdAt: Time,
    teamOnePlayerOne: Id,
    teamOnePlayerTwo: Id,
    teamTwoPlayerOne: Id,
    teamTwoPlayerTwo: Id)

  datatype FlagStatus = FlagPending | FlagResolved

  datatype MatchFlag = MatchFlag(
    matchId: Id,
    flaggedBy: Id,
    reason: string,
    status: FlagStatus,
    resolutionNote: Option<string>,
    resolvedBy: Option<Id>,
    resolvedAt: Option<Time>,
    createdAt: Time,
    updatedAt: Time)

  /** A SHA-256 digest. */
  type Digest = seq<bv8>

  datatype AccessToken = AccessToken(
    playerId: Id,
    tokenHash: Digest,
    name: string,
    lastUsedAt: Option<Time>,
    expiresAt: Option<Time>,
    createdAt: Time,
    updatedAt: Time)

  datatype Db = Db(
    players: map<Id, Player>,
    seasons: map<Id, Season>,
    matches: seq<Match>,
    histories: seq<PlayerHistory>,
    calculations: seq<MmrCalculation>,
    queue: map<Id, QueuedPlayer>,
    pending: map<Id, PendingMatch>,
    active: map<Id, ActiveMatch>,
    flags: map<Id, MatchFlag>,
    tokens: map<Id, AccessToken>)

  /** The result of a service call that may write: `Done` on success,
      `Rejected` when it threw before writing anything, `Aborted` when it
      threw after some of its writes were already saved. */
  datatype Outcome<+E> = Done(db: Db) | Rejected(error: E) | Aborted(db: Db, error: E)
  {
    /** The state after the call, whichever way it ended. */
    function After(before: Db): Db {
      if Rejected? then before else db
    }
  }

  predicate LivePlayer(db: Db, id: Id) {
    id in db.players && db.players[id].deletedAt.None?
  }

  /** Every player of `ps` is found through the query filter. */
  predicate AllLive(db: Db, ps: set<Id>) {
    forall p :: p in ps ==> LivePlayer(db, p)
  }

  /** A token row the context returns: its owner is not deleted. */
  predicate VisibleToken(db: Db, t: Id) {
    t in db.tokens && LivePlayer(db, db.tokens[t].playerId)
  }

  predicate LiveSeason(db: Db, id: Id) {
    id in db.seasons && db.seasons[id].deletedAt.None?
  }

  predicate LiveMatch(db: Db, id: Id) {
    0 <= id < |db.matches| && db.matches[id].deletedAt.None?
  }

  predicate LiveHistory(db: Db, i: int) {
    0 <= i < |db.histories| && db.histories[i].deletedAt.None?
  }

  predicate LiveCalculation(db: Db, i: int) {
    0 <= i < |db.calculations| && db.calculations[i].deletedAt.None?
  }

  /** The four members of a match in seat order. */
  function Members(m: Match): seq<Id> {
    [m.teamOne.playerOne, m.teamOne.playerTwo, m.teamTwo.playerOne, m.teamTwo.playerTwo]
  }

  /** No two players, deleted or not, share an identity: the unique index
      `uni_players_identity_user_id`. */
  predicate IdentitiesUnique(db: Db) {
    forall a, b :: a in db.players && b in db.players && a != b && db.players[a].identityUserId.Some? ==>
      db.players[a].identityUserId != db.players[b].identityUserId
  }

  /** The player `FirstOrDefault(p => p.IdentityUserId == identity)` finds.
      Under `IdentitiesUnique` there is at most one candidate; on a store
      that breaks the index the least id is taken. */
  function PlayerOfIdentity(db: Db, identity: string): (r: Option<Id>)
    ensures r.Some? ==> HasIdentity(db, r.value, identity)
    ensures r.None? ==> forall p :: !HasIdentity(db, p, identity)
  {
    var bound := set p | p in db.players && HasIdentity(db, p, identity);
    if bound == {} then
      assert forall p :: HasIdentity(db, p, identity) ==> p in bound;
      None
    else Some(Least(bound))
  }

  /** Where the index holds, the lookup by identity finds exactly the
      player bound to it. */
  lemma PlayerOfIdentityIsTheBoundPlayer(db: Db, identity: string, p: Id)
    requires IdentitiesUnique(db) && HasIdentity(db, p, identity)
    ensures PlayerOfIdentity(db, identity) == Some(p)
  {
  }

  /** Whether player `p` is live and bound to `identity`; a deleted
      player is not found by identity. */
  predicate HasIdentity(db: Db, p: Id, identity: string) {
    LivePlayer(db, p) && db.players[p].identityUserId == Some(identity)
  }
}
