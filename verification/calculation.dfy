/** The Go rating service's calculation endpoints: a single 2v2 match, and a
    batch of matches where each match starts from the ratings the earlier
    matches of the same batch produced.

    The rating library is the parameter `engine`: its rating update on two
    teams and the display value of a rating. Request decoding is not
    modelled; a request arrives already typed, with JSON nulls as `None`. */
module Calculation {
  import opened Wrappers
  import opened Ordering
  import opened Text
  import opened EngineApi

  datatype Rating = Rating(mu: real, sigma: real)

  /** The ratings of one team's two players, in seat order. */
  datatype Pair = Pair(first: Rating, second: Rating)

  /** The rating library: `rate` takes both teams' ratings and scores and
      gives both teams' new ratings; `display` is the shown MMR. */
  datatype Engine = Engine(rate: (Pair, Pair, int, int) -> (Pair, Pair), display: (real, real) -> real)

  /** A player seated in a team, with the rating the calculation uses. */
  datatype Seat = Seat(id: Id, rating: Rating)

  /** A team as the library sees it; `score` is already narrowed to 16 bits. */
  datatype Side = Side(first: Seat, second: Seat, score: int)

  /** Why the player check answers 400. The handler carries on regardless,
      so this is a flag on the reply and not a stop. */
  datatype Abort = Duplicated(id: Id) | NotFour

  /** Dereferencing a missing score, or indexing a team with fewer than two
      players, panics and ends the request without a reply body. */
  datatype Crash = Crash

  datatype Reply = Reply(abort: Option<Abort>, response: CalcResponse)

  /** The library's default mean; the service sets the deviation to 5. */
  const DefaultMu: real := 25.0
  const DefaultSigma: real := 5.0

  function DefaultRating(): Rating {
    Rating(DefaultMu, DefaultSigma)
  }

  /** Go's `int16(x)` conversion: the low 16 bits, read as two's complement. */
  function Int16(x: int): (r: int)
    ensures -32768 <= r < 32768
    ensures (x - r) % 65536 == 0
    ensures -32768 <= x < 32768 ==> r == x
  {
    (x + 32768) % 65536 - 32768
  }

  /** The ids of both teams' players, team one first, as the check visits them. */
  function RequestIds(req: CalcRequest): (ids: seq<Id>)
    ensures |ids| == |req.team1.players| + |req.team2.players|
  {
    seq(|req.team1.players| + |req.team2.players|, i requires 0 <= i < |req.team1.players| + |req.team2.players| =>
      if i < |req.team1.players| then req.team1.players[i].id
      else req.team2.players[i - |req.team1.players|].id)
  }

  /** The first id met a second time in a left-to-right scan, if any. */
  function FirstRepeat(ids: seq<Id>): (r: Option<Id>)
    ensures r.None? <==> Distinct(ids)
    ensures r.Some? ==> exists j :: 0 < j < |ids| && ids[j] == r.value && r.value in ids[..j] && Distinct(ids[..j])
    decreases |ids|
  {
    if |ids| == 0 then None
    else
      var init := ids[..|ids| - 1];
      var last := ids[|ids| - 1];
      assert ids[..|ids| - 1] == init;
      match FirstRepeat(init)
      case Some(x) =>
        var j :| 0 < j < |init| && init[j] == x && x in init[..j] && Distinct(init[..j]);
        assert ids[..j] == init[..j];
        Some(x)
      case None =>
        if last in init then Some(last)
        else
          assert Distinct(ids) by {
            forall a, b | 0 <= a < b < |ids| ensures ids[a] != ids[b] {
              if b < |ids| - 1 {
                assert ids[a] == init[a] && ids[b] == init[b];
              } else {
                assert ids[a] in init;
              }
            }
          }
          None
  }

  /** `ensurePlayers`: the first repeated id, else a distinct count other
      than four, makes the handler answer 400. */
  function EnsurePlayers(req: CalcRequest): (r: Option<Abort>)
    ensures r.None? <==> |RequestIds(req)| == 4 && Distinct(RequestIds(req))
    ensures r == Some(NotFour) <==> Distinct(RequestIds(req)) && |RequestIds(req)| != 4
    ensures r.Some? && r.value.Duplicated? ==> !Distinct(RequestIds(req))
  {
    var ids := RequestIds(req);
    match FirstRepeat(ids)
    case Some(x) => Some(Duplicated(x))
    case None => if |ids| != 4 then Some(NotFour) else None
  }

  /** The message the 400 reply carries. */
  function AbortMessage(a: Abort): string {
    match a
    case Duplicated(id) => "Player ID " + IntToString(id) + " is duplicated"
    case NotFour => "There must be exactly 4 unique players across both teams"
  }

  /** `RatingForPlayer` for a request holding both a mean and a deviation:
      a rating carried over from an earlier season restarts at the default,
      moved a third of the way towards the old mean; otherwise the request's
      values are used as they are. */
  function CarryOver(mu: real, sigma: real, isPreviousSeasonRating: Option<bool>): (r: Rating)
    ensures isPreviousSeasonRating == Some(true) ==> r.sigma == DefaultSigma && 3.0 * (r.mu - DefaultMu) == mu - DefaultMu
    ensures isPreviousSeasonRating != Some(true) ==> r == Rating(mu, sigma)
  {
    if isPreviousSeasonRating == Some(true) then
      Rating(DefaultMu + (mu - DefaultMu) / 3.0, DefaultSigma)
    else Rating(mu, sigma)
  }

  /** `createPlayer`: a rating already produced in this batch wins over the
      request's values; without one, a request missing its mean or its
      deviation starts at the default. */
  function CreatePlayer(p: PlayerRating, known: map<Id, Rating>): (s: Seat)
    ensures s.id == p.id
    ensures p.id in known ==> s.rating == known[p.id]
    ensures p.id !in known && (p.mu.None? || p.sigma.None?) ==> s.rating == DefaultRating()
    ensures p.id !in known && p.mu.Some? && p.sigma.Some? ==> s.rating == CarryOver(p.mu.value, p.sigma.value, p.isPreviousSeasonRating)
  {
    if p.id in known then Seat(p.id, known[p.id])
    else if p.mu.Some? && p.sigma.Some? then Seat(p.id, CarryOver(p.mu.value, p.sigma.value, p.isPreviousSeasonRating))
    else Seat(p.id, DefaultRating())
  }

  /** A team the library can rate: two seated players and a score. */
  predicate Complete(t: CalcTeam) {
    |t.players| >= 2 && t.score.Some?
  }

  /** The two sides `calculateMatch` builds before rating: the first two
      players of each team, and each score narrowed to 16 bits. */
  function Seated(req: CalcRequest, known: map<Id, Rating>): (r: Result<(Side, Side), Crash>)
    ensures r.Ok? <==> Complete(req.team1) && Complete(req.team2)
    ensures r.Ok? ==>
      && r.value.0.first == CreatePlayer(req.team1.players[0], known)
      && r.value.0.second == CreatePlayer(req.team1.players[1], known)
      && r.value.1.first == CreatePlayer(req.team2.players[0], known)
      && r.value.1.second == CreatePlayer(req.team2.players[1], known)
      && r.value.0.score == Int16(req.team1.score.value)
      && r.value.1.score == Int16(req.team2.score.value)
  {
    if !Complete(req.team1) || !Complete(req.team2) then Err(Crash)
    else
      var t1 := Side(CreatePlayer(req.team1.players[0], known), CreatePlayer(req.team1.players[1], known),
                     Int16(req.team1.score.value));
      var t2 := Side(CreatePlayer(req.team2.players[0], known), CreatePlayer(req.team2.players[1], known),
                     Int16(req.team2.score.value));
      Ok((t1, t2))
  }

  /** `CalculateNewMMRV2`: every seat keeps its player and takes the
      library's new rating for its position. */
  function Rate(engine: Engine, t1: Side, t2: Side): (r: (Side, Side))
    ensures r.0.first.id == t1.first.id && r.0.second.id == t1.second.id
    ensures r.1.first.id == t2.first.id && r.1.second.id == t2.second.id
    ensures r.0.score == t1.score && r.1.score == t2.score
    ensures var (n1, n2) := engine.rate(Pair(t1.first.rating, t1.second.rating), Pair(t2.first.rating, t2.second.rating), t1.score, t2.score);
      && r.0.first.rating == n1.first && r.0.second.rating == n1.second
      && r.1.first.rating == n2.first && r.1.second.rating == n2.second
  {
    var (n1, n2) := engine.rate(Pair(t1.first.rating, t1.second.rating), Pair(t2.first.rating, t2.second.rating), t1.score, t2.score);
    (Side(Seat(t1.first.id, n1.first), Seat(t1.second.id, n1.second), t1.score),
     Side(Seat(t2.first.id, n2.first), Seat(t2.second.id, n2.second), t2.score))
  }

  /** `calculateMatch`: seat both teams, then rate them. */
  function CalculateMatch(engine: Engine, req: CalcRequest, known: map<Id, Rating>): (r: Result<(Side, Side), Crash>)
    ensures r.Ok? <==> Seated(req, known).Ok?
    ensures r.Ok? ==> r.value == Rate(engine, Seated(req, known).value.0, Seated(req, known).value.1)
  {
    var (t1, t2) :- Seated(req, known);
    Ok(Rate(engine, t1, t2))
  }

  function ResultOf(engine: Engine, s: Seat): PlayerResult {
    PlayerResult(s.id, s.rating.mu, s.rating.sigma, Truncate(engine.display(s.rating.mu, s.rating.sigma)))
  }

  /** Go's `int(x)` on a float: the integer part, toward zero. */
  function Truncate(x: real): (r: int)
    ensures x >= 0.0 ==> r as real <= x < r as real + 1.0
    ensures x < 0.0 ==> r as real - 1.0 < x <= r as real
  {
    if x >= 0.0 then x.Floor else -((-x).Floor)
  }

  /** `createTeamResult`: the score as the request gave it, and the side's
      players in seat order with their new ratings and display values. */
  function TeamResultOf(engine: Engine, score: int, side: Side): (r: TeamResult)
    ensures r.score == score && |r.players| == 2
    ensures r.players[0].id == side.first.id && r.players[1].id == side.second.id
    ensures r.players[0].mu == side.first.rating.mu && r.players[0].sigma == side.first.rating.sigma
    ensures r.players[1].mu == side.second.rating.mu && r.players[1].sigma == side.second.rating.sigma
  {
    TeamResult(score, [ResultOf(engine, side.first), ResultOf(engine, side.second)])
  }

  /** `GenerateResponse`. */
  function Respond(engine: Engine, req: CalcRequest, t1: Side, t2: Side): (r: CalcResponse)
    requires req.team1.score.Some? && req.team2.score.Some?
    ensures r.team1 == TeamResultOf(engine, req.team1.score.value, t1)
    ensures r.team2 == TeamResultOf(engine, req.team2.score.value, t2)
  {
    CalcResponse(TeamResultOf(engine, req.team1.score.value, t1), TeamResultOf(engine, req.team2.score.value, t2))
  }

  /** `SubmitMMRCalculation`: no earlier ratings; the player check's verdict
      travels with the reply. */
  function SubmitOne(engine: Engine, req: CalcRequest): (r: Result<Reply, Crash>)
    ensures r.Ok? <==> Complete(req.team1) && Complete(req.team2)
    ensures r.Ok? ==> r.value.abort == EnsurePlayers(req)
  {
    match CalculateMatch(engine, req, map[])
    case Err(e) => Err(e)
    case Ok((t1, t2)) => Ok(Reply(EnsurePlayers(req), Respond(engine, req, t1, t2)))
  }

  /** The batch's map after a rated match: each of the four players' new
      rating, written team one first, so a repeated id keeps the last. */
  function Learn(known: map<Id, Rating>, t1: Side, t2: Side): (r: map<Id, Rating>)
    ensures r.Keys == known.Keys + {t1.first.id, t1.second.id, t2.first.id, t2.second.id}
    ensures forall x :: x in known && x !in {t1.first.id, t1.second.id, t2.first.id, t2.second.id} ==> r[x] == known[x]
    ensures Distinct([t1.first.id, t1.second.id, t2.first.id, t2.second.id]) ==>
      && r[t1.first.id] == t1.first.rating && r[t1.second.id] == t1.second.rating
      && r[t2.first.id] == t2.first.rating && r[t2.second.id] == t2.second.rating
  {
    var ids := [t1.first.id, t1.second.id, t2.first.id, t2.second.id];
    assert Distinct(ids) ==> ids[0] != ids[1] && ids[0] != ids[2] && ids[0] != ids[3]
                             && ids[1] != ids[2] && ids[1] != ids[3] && ids[2] != ids[3];
    known[t1.first.id := t1.first.rating][t1.second.id := t1.second.rating]
         [t2.first.id := t2.first.rating][t2.second.id := t2.second.rating]
  }

  /** A reply lists two players for each team. */
  predicate TwoAndTwo(reply: Reply) {
    |reply.response.team1.players| == 2 && |reply.response.team2.players| == 2
  }

  /** One request of the batch: its reply and the map it leaves. */
  function BatchStep(engine: Engine, req: CalcRequest, known: map<Id, Rating>): (r: Result<(Reply, map<Id, Rating>), Crash>)
    ensures r.Ok? <==> Complete(req.team1) && Complete(req.team2)
    ensures r.Ok? ==> r.value.0.abort == EnsurePlayers(req) && TwoAndTwo(r.value.0)
  {
    var (t1, t2) :- CalculateMatch(engine, req, known);
    Ok((Reply(EnsurePlayers(req), Respond(engine, req, t1, t2)), Learn(known, t1, t2)))
  }

  /** Every request of the batch can be seated. */
  predicate AllComplete(reqs: seq<CalcRequest>) {
    forall i :: 0 <= i < |reqs| ==> Complete(reqs[i].team1) && Complete(reqs[i].team2)
  }

  /** The batch as a fold over its requests: the replies so far and the map. */
  function Replay(engine: Engine, reqs: seq<CalcRequest>): (r: Result<(seq<Reply>, map<Id, Rating>), Crash>)
    ensures r.Ok? <==> AllComplete(reqs)
    ensures r.Ok? ==> |r.value.0| == |reqs|
    ensures r.Ok? ==> forall i :: 0 <= i < |reqs| ==> TwoAndTwo(r.value.0[i])
    decreases |reqs|
  {
    if |reqs| == 0 then Ok(([], map[]))
    else
      var init, last := reqs[..|reqs| - 1], reqs[|reqs| - 1];
      assert reqs == init + [last];
      assert AllComplete(reqs) <==> AllComplete(init) && Complete(last.team1) && Complete(last.team2);
      match Replay(engine, init)
      case Err(e) => Err(e)
      case Ok((replies, known)) =>
        match BatchStep(engine, last, known)
        case Err(e) => Err(e)
        case Ok((reply, known')) => Ok((replies + [reply], known'))
  }

  /** The map the batch holds when it reaches request `i`. */
  function KnownBefore(engine: Engine, reqs: seq<CalcRequest>, i: nat): (r: Result<map<Id, Rating>, Crash>)
    requires i <= |reqs|
  {
    var (_, known) :- Replay(engine, reqs[..i]);
    Ok(known)
  }

  /** `SubmitMMRCalculationsBatch`: the requests in order, each seated
      from the ratings of the requests before it. */
  method SubmitBatch(engine: Engine, reqs: seq<CalcRequest>) returns (r: Result<seq<Reply>, Crash>)
    ensures r.Ok? <==> AllComplete(reqs)
    ensures r.Ok? ==> |r.value| == |reqs|
    ensures r.Ok? ==> Replay(engine, reqs).Ok? && r.value == Replay(engine, reqs).value.0
  {
    var replies: seq<Reply> := [];
    var known: map<Id, Rating> := map[];
    var i := 0;
    assert reqs[..0] == [];
    while i < |reqs|
      invariant 0 <= i <= |reqs|
      invariant Replay(engine, reqs[..i]) == Ok((replies, known))
    {
      PrefixOfPrefix(reqs, i + 1, i);
      var step := BatchStep(engine, reqs[i], known);
      if step.Err? {
        BatchStopsAtCrash(engine, reqs, i);
        return Err(Crash);
      }
      replies, known := replies + [step.value.0], step.value.1;
      i := i + 1;
    }
    assert reqs[..i] == reqs;
    return Ok(replies);
  }

  /** A request that cannot be seated fails the whole batch. */
  lemma BatchStopsAtCrash(engine: Engine, reqs: seq<CalcRequest>, i: nat)
    requires i < |reqs| && !(Complete(reqs[i].team1) && Complete(reqs[i].team2))
    ensures Replay(engine, reqs).Err?
  {
  }

  /** Unfolding the fold once more: request `i`'s reply is its own step from
      the map the earlier requests left. */
  lemma ReplayStep(engine: Engine, reqs: seq<CalcRequest>, i: nat)
    requires i < |reqs| && Replay(engine, reqs[..i + 1]).Ok?
    ensures KnownBefore(engine, reqs, i).Ok?
    ensures BatchStep(engine, reqs[i], KnownBefore(engine, reqs, i).value).Ok?
    ensures var step := BatchStep(engine, reqs[i], KnownBefore(engine, reqs, i).value).value;
      && Replay(engine, reqs[..i + 1]).value.0[i] == step.0
      && Replay(engine, reqs[..i + 1]).value.1 == step.1
      && KnownBefore(engine, reqs, i + 1) == Ok(step.1)
  {
    PrefixOfPrefix(reqs, i + 1, i);
  }

  /** Earlier replies are not revised by later requests. */
  lemma {:induction false} ReplayPrefix(engine: Engine, reqs: seq<CalcRequest>, i: nat)
    requires i < |reqs| && Replay(engine, reqs).Ok?
    ensures Replay(engine, reqs[..i + 1]).Ok?
    ensures Replay(engine, reqs).value.0[i] == Replay(engine, reqs[..i + 1]).value.0[i]
    decreases |reqs|
  {
    if |reqs| > i + 1 {
      var init := reqs[..|reqs| - 1];
      ReplayKeepsReplies(engine, reqs);
      ReplayPrefix(engine, init, i);
      PrefixOfPrefix(reqs, |reqs| - 1, i + 1);
      var full := Replay(engine, reqs).value.0;
      assert full[i] == full[..|reqs| - 1][i];
    } else {
      assert reqs[..i + 1] == reqs;
    }
  }

  lemma PrefixOfPrefix<T>(s: seq<T>, m: nat, n: nat)
    requires n <= m <= |s|
    ensures s[..m][..n] == s[..n]
  {
  }

  /** One more request appends one reply and keeps the earlier ones. */
  lemma ReplayKeepsReplies(engine: Engine, reqs: seq<CalcRequest>)
    requires |reqs| > 0 && Replay(engine, reqs).Ok?
    ensures Replay(engine, reqs[..|reqs| - 1]).Ok?
    ensures Replay(engine, reqs).value.0[..|reqs| - 1] == Replay(engine, reqs[..|reqs| - 1]).value.0
  {
    var (replies, _) := Replay(engine, reqs[..|reqs| - 1]).value;
    var (reply, _) := BatchStep(engine, reqs[|reqs| - 1], Replay(engine, reqs[..|reqs| - 1]).value.1).value;
    assert Replay(engine, reqs).value.0 == replies + [reply];
    assert (replies + [reply])[..|replies|] == replies;
  }

  /** Reply `i` of the batch is what request `i` gives from the ratings the
      requests before it produced; the first request of a batch is answered
      as the single-match endpoint answers it. */
  lemma BatchReplyIsStep(engine: Engine, reqs: seq<CalcRequest>, i: nat)
    requires i < |reqs| && Replay(engine, reqs).Ok?
    ensures KnownBefore(engine, reqs, i).Ok?
    ensures Replay(engine, reqs).value.0[i] == BatchStep(engine, reqs[i], KnownBefore(engine, reqs, i).value).value.0
    ensures i == 0 ==> SubmitOne(engine, reqs[0]) == Ok(Replay(engine, reqs).value.0[0])
  {
    ReplayPrefix(engine, reqs, i);
    ReplayStep(engine, reqs, i);
    if i == 0 {
      assert reqs[..0] == [];
    }
  }

  /** After a request whose four players are distinct, each of them is
      known at the new rating its reply reports. */
  lemma StepTeachesRatings(engine: Engine, req: CalcRequest, known: map<Id, Rating>, j: nat, k: nat)
    requires BatchStep(engine, req, known).Ok? && EnsurePlayers(req).None?
    requires k < 2 && j < 2
    ensures var (reply, known') := BatchStep(engine, req, known).value;
      var shown := (if j == 0 then reply.response.team1 else reply.response.team2).players[k];
      shown.id in known' && known'[shown.id] == Rating(shown.mu, shown.sigma)
  {
    var (t1, t2) := CalculateMatch(engine, req, known).value;
    var ids := RequestIds(req);
    assert ids == [req.team1.players[0].id, req.team1.players[1].id, req.team2.players[0].id, req.team2.players[1].id];
    assert [t1.first.id, t1.second.id, t2.first.id, t2.second.id] == ids;
  }

  /** So a later request of the batch that names one of those players
      starts from the rating reply `i` reports, whatever ratings it carries. */
  lemma LaterRequestsSeeNewRatings(engine: Engine, reqs: seq<CalcRequest>, i: nat, j: nat, k: nat)
    requires i < |reqs| && Replay(engine, reqs).Ok?
    requires EnsurePlayers(reqs[i]).None?
    requires k < 2 && j < 2
    ensures KnownBefore(engine, reqs, i + 1).Ok?
    ensures var reply := Replay(engine, reqs).value.0[i];
      var shown := (if j == 0 then reply.response.team1 else reply.response.team2).players[k];
      && shown.id in KnownBefore(engine, reqs, i + 1).value
      && KnownBefore(engine, reqs, i + 1).value[shown.id] == Rating(shown.mu, shown.sigma)
  {
    ReplayPrefix(engine, reqs, i);
    ReplayStep(engine, reqs, i);
    var known := KnownBefore(engine, reqs, i).value;
    var step := BatchStep(engine, reqs[i], known).value;
    StepTeachesRatings(engine, reqs[i], known, j, k);
    assert Replay(engine, reqs).value.0[i] == step.0;
    assert KnownBefore(engine, reqs, i + 1).value == step.1;
  }

  /** The single-match endpoint with four distinct, fully rated players
      who are not returning from an earlier season rates them from the
      request's own values. */
  lemma SingleUsesRequestRatings(engine: Engine, req: CalcRequest)
    requires Complete(req.team1) && Complete(req.team2)
    requires forall p :: p in req.team1.players[..2] + req.team2.players[..2] ==>
      p.mu.Some? && p.sigma.Some? && p.isPreviousSeasonRating != Some(true)
    ensures var (t1, t2) := Seated(req, map[]).value;
      && t1.first.rating == Rating(req.team1.players[0].mu.value, req.team1.players[0].sigma.value)
      && t2.second.rating == Rating(req.team2.players[1].mu.value, req.team2.players[1].sigma.value)
  {
    assert req.team1.players[0] in req.team1.players[..2] + req.team2.players[..2];
    assert req.team2.players[1] in req.team1.players[..2] + req.team2.players[..2];
  }

  /** The library sees a score as the request gave it only within 16 bits:
      a score of 65536 reaches it as 0. */
  lemma ScoreNarrowing()
    ensures forall s :: -32768 <= s < 32768 ==> Int16(s) == s
    ensures Int16(65536) == 0 && Int16(32768) == -32768
  {
  }
}
