/** The JSON contract between the .NET services and the rating engine: the
    request carries each team's score and the four players' prior ratings,
    the response each player's new rating and display MMR. */
module EngineApi {
  import opened Wrappers
  import opened Ordering

  /** A player's prior rating; absent values are JSON nulls. */
  datatype PlayerRating = PlayerRating(
    id: Id,
    mu: Option<real>,
    sigma: Option<real>,
    isPreviousSeasonRating: Option<bool>)

  datatype CalcTeam = CalcTeam(score: Option<int>, players: seq<PlayerRating>)

  datatype CalcRequest = CalcRequest(team1: CalcTeam, team2: CalcTeam)

  datatype PlayerResult = PlayerResult(id: Id, mu: real, sigma: real, mmr: int)

  datatype TeamResult = TeamResult(score: int, players: seq<PlayerResult>)

  datatype CalcResponse = CalcResponse(team1: TeamResult, team2: TeamResult)

  /** Team one's results followed by team two's. */
  function AllResults(resp: CalcResponse): seq<PlayerResult> {
    resp.team1.players + resp.team2.players
  }

  predicate DistinctIds(rs: seq<PlayerResult>) {
    forall i, j :: 0 <= i < j < |rs| ==> rs[i].id != rs[j].id
  }

  /** `ToDictionary(x => x.Id)` over the results, which throws on a repeated
      id: `None` exactly then. */
  function ResultsById(resp: CalcResponse): (r: Option<map<Id, PlayerResult>>)
    ensures r.Some? <==> DistinctIds(AllResults(resp))
    ensures r.Some? ==> forall id :: id in r.value <==> exists i :: 0 <= i < |AllResults(resp)| && AllResults(resp)[i].id == id
    ensures r.Some? ==> forall i :: 0 <= i < |AllResults(resp)| ==> r.value[AllResults(resp)[i].id] == AllResults(resp)[i]
  {
    var rs := AllResults(resp);
    if DistinctIds(rs) then
      Some(map i | 0 <= i < |rs| :: rs[i].id := rs[i])
    else None
  }
}
