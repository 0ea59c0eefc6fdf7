/** The Go rating service's team generator: of the three ways to split four
    players into two pairs, the one whose predicted outcome is closest to
    even.

    The library's win prediction is the parameter `predict`: team one's
    chance of beating team two, given both pairs' ratings. Probabilities
    are modelled as exact reals. */
module TeamBalance {
  import opened Calculation

  datatype Split = Split(team1: seq<Seat>, team2: seq<Seat>)

  type Predict = (Pair, Pair) -> real

  /** `abs`. */
  function Abs(x: real): (r: real)
    ensures r >= 0.0 && (r == x || r == -x)
  {
    if x < 0.0 then -x else x
  }

  /** `generateTeamCombinations`: player one partners each other player in
      turn, in the order two, three, four. */
  function Combinations(p1: Seat, p2: Seat, p3: Seat, p4: Seat): (r: seq<Split>)
    ensures |r| == 3 && Pairs(r)
    ensures forall k :: 0 <= k < 3 ==> r[k].team1[0] == p1
    ensures r[0].team1[1] == p2 && r[1].team1[1] == p3 && r[2].team1[1] == p4
  {
    [Split([p1, p2], [p3, p4]), Split([p1, p3], [p2, p4]), Split([p1, p4], [p2, p3])]
  }

  /** `calculateWinProbability`. */
  function WinProbability(predict: Predict, s: Split): real
    requires |s.team1| == 2 && |s.team2| == 2
  {
    predict(Pair(s.team1[0].rating, s.team1[1].rating), Pair(s.team2[0].rating, s.team2[1].rating))
  }

  predicate Pairs(splits: seq<Split>) {
    forall k :: 0 <= k < |splits| ==> |splits[k].team1| == 2 && |splits[k].team2| == 2
  }

  /** How far each split is from an even match. */
  function Imbalances(predict: Predict, splits: seq<Split>): (d: seq<real>)
    requires Pairs(splits)
    ensures |d| == |splits|
    ensures forall k :: 0 <= k < |d| ==> d[k] == Abs(WinProbability(predict, splits[k]) - 0.5)
  {
    seq(|splits|, k requires 0 <= k < |splits| => Abs(WinProbability(predict, splits[k]) - 0.5))
  }

  /** The position the selection settles on, stated without the loop: the
      first of the least imbalances below 1, or the first position when
      none is below 1. */
  predicate ChosenAt(d: seq<real>, k: int) {
    && 0 <= k < |d|
    && (forall j :: 0 <= j < |d| && d[j] < 1.0 ==> d[k] <= d[j])
    && (forall j :: 0 <= j < k ==> d[j] > d[k] || d[j] >= 1.0)
    && (d[k] < 1.0 || k == 0)
  }

  /** The selection loop of `GenerateTeams`: starting from the first
      position and a bound of 1, a position replaces the current choice only
      when strictly more even, so ties keep the earlier one. */
  method MostEven(d: seq<real>) returns (best: nat)
    requires |d| > 0
    ensures ChosenAt(d, best)
  {
    best := 0;
    var smallestDiff := 1.0;
    var i := 0;
    while i < |d|
      invariant 0 <= i <= |d| && best < |d|
      invariant best == 0 || best < i
      invariant smallestDiff <= 1.0
      invariant smallestDiff < 1.0 ==> smallestDiff == d[best]
      invariant smallestDiff == 1.0 ==> best == 0
      invariant forall j :: 0 <= j < i ==> smallestDiff <= d[j]
      invariant forall j :: 0 <= j < i && j < best ==> d[j] > smallestDiff
      invariant i > 0 && smallestDiff == 1.0 ==> d[0] >= 1.0
    {
      if d[i] < smallestDiff {
        smallestDiff := d[i];
        best := i;
      }
      i := i + 1;
    }
  }

  /** `GenerateTeams`: the teams of the split the selection picks. */
  method GenerateTeams(predict: Predict, p1: Seat, p2: Seat, p3: Seat, p4: Seat) returns (team1: seq<Seat>, team2: seq<Seat>)
    ensures var splits := Combinations(p1, p2, p3, p4);
      exists k :: ChosenAt(Imbalances(predict, splits), k) && splits[k] == Split(team1, team2)
  {
    var splits := Combinations(p1, p2, p3, p4);
    var best := MostEven(Imbalances(predict, splits));
    return splits[best].team1, splits[best].team2;
  }

  /** When the prediction is a probability, every split is within one half
      of even, so the choice is the first most even split. */
  lemma ProbabilitiesPickFirstMostEven(predict: Predict, splits: seq<Split>, k: nat)
    requires forall a: Pair, b: Pair :: 0.0 <= predict(a, b) <= 1.0
    requires Pairs(splits) && ChosenAt(Imbalances(predict, splits), k)
    ensures var d := Imbalances(predict, splits);
      && (forall j :: 0 <= j < |d| ==> d[k] <= d[j])
      && (forall j :: 0 <= j < k ==> d[j] > d[k])
  {
    var d := Imbalances(predict, splits);
    forall j | 0 <= j < |d| ensures d[j] <= 0.5 {
      var p := WinProbability(predict, splits[j]);
      assert 0.0 <= p <= 1.0;
    }
  }

  /** Four distinct players: in every split both teams are pairs, no one
      plays on both, and everyone plays. */
  lemma SplitsArePartitions(p1: Seat, p2: Seat, p3: Seat, p4: Seat, k: nat)
    requires k < 3
    requires p1.id != p2.id && p1.id != p3.id && p1.id != p4.id && p2.id != p3.id && p2.id != p4.id && p3.id != p4.id
    ensures var s := Combinations(p1, p2, p3, p4)[k];
      && (forall a, b :: 0 <= a < 2 && 0 <= b < 2 ==> s.team1[a].id != s.team2[b].id)
      && (forall p :: p in [p1, p2, p3, p4] <==> p in s.team1 || p in s.team2)
  {
    var c := Combinations(p1, p2, p3, p4);
    if k == 0 {
      assert c[0] == Split([p1, p2], [p3, p4]);
    } else if k == 1 {
      assert c[1] == Split([p1, p3], [p2, p4]);
    } else {
      assert c[2] == Split([p1, p4], [p2, p3]);
    }
  }

  /** The three splits are the only ones: any pairing of player one with
      another player is one of them, and no two of them agree. */
  lemma CombinationsAreAllSplits(p1: Seat, p2: Seat, p3: Seat, p4: Seat)
    requires p1.id != p2.id && p1.id != p3.id && p1.id != p4.id && p2.id != p3.id && p2.id != p4.id && p3.id != p4.id
    ensures var c := Combinations(p1, p2, p3, p4);
      && (forall x :: x in [p2, p3, p4] ==> exists k :: 0 <= k < 3 && c[k].team1 == [p1, x])
      && (forall a, b :: 0 <= a < b < 3 ==> c[a].team1[1].id != c[b].team1[1].id)
  {
    var c := Combinations(p1, p2, p3, p4);
    assert c[0].team1 == [p1, p2] && c[1].team1 == [p1, p3] && c[2].team1 == [p1, p4];
  }
}
