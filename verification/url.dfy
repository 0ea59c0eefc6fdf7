/** The front end's helper that adds the selected season to a link. */
module Url {
  import opened Wrappers
  import opened Text

  const SeasonKey: string := "season="

  /** `withSeasonParam`: no season, or season 0, leaves the path alone;
      otherwise `season=<id>` is appended as a further parameter when the
      path already has a query and as the query otherwise. */
  function WithSeasonParam(path: string, seasonId: Option<int>): (r: string)
    ensures seasonId.None? || seasonId.value == 0 ==> r == path
    ensures StartsWith(r, path)
    ensures seasonId.Some? && seasonId.value != 0 ==> |r| > |path| + |SeasonKey| && '?' in r
  {
    if seasonId.None? || seasonId.value == 0 then path
    else
      var separator := if '?' in path then '&' else '?';
      var r := path + [separator] + SeasonKey + IntToString(seasonId.value);
      assert r[..|path|] == path;
      assert '?' in path || r[|path|] == '?';
      r
  }

  /** The appended part reads back: the separator tells whether the path
      had a query, and the value after `season=` parses as the season id. */
  lemma SeasonParamReadsBack(path: string, seasonId: int)
    requires seasonId != 0
    ensures var r := WithSeasonParam(path, Some(seasonId));
      && (r[|path|] == '&' <==> '?' in path)
      && (r[|path|] == '?' <==> '?' !in path)
      && r[|path| + 1..|path| + 1 + |SeasonKey|] == SeasonKey
      && ParseInt(r[|path| + 1 + |SeasonKey|..]) == Some(seasonId)
  {
    var r := WithSeasonParam(path, Some(seasonId));
    assert r[|path| + 1 + |SeasonKey|..] == IntToString(seasonId);
    assert r[|path| + 1..|path| + 1 + |SeasonKey|] == SeasonKey;
    IntToStringRoundTrip(seasonId);
  }

  /** Adding a season to a link that already carries one adds a second
      parameter rather than replacing the first. */
  lemma SecondSeasonIsAppended(path: string, a: int, b: int)
    requires a != 0 && b != 0
    ensures var once := WithSeasonParam(path, Some(a));
      WithSeasonParam(once, Some(b)) == once + "&" + SeasonKey + IntToString(b)
  {
  }
}
