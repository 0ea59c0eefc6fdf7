/** The authentication handler for personal access tokens: from the
    `Authorization` header to no result, a failure, or a signed-in player. */
module TokenAuth {
  import opened Wrappers
  import opened Ordering
  import opened Entities
  import opened Text
  import opened AccessTokens

  const BearerPrefix: string := "Bearer "

  const NameIdentifierClaim: string := "http://schemas.xmlsoap.org/ws/2005/05/identity/claims/nameidentifier"

  datatype Claim = Claim(kind: string, value: string)

  /** `NoResult` lets other schemes try; `Fail` stops with a message. */
  datatype AuthResult = NoResult | Fail(message: string) | Success(claims: seq<Claim>)

  /** The token part of a header: what follows the seven characters of the
      scheme, without surrounding white space; none when the header is
      missing, empty or not a bearer header. */
  function BearerToken(header: Option<string>): (r: Option<string>)
    ensures r.Some? <==> header.Some? && header.value != [] && StartsWithIgnoreCase(header.value, BearerPrefix)
    ensures r.Some? ==> r.value == Trim(header.value[|BearerPrefix|..])
  {
    if header.None? || header.value == [] then None
    else if !StartsWithIgnoreCase(header.value, BearerPrefix) then None
    else Some(Trim(header.value[|BearerPrefix|..]))
  }

  /** The four claims of a player signed in with token row `t`. */
  function ClaimsFor(playerId: Id, t: Id): (c: seq<Claim>)
    ensures |c| == 4
  {
    [Claim(NameIdentifierClaim, IntToString(playerId)), Claim("sub", IntToString(playerId)),
     Claim("auth_method", "pat"), Claim("pat_id", IntToString(t))]
  }

  /** `HandleAuthenticateAsync`: only headers carrying a `pat_` bearer token
      are this scheme's business; such a token must match a stored digest
      and must not have expired, and a successful sign-in stamps the row's
      last use. A token whose owner is deleted is an unknown token. */
  function Authenticate(db: Db, header: Option<string>, hash: Hash, now: Time): (r: (AuthResult, Db))
    ensures var (res, d) := r;
      && (res.NoResult? <==> BearerToken(header).None? || !StartsWith(BearerToken(header).value, TokenPrefix))
      && (!res.Success? ==> d == db)
      && (res.Fail? ==> res.message == "Invalid token" || res.message == "Token expired")
      && (res.Success? ==>
            && FindByDigest(db, hash(BearerToken(header).value)).Some?
            && var t := FindByDigest(db, hash(BearerToken(header).value)).value;
               && LivePlayer(db, db.tokens[t].playerId)
               && res.claims == ClaimsFor(db.tokens[t].playerId, t))
  {
    match BearerToken(header)
    case None => (NoResult, db)
    case Some(token) =>
      if !StartsWith(token, TokenPrefix) then (NoResult, db)
      else
        match FindByDigest(db, hash(token))
        case None => (Fail("Invalid token"), db)
        case Some(t) =>
          if Expired(db.tokens[t], now) then (Fail("Token expired"), db)
          else
            var d := db.(tokens := db.tokens[t := db.tokens[t].(lastUsedAt := Some(now))]);
            (Success(ClaimsFor(db.tokens[t].playerId, t)), d)
  }

  /** Once the header holds a `pat_` token, the handler decides exactly as
      the token service's `UseTokenAsync` does: it signs in the player of
      the row the service would return, leaves the same state behind, and
      tells an unknown token from an expired one. */
  lemma HandlerAgreesWithService(db: Db, header: Option<string>, hash: Hash, now: Time)
    requires BearerToken(header).Some? && StartsWith(BearerToken(header).value, TokenPrefix)
    ensures var token := BearerToken(header).value;
      var (res, d) := Authenticate(db, header, hash, now);
      var (found, d') := UseToken(db, token, hash, now);
      && d == d'
      && (res.Success? <==> found.Some?)
      && (res.Success? ==> res.claims == ClaimsFor(db.tokens[found.value].playerId, found.value))
      && (res == Fail("Invalid token") <==> FindByDigest(db, hash(token)).None?)
  {
  }

  /** The subject claim reads back as the signed-in player's id, and the
      token-id claim as the row's id. */
  lemma ClaimsIdentifyPlayer(playerId: Id, t: Id)
    ensures var c := ClaimsFor(playerId, t);
      && c[0].kind == NameIdentifierClaim && ParseInt(c[0].value) == Some(playerId)
      && c[1].kind == "sub" && ParseInt(c[1].value) == Some(playerId)
      && c[3].kind == "pat_id" && ParseInt(c[3].value) == Some(t)
  {
    IntToStringRoundTrip(playerId);
    IntToStringRoundTrip(t);
  }

  /** The scheme name is matched without regard to letter case, so
      `bearer` and `BEARER` headers are read the same way. */
  lemma SchemeIgnoresCase(rest: string, db: Db, hash: Hash, now: Time)
    ensures Authenticate(db, Some("bearer " + rest), hash, now) == Authenticate(db, Some(BearerPrefix + rest), hash, now)
    ensures Authenticate(db, Some("BEARER " + rest), hash, now) == Authenticate(db, Some(BearerPrefix + rest), hash, now)
  {
    SchemeSpellings();
    SpellingOfScheme("bearer ", rest);
    SpellingOfScheme("BEARER ", rest);
    SpellingOfScheme(BearerPrefix, rest);
    SameTokenSameOutcome(db, Some("bearer " + rest), Some(BearerPrefix + rest), hash, now);
    SameTokenSameOutcome(db, Some("BEARER " + rest), Some(BearerPrefix + rest), hash, now);
  }

  /** The handler looks at nothing in the header but its token. */
  lemma SameTokenSameOutcome(db: Db, h1: Option<string>, h2: Option<string>, hash: Hash, now: Time)
    requires BearerToken(h1) == BearerToken(h2)
    ensures Authenticate(db, h1, hash, now) == Authenticate(db, h2, hash, now)
  {
  }

  lemma SchemeSpellings()
    ensures StartsWithIgnoreCase("bearer ", BearerPrefix)
    ensures StartsWithIgnoreCase("BEARER ", BearerPrefix)
    ensures StartsWithIgnoreCase(BearerPrefix, BearerPrefix)
  {
    var lower, upper := "bearer ", "BEARER ";
    forall i | 0 <= i < 7
      ensures AsciiUpper(lower[i]) == AsciiUpper(BearerPrefix[i]) == AsciiUpper(upper[i])
    {
      if i == 0 {
      } else if i == 1 || i == 4 {
        assert AsciiUpper('e') == 'E';
      } else if i == 2 {
        assert AsciiUpper('a') == 'A';
      } else if i == 3 || i == 5 {
        assert AsciiUpper('r') == 'R';
      }
    }
  }

  /** A header made of a spelling of the scheme and the rest carries the
      trimmed rest as its token. */
  lemma SpellingOfScheme(scheme: string, rest: string)
    requires |scheme| == 7 && StartsWithIgnoreCase(scheme, BearerPrefix)
    ensures BearerToken(Some(scheme + rest)) == Some(Trim(rest))
  {
    var h := scheme + rest;
    assert h[..7] == scheme;
    assert h[7..] == rest;
  }

  /** Padding around the token does not matter, but the token itself must
      begin with the lower-case prefix. */
  lemma TokenPrefixIsCaseSensitive(db: Db, hash: Hash, now: Time, rest: string)
    ensures Authenticate(db, Some(BearerPrefix + "PAT_" + rest), hash, now).0 == NoResult
  {
    var header := BearerPrefix + "PAT_" + rest;
    assert header[7..] == "PAT_" + rest;
  }
}
