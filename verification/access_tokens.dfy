/** Personal access tokens: issuing one to a player, revoking it, listing a
    player's tokens and redeeming a presented token.

    Only a token's SHA-256 digest is stored. The digest is the parameter
    `hash` (any function from text to bytes), and the random part of a new
    token is the parameter `suffix`. Where a property needs digests not to
    collide, it says so as a premise about the stored digests. Every read
    goes through the query filter, so the tokens of a deleted player are
    neither found, listed nor revoked (`VisibleToken`). */
module AccessTokens {
  import opened Wrappers
  import opened Ordering
  import opened Entities
  import opened Text

  type Hash = string -> Digest

  const TokenPrefix: string := "pat_"

  datatype TokenError = TokenNotFound

  /** `GenerateTokenForPlayerAsync`: the plain text is the prefix followed
      by the random part; only its digest is stored, in a new row. */
  function GenerateToken(db: Db, playerId: Id, name: string, expiresAt: Option<Time>, suffix: string,
                         hash: Hash, now: Time): (r: (Db, Id, string))
    ensures var (d, t, plain) := r;
      && StartsWith(plain, TokenPrefix)
      && t !in db.tokens
      && d == db.(tokens := d.tokens)
      && d.tokens.Keys == db.tokens.Keys + {t}
      && (forall u :: u in db.tokens ==> d.tokens[u] == db.tokens[u])
      && d.tokens[t].tokenHash == hash(plain)
      && d.tokens[t].playerId == playerId && d.tokens[t].name == name && d.tokens[t].expiresAt == expiresAt
      && d.tokens[t].lastUsedAt.None? && d.tokens[t].createdAt == now
  {
    var plain := TokenPrefix + suffix;
    var t := FreshId(db.tokens.Keys);
    (db.(tokens := db.tokens[t := AccessToken(playerId, hash(plain), name, None, expiresAt, now, now)]), t, plain)
  }

  /** `RevokeTokenAsync`: the row is deleted only when both its id and its
      owner match; otherwise the call throws and nothing changes. */
  function RevokeToken(db: Db, tokenId: Id, playerId: Id): (r: Result<Db, TokenError>)
    ensures r.Ok? <==> VisibleToken(db, tokenId) && db.tokens[tokenId].playerId == playerId
    ensures r.Ok? ==> r.value == db.(tokens := r.value.tokens)
    ensures r.Ok? ==> r.value.tokens.Keys == db.tokens.Keys - {tokenId}
    ensures r.Ok? ==> forall u :: u in r.value.tokens ==> r.value.tokens[u] == db.tokens[u]
  {
    if VisibleToken(db, tokenId) && db.tokens[tokenId].playerId == playerId then
      Ok(db.(tokens := map u | u in db.tokens && u != tokenId :: db.tokens[u]))
    else Err(TokenNotFound)
  }

  /** A token created later is listed earlier; equal times by id. */
  function NewestTokensFirst(db: Db): (key: map<Id, int>)
    ensures key.Keys == db.tokens.Keys
  {
    map t | t in db.tokens :: -db.tokens[t].createdAt
  }

  /** Token `a` is listed before token `b`. */
  predicate NewerToken(db: Db, a: Id, b: Id) {
    a in db.tokens && b in db.tokens
    && (db.tokens[a].createdAt > db.tokens[b].createdAt
        || (db.tokens[a].createdAt == db.tokens[b].createdAt && a < b))
  }

  /** `ListTokensForPlayerAsync`: exactly the player's tokens, newest first;
      none once the player is deleted. */
  function ListTokens(db: Db, playerId: Id): (r: seq<Id>)
    ensures forall i :: 0 <= i < |r| ==> VisibleToken(db, r[i]) && db.tokens[r[i]].playerId == playerId
    ensures forall t :: VisibleToken(db, t) && db.tokens[t].playerId == playerId ==> t in r
    ensures !LivePlayer(db, playerId) ==> r == []
    ensures forall i, j :: 0 <= i < j < |r| ==> NewerToken(db, r[i], r[j])
  {
    var key := NewestTokensFirst(db);
    var r := OrderBy(key, set t | t in db.tokens && VisibleToken(db, t) && db.tokens[t].playerId == playerId);
    forall i, j | 0 <= i < j < |r|
      ensures NewerToken(db, r[i], r[j])
    {
      assert Before(key, r[i], r[j]);
    }
    r
  }

  /** The visible rows whose digest is `digest`. */
  function WithDigest(db: Db, digest: Digest): (s: set<Id>)
    ensures forall t :: t in s <==> VisibleToken(db, t) && db.tokens[t].tokenHash == digest
  {
    set t | t in db.tokens && VisibleToken(db, t) && db.tokens[t].tokenHash == digest
  }

  /** The row `FirstOrDefaultAsync(p => p.TokenHash == hash)` finds. */
  function FindByDigest(db: Db, digest: Digest): (r: Option<Id>)
    ensures r.None? <==> WithDigest(db, digest) == {}
    ensures r.Some? ==> VisibleToken(db, r.value) && db.tokens[r.value].tokenHash == digest
  {
    var s := WithDigest(db, digest);
    if s == {} then None else Some(Least(s))
  }

  /** A token with an expiry strictly before `now` is expired; one without
      an expiry never is. */
  predicate Expired(tok: AccessToken, now: Time) {
    tok.expiresAt.Some? && tok.expiresAt.value < now
  }

  /** `UseTokenAsync`: the row holding the token's digest, unless there is
      none or it has expired; a successful use stamps `LastUsedAt` and
      changes nothing else. */
  function UseToken(db: Db, token: string, hash: Hash, now: Time): (r: (Option<Id>, Db))
    ensures var (found, d) := r;
      && (found.None? <==> FindByDigest(db, hash(token)).None?
                           || Expired(db.tokens[FindByDigest(db, hash(token)).value], now))
      && (found.None? ==> d == db)
      && (found.Some? ==>
            && VisibleToken(db, found.value) && db.tokens[found.value].tokenHash == hash(token)
            && !Expired(db.tokens[found.value], now)
            && d == db.(tokens := db.tokens[found.value := db.tokens[found.value].(lastUsedAt := Some(now))]))
  {
    match FindByDigest(db, hash(token))
    case None => (None, db)
    case Some(t) =>
      if Expired(db.tokens[t], now) then (None, db)
      else (Some(t), db.(tokens := db.tokens[t := db.tokens[t].(lastUsedAt := Some(now))]))
  }

  /** A freshly issued token can be redeemed until it expires, provided no
      stored digest already equals the new one; a deleted player's token
      never is. */
  lemma GeneratedTokenRedeems(db: Db, playerId: Id, name: string, expiresAt: Option<Time>, suffix: string,
                              hash: Hash, now: Time, later: Time)
    requires forall u :: u in db.tokens ==> db.tokens[u].tokenHash != hash(TokenPrefix + suffix)
    ensures var (d, t, plain) := GenerateToken(db, playerId, name, expiresAt, suffix, hash, now);
      UseToken(d, plain, hash, later).0 ==
        if !LivePlayer(db, playerId) || (expiresAt.Some? && expiresAt.value < later) then None else Some(t)
  {
    var (d, t, plain) := GenerateToken(db, playerId, name, expiresAt, suffix, hash, now);
    if LivePlayer(db, playerId) {
      assert WithDigest(d, hash(plain)) == {t};
    } else {
      assert WithDigest(d, hash(plain)) == {};
    }
  }

  /** A revoked token is never redeemed again: when no other row shares
      its digest, the plain text that matched it matches no remaining row. */
  lemma RevokedTokenIsRejected(db: Db, tokenId: Id, playerId: Id, token: string, hash: Hash, now: Time)
    requires RevokeToken(db, tokenId, playerId).Ok?
    requires db.tokens[tokenId].tokenHash == hash(token)
    requires forall u :: u in db.tokens && u != tokenId ==> db.tokens[u].tokenHash != db.tokens[tokenId].tokenHash
    ensures UseToken(RevokeToken(db, tokenId, playerId).value, token, hash, now).0.None?
  {
    var d := RevokeToken(db, tokenId, playerId).value;
    assert WithDigest(d, hash(token)) == {};
  }

  /** Redeeming twice at the same instant leaves the same state as once. */
  lemma UseTwiceIsUseOnce(db: Db, token: string, hash: Hash, now: Time)
    ensures var once := UseToken(db, token, hash, now);
      UseToken(once.1, token, hash, now) == once
  {
    var once := UseToken(db, token, hash, now);
    if once.0.Some? {
      var t := once.0.value;
      assert WithDigest(once.1, hash(token)) == WithDigest(db, hash(token));
      assert once.1.tokens[t := once.1.tokens[t].(lastUsedAt := Some(now))] == once.1.tokens;
    }
  }
}
