/** The session repository as an object over its table, one method per statement. */
module SessionRepositories {
  import opened Options
  import opened Sessions

  // ---------------------------------------------------------------- what a call means for later ones

  /** All rows but this one are as before, and none is new. */
  ghost predicate OthersKept(before: Table, after: Table, uri: string) {
    && before.Keys <= after.Keys <= before.Keys + {uri}
    && (forall other :: other in before && other != uri ==> after[other] == before[other])
  }

  /** The refresh token hash leads to this session at exactly the times before its expiry. */
  ghost predicate HashLeadsTo(rows: Table, hash: string, uri: string, expiresAt: int) {
    uri in rows && forall t ::
      Step(rows, FindByHash(hash), t).1 == (if t < expiresAt then Found(uri, rows[uri]) else NoRow)
  }

  /** ... and so does the code, for a lookup and for its redemption. */
  ghost predicate CodeLeadsTo(rows: Table, code: string, uri: string, expiresAt: int) {
    uri in rows && forall t ::
      && Step(rows, FindByCode(code), t).1 == (if t < expiresAt then Found(uri, rows[uri]) else NoRow)
      && Step(rows, ConsumeCode(code), t).1
         == (if t < expiresAt then Found(uri, rows[uri].(code := None, codeExpiresAt := None)) else NoRow)
  }

  /** Every code and every hash leads where it led before. */
  ghost predicate SameKeys(before: Table, after: Table) {
    && after.Keys == before.Keys
    && (forall uri, code, t :: uri in before ==>
          (Redeemable(after[uri], code, t) <==> Redeemable(before[uri], code, t)))
    && (forall uri, hash, t :: uri in before ==>
          (Refreshable(after[uri], hash, t) <==> Refreshable(before[uri], hash, t)))
  }

  /** The access token and the DPoP binding of the row are the ones given. */
  predicate Carries(row: Session, tokens: Tokens) {
    && row.jti == Some(tokens.jti) && row.accessExpiresAt == Some(tokens.accessExpiresAt)
    && row.dpopJkt == tokens.dpopJkt && row.dpopNonce == tokens.dpopNonce
  }

  /** The two rows have the same request, user, DID and approval, and the same revocation. */
  predicate SameGrant(a: Session, b: Session) {
    && a.par == b.par && a.user == b.user && a.did == b.did && a.approvedAt == b.approvedAt
    && a.revokedAt == b.revokedAt && a.hashRevokedAt == b.hashRevokedAt
  }

  lemma HashIsFound(rows: Table, uri: string, hash: string, expiresAt: int)
    requires Inv(rows) && Open(rows, uri)
    requires rows[uri].hash == Some(hash) && rows[uri].hashExpiresAt == Some(expiresAt)
    ensures HashLeadsTo(rows, hash, uri, expiresAt)
  {
    assert Consistent(rows[uri]);
    forall t
      ensures Step(rows, FindByHash(hash), t).1 == (if t < expiresAt then Found(uri, rows[uri]) else NoRow)
    {
      if t < expiresAt {
        assert Refreshable(rows[uri], hash, t);
      }
      var holder := WithHash(rows, hash, t);
      if holder.Some? {
        OneHolder(rows, uri, holder.value);
      }
    }
  }

  lemma CodeIsFound(rows: Table, uri: string, code: string, expiresAt: int)
    requires Inv(rows) && Open(rows, uri)
    requires rows[uri].code == Some(code) && rows[uri].codeExpiresAt == Some(expiresAt)
    ensures CodeLeadsTo(rows, code, uri, expiresAt)
  {
    var cleared := rows[uri].(code := None, codeExpiresAt := None);
    forall other | other in rows && other != uri ensures !SharesKey(rows[other], cleared) {
      assert !SharesKey(rows[other], rows[uri]);
    }
    forall t
      ensures Step(rows, FindByCode(code), t).1 == (if t < expiresAt then Found(uri, rows[uri]) else NoRow)
      ensures Step(rows, ConsumeCode(code), t).1 == (if t < expiresAt then Found(uri, cleared) else NoRow)
    {
      if t < expiresAt {
        assert Redeemable(rows[uri], code, t);
      }
      var holder := WithCode(rows, code, t);
      if holder.Some? {
        OneHolder(rows, uri, holder.value);
      }
    }
  }

  /** The user, the DID and the time of approval are the ones given; the rest is as before. */
  predicate Approved(after: Session, before: Session, user: string, did: string, now: int) {
    && after.user == Some(user) && after.did == Some(did) && after.approvedAt == Some(now)
    && after.par == before.par && after.dpopJkt == before.dpopJkt && after.dpopNonce == before.dpopNonce
    && after.jti == before.jti && after.accessExpiresAt == before.accessExpiresAt
  }

  /** An approval succeeds on every open session and on no other, never conflicts, changes no lookup by
    * code or hash, and puts the session among those revoked with its user. */
  lemma ApprovalHolds(rows: Table, uri: string, user: string, did: string, now: int)
    requires Inv(rows)
    ensures var (rows', reply) := Step(rows, Approve(uri, user, did), now);
      && (if Open(rows, uri) then reply.Found? && reply.uri == uri else reply == NoRow)
      && OthersKept(rows, rows', uri) && SameKeys(rows, rows')
      && (reply.Found? ==>
            && uri in SessionsOfUser(rows', rows[uri].par.tenant, user) && uri in SessionsOfPubkey(rows', user)
            && Approved(rows'[uri], rows[uri], user, did, now) && reply.row == rows'[uri])
  {
    if Open(rows, uri) {
      RevisionNeverClashes(rows, uri, rows[uri].(user := Some(user), did := Some(did), approvedAt := Some(now)));
    }
  }

  /** So does a new nonce, which changes no lookup either. */
  lemma NonceHolds(rows: Table, uri: string, nonce: string, now: int)
    requires Inv(rows)
    ensures var (rows', reply) := Step(rows, UpdateNonce(uri, nonce), now);
      && (if Open(rows, uri) then reply.Found? && reply.uri == uri && reply.row.dpopNonce == Some(nonce)
          else reply == NoRow)
      && OthersKept(rows, rows', uri) && SameKeys(rows, rows')
      && (forall tenant, user :: SessionsOfUser(rows', tenant, user) == SessionsOfUser(rows, tenant, user))
  {
    if Open(rows, uri) {
      RevisionNeverClashes(rows, uri, rows[uri].(dpopNonce := Some(nonce)));
    }
  }

  /** Another session holds the code, the access token's id or the refresh token's hash. */
  ghost predicate HeldElsewhere(rows: Table, uri: string, tokens: Tokens) {
    exists other :: other in rows && other != uri && HoldsOneOf(rows[other], tokens)
  }

  predicate HoldsOneOf(row: Session, tokens: Tokens) {
    row.code == Some(tokens.code) || row.jti == Some(tokens.jti) || row.hash == Some(tokens.hash)
  }

  ghost predicate CodeHeldElsewhere(rows: Table, uri: string, code: string) {
    exists other :: other in rows && other != uri && rows[other].code == Some(code)
  }

  /** Stored tokens work until they expire; there is a conflict exactly when another session holds one
    * of them, and then nothing changes. */
  lemma StoredTokensWork(rows: Table, uri: string, tokens: Tokens, now: int)
    requires Inv(rows)
    ensures var (rows', reply) := Step(rows, StoreTokens(uri, tokens), now);
      && (reply == NoRow <==> !Open(rows, uri))
      && (reply.Found? ==>
            && OthersKept(rows, rows', uri)
            && HashLeadsTo(rows', tokens.hash, uri, tokens.hashExpiresAt)
            && CodeLeadsTo(rows', tokens.code, uri, tokens.codeExpiresAt)
            && Carries(rows'[uri], tokens) && SameGrant(rows'[uri], rows[uri])
            && reply == Found(uri, rows'[uri]))
      && (reply == Conflict <==> Open(rows, uri) && HeldElsewhere(rows, uri, tokens))
      && (reply == Conflict ==> rows' == rows)
  {
    var (rows', reply) := Step(rows, StoreTokens(uri, tokens), now);
    StepKeepsInv(rows, StoreTokens(uri, tokens), now);
    if Open(rows, uri) {
      var row := Issued(Coded(rows[uri], tokens.code, tokens.codeExpiresAt), tokens);
      assert forall other :: other in rows ==> (SharesKey(rows[other], row) <==> HoldsOneOf(rows[other], tokens));
    }
    if reply.Found? {
      HashIsFound(rows', uri, tokens.hash, tokens.hashExpiresAt);
      CodeIsFound(rows', uri, tokens.code, tokens.codeExpiresAt);
    }
  }

  lemma StoredCodeWorks(rows: Table, uri: string, code: string, expiresAt: int, now: int)
    requires Inv(rows)
    ensures var (rows', reply) := Step(rows, StoreCode(uri, code, expiresAt), now);
      && (reply == NoRow <==> !Open(rows, uri))
      && (reply.Found? ==> OthersKept(rows, rows', uri) && CodeLeadsTo(rows', code, uri, expiresAt))
      && (reply == Conflict <==> Open(rows, uri) && CodeHeldElsewhere(rows, uri, code))
      && (reply == Conflict ==> rows' == rows)
  {
    var (rows', reply) := Step(rows, StoreCode(uri, code, expiresAt), now);
    StepKeepsInv(rows, StoreCode(uri, code, expiresAt), now);
    if Open(rows, uri) {
      var row := Coded(rows[uri], code, expiresAt);
      forall other | other in rows && other != uri
        ensures SharesKey(rows[other], row) <==> rows[other].code == Some(code)
      {
        assert !SharesKey(rows[other], rows[uri]);
      }
    }
    if reply.Found? {
      CodeIsFound(rows', uri, code, expiresAt);
    }
  }

  /** A rotation retires the old hash, everywhere, and puts the new one in its place. */
  lemma RotationReplaces(rows: Table, uri: string, previous: string, tokens: Tokens, now: int)
    requires Inv(rows)
    ensures var (rows', reply) := Step(rows, Rotate(uri, previous, tokens), now);
      && (reply == NoRow <==> !(Step(rows, FindByHash(previous), now).1.Found?
                                && Step(rows, FindByHash(previous), now).1.uri == uri))
      && (reply.Found? ==>
            && OthersKept(rows, rows', uri)
            && HashLeadsTo(rows', tokens.hash, uri, tokens.hashExpiresAt)
            && (tokens.hash != previous ==> HashAbsent(rows', previous))
            && rows'[uri].code == rows[uri].code && rows'[uri].codeExpiresAt == rows[uri].codeExpiresAt
            && Carries(rows'[uri], tokens) && SameGrant(rows'[uri], rows[uri])
            && reply == Found(uri, rows'[uri]))
      && (!reply.Found? ==> rows' == rows)
  {
    var (rows', reply) := Step(rows, Rotate(uri, previous, tokens), now);
    StepKeepsInv(rows, Rotate(uri, previous, tokens), now);
    var holder := WithHash(rows, previous, now);
    if uri in rows && Refreshable(rows[uri], previous, now) {
      OneHolder(rows, uri, holder.value);
    }
    if reply.Found? {
      HashIsFound(rows', uri, tokens.hash, tokens.hashExpiresAt);
      if tokens.hash != previous {
        RotationRetiresTheHash(rows, uri, previous, tokens, now);
      }
    }
  }

  /** Exactly the selected open sessions are closed, and none of them is left open. */
  ghost predicate ClosesExactly(before: Table, after: Table, selected: set<string>) {
    && after.Keys == before.Keys
    && (forall uri :: uri in before ==> if uri in selected then Closed(after, uri) else after[uri] == before[uri])
  }

  lemma UserIsLoggedOut(rows: Table, tenant: int, user: string, now: int)
    ensures var (rows', reply) := Step(rows, RevokeForUser(tenant, user), now);
      && SessionsOfUser(rows', tenant, user) == {}
      && ClosesExactly(rows, rows', SessionsOfUser(rows, tenant, user))
      && reply == Count(|SessionsOfUser(rows, tenant, user)|)
  {}

  lemma PubkeyIsLoggedOut(rows: Table, user: string, now: int)
    ensures var (rows', reply) := Step(rows, RevokeForPubkey(user), now);
      && SessionsOfPubkey(rows', user) == {}
      && (forall tenant :: SessionsOfUser(rows', tenant, user) == {})
      && ClosesExactly(rows, rows', SessionsOfPubkey(rows, user))
      && reply == Count(|SessionsOfPubkey(rows, user)|)
  {}

  /** A revoked session is closed, was left as it was if it had been closed before, and never conflicts. */
  lemma SessionIsClosed(rows: Table, uri: string, now: int)
    requires Inv(rows)
    ensures var (rows', reply) := Step(rows, RevokeSession(uri), now);
      && (reply.Found? <==> uri in rows) && (reply == NoRow <==> uri !in rows)
      && (uri in rows ==> Closed(rows', uri) && OthersKept(rows, rows', uri))
      && (!Open(rows, uri) ==> rows' == rows)
  {
    if uri in rows {
      RevisionNeverClashes(rows, uri, Revoked(rows[uri], now));
      assert Consistent(rows[uri]);
      if !Open(rows, uri) {
        assert Revoked(rows[uri], now) == rows[uri];
        assert rows[uri := rows[uri]] == rows;
      }
    }
  }

  // ---------------------------------------------------------------- the repository

  class SessionRepository {
    var rows: Table

    ghost predicate Valid()
      reads this
    {
      Inv(rows)
    }

    constructor ()
      ensures Valid() && rows == map[]
    {
      rows := map[];
    }

    /** Writes one row, unless that would repeat a UNIQUE value. */
    method Write(uri: string, row: Session) returns (reply: Reply)
      requires Valid() && Consistent(row)
      modifies this
      ensures Valid() && (rows, reply) == Updated(old(rows), uri, row)
    {
      if Clashes(rows, uri, row) {
        return Conflict;
      }
      WriteKeepsInv(rows, uri, row);
      rows := rows[uri := row];
      reply := Found(uri, row);
    }

    method Create(uri: string, par: Par, dpopJkt: Option<string>, dpopNonce: Option<string>, now: int)
      returns (reply: Reply)
      requires Valid()
      modifies this
      ensures Valid() && (rows, reply) == Step(old(rows), CreatePar(uri, par, dpopJkt, dpopNonce), now)
      ensures reply == Conflict <==> uri in old(rows)
      ensures reply.Found? ==> Open(rows, uri) && OthersKept(old(rows), rows, uri) && reply == Found(uri, rows[uri])
      ensures reply.Found? ==>
        && reply.row.par == par && reply.row.dpopJkt == dpopJkt && reply.row.dpopNonce == dpopNonce
        && reply.row.user == None && reply.row.did == None && reply.row.approvedAt == None
        && reply.row.code == None && reply.row.jti == None && reply.row.hash == None
    {
      StepKeepsInv(rows, CreatePar(uri, par, dpopJkt, dpopNonce), now);
      if uri in rows {
        return Conflict;
      }
      rows := rows[uri := Requested(par, dpopJkt, dpopNonce)];
      reply := Found(uri, rows[uri]);
    }

    method ApproveRequest(uri: string, user: string, did: string, now: int) returns (reply: Reply)
      requires Valid()
      modifies this
      ensures Valid() && (rows, reply) == Step(old(rows), Approve(uri, user, did), now)
      ensures if Open(old(rows), uri) then reply.Found? && reply.uri == uri else reply == NoRow
      ensures OthersKept(old(rows), rows, uri) && SameKeys(old(rows), rows)
      ensures reply.Found? ==> uri in SessionsOfUser(rows, old(rows)[uri].par.tenant, user)
      ensures reply.Found? ==> Approved(reply.row, old(rows)[uri], user, did, now) && reply.row == rows[uri]
    {
      ApprovalHolds(rows, uri, user, did, now);
      if uri in rows && rows[uri].revokedAt.None? {
        reply := Write(uri, rows[uri].(user := Some(user), did := Some(did), approvedAt := Some(now)));
      } else {
        reply := NoRow;
      }
    }

    method StoreTokenArtifacts(uri: string, tokens: Tokens, now: int) returns (reply: Reply)
      requires Valid()
      modifies this
      ensures Valid() && (rows, reply) == Step(old(rows), StoreTokens(uri, tokens), now)
      ensures reply == NoRow <==> !Open(old(rows), uri)
      ensures reply.Found? ==> OthersKept(old(rows), rows, uri)
      ensures reply.Found? ==> HashLeadsTo(rows, tokens.hash, uri, tokens.hashExpiresAt)
      ensures reply.Found? ==> CodeLeadsTo(rows, tokens.code, uri, tokens.codeExpiresAt)
      ensures reply.Found? ==> Carries(reply.row, tokens) && SameGrant(reply.row, old(rows)[uri])
      ensures reply.Found? ==> reply == Found(uri, rows[uri])
      ensures reply == Conflict <==> Open(old(rows), uri) && HeldElsewhere(old(rows), uri, tokens)
      ensures reply == Conflict ==> rows == old(rows)
    {
      StoredTokensWork(rows, uri, tokens, now);
      if uri in rows && rows[uri].revokedAt.None? {
        var coded := rows[uri].(code := Some(tokens.code), codeExpiresAt := Some(tokens.codeExpiresAt));
        reply := Write(uri, Issued(coded, tokens));
      } else {
        reply := NoRow;
      }
    }

    method StoreAuthorizationCode(uri: string, code: string, expiresAt: int, now: int) returns (reply: Reply)
      requires Valid()
      modifies this
      ensures Valid() && (rows, reply) == Step(old(rows), StoreCode(uri, code, expiresAt), now)
      ensures reply == NoRow <==> !Open(old(rows), uri)
      ensures reply.Found? ==> OthersKept(old(rows), rows, uri) && CodeLeadsTo(rows, code, uri, expiresAt)
      ensures reply == Conflict <==> Open(old(rows), uri) && CodeHeldElsewhere(old(rows), uri, code)
      ensures reply == Conflict ==> rows == old(rows)
    {
      StoredCodeWorks(rows, uri, code, expiresAt, now);
      if uri in rows && rows[uri].revokedAt.None? {
        reply := Write(uri, rows[uri].(code := Some(code), codeExpiresAt := Some(expiresAt)));
      } else {
        reply := NoRow;
      }
    }

    method ConsumeAuthorizationCode(code: string, now: int) returns (reply: Reply)
      requires Valid()
      modifies this
      ensures Valid() && (rows, reply) == Step(old(rows), ConsumeCode(code), now)
    {
      if uri :| uri in rows && Redeemable(rows[uri], code, now) {
        OneHolder(rows, uri, WithCode(rows, code, now).value);
        reply := Write(uri, rows[uri].(code := None, codeExpiresAt := None));
      } else {
        reply := NoRow;
      }
    }

    method RotateRefreshToken(uri: string, previous: string, tokens: Tokens, now: int) returns (reply: Reply)
      requires Valid()
      modifies this
      ensures Valid() && (rows, reply) == Step(old(rows), Rotate(uri, previous, tokens), now)
      ensures reply.Found? ==> OthersKept(old(rows), rows, uri)
      ensures reply.Found? ==> HashLeadsTo(rows, tokens.hash, uri, tokens.hashExpiresAt)
      ensures reply.Found? && tokens.hash != previous ==> HashAbsent(rows, previous)
      ensures reply.Found? ==> uri in old(rows) && Carries(reply.row, tokens) && SameGrant(reply.row, old(rows)[uri])
      ensures reply.Found? ==> reply == Found(uri, rows[uri])
      ensures !reply.Found? ==> rows == old(rows)
    {
      RotationReplaces(rows, uri, previous, tokens, now);
      if uri in rows && Refreshable(rows[uri], previous, now) {
        reply := Write(uri, Issued(rows[uri], tokens));
      } else {
        reply := NoRow;
      }
    }

    method UpdateDpopNonce(uri: string, nonce: string, now: int) returns (reply: Reply)
      requires Valid()
      modifies this
      ensures Valid() && (rows, reply) == Step(old(rows), UpdateNonce(uri, nonce), now)
      ensures if Open(old(rows), uri) then reply.Found? && reply.uri == uri else reply == NoRow
      ensures OthersKept(old(rows), rows, uri) && SameKeys(old(rows), rows)
    {
      NonceHolds(rows, uri, nonce, now);
      if uri in rows && rows[uri].revokedAt.None? {
        reply := Write(uri, rows[uri].(dpopNonce := Some(nonce)));
      } else {
        reply := NoRow;
      }
    }

    method RevokeRefreshSession(hash: string, now: int) returns (reply: Reply)
      requires Valid()
      modifies this
      ensures Valid() && (rows, reply) == Step(old(rows), RevokeByHash(hash), now)
    {
      if uri :| uri in rows && rows[uri].hash == Some(hash) && rows[uri].hashRevokedAt.None? {
        OneHolder(rows, uri, Revocable(rows, hash).value);
        var row := rows[uri];
        reply := Write(uri, row.(hashRevokedAt := Some(now), revokedAt := Coalesce(row.revokedAt, now)));
      } else {
        reply := NoRow;
      }
    }

    method RevokeRefreshSessionsForUser(tenant: int, user: string, now: int) returns (reply: Reply)
      requires Valid()
      modifies this
      ensures Valid() && (rows, reply) == Step(old(rows), RevokeForUser(tenant, user), now)
      ensures SessionsOfUser(rows, tenant, user) == {}
      ensures ClosesExactly(old(rows), rows, SessionsOfUser(old(rows), tenant, user))
    {
      UserIsLoggedOut(rows, tenant, user, now);
      StepKeepsInv(rows, RevokeForUser(tenant, user), now);
      var selected := SessionsOfUser(rows, tenant, user);
      rows := RevokedAll(rows, selected, now);
      reply := Count(|selected|);
    }

    method RevokeSessionsForPubkey(user: string, now: int) returns (reply: Reply)
      requires Valid()
      modifies this
      ensures Valid() && (rows, reply) == Step(old(rows), RevokeForPubkey(user), now)
      ensures SessionsOfPubkey(rows, user) == {}
      ensures ClosesExactly(old(rows), rows, SessionsOfPubkey(old(rows), user))
    {
      PubkeyIsLoggedOut(rows, user, now);
      StepKeepsInv(rows, RevokeForPubkey(user), now);
      var selected := SessionsOfPubkey(rows, user);
      rows := RevokedAll(rows, selected, now);
      reply := Count(|selected|);
    }

    method RevokeOne(uri: string, now: int) returns (reply: Reply)
      requires Valid()
      modifies this
      ensures Valid() && (rows, reply) == Step(old(rows), RevokeSession(uri), now)
      ensures reply.Found? <==> uri in old(rows)
      ensures uri in old(rows) ==> Closed(rows, uri) && OthersKept(old(rows), rows, uri)
      ensures !Open(old(rows), uri) ==> rows == old(rows)
    {
      SessionIsClosed(rows, uri, now);
      if uri in rows {
        reply := Write(uri, Revoked(rows[uri], now));
      } else {
        reply := NoRow;
      }
    }

    method FindByRequestUri(uri: string, now: int) returns (reply: Reply)
      ensures reply == Step(rows, FindByUri(uri), now).1
    {
      reply := if uri in rows && rows[uri].revokedAt.None? then Found(uri, rows[uri]) else NoRow;
    }

    method FindByAuthorizationCode(code: string, now: int) returns (reply: Reply)
      requires Valid()
      ensures reply == Step(rows, FindByCode(code), now).1
    {
      if uri :| uri in rows && Redeemable(rows[uri], code, now) {
        OneHolder(rows, uri, WithCode(rows, code, now).value);
        reply := Found(uri, rows[uri]);
      } else {
        reply := NoRow;
      }
    }

    method FindByRefreshTokenHash(hash: string, now: int) returns (reply: Reply)
      requires Valid()
      ensures reply == Step(rows, FindByHash(hash), now).1
    {
      if uri :| uri in rows && Refreshable(rows[uri], hash, now) {
        OneHolder(rows, uri, WithHash(rows, hash, now).value);
        reply := Found(uri, rows[uri]);
      } else {
        reply := NoRow;
      }
    }
  }
}
