/**
  * ATProto OAuth sessions: each repository call is one SQL statement, hence one atomic step on the
  * table. Rows are keyed by `request_uri`; the three other UNIQUE columns are checked by every write.
  */
module Sessions {
  import opened Options

  /** What the pushed authorization request fixed; no later statement touches it. */
  datatype Par = Par(tenant: int, clientId: string, redirectUri: string, scope: string, expiresAt: int)

  datatype Session = Session(
    par: Par,
    user: Option<string>,
    did: Option<string>,
    approvedAt: Option<int>,
    code: Option<string>,
    codeExpiresAt: Option<int>,
    jti: Option<string>,
    accessExpiresAt: Option<int>,
    hash: Option<string>,
    hashExpiresAt: Option<int>,
    hashRevokedAt: Option<int>,
    revokedAt: Option<int>,
    dpopJkt: Option<string>,
    dpopNonce: Option<string>)

  type Table = map<string, Session>

  datatype Tokens = Tokens(code: string, codeExpiresAt: int, jti: string, accessExpiresAt: int,
                           hash: string, hashExpiresAt: int,
                           dpopJkt: Option<string>, dpopNonce: Option<string>)

  datatype Op =
    | CreatePar(uri: string, par: Par, dpopJkt: Option<string>, dpopNonce: Option<string>)
    | Approve(uri: string, user: string, did: string)
    | StoreTokens(uri: string, tokens: Tokens)
    | StoreCode(uri: string, code: string, codeExpiresAt: int)
    | ConsumeCode(code: string)
    | Rotate(uri: string, previous: string, tokens: Tokens)
    | UpdateNonce(uri: string, nonce: string)
    | RevokeByHash(hash: string)
    | RevokeForUser(tenant: int, user: string)
    | RevokeForPubkey(user: string)
    | RevokeSession(uri: string)
    | FindByUri(uri: string)
    | FindByCode(code: string)
    | FindByHash(hash: string)

  datatype Reply = Found(uri: string, row: Session) | NoRow | Conflict | Count(rows: nat)

  /** A nullable timestamp column compared with `> NOW()`: NULL compares as false. */
  predicate After(t: Option<int>, now: int) {
    t.Some? && t.value > now
  }

  function Coalesce(t: Option<int>, now: int): Option<int> {
    if t.Some? then t else Some(now)
  }

  function Requested(par: Par, dpopJkt: Option<string>, dpopNonce: Option<string>): Session {
    Session(par, None, None, None, None, None, None, None, None, None, None, None, dpopJkt, dpopNonce)
  }

  function Issued(row: Session, t: Tokens): Session {
    row.(jti := Some(t.jti), accessExpiresAt := Some(t.accessExpiresAt),
         hash := Some(t.hash), hashExpiresAt := Some(t.hashExpiresAt),
         dpopJkt := t.dpopJkt, dpopNonce := t.dpopNonce)
  }

  function Coded(row: Session, code: string, expiresAt: int): Session {
    row.(code := Some(code), codeExpiresAt := Some(expiresAt))
  }

  function Revoked(row: Session, now: int): Session {
    row.(hashRevokedAt := if row.hash.Some? then Coalesce(row.hashRevokedAt, now) else row.hashRevokedAt,
         revokedAt := Coalesce(row.revokedAt, now))
  }

  predicate Refreshable(row: Session, hash: string, now: int) {
    && row.hash == Some(hash) && row.revokedAt.None? && row.hashRevokedAt.None?
    && After(row.hashExpiresAt, now)
  }

  predicate Redeemable(row: Session, code: string, now: int) {
    row.code == Some(code) && row.revokedAt.None? && After(row.codeExpiresAt, now)
  }

  /** Writing `row` at `uri` would repeat another row's code, token id or refresh token hash. */
  predicate Clashes(rows: Table, uri: string, row: Session) {
    exists other :: other in rows && other != uri && SharesKey(rows[other], row)
  }

  predicate SharesKey(a: Session, b: Session) {
    || (a.code.Some? && a.code == b.code)
    || (a.jti.Some? && a.jti == b.jti)
    || (a.hash.Some? && a.hash == b.hash)
  }

  /** UPDATE of the selected row, RETURNING *; a UNIQUE violation leaves the table alone. */
  ghost function Updated(rows: Table, uri: string, row: Session): (Table, Reply) {
    if Clashes(rows, uri, row) then (rows, Conflict)
    else (rows[uri := row], Found(uri, row))
  }

  /** The row a WHERE on a UNIQUE column selects, if any. */
  ghost function WithCode(rows: Table, code: string, now: int): Option<string> {
    if uri :| uri in rows && Redeemable(rows[uri], code, now) then Some(uri) else None
  }

  ghost function WithHash(rows: Table, hash: string, now: int): Option<string> {
    if uri :| uri in rows && Refreshable(rows[uri], hash, now) then Some(uri) else None
  }

  ghost function Revocable(rows: Table, hash: string): Option<string> {
    if uri :| uri in rows && rows[uri].hash == Some(hash) && rows[uri].hashRevokedAt.None?
    then Some(uri) else None
  }

  function RevokedAll(rows: Table, selected: set<string>, now: int): Table {
    map uri | uri in rows :: if uri in selected then Revoked(rows[uri], now) else rows[uri]
  }

  function SessionsOfUser(rows: Table, tenant: int, user: string): set<string> {
    set uri | uri in rows && rows[uri].par.tenant == tenant && rows[uri].user == Some(user)
              && rows[uri].revokedAt.None?
  }

  function SessionsOfPubkey(rows: Table, user: string): set<string> {
    set uri | uri in rows && rows[uri].user == Some(user) && rows[uri].revokedAt.None?
  }

  predicate Open(rows: Table, uri: string) {
    uri in rows && rows[uri].revokedAt.None?
  }

  function Lookup(rows: Table, uri: Option<string>): Reply {
    if uri.Some? && uri.value in rows then Found(uri.value, rows[uri.value]) else NoRow
  }

  /** The table and the reply after one repository call. */
  ghost function Step(rows: Table, op: Op, now: int): (Table, Reply) {
    match op
    case CreatePar(uri, par, dpopJkt, dpopNonce) =>
      if uri in rows then (rows, Conflict)
      else
        var row := Requested(par, dpopJkt, dpopNonce);
        (rows[uri := row], Found(uri, row))
    case Approve(uri, user, did) =>
      if !Open(rows, uri) then (rows, NoRow)
      else Updated(rows, uri, rows[uri].(user := Some(user), did := Some(did), approvedAt := Some(now)))
    case StoreTokens(uri, t) =>
      if !Open(rows, uri) then (rows, NoRow)
      else Updated(rows, uri, Issued(Coded(rows[uri], t.code, t.codeExpiresAt), t))
    case StoreCode(uri, code, expiresAt) =>
      if !Open(rows, uri) then (rows, NoRow)
      else Updated(rows, uri, Coded(rows[uri], code, expiresAt))
    case ConsumeCode(code) =>
      var uri := WithCode(rows, code, now);
      if uri.None? then (rows, NoRow)
      else Updated(rows, uri.value, rows[uri.value].(code := None, codeExpiresAt := None))
    case Rotate(uri, previous, t) =>
      if !(uri in rows && Refreshable(rows[uri], previous, now)) then (rows, NoRow)
      else Updated(rows, uri, Issued(rows[uri], t))
    case UpdateNonce(uri, nonce) =>
      if !Open(rows, uri) then (rows, NoRow)
      else Updated(rows, uri, rows[uri].(dpopNonce := Some(nonce)))
    case RevokeByHash(hash) =>
      var uri := Revocable(rows, hash);
      if uri.None? then (rows, NoRow)
      else
        var row := rows[uri.value];
        Updated(rows, uri.value, row.(hashRevokedAt := Some(now), revokedAt := Coalesce(row.revokedAt, now)))
    case RevokeForUser(tenant, user) =>
      var selected := SessionsOfUser(rows, tenant, user);
      (RevokedAll(rows, selected, now), Count(|selected|))
    case RevokeForPubkey(user) =>
      var selected := SessionsOfPubkey(rows, user);
      (RevokedAll(rows, selected, now), Count(|selected|))
    case RevokeSession(uri) =>
      if uri !in rows then (rows, NoRow)
      else Updated(rows, uri, Revoked(rows[uri], now))
    case FindByUri(uri) => (rows, if Open(rows, uri) then Found(uri, rows[uri]) else NoRow)
    case FindByCode(code) => (rows, Lookup(rows, WithCode(rows, code, now)))
    case FindByHash(hash) => (rows, Lookup(rows, WithHash(rows, hash, now)))
  }

  // ---------------------------------------------------------------- the invariant

  /** A revoked refresh token means a revoked session, and a revoked session has no live token. */
  ghost predicate Consistent(row: Session) {
    && (row.hashRevokedAt.Some? ==> row.revokedAt.Some?)
    && (row.revokedAt.Some? && row.hash.Some? ==> row.hashRevokedAt.Some?)
  }

  ghost predicate Inv(rows: Table) {
    && (forall uri :: uri in rows ==> Consistent(rows[uri]))
    && (forall u, v :: u in rows && v in rows && u != v ==> !SharesKey(rows[u], rows[v]))
  }

  lemma SharesKeyIsSymmetric(a: Session, b: Session)
    ensures SharesKey(a, b) == SharesKey(b, a)
  {}

  lemma WriteKeepsInv(rows: Table, uri: string, row: Session)
    requires Inv(rows) && Consistent(row) && !Clashes(rows, uri, row)
    ensures Inv(rows[uri := row])
  {
    var rows' := rows[uri := row];
    forall u, v | u in rows' && v in rows' && u != v ensures !SharesKey(rows'[u], rows'[v]) {
      if u == uri {
        SharesKeyIsSymmetric(row, rows[v]);
      }
    }
  }

  lemma RevokedAllKeepsInv(rows: Table, selected: set<string>, now: int)
    requires Inv(rows)
    ensures Inv(RevokedAll(rows, selected, now))
  {
    var rows' := RevokedAll(rows, selected, now);
    forall u, v | u in rows' && v in rows' && u != v ensures !SharesKey(rows'[u], rows'[v]) {
      assert !SharesKey(rows[u], rows[v]);
    }
  }

  lemma WritesAreConsistent(rows: Table, op: Op, now: int)
    requires Inv(rows) && !op.RevokeForUser? && !op.RevokeForPubkey?
    ensures var (rows', reply) := Step(rows, op, now);
      rows' == rows || (reply.Found? && rows' == rows[reply.uri := reply.row]
                        && Consistent(reply.row) && !Clashes(rows, reply.uri, reply.row))
  {}

  lemma StepKeepsInv(rows: Table, op: Op, now: int)
    requires Inv(rows)
    ensures Inv(Step(rows, op, now).0)
  {
    if op.RevokeForUser? {
      RevokedAllKeepsInv(rows, SessionsOfUser(rows, op.tenant, op.user), now);
    } else if op.RevokeForPubkey? {
      RevokedAllKeepsInv(rows, SessionsOfPubkey(rows, op.user), now);
    } else {
      WritesAreConsistent(rows, op, now);
      var (rows', reply) := Step(rows, op, now);
      if rows' != rows {
        WriteKeepsInv(rows, reply.uri, reply.row);
      }
    }
  }

  /** A code or a hash has one holder. */
  lemma OneHolder(rows: Table, u: string, v: string)
    requires Inv(rows) && u in rows && v in rows
    requires (rows[u].code.Some? && rows[u].code == rows[v].code)
          || (rows[u].hash.Some? && rows[u].hash == rows[v].hash)
    ensures u == v
  {
    assert SharesKey(rows[u], rows[v]);
  }

  // ---------------------------------------------------------------- runs

  datatype Call = Call(op: Op, now: int)

  /** The table after a sequence of calls, from whatever clients and in whatever order. */
  ghost function Exec(rows: Table, calls: seq<Call>): Table
    decreases |calls|
  {
    if calls == [] then rows else Exec(Step(rows, calls[0].op, calls[0].now).0, calls[1..])
  }

  lemma {:induction false} ExecKeepsInv(rows: Table, calls: seq<Call>)
    requires Inv(rows)
    ensures Inv(Exec(rows, calls))
    decreases |calls|
  {
    if calls != [] {
      StepKeepsInv(rows, calls[0].op, calls[0].now);
      ExecKeepsInv(Step(rows, calls[0].op, calls[0].now).0, calls[1..]);
    }
  }

  /** In every reachable table a set `refresh_token_revoked_at` implies a set `revoked_at`, and a
    * revoked session that has a refresh token has that token revoked. */
  lemma ReachableRowsAreConsistent(calls: seq<Call>)
    ensures Inv(Exec(map[], calls))
  {
    ExecKeepsInv(map[], calls);
  }

  // ---------------------------------------------------------------- revoked is frozen

  ghost predicate Closed(rows: Table, uri: string) {
    uri in rows && rows[uri].revokedAt.Some?
  }

  /** No call changes any column of a revoked row, and only RevokeSession returns one. */
  lemma RevokedRowIsFrozen(rows: Table, uri: string, op: Op, now: int)
    requires Inv(rows) && Closed(rows, uri)
    ensures var (rows', reply) := Step(rows, op, now);
      && uri in rows' && rows'[uri] == rows[uri]
      && (reply.Found? && reply.uri == uri ==> op.RevokeSession?)
  {
    assert Consistent(rows[uri]);
  }

  /** A revoked session is frozen in every continuation; with it both its timestamps. */
  lemma {:induction false} RevokedForGood(rows: Table, uri: string, calls: seq<Call>)
    requires Inv(rows) && Closed(rows, uri)
    ensures Closed(Exec(rows, calls), uri) && Exec(rows, calls)[uri] == rows[uri]
    decreases |calls|
  {
    if calls != [] {
      RevokedRowIsFrozen(rows, uri, calls[0].op, calls[0].now);
      StepKeepsInv(rows, calls[0].op, calls[0].now);
      RevokedForGood(Step(rows, calls[0].op, calls[0].now).0, uri, calls[1..]);
    }
  }

  /** ... and no finder returns it, nor can it be rotated, redeemed or approved again. */
  lemma RevokedIsNeverFound(before: seq<Call>, after: seq<Call>, uri: string, op: Op, now: int)
    requires Closed(Exec(map[], before), uri) && !op.RevokeSession?
    ensures var reply := Step(Exec(Exec(map[], before), after), op, now).1;
            !(reply.Found? && reply.uri == uri)
  {
    var rows := Exec(map[], before);
    ExecKeepsInv(map[], before);
    RevokedForGood(rows, uri, after);
    ExecKeepsInv(rows, after);
    RevokedRowIsFrozen(Exec(rows, after), uri, op, now);
  }

  // ---------------------------------------------------------------- open until revoked

  /** The call revokes this open session. */
  predicate Ends(rows: Table, op: Op, uri: string)
    requires Open(rows, uri)
  {
    var row := rows[uri];
    match op
    case RevokeByHash(hash) => row.hash == Some(hash)
    case RevokeForUser(tenant, user) => row.par.tenant == tenant && row.user == Some(user)
    case RevokeForPubkey(user) => row.user == Some(user)
    case RevokeSession(u) => u == uri
    case _ => false
  }

  lemma RevokeByHashEndsIff(rows: Table, uri: string, hash: string, now: int)
    requires Inv(rows) && Open(rows, uri)
    ensures var rows' := Step(rows, RevokeByHash(hash), now).0;
      uri in rows' && (Closed(rows', uri) <==> rows[uri].hash == Some(hash))
  {
    assert Consistent(rows[uri]);
    var found := Revocable(rows, hash);
    if rows[uri].hash == Some(hash) {
      OneHolder(rows, uri, found.value);
      RevisionNeverClashes(rows, uri, rows[uri].(hashRevokedAt := Some(now), revokedAt := Some(now)));
    }
  }

  /** A write that leaves a row's own code, token id and hash alone cannot clash. */
  lemma RevisionNeverClashes(rows: Table, uri: string, row: Session)
    requires Inv(rows) && uri in rows
    requires row.code == rows[uri].code && row.jti == rows[uri].jti && row.hash == rows[uri].hash
    ensures !Clashes(rows, uri, row)
  {
    forall other | other in rows && other != uri ensures !SharesKey(rows[other], row) {
      assert !SharesKey(rows[other], rows[uri]);
    }
  }

  lemma OtherCallsKeepOpen(rows: Table, uri: string, op: Op, now: int)
    requires Open(rows, uri) && !op.RevokeByHash? && !op.RevokeForUser? && !op.RevokeForPubkey?
    requires op.RevokeSession? ==> op.uri != uri
    ensures Open(Step(rows, op, now).0, uri) && Step(rows, op, now).0[uri].par == rows[uri].par
  {}

  /** A call closes an open session if and only if it is a revocation that names the session's hash,
    * user or URI; no call deletes it or changes what its pushed request fixed. */
  lemma EndsIff(rows: Table, uri: string, op: Op, now: int)
    requires Inv(rows) && Open(rows, uri)
    ensures var rows' := Step(rows, op, now).0;
      && uri in rows' && rows'[uri].par == rows[uri].par
      && (Closed(rows', uri) <==> Ends(rows, op, uri))
  {
    if op.RevokeByHash? {
      RevokeByHashEndsIff(rows, uri, op.hash, now);
    } else if op.RevokeSession? && op.uri == uri {
      RevisionNeverClashes(rows, uri, Revoked(rows[uri], now));
    } else if !op.RevokeForUser? && !op.RevokeForPubkey? {
      OtherCallsKeepOpen(rows, uri, op, now);
    }
  }

  ghost predicate NeverEnded(rows: Table, calls: seq<Call>, uri: string)
    decreases |calls|
  {
    Open(rows, uri) &&
    (calls != [] ==>
      !Ends(rows, calls[0].op, uri) && NeverEnded(Step(rows, calls[0].op, calls[0].now).0, calls[1..], uri))
  }

  /** A session is found by its request URI after any run if and only if no call of the run has revoked
    * it; nothing else makes it vanish, not even a UNIQUE conflict on the way. */
  lemma {:induction false} FoundIffNeverRevoked(rows: Table, uri: string, calls: seq<Call>, now: int)
    requires Inv(rows) && Open(rows, uri)
    ensures Step(Exec(rows, calls), FindByUri(uri), now).1.Found? <==> NeverEnded(rows, calls, uri)
    ensures uri in Exec(rows, calls) && Exec(rows, calls)[uri].par == rows[uri].par
    decreases |calls|
  {
    if calls != [] {
      var op, at, rest := calls[0].op, calls[0].now, calls[1..];
      var next := Step(rows, op, at).0;
      EndsIff(rows, uri, op, at);
      StepKeepsInv(rows, op, at);
      if Ends(rows, op, uri) {
        RevokedForGood(next, uri, rest);
      } else {
        FoundIffNeverRevoked(next, uri, rest, now);
      }
    }
  }

  // ---------------------------------------------------------------- rotation at most once

  ghost predicate HashAbsent(rows: Table, hash: string) {
    forall uri :: uri in rows ==> rows[uri].hash != Some(hash)
  }

  /** The call would store this refresh token hash. */
  predicate Issues(op: Op, hash: string) {
    (op.StoreTokens? || op.Rotate?) && op.tokens.hash == hash
  }

  /** Some call of the run has stored the hash: it issued it, and succeeded. */
  ghost predicate StoredWithin(rows: Table, calls: seq<Call>, hash: string)
    decreases |calls|
  {
    calls != [] &&
    var (rows', reply) := Step(rows, calls[0].op, calls[0].now);
    (Issues(calls[0].op, hash) && reply.Found?) || StoredWithin(rows', calls[1..], hash)
  }

  lemma RotationRetiresTheHash(rows: Table, uri: string, previous: string, t: Tokens, now: int)
    requires Inv(rows) && Step(rows, Rotate(uri, previous, t), now).1.Found? && t.hash != previous
    ensures HashAbsent(Step(rows, Rotate(uri, previous, t), now).0, previous)
  {
    forall other | other in rows && other != uri ensures rows[other].hash != Some(previous) {
      assert !SharesKey(rows[other], rows[uri]);
    }
  }

  lemma AbsentHashStep(rows: Table, hash: string, op: Op, now: int)
    requires HashAbsent(rows, hash)
    ensures !HashAbsent(Step(rows, op, now).0, hash) <==> Issues(op, hash) && Step(rows, op, now).1.Found?
  {
    var (rows', reply) := Step(rows, op, now);
    if Issues(op, hash) && reply.Found? {
      assert rows'[reply.uri].hash == Some(hash);
    }
  }

  /** A hash that is in no row gets into one only by a call that issues it and succeeds. */
  lemma {:induction false} AbsentUntilStored(rows: Table, hash: string, calls: seq<Call>)
    requires HashAbsent(rows, hash)
    ensures HashAbsent(Exec(rows, calls), hash) || StoredWithin(rows, calls, hash)
    decreases |calls|
  {
    if calls != [] {
      AbsentHashStep(rows, hash, calls[0].op, calls[0].now);
      var rows' := Step(rows, calls[0].op, calls[0].now).0;
      if HashAbsent(rows', hash) {
        AbsentUntilStored(rows', hash, calls[1..]);
      }
    }
  }

  /** Rotation at most once: after a rotation has succeeded with some previous hash, no rotation by
    * any client succeeds with it, no lookup or revocation finds it, unless it was issued as its own
    * successor or some call in between has stored it anew. */
  lemma RotationAtMostOnce(rows: Table, first: Call, between: seq<Call>, second: Call)
    requires Inv(rows) && first.op.Rotate? && Step(rows, first.op, first.now).1.Found?
    requires second.op == FindByHash(first.op.previous) || second.op == RevokeByHash(first.op.previous)
          || (second.op.Rotate? && second.op.previous == first.op.previous)
    requires Step(Exec(Step(rows, first.op, first.now).0, between), second.op, second.now).1.Found?
    ensures || first.op.tokens.hash == first.op.previous
            || StoredWithin(Step(rows, first.op, first.now).0, between, first.op.previous)
  {
    var hash := first.op.previous;
    if first.op.tokens.hash != hash {
      RotationRetiresTheHash(rows, first.op.uri, hash, first.op.tokens, first.now);
      AbsentUntilStored(Step(rows, first.op, first.now).0, hash, between);
    }
  }

  // ---------------------------------------------------------------- codes are single-use

  ghost predicate CodeAbsent(rows: Table, code: string) {
    forall uri :: uri in rows ==> rows[uri].code != Some(code)
  }

  predicate Codes(op: Op, code: string) {
    (op.StoreTokens? && op.tokens.code == code) || (op.StoreCode? && op.code == code)
  }

  /** Some call of the run has stored the code. */
  ghost predicate CodedWithin(rows: Table, calls: seq<Call>, code: string)
    decreases |calls|
  {
    calls != [] &&
    var (rows', reply) := Step(rows, calls[0].op, calls[0].now);
    (Codes(calls[0].op, code) && reply.Found?) || CodedWithin(rows', calls[1..], code)
  }

  lemma RedemptionRetiresTheCode(rows: Table, code: string, now: int)
    requires Inv(rows) && Step(rows, ConsumeCode(code), now).1.Found?
    ensures CodeAbsent(Step(rows, ConsumeCode(code), now).0, code)
  {
    var uri := WithCode(rows, code, now).value;
    forall other | other in rows && other != uri ensures rows[other].code != Some(code) {
      assert !SharesKey(rows[other], rows[uri]);
    }
  }

  lemma AbsentCodeStep(rows: Table, code: string, op: Op, now: int)
    requires CodeAbsent(rows, code)
    ensures !CodeAbsent(Step(rows, op, now).0, code) <==> Codes(op, code) && Step(rows, op, now).1.Found?
  {
    var (rows', reply) := Step(rows, op, now);
    if Codes(op, code) && reply.Found? {
      assert rows'[reply.uri].code == Some(code);
    }
  }

  lemma {:induction false} AbsentUntilCoded(rows: Table, code: string, calls: seq<Call>)
    requires CodeAbsent(rows, code)
    ensures CodeAbsent(Exec(rows, calls), code) || CodedWithin(rows, calls, code)
    decreases |calls|
  {
    if calls != [] {
      AbsentCodeStep(rows, code, calls[0].op, calls[0].now);
      var rows' := Step(rows, calls[0].op, calls[0].now).0;
      if CodeAbsent(rows', code) {
        AbsentUntilCoded(rows', code, calls[1..]);
      }
    }
  }

  /** An authorization code is redeemed, or found, at most once unless some call in between has stored
    * it anew. */
  lemma CodeAtMostOnce(rows: Table, code: string, now: int, between: seq<Call>, second: Call)
    requires Inv(rows) && Step(rows, ConsumeCode(code), now).1.Found?
    requires second.op == ConsumeCode(code) || second.op == FindByCode(code)
    requires Step(Exec(Step(rows, ConsumeCode(code), now).0, between), second.op, second.now).1.Found?
    ensures CodedWithin(Step(rows, ConsumeCode(code), now).0, between, code)
  {
    RedemptionRetiresTheCode(rows, code, now);
    AbsentUntilCoded(Step(rows, ConsumeCode(code), now).0, code, between);
  }
}
