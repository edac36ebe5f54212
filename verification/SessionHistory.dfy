/**
  * What each column of a session holds: the transposed view of the statements, column by column, and
  * over whole runs.
  */
module SessionHistory {
  import opened Options
  import opened Sessions

  function RowAt(rows: Table, uri: string): Option<Session> {
    if uri in rows then Some(rows[uri]) else None
  }

  predicate IssuesTokens(op: Op) {
    op.StoreTokens? || op.Rotate?
  }

  /** Each column after a successful write to the row. */
  function Written(row: Session, op: Op, now: int): Session {
    Session(
      row.par,
      if op.Approve? then Some(op.user) else row.user,
      if op.Approve? then Some(op.did) else row.did,
      if op.Approve? then Some(now) else row.approvedAt,
      if op.StoreTokens? then Some(op.tokens.code) else if op.StoreCode? then Some(op.code)
      else if op.ConsumeCode? then None else row.code,
      if op.StoreTokens? then Some(op.tokens.codeExpiresAt) else if op.StoreCode? then Some(op.codeExpiresAt)
      else if op.ConsumeCode? then None else row.codeExpiresAt,
      if IssuesTokens(op) then Some(op.tokens.jti) else row.jti,
      if IssuesTokens(op) then Some(op.tokens.accessExpiresAt) else row.accessExpiresAt,
      if IssuesTokens(op) then Some(op.tokens.hash) else row.hash,
      if IssuesTokens(op) then Some(op.tokens.hashExpiresAt) else row.hashExpiresAt,
      row.hashRevokedAt,
      row.revokedAt,
      if IssuesTokens(op) then op.tokens.dpopJkt else row.dpopJkt,
      if IssuesTokens(op) then op.tokens.dpopNonce else if op.UpdateNonce? then Some(op.nonce) else row.dpopNonce)
  }

  /** Both revocation columns after the call that ends the session. */
  function Closing(row: Session, now: int): Session {
    row.(revokedAt := Some(now), hashRevokedAt := if row.hash == None then row.hashRevokedAt else Some(now))
  }

  predicate Writes(op: Op) {
    op.Approve? || op.StoreTokens? || op.StoreCode? || op.ConsumeCode? || op.Rotate? || op.UpdateNonce?
  }

  /** The row after one call: created by a pushed request, written by a write that answers with it, closed
    * by the first revocation that names it, and otherwise as it was. */
  ghost function RowAfter(rows: Table, op: Op, now: int, uri: string): Option<Session> {
    var row, reply := RowAt(rows, uri), Step(rows, op, now).1;
    if row == None then
      if op.CreatePar? && op.uri == uri
      then Some(Session(op.par, None, None, None, None, None, None, None, None, None, None, None,
                        op.dpopJkt, op.dpopNonce))
      else None
    else if Writes(op) && reply.Found? && reply.uri == uri then Some(Written(row.value, op, now))
    else if Open(rows, uri) && Ends(rows, op, uri) then Some(Closing(row.value, now))
    else row
  }

  lemma WriteFollows(rows: Table, uri: string, op: Op, now: int)
    requires Inv(rows) && uri in rows && Writes(op)
    ensures RowAt(Step(rows, op, now).0, uri) == RowAfter(rows, op, now, uri)
  {
    var (rows', reply) := Step(rows, op, now);
    if reply.Found? {
      assert rows' == rows[reply.uri := reply.row];
    }
  }

  lemma EndFollows(rows: Table, uri: string, op: Op, now: int)
    requires Inv(rows) && Open(rows, uri) && Ends(rows, op, uri)
    ensures RowAt(Step(rows, op, now).0, uri) == Some(Closing(rows[uri], now))
  {
    assert Consistent(rows[uri]);
    if op.RevokeByHash? {
      OneHolder(rows, uri, Revocable(rows, op.hash).value);
      RevisionNeverClashes(rows, uri, rows[uri].(hashRevokedAt := Some(now), revokedAt := Some(now)));
    } else if op.RevokeSession? {
      RevisionNeverClashes(rows, uri, Revoked(rows[uri], now));
    }
  }

  lemma OthersFollow(rows: Table, uri: string, op: Op, now: int)
    requires Inv(rows) && uri in rows && !Writes(op) && !(Open(rows, uri) && Ends(rows, op, uri))
    ensures RowAt(Step(rows, op, now).0, uri) == Some(rows[uri])
  {
    if Open(rows, uri) {
      assert Consistent(rows[uri]);
      if op.RevokeByHash? && Revocable(rows, op.hash).Some? {
        assert Revocable(rows, op.hash).value != uri;
      }
    } else {
      RevokedRowIsFrozen(rows, uri, op, now);
    }
  }

  /** The column view and the statements agree on every call. */
  lemma RowFollows(rows: Table, uri: string, op: Op, now: int)
    requires Inv(rows)
    ensures RowAt(Step(rows, op, now).0, uri) == RowAfter(rows, op, now, uri)
  {
    if uri !in rows {
      Newborn(rows, uri, op, now);
    } else if Writes(op) {
      WriteFollows(rows, uri, op, now);
    } else if Open(rows, uri) && Ends(rows, op, uri) {
      EndFollows(rows, uri, op, now);
    } else {
      OthersFollow(rows, uri, op, now);
    }
  }

  lemma Newborn(rows: Table, uri: string, op: Op, now: int)
    requires uri !in rows
    ensures RowAt(Step(rows, op, now).0, uri) == RowAfter(rows, op, now, uri)
  {}

  // ---------------------------------------------------------------- over whole runs

  /** The DPoP key that the last successful creation, storing or rotation for this session named. */
  ghost function LastKey(rows: Table, calls: seq<Call>, uri: string, key: Option<string>): Option<string>
    decreases |calls|
  {
    if calls == [] then key
    else
      var op := calls[0].op;
      var (rows', reply) := Step(rows, op, calls[0].now);
      var key' := if !(reply.Found? && reply.uri == uri) then key
                  else if op.CreatePar? then op.dpopJkt
                  else if op.StoreTokens? || op.Rotate? then op.tokens.dpopJkt
                  else key;
      LastKey(rows', calls[1..], uri, key')
  }

  /** A session carries that key, after any run. */
  lemma {:induction false} CarriesItsLastKey(rows: Table, calls: seq<Call>, uri: string)
    requires Inv(rows)
    ensures uri in Exec(rows, calls) ==>
      Exec(rows, calls)[uri].dpopJkt == LastKey(rows, calls, uri, if uri in rows then rows[uri].dpopJkt else None)
    decreases |calls|
  {
    if calls != [] {
      var op, at := calls[0].op, calls[0].now;
      StepKeepsInv(rows, op, at);
      RowFollows(rows, uri, op, at);
      KeyStep(rows, uri, op, at);
      CarriesItsLastKey(Step(rows, op, at).0, calls[1..], uri);
    }
  }

  lemma KeyStep(rows: Table, uri: string, op: Op, now: int)
    requires Inv(rows)
    ensures var (rows', reply) := Step(rows, op, now);
      uri in rows' ==>
        rows'[uri].dpopJkt ==
          if !(reply.Found? && reply.uri == uri) then (if uri in rows then rows[uri].dpopJkt else None)
          else if op.CreatePar? then op.dpopJkt
          else if op.StoreTokens? || op.Rotate? then op.tokens.dpopJkt
          else if uri in rows then rows[uri].dpopJkt else None
    ensures uri in rows ==> uri in Step(rows, op, now).0
    ensures uri !in rows && uri !in Step(rows, op, now).0 ==>
              !(Step(rows, op, now).1.Found? && Step(rows, op, now).1.uri == uri)
  {
    RowFollows(rows, uri, op, now);
  }

  /** So whatever a finder returns after a run from the empty table is bound to that key. */
  lemma FoundCarriesItsKey(calls: seq<Call>, op: Op, now: int)
    requires op.FindByUri? || op.FindByCode? || op.FindByHash?
    ensures var reply := Step(Exec(map[], calls), op, now).1;
      reply.Found? ==> reply.row.dpopJkt == LastKey(map[], calls, reply.uri, None)
  {
    var reply := Step(Exec(map[], calls), op, now).1;
    if reply.Found? {
      CarriesItsLastKey(map[], calls, reply.uri);
    }
  }

  /** When a session was revoked: at the time of the first call of the run that ended it. */
  ghost function EndedAt(rows: Table, calls: seq<Call>, uri: string): Option<int>
    decreases |calls|
  {
    if calls == [] || !Open(rows, uri) then None
    else if Ends(rows, calls[0].op, uri) then Some(calls[0].now)
    else EndedAt(Step(rows, calls[0].op, calls[0].now).0, calls[1..], uri)
  }

  lemma {:induction false} RevokedWhenEnded(rows: Table, calls: seq<Call>, uri: string)
    requires Inv(rows) && Open(rows, uri)
    ensures uri in Exec(rows, calls) && Exec(rows, calls)[uri].revokedAt == EndedAt(rows, calls, uri)
    decreases |calls|
  {
    if calls != [] {
      var op, at, rest := calls[0].op, calls[0].now, calls[1..];
      var next := Step(rows, op, at).0;
      EndsIff(rows, uri, op, at);
      StepKeepsInv(rows, op, at);
      if Ends(rows, op, uri) {
        EndFollows(rows, uri, op, at);
        RevokedForGood(next, uri, rest);
      } else {
        RevokedWhenEnded(next, rest, uri);
      }
    }
  }
}
