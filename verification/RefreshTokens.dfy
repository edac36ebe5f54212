/**
  * One-time refresh tokens. Rows are keyed by their serial id, which is never reused; the token hash
  * is UNIQUE. Times are in milliseconds.
  */
module RefreshTokens {
  import opened Options

  const DAY: int := 86_400_000
  const EXPIRY_DAYS: int := 30

  datatype Token = Token(hash: string, authorization: int, tenant: int, createdAt: int, expiresAt: int,
                         consumedAt: Option<int>)

  datatype Store = Store(rows: map<nat, Token>, next: nat)

  datatype Op =
    | Create(hash: string, authorization: int, tenant: int)
    | Consume(hash: string)
    | RevokeFor(authorization: int)
    | CleanUp(daysOld: int)

  datatype Reply = Created(id: nat, token: Token) | Conflict | Consumed(id: nat, token: Token) | NoRow | Count(n: nat)

  predicate Live(token: Token, now: int) {
    token.consumedAt.None? && token.expiresAt > now
  }

  /** The row `consume` selects, if any. */
  ghost function Holder(rows: map<nat, Token>, hash: string, now: int): Option<nat> {
    if id :| id in rows && rows[id].hash == hash && Live(rows[id], now) then Some(id) else None
  }

  function Spend(token: Token, now: int): Token {
    token.(consumedAt := Some(now))
  }

  predicate Old(token: Token, cutoff: int) {
    (token.consumedAt.Some? && token.consumedAt.value < cutoff) || token.expiresAt < cutoff
  }

  function Cutoff(daysOld: int, now: int): int {
    now - daysOld * DAY
  }

  function Kept(rows: map<nat, Token>, cutoff: int): map<nat, Token> {
    map id | id in rows && !Old(rows[id], cutoff) :: rows[id]
  }

  function Unspent(rows: map<nat, Token>, authorization: int): set<nat> {
    set id | id in rows && rows[id].authorization == authorization && rows[id].consumedAt.None?
  }

  predicate HashTaken(rows: map<nat, Token>, hash: string) {
    exists id :: id in rows && rows[id].hash == hash
  }

  /** The store and the reply after one repository call. */
  ghost function Step(s: Store, op: Op, now: int): (Store, Reply) {
    match op
    case Create(hash, authorization, tenant) =>
      // A failed INSERT still uses up a value of the sequence.
      if HashTaken(s.rows, hash) then (s.(next := s.next + 1), Conflict)
      else
        var token := Token(hash, authorization, tenant, now, now + EXPIRY_DAYS * DAY, None);
        (Store(s.rows[s.next := token], s.next + 1), Created(s.next, token))
    case Consume(hash) =>
      var id := Holder(s.rows, hash, now);
      if id.None? then (s, NoRow)
      else
        var token := Spend(s.rows[id.value], now);
        (s.(rows := s.rows[id.value := token]), Consumed(id.value, token))
    case RevokeFor(authorization) =>
      var selected := Unspent(s.rows, authorization);
      (s.(rows := map id | id in s.rows :: if id in selected then Spend(s.rows[id], now) else s.rows[id]),
       Count(|selected|))
    case CleanUp(daysOld) =>
      var kept := Kept(s.rows, Cutoff(daysOld, now));
      (s.(rows := kept), Count(|s.rows.Keys - kept.Keys|))
  }

  ghost predicate Inv(s: Store) {
    && (forall id :: id in s.rows ==> id < s.next)
    && (forall i, j :: i in s.rows && j in s.rows && s.rows[i].hash == s.rows[j].hash ==> i == j)
  }

  /** Rows may vanish or change anything but their hash. */
  ghost predicate Thinned(before: map<nat, Token>, after: map<nat, Token>) {
    forall id :: id in after ==> id in before && after[id].hash == before[id].hash
  }

  lemma ThinnedKeepsInv(s: Store, t: Store)
    requires Inv(s) && s.next <= t.next && Thinned(s.rows, t.rows)
    ensures Inv(t)
  {}

  lemma CreateKeepsInv(s: Store, token: Token)
    requires Inv(s) && !HashTaken(s.rows, token.hash)
    ensures Inv(Store(s.rows[s.next := token], s.next + 1))
  {}

  lemma StepKeepsInv(s: Store, op: Op, now: int)
    requires Inv(s)
    ensures Inv(Step(s, op, now).0)
  {
    var t := Step(s, op, now).0;
    if op.Create? && !HashTaken(s.rows, op.hash) {
      CreateKeepsInv(s, Token(op.hash, op.authorization, op.tenant, now, now + EXPIRY_DAYS * DAY, None));
    } else {
      assert Thinned(s.rows, t.rows);
      ThinnedKeepsInv(s, t);
    }
  }

  // ---------------------------------------------------------------- what a call means for later ones

  /** At time t the token with this hash is consumed as row `id`, exactly until it expires. */
  ghost predicate ConsumableUntil(s: Store, hash: string, id: nat, expiresAt: int) {
    id in s.rows && forall t ::
      Step(s, Consume(hash), t).1 == (if t < expiresAt then Consumed(id, Spend(s.rows[id], t)) else NoRow)
  }

  /** A created token can be consumed for thirty days, and creation fails exactly when the hash exists. */
  lemma CreatedIsConsumable(s: Store, hash: string, authorization: int, tenant: int, now: int)
    requires Inv(s)
    ensures var (t, reply) := Step(s, Create(hash, authorization, tenant), now);
      && (reply == Conflict <==> HashTaken(s.rows, hash))
      && (reply == Conflict ==> t.rows == s.rows)
      && (reply.Created? ==>
            && reply.id !in s.rows && t.rows - {reply.id} == s.rows
            && ConsumableUntil(t, hash, reply.id, now + EXPIRY_DAYS * DAY))
  {
    var (t, reply) := Step(s, Create(hash, authorization, tenant), now);
    if reply.Created? {
      StepKeepsInv(s, Create(hash, authorization, tenant), now);
      forall at ensures Step(t, Consume(hash), at).1
        == (if at < now + EXPIRY_DAYS * DAY then Consumed(reply.id, Spend(t.rows[reply.id], at)) else NoRow)
      {
        if at < now + EXPIRY_DAYS * DAY {
          assert t.rows[reply.id].hash == hash && Live(t.rows[reply.id], at);
        }
      }
    }
  }

  /** After a revocation none of the authorization's tokens is live, and no other row has changed. */
  lemma RevokedForAuthorization(s: Store, authorization: int, now: int)
    ensures var (t, reply) := Step(s, RevokeFor(authorization), now);
      && t.rows.Keys == s.rows.Keys && Unspent(t.rows, authorization) == {}
      && (forall id :: id in s.rows && id !in Unspent(s.rows, authorization) ==> t.rows[id] == s.rows[id])
      && (forall id, at :: id in t.rows && t.rows[id].authorization == authorization ==> !Live(t.rows[id], at))
      && (forall id :: id in Unspent(s.rows, authorization) ==> t.rows[id] == s.rows[id].(consumedAt := Some(now)))
      && reply == Count(|Unspent(s.rows, authorization)|)
  {}

  class RefreshTokenRepository {
    const digest: string -> string
    var store: Store

    constructor (digest: string -> string)
      ensures this.digest == digest && store == Store(map[], 0) && Inv(store)
    {
      this.digest, store := digest, Store(map[], 0);
    }

    method Insert(token: string, authorization: int, tenant: int, now: int) returns (reply: Reply)
      requires Inv(store)
      modifies this
      ensures Inv(store) && (store, reply) == Step(old(store), Create(digest(token), authorization, tenant), now)
      ensures reply == Conflict <==> HashTaken(old(store).rows, digest(token))
      ensures reply.Created? ==> ConsumableUntil(store, digest(token), reply.id, now + EXPIRY_DAYS * DAY)
      ensures reply.Created? ==> store.rows - {reply.id} == old(store).rows
      ensures reply.Created? ==>
        && reply.token.hash == digest(token) && reply.token.authorization == authorization
        && reply.token.tenant == tenant && reply.token.consumedAt == None
        && reply.token.expiresAt == now + 2_592_000_000
    {
      CreatedIsConsumable(store, digest(token), authorization, tenant, now);
      StepKeepsInv(store, Create(digest(token), authorization, tenant), now);
      var hash := digest(token);
      if HashTaken(store.rows, hash) {
        store := store.(next := store.next + 1);
        return Conflict;
      }
      var expiresAt := now + EXPIRY_DAYS * DAY;
      var row := Token(hash, authorization, tenant, now, expiresAt, None);
      reply := Created(store.next, row);
      store := Store(store.rows[store.next := row], store.next + 1);
    }

    method ConsumeToken(token: string, now: int) returns (reply: Reply)
      requires Inv(store)
      modifies this
      ensures Inv(store) && (store, reply) == Step(old(store), Consume(digest(token)), now)
    {
      var hash := digest(token);
      if id :| id in store.rows && store.rows[id].hash == hash
               && store.rows[id].consumedAt.None? && store.rows[id].expiresAt > now
      {
        assert Holder(store.rows, hash, now) == Some(id);
        var row := store.rows[id].(consumedAt := Some(now));
        store := store.(rows := store.rows[id := row]);
        reply := Consumed(id, row);
      } else {
        reply := NoRow;
      }
    }

    method RevokeForAuthorization(authorization: int, now: int) returns (reply: Reply)
      requires Inv(store)
      modifies this
      ensures Inv(store) && (store, reply) == Step(old(store), RevokeFor(authorization), now)
      ensures Unspent(store.rows, authorization) == {} && store.rows.Keys == old(store).rows.Keys
      ensures forall id :: id in old(store).rows && id !in Unspent(old(store).rows, authorization) ==>
                store.rows[id] == old(store).rows[id]
    {
      RevokedForAuthorization(store, authorization, now);
      StepKeepsInv(store, RevokeFor(authorization), now);
      var selected := Unspent(store.rows, authorization);
      store := store.(rows := map id | id in store.rows ::
        if id in selected then Spend(store.rows[id], now) else store.rows[id]);
      reply := Count(|selected|);
    }

    method CleanupOldTokens(daysOld: int, now: int) returns (reply: Reply)
      requires Inv(store)
      modifies this
      ensures Inv(store) && (store, reply) == Step(old(store), CleanUp(daysOld), now)
      ensures reply == Count(|old(store).rows| - |store.rows|)
      ensures 0 <= daysOld ==> SameAnswers(old(store), store, now)
    {
      CleanupCounts(store, daysOld, now);
      if 0 <= daysOld {
        CleanupAnswersAlike(store, daysOld, now);
      }
      StepKeepsInv(store, CleanUp(daysOld), now);
      var cutoff := Cutoff(daysOld, now);
      var kept := Kept(store.rows, cutoff);
      reply := Count(|store.rows.Keys - kept.Keys|);
      store := store.(rows := kept);
    }
  }

  // ---------------------------------------------------------------- consumed at most once

  datatype Call = Call(op: Op, now: int)

  ghost function Exec(s: Store, calls: seq<Call>): Store
    decreases |calls|
  {
    if calls == [] then s else Exec(Step(s, calls[0].op, calls[0].now).0, calls[1..])
  }

  /** The row with this id, if it still exists, has been consumed; the id will not be given out again. */
  ghost predicate Spent(s: Store, id: nat) {
    id < s.next && (id in s.rows ==> s.rows[id].consumedAt.Some?)
  }

  lemma SpentBulk(s: Store, id: nat, op: Op, now: int)
    requires Spent(s, id) && (op.RevokeFor? || op.CleanUp?)
    ensures Spent(Step(s, op, now).0, id)
  {}

  lemma SpentSingle(s: Store, id: nat, op: Op, now: int)
    requires Spent(s, id) && (op.Create? || op.Consume?)
    ensures Spent(Step(s, op, now).0, id)
  {}

  lemma SpentStep(s: Store, id: nat, op: Op, now: int)
    requires Inv(s) && Spent(s, id)
    ensures Inv(Step(s, op, now).0) && Spent(Step(s, op, now).0, id)
  {
    StepKeepsInv(s, op, now);
    if op.RevokeFor? || op.CleanUp? {
      SpentBulk(s, id, op, now);
    } else {
      SpentSingle(s, id, op, now);
    }
  }

  lemma {:induction false} SpentForGood(s: Store, id: nat, calls: seq<Call>)
    requires Inv(s) && Spent(s, id)
    ensures Inv(Exec(s, calls)) && Spent(Exec(s, calls), id)
    decreases |calls|
  {
    if calls != [] {
      SpentStep(s, id, calls[0].op, calls[0].now);
      SpentForGood(Step(s, calls[0].op, calls[0].now).0, id, calls[1..]);
    }
  }

  lemma {:induction false} ExecKeepsInv(s: Store, calls: seq<Call>)
    requires Inv(s)
    ensures Inv(Exec(s, calls))
    decreases |calls|
  {
    if calls != [] {
      StepKeepsInv(s, calls[0].op, calls[0].now);
      ExecKeepsInv(Step(s, calls[0].op, calls[0].now).0, calls[1..]);
    }
  }

  /** In any run each row is returned by `consume` at most once, whatever clients, revocations and
    * cleanups come in between, and whatever their clocks say. */
  lemma ConsumedAtMostOnce(before: seq<Call>, first: Call, between: seq<Call>, second: Call)
    requires first.op.Consume? && second.op.Consume?
    ensures var s := Exec(Store(map[], 0), before);
      var (t, one) := Step(s, first.op, first.now);
      var two := Step(Exec(t, between), second.op, second.now).1;
      one.Consumed? && two.Consumed? ==> one.id != two.id
  {
    var s := Exec(Store(map[], 0), before);
    ExecKeepsInv(Store(map[], 0), before);
    var (t, one) := Step(s, first.op, first.now);
    StepKeepsInv(s, first.op, first.now);
    if one.Consumed? {
      SpentForGood(t, one.id, between);
    }
  }

  /** After a revocation no token the authorization had is ever consumed again. */
  lemma RevokedTokensAreSpent(s: Store, authorization: int, now: int, id: nat, between: seq<Call>, second: Call)
    requires Inv(s) && id in s.rows && s.rows[id].authorization == authorization && second.op.Consume?
    ensures var reply := Step(Exec(Step(s, RevokeFor(authorization), now).0, between), second.op, second.now).1;
            reply.Consumed? ==> reply.id != id
  {
    StepKeepsInv(s, RevokeFor(authorization), now);
    SpentForGood(Step(s, RevokeFor(authorization), now).0, id, between);
  }

  // ---------------------------------------------------------------- the life of a token

  /** The call ends the life of an unconsumed token: it consumes it in time, revokes its authorization's
    * tokens, or cleans it up as expired. */
  predicate EndsToken(op: Op, now: int, token: Token) {
    match op
    case Create(_, _, _) => false
    case Consume(hash) => hash == token.hash && now < token.expiresAt
    case RevokeFor(authorization) => authorization == token.authorization
    case CleanUp(daysOld) => token.expiresAt < now - daysOld * 86_400_000
  }

  predicate NeverEnded(calls: seq<Call>, token: Token)
    decreases |calls|
  {
    calls == [] || (!EndsToken(calls[0].op, calls[0].now, token) && NeverEnded(calls[1..], token))
  }

  lemma TokenBulkStep(s: Store, id: nat, op: Op, now: int)
    requires Inv(s) && id in s.rows && s.rows[id].consumedAt.None? && (op.RevokeFor? || op.CleanUp?)
    ensures if EndsToken(op, now, s.rows[id]) then Spent(Step(s, op, now).0, id)
            else id in Step(s, op, now).0.rows && Step(s, op, now).0.rows[id] == s.rows[id]
  {}

  lemma TokenSingleStep(s: Store, id: nat, op: Op, now: int)
    requires Inv(s) && id in s.rows && s.rows[id].consumedAt.None? && (op.Create? || op.Consume?)
    ensures if EndsToken(op, now, s.rows[id]) then Spent(Step(s, op, now).0, id)
            else id in Step(s, op, now).0.rows && Step(s, op, now).0.rows[id] == s.rows[id]
  {
    if op.Consume? && op.hash == s.rows[id].hash && now < s.rows[id].expiresAt {
      assert Holder(s.rows, op.hash, now) == Some(id);
    }
  }

  lemma TokenStep(s: Store, id: nat, op: Op, now: int)
    requires Inv(s) && id in s.rows && s.rows[id].consumedAt.None?
    ensures Inv(Step(s, op, now).0)
    ensures if EndsToken(op, now, s.rows[id]) then Spent(Step(s, op, now).0, id)
            else id in Step(s, op, now).0.rows && Step(s, op, now).0.rows[id] == s.rows[id]
  {
    StepKeepsInv(s, op, now);
    if op.RevokeFor? || op.CleanUp? {
      TokenBulkStep(s, id, op, now);
    } else {
      TokenSingleStep(s, id, op, now);
    }
  }

  /** An unconsumed token is there unchanged after any run that has not ended it, and spent after any that
    * has. */
  lemma {:induction false} TokenLives(s: Store, id: nat, calls: seq<Call>)
    requires Inv(s) && id in s.rows && s.rows[id].consumedAt.None?
    ensures Inv(Exec(s, calls))
    ensures if NeverEnded(calls, s.rows[id])
            then id in Exec(s, calls).rows && Exec(s, calls).rows[id] == s.rows[id]
            else Spent(Exec(s, calls), id)
    decreases |calls|
  {
    if calls != [] {
      var op, at := calls[0].op, calls[0].now;
      TokenStep(s, id, op, at);
      if EndsToken(op, at, s.rows[id]) {
        SpentForGood(Step(s, op, at).0, id, calls[1..]);
      } else {
        TokenLives(Step(s, op, at).0, id, calls[1..]);
      }
    }
  }

  /** A token created for an authorization is consumed after a run if and only if the run has neither
    * consumed it in time nor revoked that authorization's tokens nor cleaned it up, and its thirty days
    * are not over. It then comes with the authorization and the tenant it was created for. Revoking any
    * other authorization makes no difference. */
  lemma CreatedConsumedIff(s: Store, hash: string, authorization: int, tenant: int, now: int,
                           calls: seq<Call>, at: int)
    requires Inv(s) && !HashTaken(s.rows, hash)
    ensures var (t, created) := Step(s, Create(hash, authorization, tenant), now);
      var token := Token(hash, authorization, tenant, now, now + 2_592_000_000, None);
      var reply := Step(Exec(t, calls), Consume(hash), at).1;
      && created == Created(s.next, token)
      && (reply.Consumed? && reply.id == s.next <==> NeverEnded(calls, token) && at < now + 2_592_000_000)
      && (reply.Consumed? && reply.id == s.next ==>
            reply.token.authorization == authorization && reply.token.tenant == tenant
            && reply.token.hash == hash && reply.token.consumedAt == Some(at))
  {
    var t := Step(s, Create(hash, authorization, tenant), now).0;
    StepKeepsInv(s, Create(hash, authorization, tenant), now);
    TokenLives(t, s.next, calls);
    var u := Exec(t, calls);
    if NeverEnded(calls, t.rows[s.next]) && at < now + 2_592_000_000 {
      assert u.rows[s.next].hash == hash && Live(u.rows[s.next], at);
      assert Holder(u.rows, hash, at) == Some(s.next);
    }
  }

  /** What a cleanup deletes, in days of 86400 seconds. */
  lemma CleanupDeletesIff(s: Store, daysOld: int, now: int, id: nat)
    requires id in s.rows
    ensures var cutoff := now - daysOld * 86_400_000;
      id !in Step(s, CleanUp(daysOld), now).0.rows <==>
        || (s.rows[id].consumedAt.Some? && s.rows[id].consumedAt.value < cutoff)
        || s.rows[id].expiresAt < cutoff
  {}

  // ---------------------------------------------------------------- cleanup is invisible to consume

  /** What the `consume` calls in a run answer. */
  ghost function Answers(s: Store, calls: seq<Call>): seq<Reply>
    decreases |calls|
  {
    if calls == [] then []
    else
      var (t, reply) := Step(s, calls[0].op, calls[0].now);
      (if calls[0].op.Consume? then [reply] else []) + Answers(t, calls[1..])
  }

  /** What the `create` and `consume` calls in a run answer. */
  ghost function Replies(s: Store, calls: seq<Call>): seq<Reply>
    decreases |calls|
  {
    if calls == [] then []
    else
      var (t, reply) := Step(s, calls[0].op, calls[0].now);
      (if calls[0].op.Consume? || calls[0].op.Create? then [reply] else []) + Replies(t, calls[1..])
  }

  /** The second store lacks only rows that no `consume` from `now` on can return. */
  ghost predicate Covers(full: Store, cleaned: Store, now: int) {
    && full.next == cleaned.next
    && (forall id :: id in cleaned.rows ==> id in full.rows && full.rows[id] == cleaned.rows[id])
    && (forall id :: id in full.rows && id !in cleaned.rows ==> !Live(full.rows[id], now))
  }

  /** From `now` on every token is answered for alike in both stores. */
  ghost predicate SameAnswers(full: Store, cleaned: Store, now: int) {
    forall hash, at :: now <= at ==> Step(cleaned, Consume(hash), at).1 == Step(full, Consume(hash), at).1
  }

  lemma CleanupCounts(s: Store, daysOld: int, now: int)
    ensures Step(s, CleanUp(daysOld), now).1 == Count(|s.rows| - |Kept(s.rows, Cutoff(daysOld, now))|)
    ensures Step(s, CleanUp(daysOld), now).0.rows == Kept(s.rows, Cutoff(daysOld, now))
  {
    var kept := Kept(s.rows, Cutoff(daysOld, now));
    assert s.rows.Keys == kept.Keys + (s.rows.Keys - kept.Keys);
  }

  /** A cleanup with `daysOld >= 0` changes no answer. */
  lemma CleanupAnswersAlike(s: Store, daysOld: int, now: int)
    requires Inv(s) && 0 <= daysOld
    ensures SameAnswers(s, Step(s, CleanUp(daysOld), now).0, now)
  {
    var t := Step(s, CleanUp(daysOld), now).0;
    assert SparesTheLive(s, Cutoff(daysOld, now), now);
    CleanupCovers(s, daysOld, now);
    forall hash, at | now <= at ensures Step(t, Consume(hash), at).1 == Step(s, Consume(hash), at).1 {
      CoversConsume(s, t, now, hash, at);
    }
  }

  /** The hash belongs to a row only the first store still has. */
  ghost predicate Forgotten(full: Store, cleaned: Store, hash: string) {
    exists id :: id in full.rows && id !in cleaned.rows && full.rows[id].hash == hash
  }

  /** No call of the run creates a token that at that point only the first store still has. */
  ghost predicate NeverReissued(full: Store, cleaned: Store, calls: seq<Call>)
    decreases |calls|
  {
    calls == [] || (
      var op, at := calls[0].op, calls[0].now;
      && (op.Create? ==> !Forgotten(full, cleaned, op.hash))
      && NeverReissued(Step(full, op, at).0, Step(cleaned, op, at).0, calls[1..]))
  }

  lemma SameHolder(full: Store, cleaned: Store, now: int, at: int, hash: string)
    requires Inv(full) && Covers(full, cleaned, now) && now <= at
    ensures Holder(full.rows, hash, at) == Holder(cleaned.rows, hash, at)
  {
    var f, c := Holder(full.rows, hash, at), Holder(cleaned.rows, hash, at);
    if f.Some? {
      assert Live(full.rows[f.value], now);
      assert f.value in cleaned.rows;
      assert c.Some?;
    }
    if c.Some? {
      assert full.rows[c.value] == cleaned.rows[c.value];
      assert f.Some?;
    }
  }

  ghost predicate NoneNewlyForgotten(full: Store, cleaned: Store, f: Store, c: Store) {
    forall hash :: Forgotten(f, c, hash) ==> Forgotten(full, cleaned, hash)
  }

  lemma CoversConsume(full: Store, cleaned: Store, now: int, hash: string, at: int)
    requires Inv(full) && Covers(full, cleaned, now) && now <= at
    ensures Covers(Step(full, Consume(hash), at).0, Step(cleaned, Consume(hash), at).0, now)
    ensures Step(full, Consume(hash), at).1 == Step(cleaned, Consume(hash), at).1
  {
    SameHolder(full, cleaned, now, at, hash);
  }

  lemma CoversCreate(full: Store, cleaned: Store, now: int, op: Op, at: int)
    requires Inv(full) && Covers(full, cleaned, now) && now <= at
    requires op.Create? && !Forgotten(full, cleaned, op.hash)
    ensures Covers(Step(full, op, at).0, Step(cleaned, op, at).0, now)
    ensures Step(full, op, at).1 == Step(cleaned, op, at).1
  {
    assert HashTaken(full.rows, op.hash) == HashTaken(cleaned.rows, op.hash);
  }

  lemma ReissueDiffers(full: Store, cleaned: Store, now: int, op: Op, at: int)
    requires Inv(full) && Covers(full, cleaned, now) && op.Create? && Forgotten(full, cleaned, op.hash)
    ensures Step(full, op, at).1 == Conflict && Step(cleaned, op, at).1.Created?
  {
    assert !HashTaken(cleaned.rows, op.hash);
  }

  lemma CoversBulk(full: Store, cleaned: Store, now: int, op: Op, at: int)
    requires Inv(full) && Covers(full, cleaned, now) && now <= at && (op.RevokeFor? || op.CleanUp?)
    ensures Covers(Step(full, op, at).0, Step(cleaned, op, at).0, now)
  {
    if op.CleanUp? {
      assert forall id :: id in Kept(cleaned.rows, Cutoff(op.daysOld, at)) ==>
        id in Kept(full.rows, Cutoff(op.daysOld, at));
    }
  }

  ghost predicate OnlyIn(full: Store, cleaned: Store, id: nat) {
    id in full.rows && id !in cleaned.rows
  }

  lemma CreateForgetsNothing(full: Store, cleaned: Store, now: int, op: Op, at: int, id: nat)
    requires Covers(full, cleaned, now) && op.Create? && !Forgotten(full, cleaned, op.hash)
    requires OnlyIn(Step(full, op, at).0, Step(cleaned, op, at).0, id)
    ensures OnlyIn(full, cleaned, id) && Step(full, op, at).0.rows[id] == full.rows[id]
  {
    assert HashTaken(full.rows, op.hash) == HashTaken(cleaned.rows, op.hash);
  }

  lemma BulkForgetsNothing(full: Store, cleaned: Store, now: int, op: Op, at: int, id: nat)
    requires Covers(full, cleaned, now) && (op.RevokeFor? || op.CleanUp?)
    requires OnlyIn(Step(full, op, at).0, Step(cleaned, op, at).0, id)
    ensures OnlyIn(full, cleaned, id) && Step(full, op, at).0.rows[id].hash == full.rows[id].hash
  {
    if op.CleanUp? {
      assert id in Kept(full.rows, Cutoff(op.daysOld, at));
    }
  }

  lemma ConsumeForgetsNothing(full: Store, cleaned: Store, now: int, op: Op, at: int, id: nat)
    requires Inv(full) && Covers(full, cleaned, now) && now <= at && op.Consume?
    requires OnlyIn(Step(full, op, at).0, Step(cleaned, op, at).0, id)
    ensures OnlyIn(full, cleaned, id) && Step(full, op, at).0.rows[id].hash == full.rows[id].hash
  {
    SameHolder(full, cleaned, now, at, op.hash);
  }

  /** The set of forgotten rows never grows. */
  lemma ForgottenShrinks(full: Store, cleaned: Store, now: int, op: Op, at: int)
    requires Inv(full) && Covers(full, cleaned, now) && now <= at
    requires op.Create? ==> !Forgotten(full, cleaned, op.hash)
    ensures NoneNewlyForgotten(full, cleaned, Step(full, op, at).0, Step(cleaned, op, at).0)
  {
    var f, c := Step(full, op, at).0, Step(cleaned, op, at).0;
    forall hash | Forgotten(f, c, hash) ensures Forgotten(full, cleaned, hash) {
      var id :| id in f.rows && id !in c.rows && f.rows[id].hash == hash;
      match op {
        case Consume(_) => ConsumeForgetsNothing(full, cleaned, now, op, at, id);
        case Create(_, _, _) => CreateForgetsNothing(full, cleaned, now, op, at, id);
        case _ => BulkForgetsNothing(full, cleaned, now, op, at, id);
      }
      assert OnlyIn(full, cleaned, id) && full.rows[id].hash == hash;
    }
  }

  lemma CoversStep(full: Store, cleaned: Store, now: int, op: Op, at: int)
    requires Inv(full) && Covers(full, cleaned, now) && now <= at
    requires op.Create? ==> !Forgotten(full, cleaned, op.hash)
    ensures Inv(Step(full, op, at).0) && Covers(Step(full, op, at).0, Step(cleaned, op, at).0, now)
    ensures op.Create? || op.Consume? ==> Step(full, op, at).1 == Step(cleaned, op, at).1
  {
    StepKeepsInv(full, op, at);
    match op {
      case Consume(hash) => CoversConsume(full, cleaned, now, hash, at);
      case Create(_, _, _) => CoversCreate(full, cleaned, now, op, at);
      case _ => CoversBulk(full, cleaned, now, op, at);
    }
  }

  lemma {:induction false} CoversKeepsAnswers(full: Store, cleaned: Store, now: int, calls: seq<Call>)
    requires Inv(full) && Covers(full, cleaned, now)
    requires forall i :: 0 <= i < |calls| ==> now <= calls[i].now
    ensures Replies(cleaned, calls) == Replies(full, calls) <==> NeverReissued(full, cleaned, calls)
    ensures NeverReissued(full, cleaned, calls) ==> Answers(cleaned, calls) == Answers(full, calls)
    decreases |calls|
  {
    if calls != [] {
      var op, at, rest := calls[0].op, calls[0].now, calls[1..];
      if op.Create? && Forgotten(full, cleaned, op.hash) {
        ReissueDiffers(full, cleaned, now, op, at);
        assert Replies(full, calls)[0] != Replies(cleaned, calls)[0];
      } else {
        CoversStep(full, cleaned, now, op, at);
        var f, c := Step(full, op, at).0, Step(cleaned, op, at).0;
        assert forall i :: 0 <= i < |rest| ==> rest[i] == calls[i + 1];
        CoversKeepsAnswers(f, c, now, rest);
        SameHead(full, cleaned, calls);
      }
    }
  }

  lemma SameHead(full: Store, cleaned: Store, calls: seq<Call>)
    requires calls != []
    requires calls[0].op.Create? || calls[0].op.Consume? ==>
               Step(full, calls[0].op, calls[0].now).1 == Step(cleaned, calls[0].op, calls[0].now).1
    ensures Replies(cleaned, calls) == Replies(full, calls) <==>
            Replies(Step(cleaned, calls[0].op, calls[0].now).0, calls[1..])
            == Replies(Step(full, calls[0].op, calls[0].now).0, calls[1..])
  {
    var f := Replies(Step(full, calls[0].op, calls[0].now).0, calls[1..]);
    var c := Replies(Step(cleaned, calls[0].op, calls[0].now).0, calls[1..]);
    if calls[0].op.Create? || calls[0].op.Consume? {
      assert Replies(full, calls)[1..] == f && Replies(cleaned, calls)[1..] == c;
    } else {
      assert Replies(full, calls) == f && Replies(cleaned, calls) == c;
    }
  }

  /** No live token expires before the cutoff. */
  ghost predicate SparesTheLive(s: Store, cutoff: int, now: int) {
    forall id :: id in s.rows && Live(s.rows[id], now) ==> s.rows[id].expiresAt >= cutoff
  }

  lemma CleanupCovers(s: Store, daysOld: int, now: int)
    requires SparesTheLive(s, Cutoff(daysOld, now), now)
    ensures Covers(s, Step(s, CleanUp(daysOld), now).0, now)
  {}

  /** For each run after a cleanup of tokens at least zero days old: all its creations and consumptions
    * answer as without the cleanup if and only if the run never creates a token that the cleanup has
    * deleted and that would still be there without it. Then no consumption changes either. */
  lemma CleanupIsInvisible(before: seq<Call>, daysOld: int, now: int, calls: seq<Call>)
    requires 0 <= daysOld && (forall i :: 0 <= i < |calls| ==> now <= calls[i].now)
    ensures var s := Exec(Store(map[], 0), before);
      var t := Step(s, CleanUp(daysOld), now).0;
      && (Replies(t, calls) == Replies(s, calls) <==> NeverReissued(s, t, calls))
      && (NeverReissued(s, t, calls) ==> Answers(t, calls) == Answers(s, calls))
  {
    var s := Exec(Store(map[], 0), before);
    ExecKeepsInv(Store(map[], 0), before);
    assert SparesTheLive(s, Cutoff(daysOld, now), now);
    CleanupCovers(s, daysOld, now);
    CoversKeepsAnswers(s, Step(s, CleanUp(daysOld), now).0, now, calls);
  }

  /** The calls happen from `now` on and create tokens from this set only. */
  ghost predicate Creates(calls: seq<Call>, hashes: set<string>, now: int) {
    forall i :: 0 <= i < |calls| ==>
      now <= calls[i].now && (calls[i].op.Create? ==> calls[i].op.hash in hashes)
  }

  ghost predicate InvisibleTo(s: Store, t: Store, hashes: set<string>, now: int) {
    forall calls :: Creates(calls, hashes, now) ==> Answers(t, calls) == Answers(s, calls)
  }

  /** Creating a deleted token again and consuming it: with the old row in place the first is a conflict
    * and the second finds nothing; after the cleanup both succeed. */
  function Again(hash: string, now: int): seq<Call> {
    [Call(Create(hash, 0, 0), now), Call(Consume(hash), now)]
  }

  lemma AgainAnswers(s: Store, hash: string, now: int)
    requires Inv(s)
    ensures Answers(s, Again(hash, now))
         == [Step(Step(s, Create(hash, 0, 0), now).0, Consume(hash), now).1]
  {
    var calls := Again(hash, now);
    var t := Step(s, Create(hash, 0, 0), now).0;
    assert calls[1..] == [Call(Consume(hash), now)] && calls[1..][1..] == [];
    assert Answers(s, calls) == [] + Answers(t, calls[1..]);
    assert Answers(t, calls[1..]) == [Step(t, Consume(hash), now).1] + Answers(Step(t, Consume(hash), now).0, []);
  }

  lemma ReissueShows(s: Store, t: Store, id: nat, now: int)
    requires Inv(s) && Inv(t) && Covers(s, t, now) && OnlyIn(s, t, id)
    ensures Answers(t, Again(s.rows[id].hash, now)) != Answers(s, Again(s.rows[id].hash, now))
  {
    var hash := s.rows[id].hash;
    assert HashTaken(s.rows, hash);
    assert !HashTaken(t.rows, hash);
    AgainAnswers(s, hash, now);
    AgainAnswers(t, hash, now);
    CreatedIsConsumable(t, hash, 0, 0, now);
  }

  lemma {:induction false} OthersAreNeverReissued(full: Store, cleaned: Store, now: int, calls: seq<Call>,
                                                  hashes: set<string>)
    requires Inv(full) && Covers(full, cleaned, now) && Creates(calls, hashes, now)
    requires forall hash :: hash in hashes ==> !Forgotten(full, cleaned, hash)
    ensures NeverReissued(full, cleaned, calls)
    decreases |calls|
  {
    if calls != [] {
      var op, at, rest := calls[0].op, calls[0].now, calls[1..];
      CoversStep(full, cleaned, now, op, at);
      ForgottenShrinks(full, cleaned, now, op, at);
      assert forall i :: 0 <= i < |rest| ==> rest[i] == calls[i + 1];
      OthersAreNeverReissued(Step(full, op, at).0, Step(cleaned, op, at).0, now, rest, hashes);
    }
  }

  /** Exactly when a cleanup is invisible: no later run that creates tokens from a given set can tell it
    * from no cleanup if and only if none of the deleted tokens is in that set. */
  lemma CleanupIsInvisibleIff(s: Store, daysOld: int, now: int, hashes: set<string>)
    requires Inv(s) && 0 <= daysOld
    ensures var t := Step(s, CleanUp(daysOld), now).0;
      InvisibleTo(s, t, hashes, now) <==> forall hash :: hash in hashes ==> !Forgotten(s, t, hash)
  {
    var t := Step(s, CleanUp(daysOld), now).0;
    StepKeepsInv(s, CleanUp(daysOld), now);
    assert SparesTheLive(s, Cutoff(daysOld, now), now);
    CleanupCovers(s, daysOld, now);
    if hash :| hash in hashes && Forgotten(s, t, hash) {
      var id :| id in s.rows && id !in t.rows && s.rows[id].hash == hash;
      ReissueShows(s, t, id, now);
      assert Creates(Again(hash, now), hashes, now);
    } else {
      forall calls | Creates(calls, hashes, now) ensures Answers(t, calls) == Answers(s, calls) {
        OthersAreNeverReissued(s, t, now, calls, hashes);
        CoversKeepsAnswers(s, t, now, calls);
      }
    }
  }

  lemma CleanupHides(s: Store, daysOld: int, now: int, id: nat)
    requires Inv(s) && id in s.rows && Live(s.rows[id], now) && s.rows[id].expiresAt < Cutoff(daysOld, now)
    ensures Step(s, Consume(s.rows[id].hash), now).1.Consumed?
    ensures Step(Step(s, CleanUp(daysOld), now).0, Consume(s.rows[id].hash), now).1 == NoRow
  {
    assert Holder(s.rows, s.rows[id].hash, now) == Some(id);
    assert id !in Step(s, CleanUp(daysOld), now).0.rows;
  }

  /** For any cutoff, also one in the future: the next `consume` of every token answers as before exactly
    * when no live token expires before the cutoff. */
  lemma CleanupHidesNothingIff(s: Store, daysOld: int, now: int)
    requires Inv(s)
    ensures (forall hash :: Step(Step(s, CleanUp(daysOld), now).0, Consume(hash), now).1
                         == Step(s, Consume(hash), now).1)
       <==> SparesTheLive(s, Cutoff(daysOld, now), now)
  {
    var t := Step(s, CleanUp(daysOld), now).0;
    if SparesTheLive(s, Cutoff(daysOld, now), now) {
      CleanupCovers(s, daysOld, now);
      forall hash ensures Step(t, Consume(hash), now).1 == Step(s, Consume(hash), now).1 {
        CoversConsume(s, t, now, hash, now);
      }
    } else {
      var id :| id in s.rows && Live(s.rows[id], now) && s.rows[id].expiresAt < Cutoff(daysOld, now);
      CleanupHides(s, daysOld, now, id);
      assert Step(t, Consume(s.rows[id].hash), now).1 != Step(s, Consume(s.rows[id].hash), now).1;
    }
  }

  // ---------------------------------------------------------------- the failures at concrete inputs

  /** One live token, created at time 0. */
  function OneToken(hash: string): Store {
    Store(map[0 := Token(hash, 1, 1, 0, EXPIRY_DAYS * DAY, None)], 1)
  }

  /** A cleanup of tokens -31 days old deletes a token that could be consumed for thirty days more. */
  lemma NegativeDaysDeleteALiveToken(hash: string)
    ensures Step(OneToken(hash), Consume(hash), 0).1.Consumed?
    ensures Step(Step(OneToken(hash), CleanUp(-31), 0).0, Consume(hash), 0).1 == NoRow
  {
    CleanupHides(OneToken(hash), -31, 0, 0);
  }

  /** An expired token that was cleaned up is created again, and consumed, where without the cleanup the
    * creation would have been refused. */
  lemma CleanupLetsATokenBeReissued(hash: string)
    ensures var s, now := OneToken(hash), 31 * DAY;
      && Answers(Step(s, CleanUp(0), now).0, Again(hash, now)) != Answers(s, Again(hash, now))
      && !NeverReissued(s, Step(s, CleanUp(0), now).0, Again(hash, now))
  {
    var s, now := OneToken(hash), 31 * DAY;
    var t := Step(s, CleanUp(0), now).0;
    StepKeepsInv(s, CleanUp(0), now);
    assert SparesTheLive(s, Cutoff(0, now), now);
    CleanupCovers(s, 0, now);
    assert OnlyIn(s, t, 0);
    ReissueShows(s, t, 0, now);
  }
}
