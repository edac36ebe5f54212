/**
  * Every interleaving of requests, loads, cache commands and writers of the authorization tables.
  *
  * A request first takes a handler, from the cache or from a load that has finished, and is answered
  * later; a load first reads its row and enters the cache later. Anything may happen in between, so
  * the handler a request works with can be arbitrarily out of date.
  */
module SignerRuns {
  import opened Options
  import opened Signers

  datatype Request = Request(client: Key, call: Call, handler: Handler)

  datatype State = State(
    oauth: Table,
    teams: Table,
    cache: HandlerCache,
    loading: map<nat, Handler>,
    requests: map<nat, Request>,
    oauthIssued: set<Key>,
    teamIssued: set<Key>)

  datatype Step =
    | IssueOauth(bunker: Key, row: Row)
    | IssueTeam(bunker: Key, row: Row)
    | Revoke(bunker: Key, now: int)
    | RevokeByBunker(bunker: Key, user: Key, userInTenant: bool, now: int)
    | RevokeByOrigin(user: Key, origin: string, tenant: int, now: int)
    | Disconnect(bunker: Key, user: Key, userInTenant: bool)
    | DeleteUser(user: Key)
    | RevokeTeam(bunker: Key, now: int)
    | DeleteTeam(bunker: Key)
    | BeginLoad(load: nat, bunker: Key, now: int)
    | BeginUpsert(load: nat, bunker: Key, tenant: int, isOauth: bool, now: int)
    | EndUpsert(load: nat)
    | Remove(bunker: Key, now: int)
    | Evict(bunker: Key)
    | CleanUp(now: int)
    | TakeCached(request: nat, bunker: Key, client: Key, call: Call)
    | TakeLoaded(request: nat, load: nat, client: Key, call: Call)
    | Answer(request: nat, permitted: bool, now: int)

  const Initial: State := State(map[], map[], map[], map[], map[], {}, {})

  function RevokedRow(row: Row, now: int): Row {
    row.(revokedAt := Some(now))
  }

  predicate Enabled(s: State, step: Step) {
    match step
    case IssueOauth(b, row) => b !in s.oauthIssued + s.teamIssued && row.revokedAt.None? && row.client.None?
    case IssueTeam(b, row) => b !in s.oauthIssued + s.teamIssued && row.revokedAt.None? && row.client.None?
    case BeginLoad(k, b, now) => k !in s.loading && LoadOnDemand(s.oauth, s.teams, b, now).Some?
    case BeginUpsert(k, b, tenant, isOauth, now) =>
      k !in s.loading && LoadForUpsert(s.oauth, s.teams, b, tenant, isOauth, now).Some?
    case EndUpsert(k) => k in s.loading
    case Evict(b) => b in s.cache
    case TakeCached(r, b, _, _) => r !in s.requests && b in s.cache
    case TakeLoaded(r, k, _, _) => r !in s.requests && k in s.loading
    case Answer(r, _, _) => r in s.requests
    case _ => true
  }

  function RowsFor(s: State, h: Handler): Table {
    if h.isOauth then s.oauth else s.teams
  }

  /** The tables and the reply when a request is answered. */
  function Outcome(s: State, request: nat, permitted: bool, now: int): (Table, Reply)
    requires request in s.requests
  {
    var q := s.requests[request];
    Answered(RowsFor(s, q.handler), q.handler, q.client, q.call, permitted, now)
  }

  function Next(s: State, step: Step): State
    requires Enabled(s, step)
  {
    match step
    case IssueOauth(b, row) => s.(oauth := s.oauth[b := row], oauthIssued := s.oauthIssued + {b})
    case IssueTeam(b, row) => s.(teams := s.teams[b := row], teamIssued := s.teamIssued + {b})
    case Revoke(b, now) =>
      if b in s.oauth then s.(oauth := s.oauth[b := RevokedRow(s.oauth[b], now)]) else s
    case RevokeByBunker(b, user, userInTenant, now) =>
      if b in s.oauth && s.oauth[b].user == user && s.oauth[b].revokedAt.None? && userInTenant
      then s.(oauth := s.oauth[b := RevokedRow(s.oauth[b], now)]) else s
    case RevokeByOrigin(user, origin, tenant, now) =>
      s.(oauth := map b | b in s.oauth ::
           var row := s.oauth[b];
           if row.user == user && row.origin == origin && row.tenant == tenant && row.revokedAt.None?
           then RevokedRow(row, now) else row)
    case Disconnect(b, user, userInTenant) =>
      if b in s.oauth && s.oauth[b].user == user && s.oauth[b].revokedAt.None? && userInTenant
      then s.(oauth := s.oauth[b := s.oauth[b].(client := None)]) else s
    case DeleteUser(user) => s.(oauth := map b | b in s.oauth && s.oauth[b].user != user :: s.oauth[b])
    case RevokeTeam(b, now) =>
      if b in s.teams && s.teams[b].revokedAt.None?
      then s.(teams := s.teams[b := RevokedRow(s.teams[b], now)]) else s
    case DeleteTeam(b) => s.(teams := s.teams - {b})
    case BeginLoad(k, b, now) =>
      s.(loading := s.loading[k := LoadOnDemand(s.oauth, s.teams, b, now).value])
    case BeginUpsert(k, b, tenant, isOauth, now) =>
      s.(loading := s.loading[k := LoadForUpsert(s.oauth, s.teams, b, tenant, isOauth, now).value])
    case EndUpsert(k) =>
      s.(cache := s.cache[s.loading[k].bunker := s.loading[k]], loading := s.loading - {k})
    case Remove(b, now) => s.(cache := Tombstoned(s.cache, b, now))
    case Evict(b) => s.(cache := s.cache - {b})
    case CleanUp(now) => s.(cache := WithoutOldTombstones(s.cache, now))
    case TakeCached(r, b, client, call) => s.(requests := s.requests[r := Request(client, call, s.cache[b])])
    case TakeLoaded(r, k, client, call) =>
      s.(cache := s.cache[s.loading[k].bunker := s.loading[k]],
         loading := s.loading - {k},
         requests := s.requests[r := Request(client, call, s.loading[k])])
    case Answer(r, permitted, now) =>
      var (rows, _) := Outcome(s, r, permitted, now);
      var t := if s.requests[r].handler.isOauth then s.(oauth := rows) else s.(teams := rows);
      t.(requests := s.requests - {r})
  }

  ghost predicate Run(s: State, steps: seq<Step>, t: State)
    decreases |steps|
  {
    if steps == [] then s == t
    else Enabled(s, steps[0]) && Run(Next(s, steps[0]), steps[1..], t)
  }

  // ---------------------------------------------------------------- the invariant

  /** A handler belongs to the table its flag says, and has its row's tenant and secret hash. */
  ghost predicate Genuine(s: State, h: Handler) {
    && (if h.isOauth then h.bunker in s.oauthIssued else h.bunker in s.teamIssued)
    && (h.bunker in RowsFor(s, h) ==>
          RowsFor(s, h)[h.bunker].tenant == h.tenant && RowsFor(s, h)[h.bunker].secretHash == h.secretHash)
  }

  ghost predicate TablesInv(s: State) {
    && s.oauth.Keys <= s.oauthIssued && s.teams.Keys <= s.teamIssued
    && s.oauthIssued !! s.teamIssued
  }

  ghost predicate Inv(s: State) {
    && TablesInv(s)
    && (forall b :: b in s.cache ==> s.cache[b].bunker == b && Genuine(s, s.cache[b]))
    && (forall k :: k in s.loading ==> Genuine(s, s.loading[k]))
    && (forall r :: r in s.requests ==> Genuine(s, s.requests[r].handler))
  }

  /** The two rows differ in the bound client and the revocation at most. */
  predicate SameTerms(a: Row, b: Row) {
    && a.tenant == b.tenant && a.user == b.user && a.origin == b.origin
    && a.secretHash == b.secretHash && a.expiresAt == b.expiresAt
  }

  /** Tables only lose rows or change who is bound and whether they are revoked. */
  ghost predicate KeepsTerms(before: Table, after: Table, issued: set<Key>) {
    forall b :: b in after && b in issued ==> b in before && SameTerms(after[b], before[b])
  }

  /** Answering a request binds at most one client. */
  lemma AnsweredChangesClientsOnly(rows: Table, h: Handler, client: Key, call: Call, permitted: bool, now: int)
    ensures var rows' := Answered(rows, h, client, call, permitted, now).0;
      && rows'.Keys == rows.Keys
      && (forall b :: b in rows ==> rows'[b] == rows[b].(client := rows'[b].client))
      && (forall b :: b in rows && b != h.bunker ==> rows'[b] == rows[b])
  {}

  ghost predicate TablesFollow(s: State, t: State) {
    && KeepsTerms(s.oauth, t.oauth, s.oauthIssued) && KeepsTerms(s.teams, t.teams, s.teamIssued)
    && s.oauthIssued <= t.oauthIssued && s.teamIssued <= t.teamIssued
    && TablesInv(t)
  }

  lemma TablesAnswer(s: State, step: Step)
    requires TablesInv(s) && step.Answer? && Enabled(s, step)
    ensures TablesFollow(s, Next(s, step))
  {
    var q := s.requests[step.request];
    AnsweredChangesClientsOnly(RowsFor(s, q.handler), q.handler, q.client, q.call, step.permitted, step.now);
  }

  ghost predicate TouchesCacheOnly(step: Step) {
    || step.BeginLoad? || step.BeginUpsert? || step.EndUpsert? || step.Remove? || step.Evict?
    || step.CleanUp? || step.TakeCached? || step.TakeLoaded?
  }

  lemma CacheStepsKeepTables(s: State, step: Step)
    requires TouchesCacheOnly(step) && Enabled(s, step)
    ensures var t := Next(s, step);
      && t.oauth == s.oauth && t.teams == s.teams
      && t.oauthIssued == s.oauthIssued && t.teamIssued == s.teamIssued
  {}

  lemma TablesOther(s: State, step: Step)
    requires TablesInv(s) && !step.Answer? && Enabled(s, step)
    ensures TablesFollow(s, Next(s, step))
  {
    if TouchesCacheOnly(step) {
      CacheStepsKeepTables(s, step);
    } else if step.IssueOauth? || step.IssueTeam? {
      TablesIssue(s, step);
    } else {
      TablesRewrite(s, step);
    }
  }

  lemma TablesIssue(s: State, step: Step)
    requires TablesInv(s) && (step.IssueOauth? || step.IssueTeam?) && Enabled(s, step)
    ensures TablesFollow(s, Next(s, step))
  {}

  lemma TablesRewrite(s: State, step: Step)
    requires TablesInv(s) && Enabled(s, step)
    requires !TouchesCacheOnly(step) && !step.IssueOauth? && !step.IssueTeam? && !step.Answer?
    ensures TablesFollow(s, Next(s, step))
  {
    var t := Next(s, step);
    if t != s {
      if step.RevokeTeam? || step.DeleteTeam? {
        assert t.oauth == s.oauth && t.teams.Keys <= s.teams.Keys;
      } else {
        assert t.teams == s.teams && t.oauth.Keys <= s.oauth.Keys;
      }
    }
  }

  lemma StaysGenuine(s: State, t: State, h: Handler)
    requires Genuine(s, h)
    requires TablesFollow(s, t)
    ensures Genuine(t, h)
  {}

  lemma CacheStaysGenuine(s: State, step: Step, b: Key)
    requires Inv(s) && Enabled(s, step) && TablesFollow(s, Next(s, step)) && b in Next(s, step).cache
    ensures Next(s, step).cache[b].bunker == b && Genuine(Next(s, step), Next(s, step).cache[b])
  {
    var t := Next(s, step);
    if b in s.cache {
      StaysGenuine(s, t, s.cache[b]);
    }
    if step.EndUpsert? || step.TakeLoaded? {
      StaysGenuine(s, t, s.loading[step.load]);
    }
  }

  lemma LoadsStayGenuine(s: State, step: Step, k: nat)
    requires Inv(s) && Enabled(s, step) && TablesFollow(s, Next(s, step)) && k in Next(s, step).loading
    ensures Genuine(Next(s, step), Next(s, step).loading[k])
  {
    if k in s.loading {
      StaysGenuine(s, Next(s, step), s.loading[k]);
    }
  }

  lemma RequestsStayGenuine(s: State, step: Step, r: nat)
    requires Inv(s) && Enabled(s, step) && TablesFollow(s, Next(s, step)) && r in Next(s, step).requests
    ensures Genuine(Next(s, step), Next(s, step).requests[r].handler)
  {
    var t := Next(s, step);
    if r in s.requests {
      StaysGenuine(s, t, s.requests[r].handler);
    } else if step.TakeCached? {
      StaysGenuine(s, t, s.cache[step.bunker]);
    } else {
      StaysGenuine(s, t, s.loading[step.load]);
    }
  }

  lemma StepKeepsInv(s: State, step: Step)
    requires Inv(s) && Enabled(s, step)
    ensures Inv(Next(s, step))
  {
    var t := Next(s, step);
    if step.Answer? {
      TablesAnswer(s, step);
    } else {
      TablesOther(s, step);
    }
    forall b | b in t.cache ensures t.cache[b].bunker == b && Genuine(t, t.cache[b]) {
      CacheStaysGenuine(s, step, b);
    }
    forall k | k in t.loading ensures Genuine(t, t.loading[k]) {
      LoadsStayGenuine(s, step, k);
    }
    forall r | r in t.requests ensures Genuine(t, t.requests[r].handler) {
      RequestsStayGenuine(s, step, r);
    }
  }

  lemma {:induction false} RunKeepsInv(s: State, steps: seq<Step>, t: State)
    requires Inv(s) && Run(s, steps, t)
    ensures Inv(t)
    decreases |steps|
  {
    if steps != [] {
      StepKeepsInv(s, steps[0]);
      RunKeepsInv(Next(s, steps[0]), steps[1..], t);
    }
  }

  /** What a row was issued with stays as long as the row does, over every run. */
  lemma {:induction false} RowKeepsItsTerms(s: State, steps: seq<Step>, t: State, bunker: Key)
    requires Inv(s) && Run(s, steps, t)
    ensures bunker in s.oauthIssued && bunker in t.oauth ==>
              bunker in s.oauth && SameTerms(t.oauth[bunker], s.oauth[bunker])
    ensures bunker in s.teamIssued && bunker in t.teams ==>
              bunker in s.teams && SameTerms(t.teams[bunker], s.teams[bunker])
    decreases |steps|
  {
    if steps != [] {
      TermsStep(s, steps[0]);
      StepKeepsInv(s, steps[0]);
      RowKeepsItsTerms(Next(s, steps[0]), steps[1..], t, bunker);
    }
  }

  lemma TermsStep(s: State, step: Step)
    requires Inv(s) && Enabled(s, step)
    ensures TablesFollow(s, Next(s, step))
  {
    if step.Answer? {
      TablesAnswer(s, step);
    } else {
      TablesOther(s, step);
    }
  }

  // ---------------------------------------------------------------- what a request is answered

  /** The row is there, unrevoked and unexpired. */
  predicate InForce(rows: Table, bunker: Key, now: int) {
    && bunker in rows && rows[bunker].revokedAt == None
    && (rows[bunker].expiresAt == None || rows[bunker].expiresAt.value > now)
  }

  /** The row is bound to this client or to nobody. */
  predicate OpenTo(row: Row, client: Key) {
    row.client == None || row.client == Some(client)
  }

  /** In every reachable state: a sensitive request is served if and only if its handler is active, the
    * policy permits it, and, for an OAuth handler, the row is in force and open to the client. Of the
    * rest, those that fail the policy alone are denied. */
  lemma SensitiveServedIff(steps: seq<Step>, s: State, request: nat, permitted: bool, now: int)
    requires Run(Initial, steps, s) && request in s.requests && s.requests[request].call.Sensitive?
    ensures var q, reply := s.requests[request], Outcome(s, request, permitted, now).1;
      var known := q.handler.isOauth ==>
                     InForce(s.oauth, q.handler.bunker, now) && OpenTo(s.oauth[q.handler.bunker], q.client);
      && (reply == Served <==> q.handler.status == Active && known && permitted)
      && (reply == Denied <==> q.handler.status == Active && known && !permitted)
      && (reply == Refused <==> q.handler.status == Active && !known)
      && (q.handler.status != Active <==> reply == Tombstone(q.handler.status))
  {
    RunKeepsInv(Initial, steps, s);
    assert Genuine(s, s.requests[request].handler);
  }

  /** The other calls: with an active handler a public key is always given and a connect without a secret
    * acknowledged; one with a secret is acknowledged if and only if the secret verifies and the row, as
    * far as its table's lookup sees it, is not bound to somebody else. */
  lemma OtherCallsAnswered(steps: seq<Step>, s: State, request: nat, permitted: bool, now: int)
    requires Run(Initial, steps, s) && request in s.requests && s.requests[request].handler.status == Active
    ensures var q, reply := s.requests[request], Outcome(s, request, permitted, now).1;
      var rows := RowsFor(s, q.handler);
      var taken := q.handler.bunker in rows && !OpenTo(rows[q.handler.bunker], q.client)
                   && (q.handler.isOauth ==> rows[q.handler.bunker].revokedAt == None)
                   && (rows[q.handler.bunker].expiresAt == None || rows[q.handler.bunker].expiresAt.value > now);
      match q.call
      case Sensitive => true
      case GetPublicKey => reply == Served
      case Other => reply == Unsupported
      case Connect(None) => reply == Ack
      case Connect(Some(secretOk)) => if secretOk && !taken then reply == Ack else reply == Refused
  {
    RunKeepsInv(Initial, steps, s);
    assert Genuine(s, s.requests[request].handler);
  }

  /** Who is bound after a request: an OAuth row in force that was bound to nobody by a sensitive call,
    * and any row by a connect whose secret verifies, unless the lookup finds a client there. Nothing
    * else about any row changes. */
  lemma BoundAfter(steps: seq<Step>, s: State, request: nat, permitted: bool, now: int)
    requires Run(Initial, steps, s) && request in s.requests
    requires s.requests[request].handler.bunker in RowsFor(s, s.requests[request].handler)
    ensures var q := s.requests[request];
      var b := q.handler.bunker;
      var rows, rows' := RowsFor(s, q.handler), Outcome(s, request, permitted, now).0;
      var row := rows[b];
      var seen := (q.handler.isOauth ==> row.revokedAt == None)
                  && (row.expiresAt == None || row.expiresAt.value > now);
      var binds := q.handler.status == Active
                   && (if q.call.Sensitive? then q.handler.isOauth && seen && row.client == None
                       else q.call == Connect(Some(true)) && (row.client == None || !seen));
      rows' == rows[b := row.(client := if binds then Some(q.client) else row.client)]
  {
    RunKeepsInv(Initial, steps, s);
    var q := s.requests[request];
    assert Genuine(s, q.handler);
    var rows := RowsFor(s, q.handler);
    assert rows == rows[q.handler.bunker := rows[q.handler.bunker]];
  }

  // ---------------------------------------------------------------- what is loaded

  /** A load on demand follows the columns of the row: revoked before expired before active for OAuth
    * rows, expiry alone for team rows, each with the time since when. */
  lemma LoadFollowsTheRow(s: State, bunker: Key, now: int)
    ensures var loaded := LoadOnDemand(s.oauth, s.teams, bunker, now);
      && (loaded.None? <==> bunker !in s.oauth && bunker !in s.teams)
      && (loaded.Some? ==>
            var h := loaded.value;
            var row := if bunker in s.oauth then s.oauth[bunker] else s.teams[bunker];
            && h.bunker == bunker && h.isOauth == (bunker in s.oauth)
            && h.tenant == row.tenant && h.secretHash == row.secretHash
            && (if h.isOauth && row.revokedAt != None then h.status == Revoked && h.tombstoneAt == row.revokedAt
                else if row.expiresAt != None && row.expiresAt.value <= now
                then h.status == Expired && h.tombstoneAt == row.expiresAt
                else h.status == Active && h.tombstoneAt == None))
  {}

  /** An Upsert loads a row if and only if it is there, in the tenant, unrevoked, and, for OAuth rows,
    * unexpired; and always as active. */
  lemma UpsertFollowsTheRow(s: State, bunker: Key, tenant: int, isOauth: bool, now: int)
    ensures var loaded := LoadForUpsert(s.oauth, s.teams, bunker, tenant, isOauth, now);
      var rows := if isOauth then s.oauth else s.teams;
      && (loaded.Some? <==>
            && bunker in rows && rows[bunker].tenant == tenant && rows[bunker].revokedAt == None
            && (isOauth ==> rows[bunker].expiresAt == None || rows[bunker].expiresAt.value > now))
      && (loaded.Some? ==>
            var h := loaded.value;
            && h.bunker == bunker && h.isOauth == isOauth && h.tenant == tenant
            && h.secretHash == rows[bunker].secretHash && h.status == Active && h.tombstoneAt == None)
  {}

  // ---------------------------------------------------------------- what the steps do to cache and tables

  function CacheAt(s: State, bunker: Key): Option<Handler> {
    if bunker in s.cache then Some(s.cache[bunker]) else None
  }

  /** The cached handler of a bunker after each step: a finished load puts it there, a Remove turns it into
    * a revoked tombstone of that time, an eviction and a cleanup more than 24 hours after its tombstone
    * take it away, and nothing else touches it. */
  lemma CacheFollows(s: State, step: Step, bunker: Key)
    requires Enabled(s, step)
    ensures CacheAt(Next(s, step), bunker) ==
      var was := CacheAt(s, bunker);
      match step
      case EndUpsert(k) => if s.loading[k].bunker == bunker then Some(s.loading[k]) else was
      case TakeLoaded(_, k, _, _) => if s.loading[k].bunker == bunker then Some(s.loading[k]) else was
      case Remove(b, now) =>
        if b == bunker && was.Some? then Some(was.value.(status := Revoked, tombstoneAt := Some(now))) else was
      case Evict(b) => if b == bunker then None else was
      case CleanUp(now) =>
        if was.Some? && was.value.tombstoneAt.Some? && was.value.tombstoneAt.value + 86_400_000 < now
        then None else was
      case _ => was
  {}

  /** A request works with the handler that was cached or loaded when it was taken. */
  lemma RequestTakesTheHandler(s: State, step: Step)
    requires Enabled(s, step) && (step.TakeCached? || step.TakeLoaded?)
    ensures step.request in Next(s, step).requests
    ensures var q := Next(s, step).requests[step.request];
      && q.client == step.client && q.call == step.call
      && q.handler == (if step.TakeCached? then s.cache[step.bunker] else s.loading[step.load])
  {}

  /** Rows appear by being issued, as issued, and go by being deleted. */
  lemma RowsComeAndGo(s: State, step: Step, bunker: Key)
    requires Inv(s) && Enabled(s, step)
    ensures bunker in Next(s, step).oauth <==>
      || (step.IssueOauth? && step.bunker == bunker)
      || (bunker in s.oauth && !(step.DeleteUser? && s.oauth[bunker].user == step.user))
    ensures bunker in Next(s, step).teams <==>
      (step.IssueTeam? && step.bunker == bunker) || (bunker in s.teams && step != DeleteTeam(bunker))
    ensures step.IssueOauth? ==> Next(s, step).oauth[step.bunker] == step.row
    ensures step.IssueTeam? ==> Next(s, step).teams[step.bunker] == step.row
  {
    if step.Answer? {
      var q := s.requests[step.request];
      AnsweredChangesClientsOnly(RowsFor(s, q.handler), q.handler, q.client, q.call, step.permitted, step.now);
    } else if TouchesCacheOnly(step) {
      CacheStepsKeepTables(s, step);
    }
  }

  // ---------------------------------------------------------------- who revokes what

  /** The step revokes this OAuth row: by its id; or, if it is not revoked yet, by its user for its bunker
    * key, or by user, origin and tenant. */
  predicate Revokes(s: State, step: Step, bunker: Key)
    requires bunker in s.oauth
  {
    var row := s.oauth[bunker];
    || (step.Revoke? && step.bunker == bunker)
    || (row.revokedAt == None && step.RevokeByBunker? && step.bunker == bunker && row.user == step.user
        && step.userInTenant)
    || (row.revokedAt == None && step.RevokeByOrigin? && row.user == step.user && row.origin == step.origin
        && row.tenant == step.tenant)
  }

  lemma AnswerKeepsRevocations(s: State, step: Step, bunker: Key)
    requires Inv(s) && step.Answer? && Enabled(s, step)
    ensures bunker in s.oauth ==>
      bunker in Next(s, step).oauth && Next(s, step).oauth[bunker].revokedAt == s.oauth[bunker].revokedAt
    ensures bunker in s.teams ==>
      bunker in Next(s, step).teams && Next(s, step).teams[bunker].revokedAt == s.teams[bunker].revokedAt
  {
    var q := s.requests[step.request];
    AnsweredChangesClientsOnly(RowsFor(s, q.handler), q.handler, q.client, q.call, step.permitted, step.now);
  }

  /** A row's revocation time is set by such a step, to its time, and by no other. */
  lemma RevokedExactlyBy(s: State, step: Step, bunker: Key)
    requires Inv(s) && Enabled(s, step) && bunker in s.oauth && bunker in Next(s, step).oauth
    ensures Next(s, step).oauth[bunker].revokedAt
         == if Revokes(s, step, bunker) then Some(step.now) else s.oauth[bunker].revokedAt
  {
    if step.Answer? {
      AnswerKeepsRevocations(s, step, bunker);
    } else if TouchesCacheOnly(step) {
      CacheStepsKeepTables(s, step);
    }
  }

  /** The step revokes this team row. */
  lemma TeamRevokedExactlyBy(s: State, step: Step, bunker: Key)
    requires Inv(s) && Enabled(s, step) && bunker in s.teams && bunker in Next(s, step).teams
    ensures Next(s, step).teams[bunker].revokedAt
         == if step.RevokeTeam? && step.bunker == bunker && s.teams[bunker].revokedAt == None
            then Some(step.now) else s.teams[bunker].revokedAt
  {
    if step.Answer? {
      AnswerKeepsRevocations(s, step, bunker);
    } else if TouchesCacheOnly(step) {
      CacheStepsKeepTables(s, step);
    }
  }

  // ---------------------------------------------------------------- revocation

  /** An OAuth authorization that has been revoked, or whose row is gone. */
  ghost predicate Withdrawn(s: State, bunker: Key) {
    bunker in s.oauthIssued && (bunker in s.oauth ==> s.oauth[bunker].revokedAt.Some?)
  }

  lemma WithdrawnStep(s: State, step: Step, bunker: Key)
    requires Inv(s) && Enabled(s, step) && Withdrawn(s, bunker)
    ensures Withdrawn(Next(s, step), bunker)
  {
    if TouchesCacheOnly(step) {
      CacheStepsKeepTables(s, step);
    }
  }

  lemma {:induction false} WithdrawnForGood(s: State, steps: seq<Step>, t: State, bunker: Key)
    requires Inv(s) && Run(s, steps, t) && Withdrawn(s, bunker)
    ensures Inv(t) && Withdrawn(t, bunker)
    decreases |steps|
  {
    if steps != [] {
      StepKeepsInv(s, steps[0]);
      WithdrawnStep(s, steps[0], bunker);
      WithdrawnForGood(Next(s, steps[0]), steps[1..], t, bunker);
    }
  }

  /** Once an OAuth authorization has been revoked, no request answered later signs, encrypts or
    * decrypts for it: whatever ran in between, whatever the cache holds, and even if the request took
    * its handler before the revocation. */
  lemma RevokedNeverServes(before: seq<Step>, s: State, after: seq<Step>, t: State,
                           bunker: Key, request: nat, permitted: bool, now: int)
    requires Run(Initial, before, s) && Withdrawn(s, bunker) && Run(s, after, t)
    requires request in t.requests
    requires t.requests[request].handler.bunker == bunker && t.requests[request].call.Sensitive?
    ensures Outcome(t, request, permitted, now).1 in {Tombstone(Revoked), Tombstone(Expired), Refused}
    ensures Next(t, Answer(request, permitted, now)).oauth == t.oauth
  {
    RunKeepsInv(Initial, before, s);
    WithdrawnForGood(s, after, t, bunker);
    WithdrawnRefuses(t, bunker, request, permitted, now);
  }

  lemma WithdrawnRefuses(t: State, bunker: Key, request: nat, permitted: bool, now: int)
    requires Inv(t) && Withdrawn(t, bunker) && request in t.requests
    requires t.requests[request].handler.bunker == bunker && t.requests[request].call.Sensitive?
    ensures Outcome(t, request, permitted, now).1 in {Tombstone(Revoked), Tombstone(Expired), Refused}
    ensures Next(t, Answer(request, permitted, now)).oauth == t.oauth
  {
    assert Genuine(t, t.requests[request].handler);
  }

  /** Every reload of a revoked row yields a tombstone carrying the revocation time, and an Upsert
    * never brings it back. */
  lemma ReloadIsRevoked(steps: seq<Step>, s: State, bunker: Key, tenant: int, isOauth: bool, now: int)
    requires Run(Initial, steps, s) && Withdrawn(s, bunker)
    ensures bunker in s.oauth ==>
      && LoadOnDemand(s.oauth, s.teams, bunker, now).Some?
      && var h := LoadOnDemand(s.oauth, s.teams, bunker, now).value;
         h.status == Revoked && h.tombstoneAt == s.oauth[bunker].revokedAt
    ensures bunker !in s.oauth ==> LoadOnDemand(s.oauth, s.teams, bunker, now).None?
    ensures LoadForUpsert(s.oauth, s.teams, bunker, tenant, isOauth, now).None?
  {
    RunKeepsInv(Initial, steps, s);
  }

  /** No active handler for this bunker is left in the cache, in a load or in a request. */
  ghost predicate Extinct(s: State, bunker: Key) {
    && (bunker in s.cache ==> !s.cache[bunker].status.Active?)
    && (forall k :: k in s.loading && s.loading[k].bunker == bunker ==> !s.loading[k].status.Active?)
    && (forall r :: r in s.requests && s.requests[r].handler.bunker == bunker ==>
          !s.requests[r].handler.status.Active?)
  }

  lemma ExtinctStep(s: State, step: Step, bunker: Key)
    requires Inv(s) && Enabled(s, step) && Withdrawn(s, bunker) && Extinct(s, bunker)
    ensures Extinct(Next(s, step), bunker)
  {
    if !TouchesCacheOnly(step) {
      TableStepsKeepHandlers(s, step);
    }
  }

  lemma TableStepsKeepHandlers(s: State, step: Step)
    requires Enabled(s, step) && !TouchesCacheOnly(step)
    ensures Next(s, step).cache == s.cache && Next(s, step).loading == s.loading
    ensures Next(s, step).requests == if step.Answer? then s.requests - {step.request} else s.requests
  {}

  /** Once the last active handler of a revoked authorization is gone, none ever appears again, so
    * every later request is told that the authorization was revoked or has expired. */
  lemma {:induction false} TombstonesOnly(s: State, steps: seq<Step>, t: State, bunker: Key,
                                          request: nat, permitted: bool, now: int)
    requires Inv(s) && Run(s, steps, t) && Withdrawn(s, bunker) && Extinct(s, bunker)
    ensures Extinct(t, bunker)
    ensures request in t.requests && t.requests[request].handler.bunker == bunker ==>
              Outcome(t, request, permitted, now).1.Tombstone?
    decreases |steps|
  {
    if steps != [] {
      StepKeepsInv(s, steps[0]);
      WithdrawnStep(s, steps[0], bunker);
      ExtinctStep(s, steps[0], bunker);
      TombstonesOnly(Next(s, steps[0]), steps[1..], t, bunker, request, permitted, now);
    }
  }

  // ---------------------------------------------------------------- client binding

  function TableFor(s: State, isOauth: bool): Table {
    if isOauth then s.oauth else s.teams
  }

  /** A connect with the right secret from another client is answered, by a handler still taken for
    * active, while the row is revoked or expired; revocation of team rows goes unnoticed. */
  predicate Overwrites(s: State, step: Step, isOauth: bool, bunker: Key, bound: Key) {
    && step.Answer? && step.request in s.requests && bunker in TableFor(s, isOauth)
    && var q := s.requests[step.request];
    && q.handler.isOauth == isOauth && q.handler.bunker == bunker && q.handler.status.Active?
    && q.call == Connect(Some(true)) && q.client != bound
    && !Usable(TableFor(s, isOauth)[bunker], isOauth, step.now)
  }

  /** `disconnect_client` by the row's own user. */
  predicate Disconnects(s: State, step: Step, bunker: Key) {
    && step.Disconnect? && step.bunker == bunker && bunker in s.oauth
    && s.oauth[bunker].user == step.user && s.oauth[bunker].revokedAt.None? && step.userInTenant
  }

  predicate Deletes(s: State, step: Step, bunker: Key) {
    step.DeleteUser? && bunker in s.oauth && s.oauth[bunker].user == step.user
  }

  predicate IsBound(s: State, isOauth: bool, bunker: Key, client: Key) {
    bunker in TableFor(s, isOauth) && TableFor(s, isOauth)[bunker].client == Some(client)
  }

  lemma AnsweredOverwritesIff(rows: Table, h: Handler, client: Key, call: Call, permitted: bool, now: int,
                              bound: Key)
    requires h.bunker in rows && rows[h.bunker].tenant == h.tenant && rows[h.bunker].client == Some(bound)
    ensures h.bunker in Answered(rows, h, client, call, permitted, now).0
    ensures Answered(rows, h, client, call, permitted, now).0[h.bunker].client != Some(bound) <==>
            h.status.Active? && call == Connect(Some(true)) && client != bound
            && !Usable(rows[h.bunker], h.isOauth, now)
  {}

  lemma AnswerOverwritesIff(s: State, step: Step, isOauth: bool, bunker: Key, bound: Key)
    requires Inv(s) && step.Answer? && Enabled(s, step) && IsBound(s, isOauth, bunker, bound)
    ensures !IsBound(Next(s, step), isOauth, bunker, bound) <==> Overwrites(s, step, isOauth, bunker, bound)
  {
    var q := s.requests[step.request];
    assert Genuine(s, q.handler);
    var rows := TableFor(s, isOauth);
    if q.handler.isOauth != isOauth {
      assert TableFor(Next(s, step), isOauth) == rows;
    } else {
      assert TableFor(Next(s, step), isOauth)
          == Answered(rows, q.handler, q.client, q.call, step.permitted, step.now).0;
      if q.handler.bunker == bunker {
        AnsweredOverwritesIff(rows, q.handler, q.client, q.call, step.permitted, step.now, bound);
      } else {
        AnsweredChangesClientsOnly(rows, q.handler, q.client, q.call, step.permitted, step.now);
      }
    }
  }

  /** The bound client of an OAuth row changes in a step if and only if the step is a connect that finds
    * the row inactive, because the lookup skips such rows and the update does not, or the user's own
    * disconnect, or deletes the row. */
  lemma BindingChangesIff(s: State, step: Step, bunker: Key, bound: Key)
    requires Inv(s) && Enabled(s, step) && IsBound(s, true, bunker, bound)
    ensures !IsBound(Next(s, step), true, bunker, bound) <==>
      Overwrites(s, step, true, bunker, bound) || Disconnects(s, step, bunker) || Deletes(s, step, bunker)
  {
    if step.Answer? {
      AnswerOverwritesIff(s, step, true, bunker, bound);
    } else if TouchesCacheOnly(step) {
      CacheStepsKeepTables(s, step);
    }
  }

  /** The bound client of a team row changes if and only if a connect finds the row expired or the row,
    * its key or its team is deleted. */
  lemma TeamBindingChangesIff(s: State, step: Step, bunker: Key, bound: Key)
    requires Inv(s) && Enabled(s, step) && IsBound(s, false, bunker, bound)
    ensures !IsBound(Next(s, step), false, bunker, bound) <==>
            Overwrites(s, step, false, bunker, bound) || step == DeleteTeam(bunker)
  {
    if step.Answer? {
      AnswerOverwritesIff(s, step, false, bunker, bound);
    } else if TouchesCacheOnly(step) {
      CacheStepsKeepTables(s, step);
    } else {
      assert step.IssueTeam? ==> step.bunker != bunker;
    }
  }

  /** The row is there and bound to the client in every state of the run. */
  ghost predicate BoundThroughout(s: State, steps: seq<Step>, bunker: Key, bound: Key)
    decreases |steps|
  {
    && IsBound(s, true, bunker, bound)
    && (steps != [] && Enabled(s, steps[0]) ==> BoundThroughout(Next(s, steps[0]), steps[1..], bunker, bound))
  }

  ghost predicate Undisturbed(s: State, steps: seq<Step>, bunker: Key, bound: Key)
    decreases |steps|
  {
    steps != [] && Enabled(s, steps[0]) ==>
      && !Overwrites(s, steps[0], true, bunker, bound)
      && !Disconnects(s, steps[0], bunker)
      && !Deletes(s, steps[0], bunker)
      && Undisturbed(Next(s, steps[0]), steps[1..], bunker, bound)
  }

  /** A bound client stays bound throughout a run if and only if nobody disconnects it or deletes the
    * row and no connect finds the row inactive. */
  lemma {:induction false} BoundClientStaysIff(s: State, steps: seq<Step>, t: State, bunker: Key, bound: Key)
    requires Inv(s) && Run(s, steps, t) && IsBound(s, true, bunker, bound)
    ensures BoundThroughout(s, steps, bunker, bound) <==> Undisturbed(s, steps, bunker, bound)
    decreases |steps|
  {
    if steps != [] {
      var u := Next(s, steps[0]);
      BindingChangesIff(s, steps[0], bunker, bound);
      StepKeepsInv(s, steps[0]);
      if IsBound(u, true, bunker, bound) {
        BoundClientStaysIff(u, steps[1..], t, bunker, bound);
      }
    }
  }

  /** Every call for the row that is answered in the run sees it active. */
  ghost predicate AlwaysUsable(s: State, steps: seq<Step>, bunker: Key)
    decreases |steps|
  {
    steps != [] && Enabled(s, steps[0]) ==>
      && (steps[0].Answer? && s.requests[steps[0].request].handler.bunker == bunker && bunker in s.oauth ==>
            Usable(s.oauth[bunker], true, steps[0].now))
      && AlwaysUsable(Next(s, steps[0]), steps[1..], bunker)
  }

  ghost predicate LeftAlone(s: State, steps: seq<Step>, bunker: Key)
    decreases |steps|
  {
    steps != [] && Enabled(s, steps[0]) ==>
      && !Disconnects(s, steps[0], bunker) && !Deletes(s, steps[0], bunker)
      && LeftAlone(Next(s, steps[0]), steps[1..], bunker)
  }

  lemma {:induction false} UsableIsUndisturbed(s: State, steps: seq<Step>, bunker: Key, bound: Key)
    requires AlwaysUsable(s, steps, bunker) && LeftAlone(s, steps, bunker)
    ensures Undisturbed(s, steps, bunker, bound)
    decreases |steps|
  {
    if steps != [] && Enabled(s, steps[0]) {
      UsableIsUndisturbed(Next(s, steps[0]), steps[1..], bunker, bound);
    }
  }

  /** So while calls see the row active, only a disconnect or a deletion changes the bound client. */
  lemma BoundClientStays(s: State, steps: seq<Step>, t: State, bunker: Key, bound: Key)
    requires Inv(s) && Run(s, steps, t) && IsBound(s, true, bunker, bound)
    requires AlwaysUsable(s, steps, bunker) && LeftAlone(s, steps, bunker)
    ensures BoundThroughout(s, steps, bunker, bound)
  {
    UsableIsUndisturbed(s, steps, bunker, bound);
    BoundClientStaysIff(s, steps, t, bunker, bound);
  }

  /** While the row is active, a client other than the bound one is neither served nor acknowledged. */
  lemma OtherClientsAreTurnedAway(s: State, request: nat, permitted: bool, now: int, bound: Key)
    requires Inv(s) && request in s.requests
    requires var q := s.requests[request];
      && q.handler.isOauth && q.handler.bunker in s.oauth && q.client != bound
      && s.oauth[q.handler.bunker].client == Some(bound) && Usable(s.oauth[q.handler.bunker], true, now)
      && (q.call.Sensitive? || (q.call.Connect? && q.call.secretOk.Some?))
    ensures Outcome(s, request, permitted, now).1 in {Refused, Tombstone(Revoked), Tombstone(Expired)}
  {
    assert Genuine(s, s.requests[request].handler);
  }

  /** An accepted sensitive call, or an acknowledged connect with a secret, leaves its own client bound. */
  lemma AcceptedClientIsBound(s: State, request: nat, permitted: bool, now: int)
    requires Inv(s) && request in s.requests
    requires var q := s.requests[request];
      && q.handler.isOauth && q.handler.bunker in s.oauth && Usable(s.oauth[q.handler.bunker], true, now)
      && ((q.call.Sensitive? && Outcome(s, request, permitted, now).1 in {Served, Denied})
          || (q.call.Connect? && q.call.secretOk.Some? && Outcome(s, request, permitted, now).1.Ack?))
    ensures var q := s.requests[request];
      Next(s, Answer(request, permitted, now)).oauth[q.handler.bunker].client == Some(q.client)
  {
    assert Genuine(s, s.requests[request].handler);
  }
}
