/**
  * The signer daemon's handler cache in front of the authorization tables.
  *
  * Rows are keyed by bunker public key, which is unique across both tables and never reissued. A
  * handler therefore names its row by that key instead of by the row's integer id.
  */
module Signers {
  import opened Options

  type Key = string

  datatype Status = Active | Revoked | Expired

  /** An authorization row. Team rows leave `user` and `origin` empty. */
  datatype Row = Row(tenant: int, user: Key, origin: string, secretHash: string,
                     client: Option<Key>, revokedAt: Option<int>, expiresAt: Option<int>)

  type Table = map<Key, Row>

  datatype Handler = Handler(bunker: Key, secretHash: string, tenant: int, isOauth: bool,
                             status: Status, tombstoneAt: Option<int>)

  type HandlerCache = map<Key, Handler>

  const TOMBSTONE_MS: int := 24 * 3_600_000

  predicate Unexpired(row: Row, now: int) {
    row.expiresAt.None? || row.expiresAt.value > now
  }

  /** The filter the client lookups apply: team lookups do not look at `revoked_at`. */
  predicate Usable(row: Row, isOauth: bool, now: int) {
    (isOauth ==> row.revokedAt.None?) && Unexpired(row, now)
  }

  /** Revoked before expired before active. */
  function StatusFromOauth(row: Row, now: int): (Status, Option<int>) {
    if row.revokedAt.Some? then (Revoked, row.revokedAt)
    else if row.expiresAt.Some? && row.expiresAt.value <= now then (Expired, row.expiresAt)
    else (Active, None)
  }

  function StatusFromTeam(row: Row, now: int): (Status, Option<int>) {
    if row.expiresAt.Some? && row.expiresAt.value <= now then (Expired, row.expiresAt)
    else (Active, None)
  }

  /** The HTTP handler's own check of a cached row. */
  predicate HttpValid(row: Row, now: int) {
    row.revokedAt.None? && !(row.expiresAt.Some? && row.expiresAt.value < now)
  }

  /** A loaded OAuth handler is active exactly when the client lookups would use its row. The HTTP
    * check agrees with both except at one instant: an unrevoked row is still valid there in the very
    * instant it expires. */
  lemma ChecksOfOneRowAgreeIff(row: Row, now: int)
    ensures StatusFromOauth(row, now).0.Active? <==> Usable(row, true, now)
    ensures (HttpValid(row, now) <==> Usable(row, true, now)) <==>
            !(row.revokedAt.None? && row.expiresAt == Some(now))
  {}

  /** The instant at which they disagree. */
  lemma ExpiringRowIsStillValidOverHttp(row: Row, now: int)
    requires row.revokedAt.None? && row.expiresAt == Some(now)
    ensures HttpValid(row, now) && !Usable(row, true, now)
    ensures StatusFromOauth(row, now) == (Expired, Some(now))
    ensures !HttpValid(row, now + 1)
  {}

  // ---------------------------------------------------------------- clients

  datatype Reply = Ack | Served | Tombstone(status: Status) | Refused | Denied | Unsupported

  predicate Bound(rows: Table, isOauth: bool, bunker: Key, client: Key, now: int) {
    bunker in rows && rows[bunker].client == Some(client) && Usable(rows[bunker], isOauth, now)
  }

  predicate Unbound(rows: Table, isOauth: bool, bunker: Key, now: int) {
    bunker in rows && rows[bunker].client.None? && Usable(rows[bunker], isOauth, now)
  }

  /** UPDATE ... SET connected_client_pubkey WHERE id = ...: no other condition. */
  function Bind(rows: Table, bunker: Key, client: Key): Table {
    if bunker in rows then rows[bunker := rows[bunker].(client := Some(client))] else rows
  }

  /** The client the connect lookup finds, through its filter on inactive rows. */
  function ConnectedClient(rows: Table, h: Handler, now: int): Option<Key> {
    if h.bunker in rows && rows[h.bunker].tenant == h.tenant && Usable(rows[h.bunker], h.isOauth, now)
    then rows[h.bunker].client else None
  }

  function Connected(rows: Table, h: Handler, client: Key, secretOk: bool, now: int): (Table, Reply) {
    if !secretOk then (rows, Refused)
    else match ConnectedClient(rows, h, now)
      case Some(existing) => (rows, if existing == client then Ack else Refused)
      case None => (Bind(rows, h.bunker, client), Ack)
  }

  function Validated(rows: Table, h: Handler, client: Key, now: int): (Table, bool) {
    if Bound(rows, h.isOauth, h.bunker, client, now) then (rows, true)
    else if Unbound(rows, h.isOauth, h.bunker, now) then (Bind(rows, h.bunker, client), true)
    else (rows, false)
  }

  // ---------------------------------------------------------------- requests

  datatype Call =
    | Sensitive                       // sign_event and the four encrypt and decrypt methods
    | GetPublicKey
    | Connect(secretOk: Option<bool>) // whether the secret given verifies, if one was given
    | Other

  /** What happens once the handler is in hand and the request has been decrypted. */
  function Answered(rows: Table, h: Handler, client: Key, call: Call, permitted: bool, now: int)
    : (Table, Reply)
  {
    if !h.status.Active? then (rows, Tombstone(h.status))
    else match call
      case Sensitive =>
        var (rows', known) := if h.isOauth then Validated(rows, h, client, now) else (rows, true);
        (rows', if !known then Refused else if permitted then Served else Denied)
      case GetPublicKey => (rows, Served)
      case Connect(secret) =>
        if secret.Some? then Connected(rows, h, client, secret.value, now) else (rows, Ack)
      case Other => (rows, Unsupported)
  }

  // ---------------------------------------------------------------- loading

  function OauthHandler(bunker: Key, row: Row, status: Status, tombstoneAt: Option<int>): Handler {
    Handler(bunker, row.secretHash, row.tenant, true, status, tombstoneAt)
  }

  function TeamHandler(bunker: Key, row: Row, status: Status, tombstoneAt: Option<int>): Handler {
    Handler(bunker, row.secretHash, row.tenant, false, status, tombstoneAt)
  }

  /** On-demand load on a cache miss: inactive rows are loaded too, as tombstones. */
  function LoadOnDemand(oauth: Table, teams: Table, bunker: Key, now: int): Option<Handler> {
    if bunker in oauth then
      var (status, since) := StatusFromOauth(oauth[bunker], now);
      Some(OauthHandler(bunker, oauth[bunker], status, since))
    else if bunker in teams then
      var (status, since) := StatusFromTeam(teams[bunker], now);
      Some(TeamHandler(bunker, teams[bunker], status, since))
    else None
  }

  /** The handler a request works with: the cached one, whatever its age, or a load. */
  function FoundHandler(oauth: Table, teams: Table, cache: HandlerCache, bunker: Key, now: int): Option<Handler> {
    if bunker in cache then Some(cache[bunker]) else LoadOnDemand(oauth, teams, bunker, now)
  }

  /** The load behind an Upsert command: only active rows, and always as active. */
  function LoadForUpsert(oauth: Table, teams: Table, bunker: Key, tenant: int, isOauth: bool, now: int)
    : Option<Handler>
  {
    if isOauth then
      if bunker in oauth && oauth[bunker].tenant == tenant && Usable(oauth[bunker], true, now)
      then Some(OauthHandler(bunker, oauth[bunker], Active, None)) else None
    else
      if bunker in teams && teams[bunker].tenant == tenant && teams[bunker].revokedAt.None?
      then Some(TeamHandler(bunker, teams[bunker], Active, None)) else None
  }

  function Tombstoned(cache: HandlerCache, bunker: Key, now: int): HandlerCache {
    if bunker in cache
    then cache[bunker := cache[bunker].(status := Revoked, tombstoneAt := Some(now))]
    else cache
  }

  predicate OldTombstone(h: Handler, now: int) {
    h.tombstoneAt.Some? && h.tombstoneAt.value < now - TOMBSTONE_MS
  }

  /** A tombstone is old from the first millisecond after 24 hours. */
  lemma TombstoneLifetime(h: Handler, since: int, now: int)
    requires h.tombstoneAt == Some(since)
    ensures OldTombstone(h, now) <==> since + 86_400_000 < now
  {}

  function WithoutOldTombstones(cache: HandlerCache, now: int): HandlerCache {
    map b | b in cache && !OldTombstone(cache[b], now) :: cache[b]
  }

  /** Every request that takes this handler is told of the revocation and changes nothing. */
  ghost predicate Silenced(h: Handler) {
    forall rows, client, call, permitted, t ::
      Answered(rows, h, client, call, permitted, t) == (rows, Tombstone(Revoked))
  }

  method OldTombstoneKeys(cache: HandlerCache, now: int) returns (toRemove: set<Key>)
    ensures toRemove == set b | b in cache && OldTombstone(cache[b], now)
  {
    var cutoff := now - TOMBSTONE_MS;
    toRemove := {};
    var rest := cache.Keys;
    while rest != {}
      invariant rest <= cache.Keys
      invariant forall b :: b in toRemove <==> b in cache && b !in rest && OldTombstone(cache[b], now)
      decreases |rest|
    {
      var b :| b in rest;
      if cache[b].tombstoneAt.Some? && cache[b].tombstoneAt.value < cutoff {
        toRemove := toRemove + {b};
      }
      rest := rest - {b};
    }
  }

  class UnifiedSigner {
    var oauth: Table
    var teams: Table
    var handlers: HandlerCache

    constructor (oauth: Table, teams: Table)
      ensures this.oauth == oauth && this.teams == teams && handlers == map[]
    {
      this.oauth, this.teams, handlers := oauth, teams, map[];
    }

    function TableOf(h: Handler): Table
      reads this
    {
      if h.isOauth then oauth else teams
    }

    method ProcessConnect(h: Handler, client: Key, secretOk: bool, now: int) returns (reply: Reply)
      modifies this`oauth, this`teams
      ensures (TableOf(h), reply) == Connected(old(TableOf(h)), h, client, secretOk, now)
      ensures if h.isOauth then teams == old(teams) else oauth == old(oauth)
    {
      if !secretOk {
        return Refused;
      }
      var existing := ConnectedClient(TableOf(h), h, now);
      if existing.Some? {
        reply := if existing.value == client then Ack else Refused;
      } else {
        StoreClient(h, client);
        reply := Ack;
      }
    }

    method StoreClient(h: Handler, client: Key)
      modifies this`oauth, this`teams
      ensures TableOf(h) == Bind(old(TableOf(h)), h.bunker, client)
      ensures if h.isOauth then teams == old(teams) else oauth == old(oauth)
    {
      if h.isOauth && h.bunker in oauth {
        oauth := oauth[h.bunker := oauth[h.bunker].(client := Some(client))];
      } else if !h.isOauth && h.bunker in teams {
        teams := teams[h.bunker := teams[h.bunker].(client := Some(client))];
      }
    }

    method ValidateAndStoreClient(h: Handler, client: Key, now: int) returns (ok: bool)
      modifies this`oauth, this`teams
      ensures (TableOf(h), ok) == Validated(old(TableOf(h)), h, client, now)
      ensures if h.isOauth then teams == old(teams) else oauth == old(oauth)
    {
      if Bound(TableOf(h), h.isOauth, h.bunker, client, now) {
        return true;
      }
      if Unbound(TableOf(h), h.isOauth, h.bunker, now) {
        StoreClient(h, client);
        return true;
      }
      return false;
    }

    method Upsert(bunker: Key, tenant: int, isOauth: bool, now: int)
      modifies this`handlers
      ensures var loaded := LoadForUpsert(oauth, teams, bunker, tenant, isOauth, now);
              handlers == if loaded.Some? then old(handlers)[bunker := loaded.value] else old(handlers)
    {
      var rows := if isOauth then oauth else teams;
      if bunker in rows && rows[bunker].tenant == tenant && rows[bunker].revokedAt.None? {
        if !isOauth || Unexpired(rows[bunker], now) {
          handlers := handlers[bunker :=
            Handler(bunker, rows[bunker].secretHash, tenant, isOauth, Active, None)];
        }
      }
    }

    method Remove(bunker: Key, now: int)
      modifies this`handlers
      ensures handlers == Tombstoned(old(handlers), bunker, now)
      ensures handlers.Keys == old(handlers).Keys
      ensures forall b :: b in handlers && b != bunker ==> handlers[b] == old(handlers)[b]
      ensures bunker in handlers ==> Silenced(handlers[bunker])
      ensures bunker in handlers ==> forall t :: t <= now + TOMBSTONE_MS ==> bunker in WithoutOldTombstones(handlers, t)
    {
      if bunker in handlers {
        var updated := handlers[bunker].(status := Revoked, tombstoneAt := Some(now));
        handlers := handlers[bunker := updated];
      }
    }

    /** The hourly task: collect the keys of old tombstones, then invalidate each. */
    method CleanUpTombstones(now: int) returns (count: nat)
      modifies this`handlers
      ensures handlers == WithoutOldTombstones(old(handlers), now)
      ensures count == |old(handlers)| - |handlers|
    {
      var toRemove := OldTombstoneKeys(handlers, now);
      count := |toRemove|;
      handlers := handlers - toRemove;
      assert old(handlers).Keys == handlers.Keys + toRemove;
    }

    method GetHandler(bunker: Key, now: int) returns (h: Option<Handler>)
      modifies this`handlers
      ensures h == FoundHandler(oauth, teams, old(handlers), bunker, now)
      ensures handlers == if h.Some? then old(handlers)[bunker := h.value] else old(handlers)
    {
      if bunker in handlers {
        h := Some(handlers[bunker]);
        assert handlers == handlers[bunker := handlers[bunker]];
        return;
      }
      h := LoadOnDemand(oauth, teams, bunker, now);
      if h.Some? {
        handlers := handlers[bunker := h.value];
      }
    }

    /** A whole request without interruption. None when the bunker is not ours. */
    method HandleRequest(bunker: Key, client: Key, call: Call, permitted: bool, now: int)
      returns (reply: Option<Reply>)
      modifies this
      ensures var h := FoundHandler(old(oauth), old(teams), old(handlers), bunker, now);
              h.None? ==> reply.None? && oauth == old(oauth) && teams == old(teams)
      ensures var h := FoundHandler(old(oauth), old(teams), old(handlers), bunker, now);
              h.Some? ==>
                && reply.Some?
                && (TableOf(h.value), reply.value)
                   == Answered(old(TableOf(h.value)), h.value, client, call, permitted, now)
                && (if h.value.isOauth then teams == old(teams) else oauth == old(oauth))
      ensures reply == Some(Served) && call.Sensitive? ==> permitted
      ensures reply == Some(Served) && bunker in old(handlers) ==> old(handlers)[bunker].status.Active?
    {
      var found := GetHandler(bunker, now);
      if found.None? {
        return None;
      }
      var h := found.value;
      if !h.status.Active? {
        return Some(Tombstone(h.status));
      }
      if h.isOauth && call.Sensitive? {
        var ok := ValidateAndStoreClient(h, client, now);
        if !ok {
          return Some(Refused);
        }
      }
      match call {
        case Sensitive => reply := Some(if permitted then Served else Denied);
        case GetPublicKey => reply := Some(Served);
        case Connect(secret) =>
          if secret.Some? {
            var r := ProcessConnect(h, client, secret.value, now);
            reply := Some(r);
          } else {
            reply := Some(Ack);
          }
        case Other => reply := Some(Unsupported);
      }
    }
  }
}
