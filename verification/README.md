# keycast in Dafny

A model of the parts of keycast whose correctness depends on order, concurrency or time, with proofs
for all inputs and all runs. `dafny verify dfyconfig.toml` checks everything.

| module (file) | what it models |
|---|---|
| `Fnv`, `HashRings` | the FNV-1a key hash and the hash ring of one instance |
| `Registries`, `Coordinators` | the shared scored set in Redis, and what a coordinator's tasks do to its ring |
| `Clusters`, `ClusterSerial`, `ClusterLosses`, `ClusterGhosts`, `ClusterEffects`, `ClusterRuns`, `ClusterExits`, `ClusterOwnership` | the membership protocol as a state machine over any number of instances |
| `Signers`, `SignerRuns`, `SignerOverwrites` | the NIP-46 handler cache in front of the authorization tables |
| `Sessions`, `SessionHistory`, `SessionRepositories`, `RefreshTokens` | the ATProto session table and the refresh token table |
| `RedisKeys`, `RateLimits`, `Nip98` (RateLimit.dfy, Nip98.dfy) | keys with an expiry, the rate limiter, NIP-98 replay protection |
| `KeyCaches` | the decrypt cache in front of a key manager |
| `Patterns`, `Permissions`, `DeletionNotices` | URI and origin matching, policy permissions, deletion notices |

Objects the program updates in place are classes whose methods are proved against specification
functions; whole runs are sequences of calls or steps of those functions. Redis commands and SQL
statements are atomic. Everything between them may interleave: in `Clusters` a full sync is a registry
read and a later ring store, and a Pub/Sub message a ring load and a later store; in `SignerRuns` a
request takes its handler and is answered later, and a load reads its row and fills the cache later.

## Where the code does not do what one might expect

Each point is proved, with an input or a run that shows it and the exact condition.

- A full sync compares the registry with its own record, not with the ring. It leaves the ring wrong
  exactly when the registry equals that record and the ring does not (`ClusterExits.SyncRepairsIff`).
  `ClusterRuns.LostLeaveIsNotRepaired` is such a run: a join heard by Pub/Sub only, then a lost leave.
- A join that is handled between a sync's registry read and its ring store is overwritten if the read
  differs from the sync's record (`ClusterRuns.JoinInTheGapIsOverwritten`). If a message's load and store surround a ring store of a
  sync, the sync's work is undone and its record hides that from the next syncs
  (`ClusterRuns.RacingStoreLosesAMember`). `ClusterLosses.LosesMemberIff` says when a step drops a live
  member: if and only if it stores a ring made from a registry read or a copy that lacks the member.
  `ClusterLosses.MemberHeldIff` says the same of whole runs. Recovery has its exact condition too
  (`ClusterSerial.SyncRestoresIff`).
- A refresh that reads the registry between an instance's leave and its removal puts the instance back,
  and the next sync, whose record never had it, finds nothing to do
  (`ClusterRuns.RefreshKeepsADeparted`, `ClusterGhosts.SyncKeepsDepartedIff`). Without refreshes, and
  with leaves delivered and handling serial, a sync clears everybody who has left
  (`ClusterGhosts.SyncClearsTheDeparted`).
- `force_deregister` is not final: the heartbeat task is alive and can put the id back
  (`ClusterExits.ForceDeregisterIsNotFinal`, `ClusterExits.OutForGoodIffSilent`).
- `cleanup_stale` removes ids at the cutoff which a read at the same instant would still return
  (`Registries.InstanceAtTheCutoffIsCleanedUp`, `Registries.CleanupAtItsOwnInstant`).
- A connect with the right secret, answered by a handler still cached as active, replaces the bound
  client of a revoked or expired row, because the lookup filters such rows and the update does not
  (`SignerOverwrites.RevokedBindingIsReplaced`, `SignerRuns.BindingChangesIff`).
- The HTTP handler still accepts an authorization in the instant it expires, the signer does not
  (`Signers.ExpiringRowIsStillValidOverHttp`, `Signers.ChecksOfOneRowAgreeIff`).
- The redirect matcher panics when prefix and suffix overlap in the URI, and with it the search through
  the client's patterns ends (`Patterns.MissingSegmentPanics`, `Patterns.WildcardRedirectIff`,
  `Patterns.ValidateRedirectUri`).
- A NIP-98 envelope accepted in the second `created_at - 60` can be accepted once more 120 seconds
  later, when its record has expired and it is still fresh; a comment calls the record's life longer
  than the window, but the window is two-sided (`Nip98.EnvelopeIsReplayed`, `Nip98.ReplayableIff`).
- `cleanup_old_tokens` with a negative number of days can delete live tokens
  (`RefreshTokens.NegativeDaysDeleteALiveToken`, `RefreshTokens.CleanupHidesNothingIff`).
- With any number of days `cleanup_old_tokens` forgets deleted tokens, so the same token can be created and consumed
  again, which the old row would have refused (`RefreshTokens.CleanupLetsATokenBeReissued`,
  `RefreshTokens.CleanupIsInvisible`, `RefreshTokens.CleanupIsInvisibleIff`).
- Delivery tasks of several processes read due notices without a lock, so a retry can store a shorter
  delay than the one before it (`DeletionNotices.StaleReadShortensTheDelay`). It does if and only if it
  had read a smaller attempt count, taken as 0 if negative, and below 6
  (`DeletionNotices.DelayShrinksIff`); never if each pass reads the rows as they are when it starts
  (`DeletionNotices.FreshDelaysNeverShrink`).

## Model

| member | source | states |
|---|---|---|
| Fnv.HashKey | cluster-hashring/src/ring.rs:108-118 | The byte loop with 64-bit wrap-around computes the fold of the round function that the three results below are about. |
| Fnv.AbsorbIsBijective | cluster-hashring/src/ring.rs:112-117 | For every byte string the state transformation has a two-sided inverse on 64-bit words. |
| Fnv.SuffixKeepsCollisions | cluster-hashring/src/ring.rs:112-117 | hash(s+u) = hash(t+u) if and only if hash(s) = hash(t). |
| Fnv.OneByteChangeSeparates | cluster-hashring/src/ring.rs:112-117 | Changing one byte anywhere always changes the hash. |
| Fnv.KnownHashes | cluster-hashring/src/ring.rs:108-118 | The published 64-bit FNV-1a values of the empty string and of the letter a. |
| HashRings.Insert | cluster-hashring/src/ring.rs:69-70 | Inserting a new id into an ascending listing gives the ascending listing of the larger set. |
| HashRings.SortedIds | cluster-hashring/src/ring.rs:69-70 | Sorting a set's ids, enumerated in any order, gives its ascending duplicate-free listing. |
| HashRings.SortedListingIsUnique | cluster-hashring/src/ring.rs:69-70 | A set has one such listing, so the enumeration order of the hash set cannot show. |
| HashRings.SomeOrder | cluster-hashring/src/ring.rs:69-70 | The order of ids at concrete ones: by the first difference, a prefix first. |
| HashRings.HashRing.Rebuild | cluster-hashring/src/ring.rs:30-39 | The members become exactly the listed ids, duplicates collapsed, and the anchor is canonical for them. |
| HashRings.HashRing.AddInstance | cluster-hashring/src/ring.rs:42-48 | Adds one member and keeps the anchor canonical. |
| HashRings.HashRing.RemoveInstance | cluster-hashring/src/ring.rs:51-56 | Removes one member and keeps the anchor canonical, also when none is left. |
| HashRings.HashRing.RebuildAnchor | cluster-hashring/src/ring.rs:63-78 | Establishes the canonical anchor from any previous one: sorted resources and the capacity formula. |
| HashRings.CapacityIs | cluster-hashring/src/ring.rs:72 | The capacity is 16 for up to 16 members, then their number, and at most 65535. |
| HashRings.HashRing.ShouldHandle | cluster-hashring/src/ring.rs:81-96 | Decides by the anchor's answer to the FNV-1a hash of the key, and handles everything when there is no anchor or no answer. |
| HashRings.CanonicalAnchorsAgree | cluster-hashring/src/ring.rs:63-78 | The anchor depends on the current members only, not on the history of rebuilds, additions and removals. |
| HashRings.HandlesIffOwner | cluster-hashring/src/ring.rs:81-96 | An instance handles a key if and only if any ring with the same members names it as the owner. |
| HashRings.ExactlyOneOwner | cluster-hashring/src/ring.rs:81-96 | When all members of a nonempty set of at most 65535 ids hold that set, each key has exactly one handler. |
| HashRings.SoleInstanceHandlesAll | cluster-hashring/src/ring.rs:81-96 | An instance alone, or with an empty ring, handles every key. |
| HashRings.OneOwner | cluster-hashring/src/ring.rs:63-96 | From the member set alone each key hash has exactly one owner, one of the members, when they are between 1 and 65535. |
| HashRings.HandlesIffOwns | cluster-hashring/src/ring.rs:81-96 | A ring handles exactly the keys its own id owns among its members. |
| HashRings.UnansweredIsHandled | cluster-hashring/src/ring.rs:81-96 | Without an anchor, or without an answer from it, every key is handled. |
| Registries.RedisRegistry.Register | cluster-hashring/src/registry.rs:46-78 | Registration scores the new id with the time and changes no other id. |
| Registries.RedisRegistry.Heartbeat | cluster-hashring/src/registry.rs:94-103 | A heartbeat sets the own score, also when the id had been removed. |
| Registries.RedisRegistry.Deregister | cluster-hashring/src/registry.rs:80-88 | Removes the own id only. |
| Registries.RedisRegistry.GetActiveInstances | cluster-hashring/src/registry.rs:105-115 | Returns exactly the ids scored within the last 30 seconds, cutoff included. |
| Registries.RedisRegistry.CleanupStale | cluster-hashring/src/registry.rs:117-130 | Removes exactly the ids at or below the cutoff and returns how many. |
| Registries.ThirtySeconds | cluster-hashring/src/registry.rs:105-130 | Ids are active up to and including 30000 ms after their score; a cleanup keeps those below 30000 ms, with their scores. |
| Registries.CleanupIsInvisibleLater | cluster-hashring/src/registry.rs:105-130 | Whatever commands follow a cleanup, every strictly later read answers as if it had not happened. |
| Registries.CleanupAtItsOwnInstant | cluster-hashring/src/registry.rs:105-130 | At the cleanup's own instant a read loses exactly the ids scored at the cutoff. |
| Registries.InstanceAtTheCutoffIsCleanedUp | cluster-hashring/src/registry.rs:105-130 | An instance scored at the cutoff is active before a cleanup at that instant and not after it. |
| Coordinators.SendJoins | cluster-hashring/src/coordinator.rs:238-241 | One event per new member; replayed over the old membership they add exactly the new members. |
| Coordinators.SendLeaves | cluster-hashring/src/coordinator.rs:242-245 | One event per missing member; replayed they remove exactly the missing ones. |
| Coordinators.Changes | cluster-hashring/src/coordinator.rs:238-245 | The events of a sync, replayed over the previous membership, give exactly the current one, with no event to spare. |
| Coordinators.Coordinator.FullSync | cluster-hashring/src/coordinator.rs:229-256 | The ring becomes the active set if that differs from the record and stays otherwise, always as this instance's own ring; the record becomes the active set; the events account for the difference. |
| Coordinators.Coordinator.HandleMessage | cluster-hashring/src/coordinator.rs:373-398 | Own messages change nothing; others apply the join or leave to a fresh copy of this instance's own ring, and the event sent means the same change. |
| Coordinators.Coordinator.Refresh | cluster-hashring/src/coordinator.rs:452-463 | The ring becomes the active set whatever it was, as this instance's own, and the sync's record stays. |
| Coordinators.Coordinator.ShouldHandle | cluster-hashring/src/coordinator.rs:419-421 | In every valid state, so after any start, sync, message or refresh: a key is handled exactly if this instance's id owns it among the ring's members, and always without members. |
| ClusterEffects.RegistryFollows | cluster-hashring/src/registry.rs:46-130 | Every step of the protocol changes the registry by a command of the registry object or not at all. |
| ClusterEffects.RingFollows | cluster-hashring/src/coordinator.rs:73-463 | Every step leaves ring, record and read in hand as the coordinator's methods and the registry's answer do, and no step changes another instance's. |
| ClusterEffects.TasksFollow | cluster-hashring/src/coordinator.rs:97-134 | Subscription and tasks of an instance begin and end with its own steps for that and with no other. |
| ClusterEffects.InboxFollows | cluster-hashring/src/coordinator.rs:136-157 | A publication reaches exactly the subscribed; the listener takes from the front; losing or ending the subscription empties the inbox. |
| Clusters.StepKeepsInv | cluster-hashring/src/coordinator.rs:73-414 | Every step of every instance keeps the invariant that locates each published join and each registry read in hand. |
| Clusters.ReachableInv | cluster-hashring/src/coordinator.rs:73-414 | So the invariant holds in every reachable state. |
| Clusters.NoLostJoin | cluster-hashring/src/coordinator.rs:79-123 | In every interleaving, an instance that has applied a sync and drained its messages holds every live announced instance, also one that announced between its first read and its subscription; what can stand in the way (a lost subscription, an undone store, this join overwritten) does so only until a sync or refresh puts it right. |
| Clusters.SyncHealsForGood | cluster-hashring/src/coordinator.rs:229-256 | If a sync read the registry after b registered, then once applied b is in the ring in every later state in which b is live and no undone store awaits repair, whatever messages are lost, delayed or crossed before or after. |
| Clusters.SyncedMemberStays | cluster-hashring/src/coordinator.rs:229-256 | A live member in a sync's record stays recorded over every run, races included, and is in the ring whenever no undone store awaits repair. |
| Clusters.HeldReadSees | cluster-hashring/src/coordinator.rs:231-232 | A registry read taken while an instance is live contains it and is held unchanged until it is used. |
| ClusterSerial.SerialInstanceMissesNobody | cluster-hashring/src/coordinator.rs:229-256 | If one instance's own syncs and messages do not overlap, then after one sync and with no message pending it misses no live announced instance, whatever all others do. |
| ClusterSerial.SyncRestoresTheGuarantee | cluster-hashring/src/coordinator.rs:229-256 | Whatever happened before, one sync whose read is taken with the subscription up, and which leaves out nobody it read, restores the guarantee: from then on, with its own handling serial, the instance misses no live announced instance whenever it has drained its messages. |
| ClusterSerial.SyncRestoresIff | cluster-hashring/src/coordinator.rs:247-256 | For a drained instance with a complete read, one sync restores the guarantee if and only if the read differs from the record or nobody live whom it read is missing already. |
| ClusterGhosts.SyncClearsTheDeparted | cluster-hashring/src/coordinator.rs:229-256 | The counterpart: with leaves delivered, serial handling and no refresh, once an instance has applied a sync read after b left for good, b is not in its ring whenever it has drained its messages. |
| ClusterGhosts.RunStaysTidy | cluster-hashring/src/coordinator.rs:378-398 | Over such runs a departed member still in the ring is on the sync's record or has its leave waiting, and no waiting join lacks its leave behind it. |
| ClusterGhosts.SyncKeepsDepartedIff | cluster-hashring/src/coordinator.rs:247-256 | In general a sync whose read lacks b leaves b in the ring if and only if b was in it and the read equals the record. |
| ClusterLosses.LosesMemberIff | cluster-hashring/src/coordinator.rs:384-397 | A live member leaves the ring in a step if and only if the step stores a ring made from a registry read or a message's copy that lacks it. |
| ClusterLosses.MemberHeldIff | cluster-hashring/src/coordinator.rs:229-256 | Over any run a member that is live at the end was in the ring throughout if and only if no step left it out. |
| ClusterRuns.LostLeaveIsNotRepaired | cluster-hashring/src/coordinator.rs:247-256 | A reachable state in which a full sync leaves a departed instance in the ring. |
| ClusterRuns.JoinInTheGapIsOverwritten | cluster-hashring/src/coordinator.rs:384-386 | A reachable state in which a synced and drained instance lacks a live one whose join arrived between a sync's read and its use. |
| ClusterRuns.RacingStoreLosesAMember | cluster-hashring/src/coordinator.rs:384-397 | A reachable state in which a live instance is missing from the ring while the sync's record equals the registry, so later syncs do not repair it. |
| ClusterRuns.RefreshKeepsADeparted | cluster-hashring/src/coordinator.rs:452-463 | A reachable state in which an instance up to date by every other measure keeps one that has left for good, put back by a refresh. |
| ClusterExits.ShutdownIsFinal | cluster-hashring/src/coordinator.rs:483-502 | After shutdown the id is in the registry in no state of any continuation. |
| ClusterExits.OutForGoodIffSilent | cluster-hashring/src/coordinator.rs:468-502 | A started instance out of the registry stays out in every continuation if and only if its heartbeat task has ended. |
| ClusterExits.ForceDeregisterIsNotFinal | cluster-hashring/src/coordinator.rs:468-477 | After `force_deregister` some continuation shows the id in the registry again. |
| ClusterExits.SyncRepairsIff | cluster-hashring/src/coordinator.rs:229-256 | A corollary of the comparison: after a sync the ring equals the set read if and only if that set differed from the record or the ring was right already, and it contains that set under the corresponding condition. |
| ClusterOwnership.RoundSyncs | cluster-hashring/src/coordinator.rs:229-256 | In any interleaving in which an instance's reads see one set and only its syncs change its ring, its ring ends as its first sync leaves it, or unchanged if it applied none. |
| ClusterOwnership.RoundAgreesIff | cluster-hashring/src/coordinator.rs:229-256 | After such a round, on any clocks, all participants hold exactly the set they read if and only if each had a record that differed from it or held it already. |
| ClusterOwnership.OneOwnerAfterARound | cluster-hashring/src/coordinator.rs:419-421 | After such a round of the active instances, interleaved with anything others do, every key is owned by exactly one of them by its own ring, which is what its coordinator handles. |
| Signers.ChecksOfOneRowAgreeIff | api/src/handlers/http_rpc_handler.rs:97-111 | A corollary of the comparisons used: handler status, client lookup and HTTP check judge an OAuth row alike except when an unrevoked row expires at that very instant. |
| Signers.ExpiringRowIsStillValidOverHttp | api/src/handlers/http_rpc_handler.rs:97-111 | At that instant the HTTP check accepts the row which the signer takes for expired. |
| Signers.OldTombstoneKeys | signer/src/signer_daemon.rs:736-747 | Collects exactly the keys of tombstones more than 24 hours old. |
| Signers.TombstoneLifetime | signer/src/signer_daemon.rs:736-747 | A tombstone is old from the first millisecond after 24 hours. |
| Signers.UnifiedSigner.ProcessConnect | signer/src/signer_daemon.rs:223-313 | A wrong secret changes nothing; a bound client is acknowledged or refused without a write; otherwise the client is stored; the other table is untouched. |
| Signers.UnifiedSigner.ValidateAndStoreClient | signer/src/signer_daemon.rs:398-493 | Accepts the bound client, binds the first one, refuses everybody else, through filters on inactive rows. |
| Signers.UnifiedSigner.Upsert | signer/src/signer_daemon.rs:835-953 | Caches an active handler if the row passes the table's own filter, and changes nothing otherwise. |
| Signers.UnifiedSigner.Remove | signer/src/signer_daemon.rs:705-714 | Every request that takes the removed bunker's cached handler is told of the revocation and changes no row, for at least 24 hours of cleanups; all other handlers are as before. |
| Signers.UnifiedSigner.CleanUpTombstones | signer/src/signer_daemon.rs:732-757 | Removes exactly the tombstones older than 24 hours and counts them. |
| Signers.UnifiedSigner.GetHandler | signer/src/signer_daemon.rs:993-1191 | The cached handler, or a load that takes OAuth rows before team rows and inactive rows as tombstones; a load is cached. |
| Signers.UnifiedSigner.HandleRequest | signer/src/signer_daemon.rs:1252-1393 | Tombstones answer first, OAuth clients are checked before sensitive methods, then permission decides, and nothing is served without it; only the handler's own table may change. |
| SignerRuns.StepKeepsInv | signer/src/signer_daemon.rs:677-757 | Every step keeps cached, loading and held handlers tied to the table, tenant and secret hash they came from. |
| SignerRuns.SensitiveServedIff | signer/src/signer_daemon.rs:1304-1393 | In every reachable state a sensitive request is served if and only if its handler is active, the policy permits it, and an OAuth row is unrevoked, unexpired and bound to the client or to nobody; denied if only the policy is against it, refused or answered as a tombstone otherwise. |
| SignerRuns.OtherCallsAnswered | signer/src/signer_daemon.rs:1366-1393 | The answers to all other calls from the row's columns; a connect with a secret is acknowledged if and only if it verifies and the lookup sees no other client. |
| SignerRuns.BoundAfter | signer/src/signer_daemon.rs:223-493 | Exactly who is bound after a request, and that nothing else about any row changes. |
| SignerRuns.LoadFollowsTheRow | signer/src/signer_daemon.rs:993-1191 | A loaded handler has the row's bunker, tenant and secret hash, and its status and its time follow the row's columns. |
| SignerRuns.UpsertFollowsTheRow | signer/src/signer_daemon.rs:835-953 | An Upsert loads a row if and only if it is there, in the tenant, unrevoked and, for OAuth, unexpired; always as active. |
| SignerRuns.CacheFollows | signer/src/signer_daemon.rs:677-757 | The cached handler of a bunker after each kind of step, and that no other step touches it. |
| SignerRuns.RequestTakesTheHandler | signer/src/signer_daemon.rs:993-1004 | A request works with the handler that was cached or loaded when it was taken. |
| SignerRuns.RowsComeAndGo | core/src/repositories/oauth_authorization.rs:107-137 | Rows appear by being issued, as issued, and go by being deleted. |
| SignerRuns.RowKeepsItsTerms | core/src/repositories/oauth_authorization.rs:107-137 | Over every run a row keeps tenant, user, origin, secret hash and expiry as long as it exists. |
| SignerRuns.RevokedExactlyBy | core/src/repositories/oauth_authorization.rs:228-247 | A row's revocation time is set by its id, by its user for its bunker key, or by user, origin and tenant, to the time of that step, and by nothing else. |
| SignerRuns.TeamRevokedExactlyBy | core/src/repositories/authorization.rs:141-162 | A team row's revocation time is set once, by its revocation. |
| SignerRuns.RevokedNeverServes | signer/src/signer_daemon.rs:1304-1363 | Once an OAuth authorization is revoked, in every continuation every sensitive request for it answered later is refused or told so, whatever the cache holds and even if it took its handler before; and no row changes. |
| SignerRuns.WithdrawnForGood | core/src/repositories/oauth_authorization.rs:139-145 | No writer of the table ever takes a revocation back. |
| SignerRuns.ReloadIsRevoked | signer/src/signer_daemon.rs:107-121 | Every reload of a revoked row is a tombstone with the time of revocation, and no Upsert brings it back as active. |
| SignerRuns.TombstonesOnly | signer/src/signer_daemon.rs:1252-1300 | Once no active handler of a revoked authorization is left, none appears again, so every later request is answered with the tombstone error. |
| SignerRuns.BoundClientStays | signer/src/signer_daemon.rs:223-313 | While calls see the row active, the bound client stays through every state of every run without a disconnect or a deletion. |
| SignerRuns.BoundClientStaysIff | signer/src/signer_daemon.rs:223-313 | Over any run the binding holds throughout if and only if nobody disconnects or deletes the row and no connect from another client finds it inactive with a handler still active. |
| SignerRuns.BindingChangesIff | signer/src/signer_daemon.rs:240-313 | A step changes the bound client of an OAuth row if and only if it is such a connect, the user's own disconnect, or the deletion of the row. |
| SignerRuns.TeamBindingChangesIff | signer/src/signer_daemon.rs:256-313 | A step changes the bound client of a team row if and only if it is such a connect on an expired row or the deletion of the row, alone or with its key or team. |
| SignerOverwrites.RevokedBindingIsReplaced | signer/src/signer_daemon.rs:240-313 | A reachable state in which the answer to a second client's connect replaces the client bound to a revoked row. |
| SignerRuns.OtherClientsAreTurnedAway | signer/src/signer_daemon.rs:398-493 | For an active bound row, another client is neither served nor acknowledged. |
| SignerRuns.AcceptedClientIsBound | signer/src/signer_daemon.rs:398-493 | An accepted sensitive call or an acknowledged connect with a secret leaves its own client bound. |
| Sessions.StepKeepsInv | core/src/repositories/atproto_oauth_session.rs:79-391 | Every call keeps revoked tokens and revoked sessions consistent and the UNIQUE columns unique. |
| Sessions.ReachableRowsAreConsistent | core/src/repositories/atproto_oauth_session.rs:307-391 | In every reachable table a revoked token means a revoked session, and a revoked session with a token has it revoked. |
| Sessions.RevokedRowIsFrozen | core/src/repositories/atproto_oauth_session.rs:109-391 | No call changes any modelled column of a revoked row, and only `revoke_session` returns it. |
| Sessions.RevokedForGood | core/src/repositories/atproto_oauth_session.rs:109-391 | So it is unchanged, both timestamps included, after any sequence of calls. |
| Sessions.RevokedIsNeverFound | core/src/repositories/atproto_oauth_session.rs:109-252 | In every run no finder, approval, redemption or rotation returns a session once it is revoked. |
| Sessions.RotationAtMostOnce | core/src/repositories/atproto_oauth_session.rs:254-286 | Of any interleaved rotations with one previous hash at most one succeeds, and the hash is not found or revoked again, unless the rotation named it as its own successor or a later call stored it anew with success; calls that fail do not count. |
| Sessions.CodeAtMostOnce | core/src/repositories/atproto_oauth_session.rs:218-235 | An authorization code is redeemed at most once, and not found afterwards, unless a later call stored it anew with success (section 4.1.2 of RFC 6749). |
| SessionHistory.RowFollows | core/src/repositories/atproto_oauth_session.rs:79-391 | Column by column, what each call leaves in each session: the given values in their own columns, both revocation times from the call that ends it, and everything else as it was. |
| SessionHistory.FoundCarriesItsKey | core/src/repositories/atproto_oauth_session.rs:147-286 | Over whole runs a found session is bound to the DPoP key of its last successful creation, storing or rotation. |
| SessionHistory.RevokedWhenEnded | core/src/repositories/atproto_oauth_session.rs:307-391 | Over whole runs a session's revocation time is the time of the first call that ended it. |
| SessionRepositories.SessionRepository.Create | core/src/repositories/atproto_oauth_session.rs:79-107 | Inserts an open row with the request and its DPoP key and nonce in their columns and all else empty, or reports that the URI exists; no other row changes. |
| SessionRepositories.SessionRepository.ApproveRequest | core/src/repositories/atproto_oauth_session.rs:124-145 | Succeeds on exactly the open sessions with user, DID and time as given, never conflicts, leaves every lookup by code or hash and every other row as it was, and puts the session among those revoked with its user. |
| SessionRepositories.SessionRepository.StoreTokenArtifacts | core/src/repositories/atproto_oauth_session.rs:147-178 | On success code and hash lead, exactly until they expire, to this session with the access token and DPoP binding given and the grant it had; there is a conflict exactly when another session holds one of the three keys, and then nothing changes. |
| SessionRepositories.SessionRepository.StoreAuthorizationCode | core/src/repositories/atproto_oauth_session.rs:196-216 | On success the code is found and redeemed as this session exactly until it expires; there is a conflict exactly when another session holds it, and then nothing changes. |
| SessionRepositories.SessionRepository.ConsumeAuthorizationCode | core/src/repositories/atproto_oauth_session.rs:218-235 | Clears and returns the one open row with this unexpired code. |
| SessionRepositories.SessionRepository.RotateRefreshToken | core/src/repositories/atproto_oauth_session.rs:254-286 | On success the new hash leads until it expires to this session, with the access token and DPoP binding given and the grant and code it had, and the previous one, unless it is the same, is in no row; other rows are as before, and without success all are. |
| SessionRepositories.RotationReplaces | core/src/repositories/atproto_oauth_session.rs:254-286 | The step finds no row exactly when the previous hash does not lead to this session at that time, and otherwise replaces the hash as above. |
| SessionRepositories.SessionRepository.UpdateDpopNonce | core/src/repositories/atproto_oauth_session.rs:288-305 | Succeeds on exactly the open sessions, never conflicts, and changes no lookup by code or hash and no other row. |
| SessionRepositories.SessionRepository.RevokeRefreshSession | core/src/repositories/atproto_oauth_session.rs:307-323 | Revokes token and session of the row with this unrevoked hash. |
| SessionRepositories.SessionRepository.RevokeRefreshSessionsForUser | core/src/repositories/atproto_oauth_session.rs:325-348 | Afterwards the user has no open session in the tenant, each that was open is closed, and every other row is unchanged. |
| SessionRepositories.SessionRepository.RevokeSessionsForPubkey | core/src/repositories/atproto_oauth_session.rs:350-370 | Afterwards the user has no open session in any tenant, each that was open is closed, and every other row is unchanged. |
| SessionRepositories.SessionRepository.RevokeOne | core/src/repositories/atproto_oauth_session.rs:372-391 | Afterwards the session is closed and every other row unchanged; a session that was closed before is left exactly as it was, and nothing conflicts. |
| Sessions.EndsIff | core/src/repositories/atproto_oauth_session.rs:307-391 | A call closes an open session if and only if it is a revocation naming its hash, user or URI; none deletes it or changes what its pushed request fixed. |
| Sessions.FoundIffNeverRevoked | core/src/repositories/atproto_oauth_session.rs:109-122 | After any run `find_by_request_uri` finds a session that was open if and only if no call of the run revoked it. |
| SessionRepositories.SessionRepository.FindByAuthorizationCode | core/src/repositories/atproto_oauth_session.rs:180-194 | Finds open rows with an unexpired code only. |
| SessionRepositories.SessionRepository.FindByRefreshTokenHash | core/src/repositories/atproto_oauth_session.rs:237-252 | Finds open rows with an unexpired, unrevoked hash only. |
| RefreshTokens.RefreshTokenRepository.Insert | core/src/repositories/refresh_token.rs:24-52 | A created token, for this authorization and tenant, is consumed as this row at exactly the times within thirty days; creation fails exactly when the hash exists, and no other row changes. |
| RefreshTokens.CreatedIsConsumable | core/src/repositories/refresh_token.rs:24-74 | Creation followed by consumption at any time, for every store. |
| RefreshTokens.RefreshTokenRepository.ConsumeToken | core/src/repositories/refresh_token.rs:58-74 | Marks and returns the one live row with this hash. |
| RefreshTokens.RefreshTokenRepository.RevokeForAuthorization | core/src/repositories/refresh_token.rs:81-96 | Afterwards the authorization has no unconsumed token, and every row that was not one is unchanged. |
| RefreshTokens.RevokedForAuthorization | core/src/repositories/refresh_token.rs:81-96 | None of its tokens is live at any time after the step, no row is lost, and the count is the number of tokens it had left. |
| RefreshTokens.RefreshTokenRepository.CleanupOldTokens | core/src/repositories/refresh_token.rs:103-116 | The count is the number of rows that went, and with `days_old >= 0` every consumption at any later time answers as before. |
| RefreshTokens.NegativeDaysDeleteALiveToken | core/src/repositories/refresh_token.rs:103-116 | A cleanup of tokens -31 days old deletes a token good for thirty days more. |
| RefreshTokens.ConsumedAtMostOnce | core/src/repositories/refresh_token.rs:58-74 | In every run each row is returned by `consume` at most once, whatever the clocks say. |
| RefreshTokens.RevokedTokensAreSpent | core/src/repositories/refresh_token.rs:81-96 | After a revocation no token the authorization had is ever consumed. |
| RefreshTokens.CreatedConsumedIff | core/src/repositories/refresh_token.rs:24-116 | After any run a token created for an authorization is consumed if and only if the run has not consumed it in time, revoked that authorization or cleaned it up, and its thirty days are not over; it then carries the authorization and tenant it was created with. |
| RefreshTokens.CleanupDeletesIff | core/src/repositories/refresh_token.rs:103-116 | A row is deleted if and only if it was consumed or has expired before the cutoff of so many days of 86400 seconds. |
| RefreshTokens.CleanupIsInvisible | core/src/repositories/refresh_token.rs:103-116 | For each later run, all creations and consumptions answer as without the cleanup if and only if the run never creates a deleted token that would still be there without it; then no consumption changes. |
| RefreshTokens.CleanupIsInvisibleIff | core/src/repositories/refresh_token.rs:103-116 | No later run that creates tokens from a given set can tell the cleanup from none if and only if no deleted token is in that set. |
| RefreshTokens.CleanupLetsATokenBeReissued | core/src/repositories/refresh_token.rs:24-116 | An expired token, cleaned up, is created and consumed again, where its old row would have refused it. |
| RefreshTokens.CleanupHidesNothingIff | core/src/repositories/refresh_token.rs:103-116 | For any `days_old` the next `consume` of each token answers as before if and only if no live token expires before the cutoff. |
| RedisKeys.PrefixedRedis.IncrWithTtl | api/src/redis.rs:306-325 | Counts, starting a window only with its first event and never prolonging it. |
| RedisKeys.PrefixedRedis.SetNxEx | api/src/redis.rs:281-304 | Sets the key if and only if it is absent or has expired, and says which. |
| RateLimits.OncePerWindow | api/src/rate_limit.rs:36-51 | Passes when Redis is missing or fails, otherwise exactly when the key is free. |
| RateLimits.UnderLimit | api/src/rate_limit.rs:54-70 | Passes when Redis is missing or fails, otherwise counts and compares with the limit. |
| RateLimits.AllowRequest | api/src/rate_limit.rs:95-125 | Both limits in order, five an hour for an email, each skipped without its key; a request stopped by the first leaves the second counter alone. |
| RateLimits.LimitedPerHour | api/src/rate_limit.rs:54-70 | Under a limit a request passes within the running hour if fewer than the limit were counted, and otherwise opens an hour of 3600000 ms; no other counter changes. |
| RateLimits.LimiterMatchesWindows | api/src/rate_limit.rs:54-70 | Over any trace of events on any keys an event passes exactly when it is among the first `limit` of its window, with windows defined from the event times alone. |
| RateLimits.StartsAreApart | api/src/redis.rs:306-325 | Window starts are at least a window apart. |
| RateLimits.WindowAllowsMin | api/src/rate_limit.rs:54-70 | A window with n events allows exactly min(n, limit). |
| RateLimits.AtMostTwiceTheLimit | api/src/rate_limit.rs:54-70 | Any interval of one window's length, both ends included, contains at most twice the limit of allowed events. |
| RateLimits.OnceMeansApart | api/src/rate_limit.rs:36-51 | Any two events `once_per_window` lets pass are at least a window apart. |
| Nip98.Authenticate | api/src/api/nip98_extractor.rs:46-80 | Form and freshness come before the replay record, a refused envelope leaves no record, and a silent Redis refuses. |
| Nip98.VerdictsAre | api/src/api/nip98_extractor.rs:46-80 | The verdicts of every run from the attempts alone: accepted if and only if in form, within 60 seconds, with Redis answering, and with no acceptance of that id in the last 120 seconds; unavailable if only Redis is in the way. |
| Nip98.RefusalLeavesNoTrace | api/src/api/nip98_extractor.rs:58-66 | An attempt that is not accepted changes no later verdict. |
| Nip98.AcceptedTwiceOnlyAtTheEdge | api/src/api/nip98_extractor.rs:168-197 | Two acceptances of one envelope in any run are at least 120 seconds apart, so the first came at the very start of the window, up to the delay between the two clock readings. |
| Nip98.AcceptedAtMostOnce | api/src/nip98.rs:112-117 | First accepted in a second later than `created_at - 60`, an envelope is never accepted again in the run. |
| Nip98.ReplayableIff | api/src/api/nip98_extractor.rs:14-17 | After an acceptance a later repetition is accepted if and only if the acceptance fell in the second `created_at - 60`; if a record counts until its last millisecond, the last one of that second is excepted. |
| Nip98.EnvelopeIsReplayed | api/src/api/nip98_extractor.rs:168-197 | An envelope created at second 60 is accepted at time 0 and again 120.5 seconds later. |
| KeyCaches.CachingKeyManager.EncryptBytes | core/src/encryption/caching_key_manager.rs:48-60 | Succeeds exactly if the inner manager answered, with its ciphertext, a decrypt of which returns the plaintext from the cache, whether or not the inner manager is available; a failure leaves the cache alone; a sound cache stays sound. |
| KeyCaches.CachingKeyManager.DecryptBytes | core/src/encryption/caching_key_manager.rs:62-77 | Over a sound cache a success is what the inner manager holds, and repeating it does not ask the inner manager; it fails only if that fails, and then leaves the cache alone. |
| KeyCaches.CacheRefinesInner | core/src/encryption/caching_key_manager.rs:62-77 | After any run with expiry and eviction a decrypt returns what the inner manager holds, fails only if that would, asks it exactly on a miss, and a failure leaves the cache alone. |
| KeyCaches.EncryptThenDecrypt | core/src/encryption/caching_key_manager.rs:48-77 | What was encrypted decrypts to itself at any later point of any run. |
| KeyCaches.ServedUntilForgotten | core/src/encryption/caching_key_manager.rs:48-77 | What an encrypt or decrypt has cached is answered without the inner manager in every later state until that entry expires or is evicted. |
| KeyCaches.EncryptsReachInnerOnce | core/src/encryption/caching_key_manager.rs:48-60 | The inner manager sees exactly the run's encryptions, once each and in order. |
| Patterns.WildcardRedirectIff | core/src/repositories/registered_client.rs:80-107 | A wildcard pattern matches exactly the URIs that fill its first star with text free of '/', and panics exactly where prefix and suffix overlap. |
| Patterns.MissingSegmentPanics | core/src/repositories/registered_client.rs:80-107 | The pattern `https://a.com/*/cb` panics on `https://a.com/cb`. |
| Patterns.ExactRedirectIff | core/src/repositories/registered_client.rs:80-107 | Without a star only the pattern itself matches. |
| Patterns.ValidateRedirectUri | core/src/repositories/registered_client.rs:43-77 | Unregistered clients may use any URI, an empty list none, and otherwise some pattern must match before any panics. |
| Patterns.ParsedOriginNames | keycast/src/main.rs:170-174 | A parsed origin is scheme, "://", host and rest, cut at the first "://" and the first '/' after it. |
| Patterns.ParsesIff | keycast/src/main.rs:170-174 | An origin parses as a scheme and host if and only if it is put together from them; without "://" it does not. |
| Patterns.WildcardOriginIff | keycast/src/main.rs:145-168 | A wildcard origin matches if and only if the schemes agree and the host is some text, a dot and the suffix. |
| Patterns.PlainOriginIff | keycast/src/main.rs:145-148 | A pattern without a star allows exactly itself. |
| Patterns.BareHostNeverMatches | keycast/src/main.rs:162-167 | The bare suffix host never matches. |
| Patterns.ListedPatternsDecide | keycast/src/main.rs:131-143 | A comma-separated list allows exactly the origins that one of its pieces, trimmed, matches, and localhost where configured. |
| Patterns.TrimStrips | keycast/src/main.rs:139-141 | Trimming strips the blanks on both sides and nothing else. |
| Patterns.SpacedPair | keycast/src/main.rs:137-142 | Two patterns written with a comma and a space between them allow what either matches. |
| Permissions.ValidateForSigner | signer/src/signer_daemon.rs:155-213 | The early-exit loop returns the first permission that refuses. |
| Permissions.SignerVerdict | signer/src/signer_daemon.rs:155-213 | There is none if and only if every permission allows the request. |
| Permissions.SignsIff | core/src/custom_permissions/allowed_kinds.rs:65-70 | What a list lets sign, spelled out for all its permissions: listed kinds, seals, no filtered word, relay authentication. |
| Permissions.EncryptsIff | core/src/custom_permissions/content_filter.rs:44-62 | What a list lets encrypt, spelled out for all its permissions. |
| Permissions.DecryptsIff | core/src/custom_permissions/encrypt_to_self.rs:41-48 | Decryption is refused by one permission alone, to others than oneself. |
| Permissions.EvaluatorsAgree | api/src/handlers/http_rpc_handler.rs:117-175 | The NIP-46 loop and the HTTP form give the same verdict on every list and request. |
| Permissions.OrderDoesNotMatter | api/src/handlers/http_rpc_handler.rs:117-175 | Both evaluators give the same verdict for every order of the permissions. |
| Permissions.PermissionsOnlyRestrict | api/src/handlers/http_rpc_handler.rs:117-175 | The first blocker of two lists together is that of the first list, or else of the second; both verdicts are conjunctions, so adding a permission never widens them. |
| Permissions.CommerceConfines | core/src/custom_permissions/commerce_envelope.rs:27-71 | A corollary: a list with a commerce envelope that has no blocker signs only kind 13 and encrypts only kind-1327 envelopes naming the merchant, to the merchant or to self. |
| Permissions.TwoMerchantsOnlyToSelf | core/src/custom_permissions/commerce_envelope.rs:27-71 | A corollary: with two merchants only envelopes naming both are encrypted, and only to self. |
| DeletionNotices.DelaysAreBounded | core/src/repositories/deletion_notice.rs:55-57 | For any attempt count the delay is between 1 and 60 minutes, does not shrink with the count, and no power on the way exceeds 2^16. |
| DeletionNotices.Schedule | core/src/repositories/deletion_notice.rs:55-57 | The delays are 1, 2, 4, 8, 16, 32 and then 60 minutes. |
| DeletionNotices.DeletionNoticeRepository.Acknowledge | core/src/repositories/deletion_notice.rs:45-51 | Deletes that notice and no other. |
| DeletionNotices.DeletionNoticeRepository.ScheduleRetry | core/src/repositories/deletion_notice.rs:54-67 | Adds one attempt and sets the next one by the attempt count that was read; a full 32-bit counter is a database error. |
| DeletionNotices.DeliverDueNotices | api/src/customer_deletion.rs:67-95 | Tries the batch in order up to the first database failure; the count returned is the number of acknowledged sends, and over a fresh batch of rows that left the table. |
| DeletionNotices.PassTreatsEachOnce | api/src/customer_deletion.rs:67-95 | Each listed notice is changed by its own attempt only, and not at all after a database failure. |
| DeletionNotices.PassDeliversIff | api/src/customer_deletion.rs:67-95 | A notice leaves the table in a pass if and only if the pass reaches a successful send of it whose deletion is stored. |
| DeletionNotices.UndisturbedPass | core/src/repositories/deletion_notice.rs:30-42 | After a pass nothing listed is due: it was sent, or counted once more and delayed by its old count; what is still due was crowded out by a full batch of notices no younger. |
| DeletionNotices.NoticeStaysUntilSent | api/src/customer_deletion.rs:67-95 | Over any run of passes with any failures a notice leaves the table if and only if some pass has reached a successful send of it and stored the deletion; until then it keeps its content, and its attempts are exactly the failed sends whose retry was stored. |
| DeletionNotices.FreshDelaysNeverShrink | core/src/repositories/deletion_notice.rs:54-67 | If each pass works on rows as they were when it started, the k-th stored retry of a notice waits as long as its count then calls for, so the delays never shrink over the run. |
| DeletionNotices.DelayShrinksIff | core/src/repositories/deletion_notice.rs:54-67 | In any run a retry waits less long than the one before if and only if it had read a smaller count, taken as 0 if negative, and below 6. |
| DeletionNotices.StaleReadShortensTheDelay | api/src/customer_deletion.rs:67-95 | Two overlapping deliveries store delays of one, two and one minute for one notice. |

## Left out

- AnchorHash, bcrypt, HKDF, Schnorr, NIP-04, NIP-44, SHA-256 and JSON: parameters or abstract functions; the laws assumed are that AnchorHash returns one of its resources whenever they are at least one and at most its capacity, that digests do not collide, and that the inner key manager decrypts what it encrypted.
- Key managers, email, relays, HTTP, metrics and logging: input and output only.
- HashRings: ids and keys are sequences of characters and bytes; that UTF-8 byte order and code point order agree is used, not proved.
- Registries: before 30 seconds after the epoch the unsigned cutoff of the source would underflow; the model uses signed time.
- Clusters: IAM token refresh, reconnection backoff, unknown Pub/Sub events, the capacity of the broadcast channel and the drain pause of shutdown; a failed Redis command is a step that does not happen.
- Clusters.NoLostJoin: says nothing of an instance between a lost subscription, an undone store or an overwritten join and the sync that puts it right; the property is false there, as `ClusterRuns` shows, and `ClusterLosses` and `ClusterSerial` give the exact conditions.
- ClusterOwnership.OneOwnerAfterARound: assumes that all reads of the round see one set; rings can differ for a while whenever membership changes.
- Signers: a handler names its row by bunker key, which is unique in both tables and never reissued, and the derived bunker key is taken to be the stored one.
- SignerRuns.RevokedNeverServes: client check, permission check and signing are one step, so a revocation between the check and the signature is not covered, and neither are team rows, whose revocation the on-demand load and the signing path do not look at.
- SignerRuns.BoundClientStays: the read and the write of one connect or client check are one step; two of them interleaved are not covered.
- Permission loading from the database and its errors; each request carries the verdict.
- The HTTP handler cache apart from its validity check and its permission checks: it would only add easy members.
- Sessions: the columns a pushed request fixes for good are reduced to five, and deletion of a user's rows is not modelled.
- RefreshTokens: foreign-key errors, and the deletion of tokens together with their authorization.
- RateLimits: building keys from addresses and emails, `client_ip`, and the configured IP limit, which is a parameter.
- RedisKeys: a key is taken to be gone in the millisecond in which its time to live has passed, where Redis still counts it; prefixes and reconnection are not modelled.
- Nip98: the checks of the envelope's form, signature, URL and method are one flag.
- Patterns: strings are characters, not bytes; both ends of the slice are ends of matched strings, hence character boundaries, so whether it panics is the same in either measure.
- DeletionNotices: writing notices together with the account deletion, and the interval of the background task; passes of several processes that overlap are passes over stale rows one after the other.
- Bounded queues, the secret pool, scope tables, tenant checks, the web client and migrations: only easy members.
