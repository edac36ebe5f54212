/** The shared sorted set of instance ids scored by their last heartbeat, in milliseconds. */
module Registries {
  import opened HashRings

  const STALE_MS: int := 30_000

  type Scores = map<Id, int>

  /** ZRANGEBYSCORE from the cutoff up: ids whose last heartbeat is recent enough at `now`. */
  function Active(scores: Scores, now: int): set<Id> {
    set id | id in scores && scores[id] >= now - STALE_MS
  }

  /** ZREMRANGEBYSCORE up to and including the cutoff: what a cleanup at `now` leaves. */
  function Cleaned(scores: Scores, now: int): Scores {
    map id | id in scores && scores[id] > now - STALE_MS :: scores[id]
  }

  /** Active for 30 seconds after a heartbeat, the last millisecond included; a cleanup keeps those whose
    * 30 seconds are not over, with their scores. */
  lemma ThirtySeconds(scores: Scores, now: int, id: Id)
    ensures id in Active(scores, now) <==> id in scores && now - scores[id] <= 30_000
    ensures id in Cleaned(scores, now) <==> id in scores && now - scores[id] < 30_000
    ensures id in Cleaned(scores, now) ==> Cleaned(scores, now)[id] == scores[id]
  {}

  /** The Redis key all instances share. */
  class ScoredSet {
    var scores: Scores

    constructor ()
      ensures scores == map[]
    {
      scores := map[];
    }
  }

  class RedisRegistry {
    const shared: ScoredSet
    const me: Id

    constructor Register(shared: ScoredSet, me: Id, now: int)
      modifies shared
      ensures this.shared == shared && this.me == me
      ensures shared.scores == old(shared.scores)[me := now]
    {
      this.shared, this.me := shared, me;
      new;
      shared.scores := shared.scores[me := now];
    }

    method Heartbeat(now: int)
      modifies shared
      ensures shared.scores == old(shared.scores)[me := now]
    {
      shared.scores := shared.scores[me := now];
    }

    method Deregister()
      modifies shared
      ensures shared.scores == old(shared.scores) - {me}
    {
      shared.scores := map id | id in shared.scores && id != me :: shared.scores[id];
    }

    method GetActiveInstances(now: int) returns (ids: seq<Id>)
      ensures Elements(ids) == Active(shared.scores, now)
    {
      var cutoff := now - STALE_MS;
      ids := SortedIds(set id | id in shared.scores && cutoff <= shared.scores[id]);
    }

    method CleanupStale(now: int) returns (count: nat)
      modifies shared
      ensures shared.scores == Cleaned(old(shared.scores), now)
      ensures count == |old(shared.scores)| - |shared.scores|
    {
      var cutoff := now - STALE_MS;
      var stale := set id | id in shared.scores && shared.scores[id] <= cutoff;
      count := |stale|;
      shared.scores := shared.scores - stale;
      assert old(shared.scores).Keys == shared.scores.Keys + stale;
    }
  }

  // ---------------------------------------------------------------- cleanup is invisible

  datatype Command =
    | Add(id: Id, at: int)
    | Remove(id: Id)
    | Cleanup(at: int)
    | Read(at: int)

  function After(scores: Scores, command: Command): Scores {
    match command
    case Add(id, at) => scores[id := at]
    case Remove(id) => scores - {id}
    case Cleanup(at) => Cleaned(scores, at)
    case Read(_) => scores
  }

  /** What the reads in a sequence of commands return. */
  function Replies(scores: Scores, commands: seq<Command>): seq<set<Id>>
    decreases |commands|
  {
    if commands == [] then []
    else
      (if commands[0].Read? then [Active(scores, commands[0].at)] else [])
      + Replies(After(scores, commands[0]), commands[1..])
  }

  /** The second set lacks only ids at or below the cutoff. */
  ghost predicate AgreesAbove(full: Scores, cleaned: Scores, cutoff: int) {
    && (forall id :: id in cleaned ==> id in full && full[id] == cleaned[id])
    && (forall id :: id in full && id !in cleaned ==> full[id] <= cutoff)
  }

  lemma {:induction false} AgreementKeepsReplies(full: Scores, cleaned: Scores, cutoff: int, commands: seq<Command>)
    requires AgreesAbove(full, cleaned, cutoff)
    requires forall c :: c in commands && c.Read? ==> cutoff < c.at - STALE_MS
    ensures Replies(full, commands) == Replies(cleaned, commands)
    decreases |commands|
  {
    if commands != [] {
      var c := commands[0];
      assert c in commands;
      assert c.Read? ==> Active(full, c.at) == Active(cleaned, c.at);
      assert AgreesAbove(After(full, c), After(cleaned, c), cutoff);
      AgreementKeepsReplies(After(full, c), After(cleaned, c), cutoff, commands[1..]);
    }
  }

  /** Whatever commands follow a cleanup at `now`, in any order and from any number of instances,
    * every read strictly later than `now` returns what it would have without the cleanup. */
  lemma CleanupIsInvisibleLater(scores: Scores, now: int, commands: seq<Command>)
    requires forall c :: c in commands && c.Read? ==> now < c.at
    ensures Replies(Cleaned(scores, now), commands) == Replies(scores, commands)
  {
    AgreementKeepsReplies(scores, Cleaned(scores, now), now - STALE_MS, commands);
  }

  /** At `now` itself a read loses exactly the ids scored at the cutoff, so a cleanup is invisible
    * at its own instant if and only if there is none. */
  lemma CleanupAtItsOwnInstant(scores: Scores, now: int)
    ensures Active(scores, now) - Active(Cleaned(scores, now), now)
         == set id | id in scores && scores[id] == now - STALE_MS
    ensures Active(Cleaned(scores, now), now) == Active(scores, now)
       <==> forall id :: id in scores ==> scores[id] != now - STALE_MS
  {
    var atCutoff := set id | id in scores && scores[id] == now - STALE_MS;
    assert Active(scores, now) - Active(Cleaned(scores, now), now) == atCutoff;
    if id :| id in atCutoff {
      assert id in Active(scores, now) && id !in Active(Cleaned(scores, now), now);
    } else {
      assert forall id :: id in scores && scores[id] == now - STALE_MS ==> id in atCutoff;
      assert Active(Cleaned(scores, now), now) == Active(scores, now);
    }
  }

  /** Concretely: an instance last seen 30 seconds ago is active until somebody cleans up. */
  lemma InstanceAtTheCutoffIsCleanedUp(id: Id)
    ensures Active(map[id := 0], STALE_MS) == {id}
    ensures Active(Cleaned(map[id := 0], STALE_MS), STALE_MS) == {}
  {
    assert Cleaned(map[id := 0], STALE_MS) == map[];
  }
}
