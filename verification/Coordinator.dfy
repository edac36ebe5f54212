/** What one coordinator's two background tasks do to its ring. */
module Coordinators {
  import opened Options
  import opened HashRings

  datatype MembershipEvent = Joined(id: Id) | Left(id: Id)

  /** A Pub/Sub payload after parsing. */
  datatype Message = Join(id: Id) | Leave(id: Id)

  /** The members after a message has been applied to a loaded ring. */
  function Applied(members: set<Id>, message: Message): set<Id> {
    match message
    case Join(id) => members + {id}
    case Leave(id) => members - {id}
  }

  /** The ring after a full sync: it is rebuilt only if the registry differs from the sync's own
    * record of it, whatever the ring holds. */
  function Synced(ring: set<Id>, previous: set<Id>, active: set<Id>): set<Id> {
    if active != previous then active else ring
  }

  function Observe(members: set<Id>, event: MembershipEvent): set<Id> {
    match event
    case Joined(id) => members + {id}
    case Left(id) => members - {id}
  }

  /** The membership a subscriber to the events ends up with. */
  function Replay(members: set<Id>, events: seq<MembershipEvent>): set<Id>
    decreases |events|
  {
    if events == [] then members
    else Observe(Replay(members, events[..|events| - 1]), events[|events| - 1])
  }

  lemma ReplayAppend(members: set<Id>, events: seq<MembershipEvent>, event: MembershipEvent)
    ensures Replay(members, events + [event]) == Observe(Replay(members, events), event)
  {
    assert (events + [event])[..|events|] == events;
  }

  method SendJoins(previous: set<Id>, joined: set<Id>) returns (events: seq<MembershipEvent>)
    ensures Replay(previous, events) == previous + joined
    ensures |events| == |joined|
  {
    events := [];
    var rest := joined;
    while rest != {}
      invariant rest <= joined && |events| + |rest| == |joined|
      invariant Replay(previous, events) == previous + (joined - rest)
      decreases |rest|
    {
      var id :| id in rest;
      ReplayAppend(previous, events, Joined(id));
      events := events + [Joined(id)];
      rest := rest - {id};
    }
  }

  method SendLeaves(previous: set<Id>, sent: seq<MembershipEvent>, left: set<Id>)
    returns (events: seq<MembershipEvent>)
    ensures Replay(previous, events) == Replay(previous, sent) - left
    ensures |events| == |sent| + |left|
  {
    events := sent;
    var rest := left;
    while rest != {}
      invariant rest <= left && |events| + |rest| == |sent| + |left|
      invariant Replay(previous, events) == Replay(previous, sent) - (left - rest)
      decreases |rest|
    {
      var id :| id in rest;
      ReplayAppend(previous, events, Left(id));
      events := events + [Left(id)];
      rest := rest - {id};
    }
  }

  /** The events a full sync sends: a join for each new member, then a leave for each missing one.
    * Replayed over the old membership they give exactly the new one, and none is superfluous. */
  method Changes(previous: set<Id>, current: set<Id>) returns (events: seq<MembershipEvent>)
    ensures Replay(previous, events) == current
    ensures |events| == |current - previous| + |previous - current|
  {
    events := SendJoins(previous, current - previous);
    events := SendLeaves(previous, events, previous - current);
  }

  class Coordinator {
    const lookup: Lookup
    const me: Id
    var ring: HashRing
    var previousMembers: set<Id>

    /** The ring is a canonical one, and this instance's own. */
    ghost predicate Valid()
      reads this, ring
    {
      ring.Valid() && ring.me == me && ring.lookup == lookup
    }

    constructor (lookup: Lookup, me: Id, instances: seq<Id>)
      ensures Valid() && fresh(ring) && this.me == me && this.lookup == lookup
      ensures ring.members == previousMembers == Elements(instances)
    {
      var initial := new HashRing(lookup, me);
      initial.Rebuild(instances);
      this.lookup, this.me := lookup, me;
      ring := initial;
      previousMembers := initial.members;
    }

    /** One tick of the sync interval, after the registry answered with `instances`. */
    method FullSync(instances: seq<Id>) returns (events: seq<MembershipEvent>)
      requires Valid()
      modifies this
      ensures Valid() && (ring == old(ring) || fresh(ring))
      ensures ring.members == Synced(old(ring.members), old(previousMembers), Elements(instances))
      ensures previousMembers == Elements(instances)
      ensures Replay(old(previousMembers), events) == Elements(instances)
    {
      var currentMembers := set id | id in instances;
      events := Changes(previousMembers, currentMembers);
      if currentMembers != previousMembers {
        var newRing := new HashRing.Clone(ring);
        newRing.Rebuild(instances);
        ring := newRing;
        previousMembers := currentMembers;
      }
    }

    /** One Pub/Sub message: own messages are skipped, others replace the ring by a changed copy. */
    method HandleMessage(message: Message) returns (event: Option<MembershipEvent>)
      requires Valid()
      modifies this`ring
      ensures Valid() && (ring == old(ring) || fresh(ring))
      ensures ring.members == if message.id == me then old(ring.members) else Applied(old(ring.members), message)
      ensures event.Some? <==> message.id != me
      ensures event.Some? ==> forall members :: Observe(members, event.value) == Applied(members, message)
    {
      if message.id == me {
        return None;
      }
      var newRing := new HashRing.Clone(ring);
      match message {
        case Join(id) =>
          newRing.AddInstance(id);
          event := Some(Joined(id));
        case Leave(id) =>
          newRing.RemoveInstance(id);
          event := Some(Left(id));
      }
      ring := newRing;
    }

    /** The manual refresh rebuilds unconditionally and leaves the sync's record alone. */
    method Refresh(instances: seq<Id>)
      requires Valid()
      modifies this`ring
      ensures Valid() && fresh(ring) && ring.members == Elements(instances)
    {
      var newRing := new HashRing.Clone(ring);
      newRing.Rebuild(instances);
      ring := newRing;
    }

    /** With any members this coordinator handles exactly the keys its own id owns among them; without
      * members it handles all. */
    method ShouldHandle(key: seq<Fnv.Byte>) returns (mine: bool)
      requires Valid()
      ensures ring.members == {} ==> mine
      ensures Lawful(lookup) && 0 < |ring.members| <= 65535 ==>
        (mine <==> Owns(lookup, ring.members, Fnv.Hash(key), me))
    {
      mine := ring.ShouldHandle(key);
      if Lawful(lookup) && 0 < |ring.members| <= MAX_CAPACITY {
        HandlesIffOwns(lookup, ring.State(), Fnv.Hash(key));
      }
    }
  }
}
