/** The steps of the protocol against the specifications of the objects that take them. */
module ClusterEffects {
  import opened Options
  import opened HashRings
  import opened Registries
  import opened Coordinators
  import opened Clusters

  /** The registry command a step sends, if it changes the registry. */
  function CommandOf(step: Step): Option<Command> {
    match step
    case Register(id, at) => Some(Add(id, at))
    case Heartbeat(id, at) => Some(Add(id, at))
    case CleanUp(_, at) => Some(Cleanup(at))
    case ForceRemove(id) => Some(Remove(id))
    case Deregister(id) => Some(Remove(id))
    case _ => None
  }

  /** The registry changes by the commands of the registry object and by nothing else. */
  lemma RegistryFollows(s: State, step: Step)
    requires Enabled(s, step)
    ensures Next(s, step).registry
         == if CommandOf(step).Some? then After(s.registry, CommandOf(step).value) else s.registry
  {
    if Publishes(step) {
      PublishedInstance(s, step, step.id);
    }
  }

  /** The ring a step of the instance leaves, as the coordinator's methods leave it. */
  ghost function RingAfter(s: State, step: Step): set<Id>
    requires Enabled(s, step) && step.id in s.instances
  {
    var i := s.instances[step.id];
    match step
    case InitialRead(_, at) => Active(s.registry, at)
    case ApplySync(_) => Synced(i.ring, i.previous.value, i.lock.active)
    case ApplyRefresh(_) => i.lock.active
    case StoreMessage(_) => Applied(i.listener.copy, i.listener.message)
    case _ => i.ring
  }

  /** Rings change only by their own instance's steps, each of which leaves what the coordinator's method
    * for it leaves; the sync's record is the ring it started with and then each set read; and a read in
    * hand is what the registry object answers at that time. */
  lemma RingFollows(s: State, step: Step, a: Id)
    requires Enabled(s, step) && a in s.instances
    ensures a in Next(s, step).instances
    ensures var i, j := s.instances[a], Next(s, step).instances[a];
      if step.id != a then j.ring == i.ring && j.previous == i.previous && j.lock == i.lock
      else
        && j.ring == RingAfter(s, step)
        && j.previous == (if step.StartHeartbeats? then Some(i.ring)
                          else if step.ApplySync? then Some(i.lock.active) else i.previous)
        && (step.ReadForSync? ==> j.lock == SyncRead(Active(s.registry, step.at)))
        && (step.ReadForRefresh? ==> j.lock == RefreshRead(Active(s.registry, step.at)))
  {
    StepTouches(s, step);
    if step.id == a {
      OwnMove(s, step);
      assert SameButInbox(Moved(s, step), Next(s, step).instances[a]);
    } else {
      assert SameButInbox(s.instances[a], Next(s, step).instances[a]);
    }
  }

  lemma OwnMove(s: State, step: Step)
    requires Enabled(s, step) && step.id in s.instances
    ensures var i, j := s.instances[step.id], Moved(s, step);
      && j.ring == RingAfter(s, step)
      && j.previous == (if step.StartHeartbeats? then Some(i.ring)
                        else if step.ApplySync? then Some(i.lock.active) else i.previous)
      && (step.ReadForSync? ==> j.lock == SyncRead(Active(s.registry, step.at)))
      && (step.ReadForRefresh? ==> j.lock == RefreshRead(Active(s.registry, step.at)))
  {
    if step.TakeMessage? {
      assert Moved(s, step) == Taken(step.id, s.instances[step.id]);
    }
  }

  // ---------------------------------------------------------------- tasks, subscriptions and messages

  /** The message a step publishes, if it reaches the channel. */
  function Publication(step: Step): Option<Message> {
    match step
    case PublishJoin(id) => Some(Join(id))
    case ForceLeave(id) => Some(Leave(id))
    case SendLeave(id, delivered) => if delivered then Some(Leave(id)) else None
    case _ => None
  }

  /** A subscription begins with a subscribe and ends with a drop, the end of the listener or a crash; the
    * two tasks begin with the published join and end when they are ended or crash. */
  lemma TasksFollow(s: State, step: Step, a: Id)
    requires Enabled(s, step) && a in s.instances
    ensures a in Next(s, step).instances
    ensures var i, j := s.instances[a], Next(s, step).instances[a];
      && j.subscribed == (if step.id != a then i.subscribed
                          else if step.Subscribe? || step.Resubscribe? then true
                          else if step.Drop? || step.EndListener? || step.Crash? then false else i.subscribed)
      && j.heartbeats == (if step.id != a then i.heartbeats
                          else if step.PublishJoin? then true
                          else if step.EndHeartbeats? || step.Crash? then false else i.heartbeats)
      && j.listening == (if step.id != a then i.listening
                         else if step.PublishJoin? then true
                         else if step.EndListener? || step.Crash? then false else i.listening)
  {
    StepTouches(s, step);
    if step.id == a {
      OwnTasks(s, step);
      assert SameButInbox(Moved(s, step), Next(s, step).instances[a]);
    } else {
      assert SameButInbox(s.instances[a], Next(s, step).instances[a]);
    }
  }

  lemma OwnTasks(s: State, step: Step)
    requires Enabled(s, step) && step.id in s.instances
    ensures var i, j := s.instances[step.id], Moved(s, step);
      && j.subscribed == (if step.Subscribe? || step.Resubscribe? then true
                          else if step.Drop? || step.EndListener? || step.Crash? then false else i.subscribed)
      && j.heartbeats == (if step.PublishJoin? then true
                          else if step.EndHeartbeats? || step.Crash? then false else i.heartbeats)
      && j.listening == (if step.PublishJoin? then true
                         else if step.EndListener? || step.Crash? then false else i.listening)
  {
    if step.TakeMessage? {
      assert Moved(s, step) == Taken(step.id, s.instances[step.id]);
    }
  }

  /** What waits in an inbox: a publication reaches it exactly if the instance is subscribed, the listener
    * takes from its front, and a lost or ended subscription empties it. */
  lemma InboxFollows(s: State, step: Step, a: Id)
    requires Enabled(s, step) && a in s.instances
    ensures a in Next(s, step).instances
    ensures var i, j := s.instances[a], Next(s, step).instances[a];
      j.inbox ==
        if Publication(step).Some? && i.subscribed then i.inbox + [Publication(step).value]
        else if step.id == a && step.TakeMessage? then i.inbox[1..]
        else if step.id == a && (step.Drop? || step.EndListener? || step.Crash?) then []
        else i.inbox
  {
    if Publishes(step) {
      PublishedInstance(s, step, a);
      if step.id == a {
        OwnInbox(s, step);
      }
    } else if step.id == a {
      QuietParts(s, step);
      OwnInbox(s, step);
    } else {
      QuietElsewhere(s, step, a);
    }
  }

  /** The inbox a step of the instance leaves, before it hears what it publishes. */
  lemma OwnInbox(s: State, step: Step)
    requires Enabled(s, step) && step.id in s.instances
    ensures Moved(s, step).inbox ==
      if step.TakeMessage? then s.instances[step.id].inbox[1..]
      else if step.Drop? || step.EndListener? || step.Crash? then []
      else s.instances[step.id].inbox
    ensures Publishes(step) ==> Moved(s, step).subscribed == s.instances[step.id].subscribed
  {
    if step.TakeMessage? {
      assert Moved(s, step) == Taken(step.id, s.instances[step.id]);
    }
  }

  lemma QuietElsewhere(s: State, step: Step, a: Id)
    requires Enabled(s, step) && !Publishes(step) && a in s.instances && step.id != a
    ensures a in Next(s, step).instances && Next(s, step).instances[a] == s.instances[a]
  {}
}
