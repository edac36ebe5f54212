/** Leaving the cluster: what makes a shutdown final, and repairing a ring by a full sync. */
module ClusterExits {
  import opened Options
  import opened HashRings
  import opened Coordinators
  import opened Clusters

  /** An instance that has started and whose heartbeat task has ended. */
  ghost predicate Silent(s: State, a: Id) {
    a in s.instances && !s.instances[a].heartbeats
    && s.instances[a].phase !in {Registered, HasRead, Subscribed}
  }

  lemma SilentFrom(s: State, step: Step, t: State, a: Id)
    requires Enabled(s, step) && Touch(s, step, t) && Silent(s, a) && Stopped(s, a, s.instances[a])
    ensures Silent(t, a) && !(step.Heartbeat? && step.id == a)
  {
    assert a == step.id ==> SameButInbox(Moved(s, step), t.instances[a]);
  }

  lemma SilentStep(s: State, step: Step, a: Id)
    requires Reachable(s) && Enabled(s, step) && Silent(s, a) && a !in s.registry
    ensures Silent(Next(s, step), a) && a !in Next(s, step).registry
  {
    ReachableInv(s);
    assert InstanceInv(s, a, s.instances[a]);
    assert step.id in s.instances ==> InstanceInv(s, step.id, s.instances[step.id]);
    StepShifts(s, step);
    StepTouches(s, step);
    SilentFrom(s, step, Next(s, step), a);
  }

  lemma {:induction false} SilentStaysOut(s: State, steps: seq<Step>, t: State, a: Id)
    requires Reachable(s) && Run(s, steps, t) && Silent(s, a) && a !in s.registry
    ensures a !in t.registry
    decreases |steps|
  {
    if steps != [] {
      ReachableStep(s, steps[0]);
      SilentStep(s, steps[0], a);
      SilentStaysOut(Next(s, steps[0]), steps[1..], t, a);
    }
  }

  /** Shutdown is final: once it has completed, the instance is out of the registry in every state of
    * every continuation. */
  lemma ShutdownIsFinal(s: State, steps: seq<Step>, t: State, a: Id)
    requires Reachable(s) && a in s.instances && s.instances[a].phase.Gone? && Run(s, steps, t)
    ensures a !in s.registry && a !in t.registry
  {
    ReachableInv(s);
    assert InstanceInv(s, a, s.instances[a]);
    SilentStaysOut(s, steps, t, a);
  }

  /** No continuation from `s` ever shows a in the registry. */
  ghost predicate OutForGood(s: State, a: Id) {
    forall steps, t :: Run(s, steps, t) ==> a !in t.registry
  }

  lemma RunCons(s: State, step: Step, steps: seq<Step>, t: State)
    requires Enabled(s, step) && Run(Next(s, step), steps, t)
    ensures Run(s, [step] + steps, t)
  {
    assert ([step] + steps)[1..] == steps;
  }

  lemma FreeHeartbeats(s: State, a: Id)
    requires a in s.instances && s.instances[a].heartbeats && s.instances[a].lock.Free?
    ensures !OutForGood(s, a)
  {
    var beat := Heartbeat(a, 0);
    if s.instances[a].previous.Some? {
      RunCons(s, beat, [], Next(s, beat));
    } else {
      var u := Next(s, StartHeartbeats(a));
      RunCons(u, beat, [], Next(u, beat));
      RunCons(s, StartHeartbeats(a), [beat] + [], Next(u, beat));
    }
  }

  lemma ReleasedFirst(s: State, step: Step, a: Id)
    requires Enabled(s, step) && !OutForGood(Next(s, step), a)
    ensures !OutForGood(s, a)
  {
    var steps, t :| Run(Next(s, step), steps, t) && a in t.registry;
    RunCons(s, step, steps, t);
  }

  /** Whoever holds the registry connection lets go of it, and the next heartbeat registers again. */
  lemma HeartbeatsReturn(s: State, a: Id)
    requires a in s.instances && s.instances[a].heartbeats && Stopped(s, a, s.instances[a])
    ensures !OutForGood(s, a)
  {
    match s.instances[a].lock {
      case Free =>
        FreeHeartbeats(s, a);
      case SyncRead(_) =>
        FreeHeartbeats(Next(s, ApplySync(a)), a);
        ReleasedFirst(s, ApplySync(a), a);
      case RefreshRead(_) =>
        FreeHeartbeats(Next(s, ApplyRefresh(a)), a);
        ReleasedFirst(s, ApplyRefresh(a), a);
      case Deregistering =>
        FreeHeartbeats(Next(s, ForceRemove(a)), a);
        ReleasedFirst(s, ForceRemove(a), a);
    }
  }

  /** A started instance that is out of the registry stays out in every continuation if and only if its
    * heartbeat task has ended. `shutdown` waits for that before removing the id. `force_deregister`
    * does not, so after it a live heartbeat task can put the id back. */
  lemma OutForGoodIffSilent(s: State, a: Id)
    requires Reachable(s) && a in s.instances && a !in s.registry
    requires s.instances[a].phase !in {Registered, HasRead, Subscribed}
    ensures OutForGood(s, a) <==> !s.instances[a].heartbeats
  {
    ReachableInv(s);
    assert InstanceInv(s, a, s.instances[a]);
    if s.instances[a].heartbeats {
      HeartbeatsReturn(s, a);
    } else {
      forall steps, t | Run(s, steps, t) ensures a !in t.registry {
        SilentStaysOut(s, steps, t, a);
      }
    }
  }

  /** `force_deregister` is never final for a running coordinator: its heartbeat task is alive. */
  lemma ForceDeregisterIsNotFinal(s: State, a: Id)
    requires Reachable(s) && Enabled(s, ForceRemove(a))
    ensures a !in Next(s, ForceRemove(a)).registry
    ensures !OutForGood(Next(s, ForceRemove(a)), a)
  {
    ReachableInv(s);
    assert InstanceInv(s, a, s.instances[a]);
    FreeHeartbeats(Next(s, ForceRemove(a)), a);
  }

  /** A full sync leaves the ring equal to what it read exactly when that differs from the sync's
    * record, or the ring was right already; so always when ring and record agreed before. */
  lemma SyncRepairsIff(s: State, a: Id)
    requires Enabled(s, ApplySync(a))
    ensures var i, j := s.instances[a], Next(s, ApplySync(a)).instances[a];
      && (j.ring == i.lock.active <==> i.lock.active != i.previous.value || i.ring == i.lock.active)
      && (i.ring == i.previous.value ==> j.ring == i.lock.active)
      && (i.lock.active <= j.ring <==> i.lock.active != i.previous.value || i.lock.active <= i.ring)
      && j.previous == Some(i.lock.active)
  {
    var i := s.instances[a];
    assert Next(s, ApplySync(a)).instances[a].ring == Synced(i.ring, i.previous.value, i.lock.active);
  }
}
