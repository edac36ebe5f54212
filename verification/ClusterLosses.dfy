/** When exactly a live member drops out of an instance's ring. */
module ClusterLosses {
  import opened HashRings
  import opened Coordinators
  import opened Clusters

  /** The step stores a ring at a that leaves out b: a sync or a refresh whose read lacks b, or a
    * message applied to a copy that lacks b. */
  predicate LeavesOut(s: State, step: Step, a: Id, b: Id)
    requires Enabled(s, step)
  {
    step.id == a && a in s.instances &&
    var i := s.instances[a];
    match step
    case ApplySync(_) => i.lock.active != i.previous.value && b !in i.lock.active
    case ApplyRefresh(_) => b !in i.lock.active
    case StoreMessage(_) => b !in i.listener.copy && i.listener.message != Join(b)
    case _ => false
  }

  lemma OwnStepLosesIff(s: State, step: Step, b: Id)
    requires Enabled(s, step) && step.id in s.instances && Stopped(s, step.id, s.instances[step.id])
    requires b in s.instances[step.id].ring
    requires var i := s.instances[step.id]; i.listener.Loaded? ==> i.listener.message != Leave(b)
    ensures b !in Moved(s, step).ring <==> LeavesOut(s, step, step.id, b)
  {
    var i, j := s.instances[step.id], Moved(s, step);
    if step.ApplySync? {
      assert j.ring == Synced(i.ring, i.previous.value, i.lock.active);
    } else if step.StoreMessage? {
      assert j.ring == Applied(i.listener.copy, i.listener.message);
    } else if step.TakeMessage? {
      assert j == Taken(step.id, i);
    } else if !step.ApplyRefresh? {
      assert j.ring == i.ring;
    }
  }

  /** A member that stays live leaves the ring in a step if and only if that step stores a ring made
    * from a registry read or a copy that lacks it. */
  lemma LosesMemberIff(s: State, step: Step, a: Id, b: Id)
    requires Reachable(s) && Enabled(s, step) && a in s.instances
    requires b in s.instances[a].ring && b in Live(Next(s, step))
    ensures a in Next(s, step).instances
    ensures b !in Next(s, step).instances[a].ring <==> LeavesOut(s, step, a, b)
  {
    ReachableInv(s);
    assert InstanceInv(s, a, s.instances[a]);
    StepGrows(s, step);
    StepTouches(s, step);
    if step.id == a {
      assert s.instances[a].listener.Loaded? ==> Known(s, s.instances[a].listener.message);
      OwnStepLosesIff(s, step, b);
      assert SameButInbox(Moved(s, step), Next(s, step).instances[a]);
    } else {
      assert SameButInbox(s.instances[a], Next(s, step).instances[a]);
    }
  }

  /** b is in a's ring in every state of the run. */
  ghost predicate Holds(s: State, steps: seq<Step>, a: Id, b: Id)
    decreases |steps|
  {
    && a in s.instances && b in s.instances[a].ring
    && (steps != [] && Enabled(s, steps[0]) ==> Holds(Next(s, steps[0]), steps[1..], a, b))
  }

  ghost predicate NeverLeftOut(s: State, steps: seq<Step>, a: Id, b: Id)
    decreases |steps|
  {
    steps != [] && Enabled(s, steps[0]) ==>
      !LeavesOut(s, steps[0], a, b) && NeverLeftOut(Next(s, steps[0]), steps[1..], a, b)
  }

  /** Over a whole run: a member that is live at the end was in the ring throughout if and only if no
    * step of the run left it out. */
  lemma {:induction false} MemberHeldIff(s: State, steps: seq<Step>, t: State, a: Id, b: Id)
    requires Reachable(s) && Run(s, steps, t) && a in s.instances
    requires b in s.instances[a].ring && b in Live(t)
    ensures Holds(s, steps, a, b) <==> NeverLeftOut(s, steps, a, b)
    decreases |steps|
  {
    if steps != [] {
      var u := Next(s, steps[0]);
      RingIsKnown(s, a, b);
      ReachableStep(s, steps[0]);
      StepHistory(s, steps[0], a, b);
      RunHistory(u, steps[1..], t, a, b);
      LosesMemberIff(s, steps[0], a, b);
      if b in u.instances[a].ring {
        MemberHeldIff(u, steps[1..], t, a, b);
      }
    }
  }

  lemma RingIsKnown(s: State, a: Id, b: Id)
    requires Reachable(s) && a in s.instances && b in s.instances[a].ring
    ensures b in s.instances
  {
    ReachableInv(s);
    assert InstanceInv(s, a, s.instances[a]);
  }
}
