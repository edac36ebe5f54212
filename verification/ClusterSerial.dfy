/** Instances that do not overlap their own message handling with their own syncs, and recovery. */
module ClusterSerial {
  import opened HashRings
  import opened Clusters

  /** What a's scheduler must avoid: a uses no registry read while a message is half handled, stores
    * no message while a registry read is in hand, and keeps its subscription. Other instances may do
    * anything at any time. */
  ghost predicate SerialStep(s: State, step: Step, a: Id) {
    step.id == a && a in s.instances ==>
      var i := s.instances[a];
      && !step.Drop?
      && (step.StoreMessage? ==> !Reading(i))
      && (step.ApplySync? || step.ApplyRefresh? ==> i.listener.Idle?)
  }

  ghost predicate Serial(s: State, steps: seq<Step>, a: Id)
    decreases |steps|
  {
    steps != [] && Enabled(s, steps[0]) ==>
      SerialStep(s, steps[0], a) && Serial(Next(s, steps[0]), steps[1..], a)
  }

  /** Nothing stands in the way of a's messages. */
  ghost predicate Clean(s: State, a: Id) {
    a in s.instances ==>
      var i := s.instances[a];
      i.gapped == {} && !i.raced && !i.dropped && (Reading(i) ==> i.missed == {})
  }

  lemma CleanFrom(s: State, step: Step, t: State, a: Id)
    requires Enabled(s, step) && SerialStep(s, step, a) && Clean(s, a)
    requires Touch(s, step, t) && a in s.instances
    ensures Clean(t, a)
  {
    if a == step.id {
      var i, j := s.instances[a], Moved(s, step);
      assert SameButInbox(j, t.instances[a]);
      if step.ApplySync? {
        assert j == AfterSync(i);
      } else if step.ApplyRefresh? {
        assert j == AfterRefresh(i);
      } else if step.StoreMessage? {
        assert j == AfterStore(i);
      } else {
        assert j.gapped == i.gapped && j.raced == i.raced && j.dropped == i.dropped;
        assert Reading(j) ==> j.missed == {};
      }
    }
  }

  lemma CleanStep(s: State, step: Step, a: Id)
    requires Enabled(s, step) && SerialStep(s, step, a) && Clean(s, a)
    ensures Clean(Next(s, step), a)
  {
    StepTouches(s, step);
    if a in s.instances {
      CleanFrom(s, step, Next(s, step), a);
    } else {
      assert a in Next(s, step).instances ==> step.Register? && step.id == a;
    }
  }

  lemma {:induction false} SerialStaysClean(s: State, steps: seq<Step>, t: State, a: Id)
    requires Run(s, steps, t) && Serial(s, steps, a) && Clean(s, a)
    ensures Clean(t, a)
    decreases |steps|
  {
    if steps != [] {
      CleanStep(s, steps[0], a);
      SerialStaysClean(Next(s, steps[0]), steps[1..], t, a);
    }
  }

  /** The listener is up and has nothing left to do. */
  ghost predicate Drained(s: State, a: Id) {
    a in s.instances && var i := s.instances[a]; i.listening && i.inbox == [] && i.listener.Idle?
  }

  lemma CleanMissesNobody(t: State, a: Id, b: Id)
    requires Reachable(t) && Drained(t, a) && Clean(t, a) && t.instances[a].synced
    requires b in Live(t) && b in t.announced
    ensures b in t.instances[a].ring
  {
    ReachableInv(t);
    assert InstanceInv(t, a, t.instances[a]);
    NoLostJoin(t, a, b);
  }

  /** With its own handling serial, an instance misses nobody. Whatever the other instances do, once
    * it has applied a sync and drained its messages its ring holds every live instance whose join is
    * out, itself included. */
  lemma SerialInstanceMissesNobody(steps: seq<Step>, t: State, a: Id, b: Id)
    requires Run(Initial, steps, t) && Serial(Initial, steps, a)
    requires Drained(t, a) && t.instances[a].synced
    requires b in Live(t) && b in t.announced
    ensures b in t.instances[a].ring
  {
    assert Reachable(t);
    SerialStaysClean(Initial, steps, t, a);
    CleanMissesNobody(t, a, b);
  }

  // ---------------------------------------------------------------- recovery

  /** While a listens its subscription is up, and the read in hand lacks no join stored since. */
  ghost predicate Attentive(s: State, a: Id) {
    a in s.instances && var i := s.instances[a];
    && !i.phase.Subscribed?
    && (i.listening ==> i.subscribed)
    && (Reading(i) ==> i.missed == {} && (i.listening ==> i.complete))
  }

  lemma AttentiveFrom(s: State, step: Step, t: State, a: Id)
    requires Enabled(s, step) && SerialStep(s, step, a) && Attentive(s, a) && Touch(s, step, t)
    requires s.instances[a].phase !in {Registered, HasRead}
    ensures Attentive(t, a) && t.instances[a].phase !in {Registered, HasRead}
  {
    if a == step.id {
      AttentiveMove(s, step);
      assert SameButInbox(Moved(s, step), t.instances[a]);
    } else {
      assert SameButInbox(s.instances[a], t.instances[a]);
    }
  }

  lemma AttentiveStore(s: State, step: Step)
    requires Enabled(s, step) && Stores(step) && SerialStep(s, step, step.id)
    ensures var i, j := s.instances[step.id], Moved(s, step);
      && j.phase == i.phase && j.listening == i.listening && j.subscribed == i.subscribed
      && j.complete == i.complete && (Reading(j) ==> Reading(i) && j.missed == i.missed)
  {}

  lemma AttentiveMove(s: State, step: Step)
    requires Enabled(s, step) && SerialStep(s, step, step.id) && Attentive(s, step.id)
    requires s.instances[step.id].phase !in {Registered, HasRead}
    ensures var j := Moved(s, step);
      && j.phase !in {Registered, HasRead, Subscribed}
      && (j.listening ==> j.subscribed)
      && (Reading(j) ==> j.missed == {} && (j.listening ==> j.complete))
  {
    if Stores(step) {
      AttentiveStore(s, step);
    } else if step.TakeMessage? {
      assert Moved(s, step) == Taken(step.id, s.instances[step.id]);
    }
  }

  lemma {:induction false} SerialStaysAttentive(s: State, steps: seq<Step>, t: State, a: Id)
    requires Run(s, steps, t) && Serial(s, steps, a) && Attentive(s, a)
    requires s.instances[a].phase !in {Registered, HasRead}
    ensures Attentive(t, a)
    decreases |steps|
  {
    if steps != [] {
      StepTouches(s, steps[0]);
      AttentiveFrom(s, steps[0], Next(s, steps[0]), a);
      SerialStaysAttentive(Next(s, steps[0]), steps[1..], t, a);
    }
  }

  /** The sync about to be applied will leave nobody out whom it has read. */
  ghost predicate PutsRight(s: State, a: Id)
    requires Enabled(s, ApplySync(a))
  {
    var i := s.instances[a];
    i.listening && i.listener.Idle? && (i.lock.active != i.previous.value || i.lock.active <= i.ring)
  }

  lemma SyncCleans(s: State, a: Id)
    requires Enabled(s, ApplySync(a)) && Attentive(s, a) && PutsRight(s, a)
    ensures a in Next(s, ApplySync(a)).instances
    ensures Clean(Next(s, ApplySync(a)), a) && Next(s, ApplySync(a)).instances[a].synced
  {
    assert Moved(s, ApplySync(a)) == AfterSync(s.instances[a]);
  }

  /** Recovery. Whatever happened before, lost subscriptions, races and overwritten joins included: one
    * sync restores the full guarantee. Its read is taken with the subscription up, a's own handling
    * is serial from then on, and the sync leaves out nobody it read, which it does unless the
    * registry equals its record and the ring does not. Then in every later state in which a has
    * drained its messages its ring holds every live instance whose join is out. */
  lemma SyncRestoresTheGuarantee(s: State, at: int, a: Id, between: seq<Step>, u: State,
                                 after: seq<Step>, t: State, b: Id)
    requires Reachable(s) && Enabled(s, ReadForSync(a, at)) && s.instances[a].subscribed
    requires var r := Next(s, ReadForSync(a, at)); Run(r, between, u) && Serial(r, between, a)
    requires Enabled(u, ApplySync(a)) && PutsRight(u, a)
    requires var v := Next(u, ApplySync(a)); Run(v, after, t) && Serial(v, after, a)
    requires Drained(t, a) && b in Live(t) && b in t.announced
    ensures b in t.instances[a].ring
  {
    var r, v := Next(s, ReadForSync(a, at)), Next(u, ApplySync(a));
    ReadIsAttentive(s, at, a);
    SerialStaysAttentive(r, between, u, a);
    SyncCleans(u, a);
    SerialStaysClean(v, after, t, a);
    ReachableStep(s, ReadForSync(a, at));
    ReachableRun(r, between, u);
    ReachableStep(u, ApplySync(a));
    ReachableRun(v, after, t);
    SyncedForGood(v, after, t, a);
    CleanMissesNobody(t, a, b);
  }

  /** a's ring holds every live instance whose join is out. */
  ghost predicate MissesNobody(s: State, a: Id) {
    a in s.instances && forall b :: b in Live(s) && b in s.announced ==> b in s.instances[a].ring
  }

  /** When exactly one sync restores the guarantee: for an instance that has drained its messages and
    * whose read lacks no join stored since, it does if and only if the read differs from the sync's
    * record, or nobody live whom it read is missing from the ring already. */
  lemma SyncRestoresIff(s: State, a: Id)
    requires Reachable(s) && Enabled(s, ApplySync(a)) && Attentive(s, a) && Drained(s, a)
    ensures var i := s.instances[a];
      MissesNobody(Next(s, ApplySync(a)), a) <==>
        || i.lock.active != i.previous.value
        || (forall b :: b in Live(s) && b in s.announced && b in i.lock.active ==> b in i.ring)
  {
    ReachableInv(s);
    assert InstanceInv(s, a, s.instances[a]);
    var i, t := s.instances[a], Next(s, ApplySync(a));
    assert Moved(s, ApplySync(a)) == AfterSync(i);
    assert Live(t) == Live(s) && t.announced == s.announced;
    assert forall b :: b in Live(s) && b in s.announced ==> b in i.lock.active;
  }

  lemma ReadIsAttentive(s: State, at: int, a: Id)
    requires Reachable(s) && Enabled(s, ReadForSync(a, at)) && s.instances[a].subscribed
    ensures Attentive(Next(s, ReadForSync(a, at)), a)
    ensures Next(s, ReadForSync(a, at)).instances[a].phase !in {Registered, HasRead}
  {
    ReachableInv(s);
    assert InstanceInv(s, a, s.instances[a]);
  }

  lemma SyncedFrom(s: State, step: Step, t: State, a: Id)
    requires Enabled(s, step) && Touch(s, step, t) && a in s.instances && s.instances[a].synced
    ensures t.instances[a].synced
  {
    if a == step.id {
      assert SameButInbox(Moved(s, step), t.instances[a]);
      assert Moved(s, step).synced;
    }
  }

  lemma {:induction false} SyncedForGood(s: State, steps: seq<Step>, t: State, a: Id)
    requires Run(s, steps, t) && a in s.instances && s.instances[a].synced
    ensures a in t.instances && t.instances[a].synced
    decreases |steps|
  {
    if steps != [] {
      StepTouches(s, steps[0]);
      SyncedFrom(s, steps[0], Next(s, steps[0]), a);
      SyncedForGood(Next(s, steps[0]), steps[1..], t, a);
    }
  }
}
