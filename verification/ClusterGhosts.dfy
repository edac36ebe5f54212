/** Instances that have left: when a sync is sure to clear them from a ring, and a run in which it is not. */
module ClusterGhosts {
  import opened Options
  import opened HashRings
  import opened Registries
  import opened Coordinators
  import opened Clusters
  import opened ClusterExits
  import opened ClusterSerial

  /** Leaves are delivered, and a does not refresh. */
  ghost predicate OrderlyStep(step: Step, a: Id) {
    && (step.SendLeave? ==> step.delivered)
    && !(step.ApplyRefresh? && step.id == a)
  }

  ghost predicate Orderly(steps: seq<Step>, a: Id) {
    forall i :: 0 <= i < |steps| ==> OrderlyStep(steps[i], a)
  }

  ghost predicate LeavePending(i: Instance, b: Id) {
    Leave(b) in i.inbox || (i.listener.Loaded? && i.listener.message == Leave(b))
  }

  /** Each waiting join of b has b's leave behind it. */
  ghost predicate LeaveFollows(inbox: seq<Message>, b: Id) {
    forall k :: 0 <= k < |inbox| && inbox[k] == Join(b) ==> Leave(b) in inbox[k + 1..]
  }

  /** Where a departed member still in the ring is bound to be removed from: by the sync, which has it
    * on record, or by its own leave. */
  ghost predicate OnTheWayOut(i: Instance, b: Id) {
    && (b in i.ring ==> i.previous.None? || b in i.previous.value || LeavePending(i, b))
    && (i.listener.Loaded? && i.listener.message == Join(b) ==> Leave(b) in i.inbox)
    && LeaveFollows(i.inbox, b)
  }

  ghost predicate Tidy(s: State, a: Id, b: Id) {
    && (b in s.instances && s.instances[b].phase in {Registered, HasRead, Subscribed} ==> b !in s.departed)
    && (b in s.departed ==> b in s.instances)
    && (a in s.instances && !s.instances[a].subscribed ==> s.instances[a].inbox == [])
    && (a in s.instances && s.instances[a].subscribed && b in s.departed ==> OnTheWayOut(s.instances[a], b))
  }

  // ---------------------------------------------------------------- every orderly step keeps it

  /** Who leaves in a step. */
  lemma Departures(s: State, step: Step)
    requires Enabled(s, step)
    ensures Next(s, step).departed == s.departed + (if step.ForceLeave? || step.SendLeave? then {step.id} else {})
  {}

  lemma QuietHearsNothing(s: State, step: Step, a: Id)
    requires Enabled(s, step) && !Publishes(step) && a in s.instances
    ensures a in Next(s, step).instances
    ensures Next(s, step).instances[a] == if a == step.id then Moved(s, step) else s.instances[a]
  {}

  lemma LeaveFollowsAppend(inbox: seq<Message>, message: Message, b: Id)
    requires LeaveFollows(inbox, b) && message != Join(b)
    ensures LeaveFollows(inbox + [message], b)
  {
    var q := inbox + [message];
    forall k | 0 <= k < |q| && q[k] == Join(b) ensures Leave(b) in q[k + 1..] {
      assert q[k + 1..] == inbox[k + 1..] + [message];
    }
  }

  lemma LeaveClosesTheInbox(inbox: seq<Message>, b: Id)
    ensures LeaveFollows(inbox + [Leave(b)], b)
  {
    var q := inbox + [Leave(b)];
    forall k | 0 <= k < |q| && q[k] == Join(b) ensures Leave(b) in q[k + 1..] {
      assert q[k + 1..] == inbox[k + 1..] + [Leave(b)];
    }
  }

  lemma HearingKeepsOrder(i: Instance, message: Message, b: Id)
    requires message != Join(b)
    requires message == Leave(b) || OnTheWayOut(i, b)
    ensures OnTheWayOut(i.(inbox := i.inbox + [message]), b)
  {
    if message == Leave(b) {
      LeaveClosesTheInbox(i.inbox, b);
    } else {
      LeaveFollowsAppend(i.inbox, message, b);
    }
  }

  lemma TailFollows(inbox: seq<Message>, b: Id)
    requires inbox != [] && LeaveFollows(inbox, b)
    ensures LeaveFollows(inbox[1..], b)
    ensures inbox[0] == Join(b) ==> Leave(b) in inbox[1..]
  {
    var rest := inbox[1..];
    forall k | 0 <= k < |rest| && rest[k] == Join(b) ensures Leave(b) in rest[k + 1..] {
      assert inbox[k + 1] == Join(b) && inbox[k + 2..] == rest[k + 1..];
    }
  }

  lemma SkippingKeepsOrder(i: Instance, rest: seq<Message>, b: Id)
    requires OnTheWayOut(i, b) && i.listener.Idle? && LeaveFollows(rest, b)
    requires Leave(b) in i.inbox ==> Leave(b) in rest
    ensures OnTheWayOut(i.(inbox := rest), b)
  {}

  lemma LoadingKeepsOrder(i: Instance, rest: seq<Message>, message: Message, b: Id)
    requires OnTheWayOut(i, b) && i.listener.Idle? && LeaveFollows(rest, b)
    requires Leave(b) in i.inbox ==> message == Leave(b) || Leave(b) in rest
    requires message == Join(b) ==> Leave(b) in rest
    ensures OnTheWayOut(i.(inbox := rest, listener := Loaded(message, i.ring)), b)
  {}

  lemma TakingKeepsOrder(id: Id, i: Instance, b: Id)
    requires i.inbox != [] && i.listener.Idle? && b != id && OnTheWayOut(i, b)
    ensures OnTheWayOut(Taken(id, i), b)
  {
    TailFollows(i.inbox, b);
    if Leave(b) in i.inbox {
      HeadOrTail(i.inbox, Leave(b));
    }
    if i.inbox[0].id == id {
      SkippingKeepsOrder(i, i.inbox[1..], b);
    } else {
      LoadingKeepsOrder(i, i.inbox[1..], i.inbox[0], b);
    }
  }

  lemma StoringKeepsOrder(i: Instance, b: Id)
    requires i.listener.Loaded? && i.listener.copy == i.ring && OnTheWayOut(i, b)
    ensures OnTheWayOut(AfterStore(i), b)
  {
    var m := AfterStore(i);
    assert m.inbox == i.inbox && m.previous == i.previous;
    if i.listener.message.Join? {
      assert m.ring == i.ring + {i.listener.message.id};
    } else {
      assert m.ring == i.ring - {i.listener.message.id};
    }
  }

  lemma SyncingKeepsOrder(i: Instance, b: Id)
    requires i.lock.SyncRead? && i.previous.Some? && OnTheWayOut(i, b)
    ensures OnTheWayOut(AfterSync(i), b)
  {
    if i.lock.active != i.previous.value {
      assert AfterSync(i).ring == i.lock.active;
    } else {
      assert AfterSync(i).ring == i.ring;
    }
  }

  /** a's own steps, before it hears what it publishes. */
  lemma MovingKeepsOrder(s: State, step: Step, b: Id)
    requires Enabled(s, step) && step.id in s.instances && step.id != b && !step.ApplyRefresh?
    requires var i := s.instances[step.id];
      i.subscribed && OnTheWayOut(i, b) && (i.listener.Loaded? ==> i.listener.copy == i.ring)
    requires s.instances[step.id].phase !in {Registered, HasRead}
    ensures Moved(s, step).subscribed ==> OnTheWayOut(Moved(s, step), b)
  {
    var i := s.instances[step.id];
    if step.TakeMessage? {
      TakingKeepsOrder(step.id, i, b);
    } else if step.StoreMessage? {
      StoringKeepsOrder(i, b);
    } else if step.ApplySync? {
      SyncingKeepsOrder(i, b);
    }
  }

  /** A step of a in a run from the start. */
  lemma OwnStepStaysTidy(s: State, step: Step, b: Id)
    requires Reachable(s) && Enabled(s, step) && step.id in s.instances && step.id != b
    requires SerialStep(s, step, step.id) && OrderlyStep(step, step.id) && Clean(s, step.id) && Tidy(s, step.id, b)
    ensures step.id in Next(s, step).instances
    ensures var j := Next(s, step).instances[step.id];
      && (!j.subscribed ==> j.inbox == [])
      && (j.subscribed && b in s.departed ==> OnTheWayOut(j, b))
  {
    ReachableInv(s);
    var a, i := step.id, s.instances[step.id];
    assert InstanceInv(s, a, i);
    SubscriptionMoves(s, step);
    if Moved(s, step).subscribed && b in s.departed {
      OwnMoveOrdered(s, step, b);
    }
    if Publishes(step) {
      PublishedInstance(s, step, a);
      if Moved(s, step).subscribed && b in s.departed {
        HearingKeepsOrder(Moved(s, step), Spoken(step), b);
      }
    } else {
      QuietHearsNothing(s, step, a);
    }
  }

  lemma OwnMoveOrdered(s: State, step: Step, b: Id)
    requires Enabled(s, step) && step.id in s.instances && step.id != b && OrderlyStep(step, step.id)
    requires var i := s.instances[step.id];
      && Stopped(s, step.id, i) && (i.subscribed ==> OnTheWayOut(i, b)) && (!i.subscribed ==> i.inbox == [])
      && (i.listener.Loaded? ==> i.listener.copy == i.ring)
      && (Moved(s, step).subscribed ==> i.subscribed || step.Subscribe?)
    ensures Moved(s, step).subscribed ==> OnTheWayOut(Moved(s, step), b)
  {
    if s.instances[step.id].subscribed {
      MovingKeepsOrder(s, step, b);
    } else if step.Subscribe? {
      assert Moved(s, step).inbox == [] && Moved(s, step).previous.None?;
    }
  }

  /** Subscribing is the only way for an instance that keeps its subscription to get one. */
  lemma SubscriptionMoves(s: State, step: Step)
    requires Enabled(s, step) && step.id in s.instances && SerialStep(s, step, step.id)
    requires Stopped(s, step.id, s.instances[step.id]) && Clean(s, step.id)
    requires !s.instances[step.id].subscribed ==> s.instances[step.id].inbox == []
    ensures var i, m := s.instances[step.id], Moved(s, step);
      && (!m.subscribed ==> m.inbox == [])
      && (m.subscribed ==> i.subscribed || step.Subscribe?)
  {
    if step.TakeMessage? {
      assert Moved(s, step) == Taken(step.id, s.instances[step.id]);
    }
  }

  lemma OtherStepStaysTidy(s: State, step: Step, a: Id, b: Id)
    requires Enabled(s, step) && a in s.instances && step.id != a && a != b
    requires OrderlyStep(step, a) && Tidy(s, a, b)
    ensures a in Next(s, step).instances
    ensures var j := Next(s, step).instances[a];
      && (!j.subscribed ==> j.inbox == [])
      && (j.subscribed && b in Next(s, step).departed ==> OnTheWayOut(j, b))
  {
    var i := s.instances[a];
    Departures(s, step);
    if Publishes(step) {
      PublishedInstance(s, step, a);
      if i.subscribed && b in Next(s, step).departed {
        HearingKeepsOrder(i, Spoken(step), b);
      }
    } else {
      QuietHearsNothing(s, step, a);
    }
  }

  ghost predicate EarlyPhase(i: Instance) {
    i.phase in {Registered, HasRead, Subscribed}
  }

  lemma PhasesMoveOn(s: State, step: Step)
    requires Enabled(s, step) && step.id in s.instances
    ensures EarlyPhase(Moved(s, step)) ==> EarlyPhase(s.instances[step.id]) && !step.ForceLeave? && !step.SendLeave?
  {}

  lemma DepartureComesLate(s: State, step: Step, b: Id)
    requires Enabled(s, step)
    requires b in s.departed ==> b in s.instances && !EarlyPhase(s.instances[b])
    ensures var t := Next(s, step);
      b in t.departed ==> b in t.instances && !EarlyPhase(t.instances[b])
  {
    Departures(s, step);
    StepTouches(s, step);
    var t := Next(s, step);
    if b in t.departed {
      if step.id == b {
        PhasesMoveOn(s, step);
        assert SameButInbox(Moved(s, step), t.instances[b]);
      } else {
        assert SameButInbox(s.instances[b], t.instances[b]);
      }
    }
  }

  lemma StepStaysTidy(s: State, step: Step, a: Id, b: Id)
    requires Reachable(s) && Enabled(s, step) && a != b
    requires SerialStep(s, step, a) && OrderlyStep(step, a) && Clean(s, a) && Tidy(s, a, b)
    ensures Tidy(Next(s, step), a, b)
  {
    DepartureComesLate(s, step, b);
    Departures(s, step);
    if a !in s.instances {
      StepTouches(s, step);
      Newcomers(s, step, a);
    } else if step.id == a {
      OwnStepStaysTidy(s, step, b);
    } else {
      OtherStepStaysTidy(s, step, a, b);
    }
  }

  lemma Newcomers(s: State, step: Step, a: Id)
    requires Enabled(s, step) && a !in s.instances
    ensures a in Next(s, step).instances ==>
              !Next(s, step).instances[a].subscribed && Next(s, step).instances[a].inbox == []
  {}

  lemma {:induction false} RunStaysTidy(s: State, steps: seq<Step>, t: State, a: Id, b: Id)
    requires Reachable(s) && Run(s, steps, t) && a != b
    requires Serial(s, steps, a) && Orderly(steps, a) && Clean(s, a) && Tidy(s, a, b)
    ensures Reachable(t) && Clean(t, a) && Tidy(t, a, b)
    decreases |steps|
  {
    if steps != [] {
      var u, rest := Next(s, steps[0]), steps[1..];
      StepStaysTidy(s, steps[0], a, b);
      CleanStep(s, steps[0], a);
      ReachableStep(s, steps[0]);
      assert forall i :: 0 <= i < |rest| ==> rest[i] == steps[i + 1];
      RunStaysTidy(u, rest, t, a, b);
    }
  }

  // ---------------------------------------------------------------- a sync clears those who have left

  /** b has left for good: out of the registry, with no heartbeat to bring it back. */
  ghost predicate LeftForGood(s: State, b: Id) {
    Silent(s, b) && b !in s.registry && b in s.departed
  }

  lemma LeftStep(s: State, step: Step, b: Id)
    requires Reachable(s) && Enabled(s, step) && LeftForGood(s, b)
    ensures LeftForGood(Next(s, step), b)
  {
    SilentStep(s, step, b);
    Departures(s, step);
  }

  /** Neither the record nor a read in hand has b. */
  ghost predicate OffRecord(s: State, a: Id, b: Id) {
    && a in s.instances
    && s.instances[a].previous.Some? && b !in s.instances[a].previous.value
    && ReadLacks(s, a, b)
  }

  ghost predicate ReadLacks(s: State, a: Id, b: Id) {
    a in s.instances && (s.instances[a].lock.SyncRead? ==> b !in s.instances[a].lock.active)
  }

  lemma ReadLacksStep(s: State, step: Step, t: State, a: Id, b: Id)
    requires Enabled(s, step) && Touch(s, step, t) && ReadLacks(s, a, b) && b !in s.registry
    ensures ReadLacks(t, a, b)
  {
    if a == step.id {
      var j := Moved(s, step);
      assert SameButInbox(j, t.instances[a]);
      if step.ReadForSync? {
        assert j.lock == SyncRead(Active(s.registry, step.at));
      } else {
        assert j.lock.SyncRead? ==> j.lock == s.instances[a].lock;
      }
    }
  }

  lemma OffRecordStep(s: State, step: Step, t: State, a: Id, b: Id)
    requires Enabled(s, step) && Touch(s, step, t) && OffRecord(s, a, b) && b !in s.registry
    ensures OffRecord(t, a, b)
  {
    ReadLacksStep(s, step, t, a, b);
    if a == step.id {
      var j := Moved(s, step);
      assert SameButInbox(j, t.instances[a]);
      if step.ApplySync? {
        assert j.previous == Some(s.instances[a].lock.active);
      } else {
        assert j.previous == s.instances[a].previous;
      }
    }
  }

  lemma {:induction false} ReadKeepsLacking(s: State, steps: seq<Step>, t: State, a: Id, b: Id)
    requires Reachable(s) && Run(s, steps, t) && ReadLacks(s, a, b) && LeftForGood(s, b)
    ensures ReadLacks(t, a, b) && LeftForGood(t, b)
    decreases |steps|
  {
    if steps != [] {
      StepTouches(s, steps[0]);
      ReadLacksStep(s, steps[0], Next(s, steps[0]), a, b);
      LeftStep(s, steps[0], b);
      ReachableStep(s, steps[0]);
      ReadKeepsLacking(Next(s, steps[0]), steps[1..], t, a, b);
    }
  }

  lemma {:induction false} StaysOffRecord(s: State, steps: seq<Step>, t: State, a: Id, b: Id)
    requires Reachable(s) && Run(s, steps, t) && OffRecord(s, a, b) && LeftForGood(s, b)
    ensures OffRecord(t, a, b) && LeftForGood(t, b)
    decreases |steps|
  {
    if steps != [] {
      StepTouches(s, steps[0]);
      OffRecordStep(s, steps[0], Next(s, steps[0]), a, b);
      LeftStep(s, steps[0], b);
      ReachableStep(s, steps[0]);
      StaysOffRecord(Next(s, steps[0]), steps[1..], t, a, b);
    }
  }

  lemma TidyAndOffRecord(t: State, a: Id, b: Id)
    requires Reachable(t) && Clean(t, a) && Tidy(t, a, b) && OffRecord(t, a, b) && Drained(t, a)
    requires b in t.departed
    ensures b !in t.instances[a].ring
  {
    ReachableInv(t);
    assert InstanceInv(t, a, t.instances[a]);
    assert OnTheWayOut(t.instances[a], b);
  }

  /** The counterpart of missing nobody: holding nobody who has left. In a run in which leaves are
    * delivered and a handles its messages and syncs serially and does not refresh, once a has applied
    * a sync that read the registry after b had left for good, b is not in a's ring in any later state
    * in which a has drained its messages. */
  lemma SyncClearsTheDeparted(before: seq<Step>, s: State, at: int, between: seq<Step>, u: State,
                              after: seq<Step>, t: State, a: Id, b: Id)
    requires a != b && Run(Initial, before, s) && Serial(Initial, before, a) && Orderly(before, a)
    requires LeftForGood(s, b) && Enabled(s, ReadForSync(a, at))
    requires var r := Next(s, ReadForSync(a, at)); Run(r, between, u) && Serial(r, between, a) && Orderly(between, a)
    requires Enabled(u, ApplySync(a)) && SerialStep(u, ApplySync(a), a)
    requires var v := Next(u, ApplySync(a)); Run(v, after, t) && Serial(v, after, a) && Orderly(after, a)
    requires Drained(t, a)
    ensures b !in t.instances[a].ring
  {
    var read, apply := ReadForSync(a, at), ApplySync(a);
    var r, v := Next(s, read), Next(u, apply);
    assert Run(Initial, [], Initial) && Reachable(Initial);
    RunStaysTidy(Initial, before, s, a, b);
    OneMore(s, read, a, b);
    assert ReadLacks(r, a, b);
    RunStaysTidy(r, between, u, a, b);
    ReadKeepsLacking(r, between, u, a, b);
    OneMore(u, apply, a, b);
    ApplyTakesOffRecord(u, a, b);
    RunStaysTidy(v, after, t, a, b);
    StaysOffRecord(v, after, t, a, b);
    TidyAndOffRecord(t, a, b);
  }

  lemma OneMore(s: State, step: Step, a: Id, b: Id)
    requires Reachable(s) && Enabled(s, step) && a != b && step.id == a && LeftForGood(s, b)
    requires SerialStep(s, step, a) && OrderlyStep(step, a) && Clean(s, a) && Tidy(s, a, b)
    ensures var t := Next(s, step); Reachable(t) && Clean(t, a) && Tidy(t, a, b) && LeftForGood(t, b)
    ensures step.ReadForSync? ==> ReadLacks(Next(s, step), a, b)
  {
    StepStaysTidy(s, step, a, b);
    CleanStep(s, step, a);
    ReachableStep(s, step);
    LeftStep(s, step, b);
    if step.ReadForSync? {
      assert Moved(s, step).lock == SyncRead(Active(s.registry, step.at));
    }
  }

  lemma ApplyTakesOffRecord(s: State, a: Id, b: Id)
    requires Enabled(s, ApplySync(a)) && ReadLacks(s, a, b)
    ensures OffRecord(Next(s, ApplySync(a)), a, b)
  {
    ApplyRecords(s, a);
    assert Moved(s, ApplySync(a)) == AfterSync(s.instances[a]);
  }

  /** Without those conditions: a sync whose read lacks b leaves b in the ring if and only if b was in it
    * and the read equals the sync's record. */
  lemma SyncKeepsDepartedIff(s: State, a: Id, b: Id)
    requires Enabled(s, ApplySync(a)) && b !in s.instances[a].lock.active
    ensures var i := s.instances[a];
      b in Next(s, ApplySync(a)).instances[a].ring <==> b in i.ring && i.lock.active == i.previous.value
  {
    assert Moved(s, ApplySync(a)) == AfterSync(s.instances[a]);
  }
}
