/** Concrete runs of the membership protocol that show which exclusions its theorems need. */
module ClusterRuns {
  import opened Options
  import opened HashRings
  import opened Registries
  import opened Coordinators
  import opened Clusters

  /** An instance that has only registered. */
  const Newcomer: Instance :=
    Instance(Registered, {}, None, false, false, false, [], Idle, Free, {}, false, false, {}, false, false, {})

  /** An instance that has published its join, before its background tasks have run. */
  function Fresh(ring: set<Id>, inbox: seq<Message>, earlier: set<Id>): Instance {
    Newcomer.(phase := Running, ring := ring, heartbeats := true, listening := true, subscribed := true,
              inbox := inbox, earlier := earlier)
  }

  /** ... and after its heartbeat task has taken its first record. */
  function Started(ring: set<Id>, previous: set<Id>, inbox: seq<Message>, earlier: set<Id>): Instance {
    Fresh(ring, inbox, earlier).(previous := Some(previous))
  }

  lemma InitialIsReachable()
    ensures Reachable(Initial)
  {
    assert Run(Initial, [], Initial);
  }

  ghost predicate AllAtZero(registry: Scores) {
    forall id :: id in registry ==> registry[id] == 0
  }

  lemma AllActive(registry: Scores)
    requires AllAtZero(registry)
    ensures Active(registry, 0) == registry.Keys && BelowCutoff(registry, 0) == {}
  {}

  /** Follows a step that moves one instance and touches nothing shared. */
  lemma Follow(s: State, id: Id, i: Instance, step: Step, j: Instance)
    requires Reachable(Put(s, id, i)) && step.id == id && Enabled(Put(s, id, i), step)
    requires !step.Register? && !step.Heartbeat? && !step.CleanUp? && !Publishes(step)
    requires !step.ForceRemove? && !step.Deregister?
    requires Reads(step) ==> step.at == 0 && AllAtZero(s.registry)
    requires Moved(Put(s, id, i), step) == j
    ensures Reachable(Put(s, id, j))
  {
    if Reads(step) {
      AllActive(s.registry);
    }
    ReachableStep(Put(s, id, i), step);
    assert s.instances[id := i][id := j] == s.instances[id := j];
    assert Next(Put(s, id, i), step) == Put(s, id, j);
  }

  lemma PutSame(s: State, id: Id)
    requires id in s.instances
    ensures Put(s, id, s.instances[id]) == s
  {
    assert s.instances[id := s.instances[id]] == s.instances;
  }

  // ---------------------------------------------------------------- starting

  function Reader(ring: set<Id>): Instance {
    Newcomer.(phase := HasRead, ring := ring)
  }

  /** b has registered and read the registry. */
  function Begun(s: State, b: Id): State {
    Put(s.(registry := s.registry[b := 0]), b, Reader(s.registry.Keys + {b}))
  }

  lemma Begins(s: State, b: Id)
    requires Reachable(s) && b !in s.instances && AllAtZero(s.registry)
    ensures Reachable(Begun(s, b)) && AllAtZero(Begun(s, b).registry)
  {
    ReachableStep(s, Register(b, 0));
    var s0 := s.(registry := s.registry[b := 0]);
    assert s0.registry.Keys == s.registry.Keys + {b};
    AllActive(s0.registry);
    Follow(s0, b, Newcomer, InitialRead(b, 0), Reader(s.registry.Keys + {b}));
  }

  /** b has subscribed and published its join. */
  function Finished(s: State, b: Id, ring: set<Id>): State {
    Publish(Put(s, b, Fresh(ring, [], s.announced)), Join(b)).(announced := s.announced + {b})
  }

  lemma Finishes(s: State, b: Id, ring: set<Id>)
    requires Reachable(s) && b in s.instances && s.instances[b] == Reader(ring)
    ensures Reachable(Finished(s, b, ring))
    ensures Finished(s, b, ring).instances[b] == Fresh(ring, [Join(b)], s.announced)
  {
    var subscribed := Reader(ring).(phase := Subscribed, subscribed := true, earlier := s.announced);
    PutSame(s, b);
    Follow(s, b, Reader(ring), Subscribe(b), subscribed);
    Announces(s, b, subscribed);
    assert [] + [Join(b)] == [Join(b)];
  }

  lemma Announces(s: State, b: Id, i: Instance)
    requires i.phase.Subscribed? && Reachable(Put(s, b, i))
    ensures Reachable(Publish(Put(s, b, i.(phase := Running, heartbeats := true, listening := true)), Join(b))
                      .(announced := s.announced + {b}))
  {
    var j := i.(phase := Running, heartbeats := true, listening := true);
    assert s.instances[b := i][b := j] == s.instances[b := j];
    ReachableStep(Put(s, b, i), PublishJoin(b));
  }

  /** b has started with nothing in between. */
  function Arrived(s: State, b: Id): State {
    Finished(Begun(s, b), b, s.registry.Keys + {b})
  }

  lemma Arrives(s: State, b: Id)
    requires Reachable(s) && b !in s.instances && AllAtZero(s.registry)
    ensures Reachable(Arrived(s, b)) && AllAtZero(Arrived(s, b).registry)
  {
    Begins(s, b);
    Finishes(Begun(s, b), b, s.registry.Keys + {b});
  }

  /** Instance a alone, with its own join read and its heartbeat task running. */
  function Alone(a: Id): State {
    Put(Arrived(Initial, a), a, Started({a}, {a}, [], {}))
  }

  lemma AloneIsReachable(a: Id)
    ensures Reachable(Alone(a)) && AllAtZero(Alone(a).registry)
  {
    InitialIsReachable();
    Arrives(Initial, a);
    Settles(Arrived(Initial, a), a, {a}, {});
  }

  /** A fresh instance reads its own join and takes its first record. */
  lemma Settles(s: State, a: Id, ring: set<Id>, earlier: set<Id>)
    requires Reachable(s) && a in s.instances && s.instances[a] == Fresh(ring, [Join(a)], earlier)
    ensures Reachable(Put(s, a, Started(ring, ring, [], earlier)))
  {
    PutSame(s, a);
    assert [Join(a)][1..] == [];
    Follow(s, a, Fresh(ring, [Join(a)], earlier), TakeMessage(a), Fresh(ring, [], earlier));
    Follow(s, a, Fresh(ring, [], earlier), StartHeartbeats(a), Started(ring, ring, [], earlier));
  }

  /** What an arrival leaves of an instance that has nothing else to read. */
  lemma ArrivalHeard(s: State, b: Id, a: Id)
    requires a in s.instances && a != b && s.instances[a].inbox == []
    ensures Arrived(s, b).instances[a]
         == s.instances[a].(inbox := if s.instances[a].subscribed then [Join(b)] else [])
  {
    assert [] + [Join(b)] == [Join(b)];
  }

  /** a's listener takes the one message waiting, b's join. */
  lemma LoadsJoin(s: State, a: Id, b: Id, i: Instance)
    requires a != b && i.listening && i.subscribed && i.listener.Idle? && i.inbox == []
    requires Reachable(Put(s, a, i.(inbox := [Join(b)])))
    ensures Reachable(Put(s, a, i.(listener := Loaded(Join(b), i.ring))))
  {
    assert [Join(b)][1..] == [];
    Follow(s, a, i.(inbox := [Join(b)]), TakeMessage(a), i.(listener := Loaded(Join(b), i.ring)));
  }

  /** ... and stores its changed copy. */
  lemma StoresJoin(s: State, a: Id, b: Id, i: Instance, copy: set<Id>)
    requires i.listener.Idle? && Reachable(Put(s, a, i.(listener := Loaded(Join(b), copy))))
    ensures i.lock.Free? ==> Reachable(Put(s, a, i.(ring := copy + {b})))
    ensures i.lock.SyncRead? && b !in i.lock.active ==>
              Reachable(Put(s, a, i.(ring := copy + {b}, missed := i.missed + {b})))
  {
    var loaded := i.(listener := Loaded(Join(b), copy));
    if i.lock.Free? {
      Follow(s, a, loaded, StoreMessage(a), i.(ring := copy + {b}));
    } else if i.lock.SyncRead? && b !in i.lock.active {
      Follow(s, a, loaded, StoreMessage(a), i.(ring := copy + {b}, missed := i.missed + {b}));
    }
  }

  // ---------------------------------------------------------------- the runs

  /** b publishes its leave and removes itself, through `force_deregister`. */
  function ForcedOut(s: State, b: Id, i: Instance): State {
    var published := Publish(Put(s, b, i.(lock := Deregistering)), Leave(b)).(departed := s.departed + {b});
    Put(published.(registry := s.registry - {b}), b, published.instances[b].(lock := Free))
  }

  lemma ForceOut(s: State, b: Id, i: Instance)
    requires Reachable(s) && b in s.instances && s.instances[b] == i && i.phase.Running? && i.lock.Free?
    ensures Reachable(ForcedOut(s, b, i))
  {
    ReachableStep(s, ForceLeave(b));
    ReachableStep(Next(s, ForceLeave(b)), ForceRemove(b));
  }

  lemma UnheardLeave(s: State, b: Id, a: Id)
    requires {a, b} <= s.instances.Keys && a != b && !s.instances[a].subscribed
    ensures var t := ForcedOut(s, b, s.instances[b]);
            a in t.instances && t.instances[a] == s.instances[a] && b in t.departed
  {}

  /** The premise of the run below: a full sync about to be applied whose read equals the sync's
    * record while the ring still holds an instance that has left. */
  ghost predicate LeaveLost(s: State, a: Id, b: Id) {
    && Reachable(s) && Enabled(s, ApplySync(a))
    && b in s.departed && b !in s.registry
    && s.instances[a].lock.active == s.instances[a].previous.value == Active(s.registry, 0)
    && b in s.instances[a].ring
  }

  /** A join heard only by Pub/Sub, followed by a lost leave. The full sync then finds the registry
    * equal to its own record and leaves the departed instance in the ring; it will keep doing so
    * for as long as the registry does not change. */
  lemma LostLeaveIsNotRepaired(a: Id, b: Id)
    requires a != b
    ensures exists s :: LeaveLost(s, a, b)
              && b in Next(s, ApplySync(a)).instances[a].ring
  {
    AloneIsReachable(a);
    ArrivalHeard(Alone(a), b, a);
    Arrives(Alone(a), b);
    var s0 := Arrived(Alone(a), b);
    HearThenDrop(s0, a, b);
    var cut := Started({a, b}, {a}, [], {}).(subscribed := false, dropped := true);
    assert s0.instances[b].phase.Running? && s0.instances[b].lock.Free?;
    LeaveAfterDrop(Put(s0, a, cut), a, b, cut);
  }

  lemma HearThenDrop(s: State, a: Id, b: Id)
    requires Reachable(s) && a != b && a in s.instances
    requires s.instances[a] == Started({a}, {a}, [Join(b)], {})
    ensures Reachable(Put(s, a, Started({a, b}, {a}, [], {}).(subscribed := false, dropped := true)))
  {
    Hear(s, a, b);
    var i := Started({a, b}, {a}, [], {});
    Follow(s, a, i, Drop(a), i.(subscribed := false, dropped := true));
  }

  lemma Hear(s: State, a: Id, b: Id)
    requires Reachable(s) && a != b && a in s.instances
    requires s.instances[a] == Started({a}, {a}, [Join(b)], {})
    ensures Reachable(Put(s, a, Started({a, b}, {a}, [], {})))
  {
    var i := Started({a}, {a}, [], {});
    PutSame(s, a);
    LoadsJoin(s, a, b, i);
    StoresJoin(s, a, b, i, {a});
    assert {a} + {b} == {a, b};
  }

  lemma LeaveAfterDrop(s: State, a: Id, b: Id, cut: Instance)
    requires Reachable(s) && a != b && {a, b} <= s.instances.Keys
    requires AllAtZero(s.registry) && s.registry.Keys == {a, b}
    requires s.instances[a] == cut
          == Started({a, b}, {a}, [], {}).(subscribed := false, dropped := true)
    requires s.instances[b].phase.Running? && s.instances[b].lock.Free?
    ensures exists s :: LeaveLost(s, a, b)
              && b in Next(s, ApplySync(a)).instances[a].ring
  {
    ForceOut(s, b, s.instances[b]);
    UnheardLeave(s, b, a);
    var s1 := ForcedOut(s, b, s.instances[b]);
    assert s1.registry == s.registry - {b};
    assert s1.registry.Keys == {a};
    ReadsOwnRecord(s1, a, b, cut);
  }

  lemma ReadsOwnRecord(s: State, a: Id, b: Id, cut: Instance)
    requires Reachable(s) && a != b && a in s.instances && b in s.departed
    requires AllAtZero(s.registry) && s.registry.Keys == {a}
    requires s.instances[a] == cut
          == Started({a, b}, {a}, [], {}).(subscribed := false, dropped := true)
    ensures exists s :: LeaveLost(s, a, b)
              && b in Next(s, ApplySync(a)).instances[a].ring
  {
    PutSame(s, a);
    AllActive(s.registry);
    Follow(s, a, cut, ReadForSync(a, 0), cut.(lock := SyncRead({a})));
    var t := Put(s, a, cut.(lock := SyncRead({a})));
    assert LeaveLost(t, a, b);
    assert b in Next(t, ApplySync(a)).instances[a].ring;
  }

  /** Caught up by the letter of NoLostJoin, yet missing a live instance whose join is out. */
  ghost predicate MissesJoin(s: State, a: Id, b: Id) {
    && Reachable(s) && a in s.instances
    && var i := s.instances[a];
    && i.subscribed && i.synced && i.inbox == [] && i.listener.Idle? && !i.dropped
    && b in Live(s) && b in s.announced && b !in i.ring
  }

  /** A join that arrives between a sync's read and the use of that read is overwritten. */
  lemma JoinInTheGapIsOverwritten(a: Id, b: Id, c: Id)
    requires a != b && a != c && b != c
    ensures exists s :: MissesJoin(s, a, b) && !s.instances[a].raced
  {
    AloneIsReachable(a);
    ReachableStep(Alone(a), Register(c, 0));
    var s0 := RegisterFresh(Alone(a), c, 0);
    assert s0.registry.Keys == {a, c};
    ReadsBoth(s0, a, c);
    var s1 := Put(s0, a, Started({a}, {a}, [], {}).(lock := SyncRead({a, c}), complete := true));
    Arrives(s1, b);
    ArrivalHeard(s1, b, a);
    GapFrom(Arrived(s1, b), a, b, c);
  }

  lemma ReadsBoth(s: State, a: Id, c: Id)
    requires Reachable(s) && AllAtZero(s.registry) && s.registry.Keys == {a, c}
    requires a in s.instances && s.instances[a] == Started({a}, {a}, [], {})
    ensures Reachable(Put(s, a, Started({a}, {a}, [], {}).(lock := SyncRead({a, c}), complete := true)))
  {
    var i := Started({a}, {a}, [], {});
    PutSame(s, a);
    AllActive(s.registry);
    Follow(s, a, i, ReadForSync(a, 0), i.(lock := SyncRead({a, c}), complete := true));
  }

  lemma GapFrom(s: State, a: Id, b: Id, c: Id)
    requires a != b && a != c && b != c
    requires Reachable(s) && {a, b} <= s.instances.Keys && b in Live(s) && b in s.announced
    requires s.instances[a] == Started({a}, {a}, [Join(b)], {}).(lock := SyncRead({a, c}), complete := true)
    ensures exists s :: MissesJoin(s, a, b) && !s.instances[a].raced
  {
    var i := Started({a}, {a}, [], {}).(lock := SyncRead({a, c}), complete := true);
    PutSame(s, a);
    LoadsJoin(s, a, b, i);
    StoresJoin(s, a, b, i, {a});
    assert {a} + {b} == {a, b} && {} + {b} == {b};
    UsesTheRead(s, a, b, c, i.(ring := {a, b}, missed := {b}));
  }

  lemma UsesTheRead(s: State, a: Id, b: Id, c: Id, stored: Instance)
    requires a != b && a != c && b != c
    requires {a, b} <= s.instances.Keys && b in Live(s) && b in s.announced && Reachable(Put(s, a, stored))
    requires stored == Started({a, b}, {a}, [], {}).(lock := SyncRead({a, c}), complete := true, missed := {b})
    ensures exists s :: MissesJoin(s, a, b) && !s.instances[a].raced
  {
    var synced := stored.(ring := {a, c}, previous := Some({a, c}), lock := Free, synced := true, gapped := {b});
    assert {b} - {a, c} == {b};
    assert c in {a, c} && c !in {a};
    Follow(s, a, stored, ApplySync(a), synced);
    assert MissesJoin(Put(s, a, synced), a, b);
  }

  /** A sync that stores its ring between a message's load and its store is undone by that store, and
    * no later sync notices while the registry stays as it is, for its record says b is in. */
  lemma RacingStoreLosesAMember(a: Id, b: Id, c: Id)
    requires a != b && a != c && b != c
    ensures exists s :: MissesJoin(s, a, b) && s.instances[a].gapped == {}
              && s.instances[a].previous == Some(Active(s.registry, 0))
  {
    InitialIsReachable();
    Begins(Initial, a);
    var s0 := Begun(Initial, a);
    assert s0.registry.Keys == {a} && Initial.registry.Keys + {a} == {a};
    Arrives(s0, b);
    ArrivalHeard(s0, b, a);
    MissedJoin(Arrived(s0, b), a, b, c);
  }

  /** b is announced before a subscribes. */
  lemma MissedJoin(s: State, a: Id, b: Id, c: Id)
    requires a != b && a != c && b != c
    requires Reachable(s) && s.instances.Keys == {a, b} && b in Live(s) && s.announced == {b}
    requires AllAtZero(s.registry) && s.registry.Keys == {a, b}
    requires s.instances[a] == Reader({a})
    ensures exists s :: MissesJoin(s, a, b) && s.instances[a].gapped == {}
              && s.instances[a].previous == Some(Active(s.registry, 0))
  {
    Finishes(s, a, {a});
    var s1 := Finished(s, a, {a});
    Settles(s1, a, {a}, {b});
    ThirdArrives(Put(s1, a, Started({a}, {a}, [], {b})), a, b, c);
  }

  lemma ThirdArrives(s: State, a: Id, b: Id, c: Id)
    requires a != b && a != c && b != c
    requires Reachable(s) && s.instances.Keys == {a, b} && b in Live(s) && b in s.announced
    requires AllAtZero(s.registry) && s.registry.Keys == {a, b}
    requires s.instances[a] == Started({a}, {a}, [], {b})
    ensures exists s :: MissesJoin(s, a, b) && s.instances[a].gapped == {}
              && s.instances[a].previous == Some(Active(s.registry, 0))
  {
    Arrives(s, c);
    ArrivalHeard(s, c, a);
    RaceFrom(Arrived(s, c), a, b, c);
  }

  lemma RaceFrom(s: State, a: Id, b: Id, c: Id)
    requires a != b && a != c && b != c
    requires Reachable(s) && {a, b} <= s.instances.Keys && b in Live(s) && b in s.announced
    requires AllAtZero(s.registry) && s.registry.Keys == {a, b, c}
    requires s.instances[a] == Started({a}, {a}, [Join(c)], {b})
    ensures exists s :: MissesJoin(s, a, b) && s.instances[a].gapped == {}
              && s.instances[a].previous == Some(Active(s.registry, 0))
  {
    var i := Started({a}, {a}, [], {b});
    PutSame(s, a);
    AllActive(s.registry);
    LoadsJoin(s, a, c, i);
    var loaded := i.(listener := Loaded(Join(c), {a}));
    Follow(s, a, loaded, ReadForSync(a, 0), loaded.(lock := SyncRead({a, b, c}), complete := true));
    StoresCross(s, a, b, c, loaded);
  }

  lemma StoresCross(s: State, a: Id, b: Id, c: Id, loaded: Instance)
    requires a != b && a != c && b != c && {a, b} <= s.instances.Keys && b in Live(s) && b in s.announced
    requires AllAtZero(s.registry) && s.registry.Keys == {a, b, c}
    requires loaded == Started({a}, {a}, [], {b}).(listener := Loaded(Join(c), {a}))
    requires Reachable(Put(s, a, loaded.(lock := SyncRead({a, b, c}), complete := true)))
    ensures exists s :: MissesJoin(s, a, b) && s.instances[a].gapped == {}
              && s.instances[a].previous == Some(Active(s.registry, 0))
  {
    assert b in {a, b, c} && b !in {a};
    var synced := loaded.(ring := {a, b, c}, previous := Some({a, b, c}), synced := true, raced := true,
                          complete := true);
    Follow(s, a, loaded.(lock := SyncRead({a, b, c}), complete := true), ApplySync(a), synced);
    StoreUndoes(s, a, b, c, synced.(listener := Idle));
  }

  lemma StoreUndoes(s: State, a: Id, b: Id, c: Id, i: Instance)
    requires a != b && a != c && b != c && {a, b} <= s.instances.Keys && b in Live(s) && b in s.announced
    requires AllAtZero(s.registry) && s.registry.Keys == {a, b, c}
    requires i == Started({a, b, c}, {a, b, c}, [], {b}).(synced := true, raced := true, complete := true)
    requires Reachable(Put(s, a, i.(listener := Loaded(Join(c), {a}))))
    ensures exists s :: MissesJoin(s, a, b) && s.instances[a].gapped == {}
              && s.instances[a].previous == Some(Active(s.registry, 0))
  {
    AllActive(s.registry);
    StoresJoin(s, a, c, i, {a});
    var stored := i.(ring := {a} + {c});
    assert MissesJoin(Put(s, a, stored), a, b);
  }

  // ---------------------------------------------------------------- a refresh keeps a departed member

  /** A sync about to be applied by an instance that is up to date by every other measure, whose ring
    * holds an instance that has left for good. */
  ghost predicate HoldsADeparted(s: State, a: Id, b: Id) {
    && Reachable(s) && Enabled(s, ApplySync(a)) && b in s.instances
    && b in s.departed && b !in s.registry && !s.instances[b].heartbeats
    && var i := s.instances[a];
    && i.listening && i.subscribed && i.inbox == [] && i.listener.Idle?
    && !i.dropped && !i.raced && i.gapped == {} && i.missed == {}
    && b !in i.lock.active && b in i.ring
  }

  /** A refresh that reads the registry between b's leave and its removal puts b back into the ring after
    * a has handled the leave. The sync's record never had b, so the next sync finds nothing to do and
    * b stays. */
  lemma RefreshKeepsADeparted(a: Id, b: Id)
    requires a != b
    ensures exists s :: HoldsADeparted(s, a, b) && b in Next(s, ApplySync(a)).instances[a].ring
  {
    AloneIsReachable(a);
    ArrivalHeard(Alone(a), b, a);
    Arrives(Alone(a), b);
    var s0 := Arrived(Alone(a), b);
    Hear(s0, a, b);
    var s1 := Put(s0, a, Started({a, b}, {a}, [], {}));
    assert s1.instances[b].phase.Running? && s1.instances[b].lock.Free?;
    assert s1.registry.Keys == {a, b};
    var s2 := Leaves(s1, a, b);
    RefreshReads(s2, a, b);
    var reading := Started({a}, {a}, [], {}).(lock := RefreshRead({a, b}), complete := true);
    var s3 := Removes(Put(s2, a, reading), a, b);
    RefreshApplies(s3, a, b);
  }

  lemma Leaves(s: State, a: Id, b: Id) returns (t: State)
    requires Reachable(s) && a != b && {a, b} <= s.instances.Keys
    requires s.instances[a] == Started({a, b}, {a}, [], {})
    requires s.instances[b].phase.Running? && s.instances[b].lock.Free?
    ensures Reachable(t) && t.registry == s.registry && {a, b} <= t.instances.Keys && b in t.departed
    ensures t.instances[a] == Started({a, b}, {a}, [Leave(b)], {})
    ensures t.instances[b].lock.Deregistering? && t.instances[b].phase.Running?
  {
    t := Next(s, ForceLeave(b));
    ReachableStep(s, ForceLeave(b));
    PublishedInstance(s, ForceLeave(b), a);
    PublishedInstance(s, ForceLeave(b), b);
    assert [] + [Leave(b)] == [Leave(b)];
  }

  lemma HearLeave(s: State, a: Id, b: Id)
    requires Reachable(s) && a != b && a in s.instances
    requires s.instances[a] == Started({a, b}, {a}, [Leave(b)], {})
    ensures Reachable(Put(s, a, Started({a}, {a}, [], {})))
  {
    var i := Started({a, b}, {a}, [], {});
    PutSame(s, a);
    assert [Leave(b)][1..] == [];
    Follow(s, a, i.(inbox := [Leave(b)]), TakeMessage(a), i.(listener := Loaded(Leave(b), {a, b})));
    assert {a, b} - {b} == {a};
    Follow(s, a, i.(listener := Loaded(Leave(b), {a, b})), StoreMessage(a), Started({a}, {a}, [], {}));
  }

  lemma RefreshReads(s: State, a: Id, b: Id)
    requires Reachable(s) && a != b && a in s.instances && AllAtZero(s.registry) && s.registry.Keys == {a, b}
    requires s.instances[a] == Started({a, b}, {a}, [Leave(b)], {})
    ensures Reachable(Put(s, a, Started({a}, {a}, [], {}).(lock := RefreshRead({a, b}), complete := true)))
  {
    var alone := Started({a}, {a}, [], {});
    HearLeave(s, a, b);
    AllActive(s.registry);
    Follow(s, a, alone, ReadForRefresh(a, 0), alone.(lock := RefreshRead({a, b}), complete := true));
  }

  lemma Removes(s: State, a: Id, b: Id) returns (t: State)
    requires Reachable(s) && a != b && {a, b} <= s.instances.Keys && b in s.departed
    requires AllAtZero(s.registry) && s.registry.Keys == {a, b}
    requires s.instances[b].lock.Deregistering? && s.instances[b].phase.Running?
    ensures Reachable(t) && {a, b} <= t.instances.Keys && t.instances[a] == s.instances[a]
    ensures AllAtZero(t.registry) && t.registry.Keys == {a} && b in t.departed && !t.instances[b].heartbeats
  {
    var u := Next(s, ForceRemove(b));
    ReachableStep(s, ForceRemove(b));
    assert u.registry == s.registry - {b} && u.registry.Keys == {a};
    t := Next(u, Crash(b));
    ReachableStep(u, Crash(b));
  }

  lemma RefreshStores(s: State, a: Id, b: Id, refreshed: Instance)
    requires Reachable(s) && a != b && a in s.instances
    requires s.instances[a] == Started({a}, {a}, [], {}).(lock := RefreshRead({a, b}), complete := true)
    requires refreshed == Started({a, b}, {a}, [], {}).(synced := true, complete := true)
    ensures Reachable(Put(s, a, refreshed))
  {
    var i := s.instances[a];
    PutSame(s, a);
    assert i.missed - {a, b} == {} && {a} * i.missed == {};
    assert AfterRefresh(i) == refreshed;
    Follow(s, a, i, ApplyRefresh(a), refreshed);
  }

  lemma RefreshApplies(s: State, a: Id, b: Id)
    requires Reachable(s) && a != b && {a, b} <= s.instances.Keys && AllAtZero(s.registry)
    requires s.registry.Keys == {a} && b in s.departed && !s.instances[b].heartbeats
    requires s.instances[a] == Started({a}, {a}, [], {}).(lock := RefreshRead({a, b}), complete := true)
    ensures exists s :: HoldsADeparted(s, a, b) && b in Next(s, ApplySync(a)).instances[a].ring
  {
    var refreshed := Started({a, b}, {a}, [], {}).(synced := true, complete := true);
    RefreshStores(s, a, b, refreshed);
    AllActive(s.registry);
    Follow(s, a, refreshed, ReadForSync(a, 0), refreshed.(lock := SyncRead({a})));
    SyncFindsNothing(Put(s, a, refreshed.(lock := SyncRead({a}))), a, b);
  }

  lemma SyncFindsNothing(s: State, a: Id, b: Id)
    requires Reachable(s) && a != b && {a, b} <= s.instances.Keys
    requires b !in s.registry && b in s.departed && !s.instances[b].heartbeats
    requires s.instances[a]
          == Started({a, b}, {a}, [], {}).(synced := true, complete := true, lock := SyncRead({a}))
    ensures exists s :: HoldsADeparted(s, a, b) && b in Next(s, ApplySync(a)).instances[a].ring
  {
    assert HoldsADeparted(s, a, b);
    assert AfterSync(s.instances[a]).ring == {a, b};
    assert b in Next(s, ApplySync(a)).instances[a].ring;
  }
}
