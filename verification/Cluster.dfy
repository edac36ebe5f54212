/**
  * The membership protocol as a state machine over any number of instances.
  *
  * Each step is one Redis command or one access to an instance's shared ring, so a full sync (read
  * the registry, later store the ring) and the handling of a Pub/Sub message (load the ring, later
  * store the changed copy) can be interleaved with each other and with every other instance.
  * Clocks are not assumed to agree: each timed step carries its own reading.
  */
module Clusters {
  import opened Options
  import opened HashRings
  import opened Registries
  import opened Coordinators

  datatype Phase = Registered | HasRead | Subscribed | Running | Closing | LeaveSent | Gone | Crashed

  /** The mutex around an instance's registry connection, with what its holder has in hand. */
  datatype Lock = Free | SyncRead(active: set<Id>) | RefreshRead(active: set<Id>) | Deregistering

  /** The Pub/Sub task, between messages or between loading the ring and storing its copy. */
  datatype Listener = Idle | Loaded(message: Message, copy: set<Id>)

  datatype Instance = Instance(
    phase: Phase,
    ring: set<Id>,
    previous: Option<set<Id>>,  // the heartbeat task's `previous_members`, once that task has run
    heartbeats: bool,           // the heartbeat task is alive
    listening: bool,            // the Pub/Sub task is alive
    subscribed: bool,
    inbox: seq<Message>,
    listener: Listener,
    lock: Lock,
    // What happened so far; no step looks at these.
    earlier: set<Id>,           // joins that had been published when this instance subscribed
    synced: bool,               // a full sync or a refresh has been applied
    dropped: bool,              // the subscription was lost, and no complete read has been applied since
    gapped: set<Id>,            // joins that the last registry read applied has overwritten
    raced: bool,                // a message's store may have undone another store of the ring, and
                                // no sync or refresh has put the ring right since
    complete: bool,             // the subscription has been up since the registry read in hand
    missed: set<Id>)            // joins stored since the registry read in hand that it lacks

  datatype State = State(
    registry: Scores,
    instances: map<Id, Instance>,  // every instance that ever registered
    announced: set<Id>,            // has published its join
    departed: set<Id>,             // has published its leave, or tried to
    wentStale: set<Id>)            // was once below the cutoff of a read or a cleanup

  datatype Step =
    | Register(id: Id, at: int)
    | InitialRead(id: Id, at: int)
    | Subscribe(id: Id)
    | PublishJoin(id: Id)
    | StartHeartbeats(id: Id)
    | Heartbeat(id: Id, at: int)
    | CleanUp(id: Id, at: int)
    | ReadForSync(id: Id, at: int)
    | ApplySync(id: Id)
    | ReadForRefresh(id: Id, at: int)
    | ApplyRefresh(id: Id)
    | TakeMessage(id: Id)
    | StoreMessage(id: Id)
    | Drop(id: Id)
    | Resubscribe(id: Id)
    | ForceLeave(id: Id)
    | ForceRemove(id: Id)
    | Cancel(id: Id)
    | EndHeartbeats(id: Id)
    | EndListener(id: Id)
    | SendLeave(id: Id, delivered: bool)
    | Deregister(id: Id)
    | Crash(id: Id)

  const Initial: State := State(map[], map[], {}, {}, {})

  predicate Enabled(s: State, step: Step) {
    if step.Register? then step.id !in s.instances
    else
      step.id in s.instances &&
      var i := s.instances[step.id];
      match step
      case Register(_, _) => false
      case InitialRead(_, _) => i.phase.Registered?
      case Subscribe(_) => i.phase.HasRead?
      case PublishJoin(_) => i.phase.Subscribed?
      case StartHeartbeats(_) => i.heartbeats && i.previous.None?
      case Heartbeat(_, _) => i.heartbeats && i.previous.Some? && i.lock.Free?
      case CleanUp(_, _) => (i.phase.Running? || (i.heartbeats && i.previous.Some?)) && i.lock.Free?
      case ReadForSync(_, _) => i.heartbeats && i.previous.Some? && i.lock.Free?
      case ApplySync(_) => i.lock.SyncRead? && i.previous.Some?
      case ReadForRefresh(_, _) => i.phase.Running? && i.lock.Free?
      case ApplyRefresh(_) => i.lock.RefreshRead?
      case TakeMessage(_) => i.listening && i.subscribed && i.listener.Idle? && i.inbox != []
      case StoreMessage(_) => i.listener.Loaded?
      case Drop(_) => i.subscribed && i.listener.Idle?
      case Resubscribe(_) => i.listening && !i.subscribed
      case ForceLeave(_) => i.phase.Running? && i.lock.Free?
      case ForceRemove(_) => i.lock.Deregistering?
      case Cancel(_) => i.phase.Running? && (i.lock.Free? || i.lock.SyncRead?)
      case EndHeartbeats(_) => i.phase.Closing? && i.heartbeats && i.lock.Free?
      case EndListener(_) => i.phase.Closing? && i.listening && i.listener.Idle?
      case SendLeave(_, _) => i.phase.Closing? && !i.heartbeats && !i.listening
      case Deregister(_) => i.phase.LeaveSent?
      case Crash(_) => !i.phase.Gone?
  }

  function Put(s: State, id: Id, i: Instance): State {
    s.(instances := s.instances[id := i])
  }

  /** Publishing reaches every instance subscribed at that moment, the publisher included. */
  function Publish(s: State, message: Message): State {
    s.(instances := map id | id in s.instances ::
         if s.instances[id].subscribed
         then s.instances[id].(inbox := s.instances[id].inbox + [message])
         else s.instances[id])
  }

  function BelowCutoff(registry: Scores, at: int): set<Id> {
    registry.Keys - Active(registry, at)
  }

  /** Records which ids a registry read at `at` left out. */
  function NoteRead(s: State, at: int): State {
    s.(wentStale := s.wentStale + BelowCutoff(s.registry, at))
  }

  function RegisterFresh(s: State, id: Id, at: int): State {
    Put(s.(registry := s.registry[id := at]), id,
        Instance(Registered, {}, None, false, false, false, [], Idle, Free, {}, false, false, {}, false, false, {}))
  }

  /** The first message leaves the inbox, for the listener unless it is the instance's own. */
  function Taken(id: Id, i: Instance): Instance
    requires i.inbox != []
  {
    if i.inbox[0].id == id then i.(inbox := i.inbox[1..])
    else i.(inbox := i.inbox[1..], listener := Loaded(i.inbox[0], i.ring))
  }

  predicate Reading(i: Instance) {
    i.lock.SyncRead? || i.lock.RefreshRead?
  }

  /** The ring a full sync leaves, and what it puts right: lost messages if the read was complete, and
    * races if no message is in the middle of its own store and nobody who was read is missing. */
  function AfterSync(i: Instance): Instance
    requires i.lock.SyncRead? && i.previous.Some?
  {
    var active := i.lock.active;
    var ring := Synced(i.ring, i.previous.value, active);
    i.(ring := ring, previous := Some(active), lock := Free, synced := true,
       dropped := i.dropped && !i.complete,
       gapped := i.missed - ring,
       raced := !(i.listener.Idle? && active <= ring) && (i.raced || active != i.previous.value))
  }

  function AfterRefresh(i: Instance): Instance
    requires i.lock.RefreshRead?
  {
    i.(ring := i.lock.active, lock := Free, synced := true,
       dropped := i.dropped && !i.complete,
       gapped := i.missed - i.lock.active,
       raced := i.listener.Loaded? || (i.previous.Some? && i.previous.value * i.missed != {}))
  }

  function AfterStore(i: Instance): Instance
    requires i.listener.Loaded?
  {
    var message := i.listener.message;
    i.(ring := Applied(i.listener.copy, message),
       listener := Idle,
       missed := if message.Join? && Reading(i) && message.id !in i.lock.active
                 then i.missed + {message.id} else i.missed)
  }

  /** The instance after a step of its own, apart from what the step publishes. */
  function Moved(s: State, step: Step): Instance
    requires !step.Register? && Enabled(s, step)
  {
    var i := s.instances[step.id];
    match step
    case InitialRead(_, at) => i.(phase := HasRead, ring := Active(s.registry, at))
    case Subscribe(_) => i.(phase := Subscribed, subscribed := true, earlier := s.announced)
    case PublishJoin(_) => i.(phase := Running, heartbeats := true, listening := true)
    case StartHeartbeats(_) => i.(previous := Some(i.ring))
    case Heartbeat(_, _) => i
    case CleanUp(_, _) => i
    case ReadForSync(_, at) =>
      i.(lock := SyncRead(Active(s.registry, at)), complete := i.subscribed, missed := {})
    case ApplySync(_) => AfterSync(i)
    case ReadForRefresh(_, at) =>
      i.(lock := RefreshRead(Active(s.registry, at)), complete := i.subscribed, missed := {})
    case ApplyRefresh(_) => AfterRefresh(i)
    case TakeMessage(id) => Taken(id, i)
    case StoreMessage(_) => AfterStore(i)
    case Drop(_) => i.(subscribed := false, inbox := [], dropped := true, complete := false)
    case Resubscribe(_) => i.(subscribed := true)
    case ForceLeave(_) => i.(lock := Deregistering)
    case ForceRemove(_) => i.(lock := Free)
    case Cancel(_) => i.(phase := Closing)
    case EndHeartbeats(_) => i.(heartbeats := false)
    case EndListener(_) => i.(listening := false, subscribed := false, inbox := [], complete := false)
    case SendLeave(_, _) => i.(phase := LeaveSent)
    case Deregister(_) => i.(phase := Gone)
    case Crash(_) =>
      i.(phase := Crashed, heartbeats := false, listening := false, subscribed := false,
         inbox := [], listener := Idle, lock := Free)
  }

  function Next(s: State, step: Step): State
    requires Enabled(s, step)
  {
    if step.Register? then RegisterFresh(s, step.id, step.at)
    else
      var moved := Put(s, step.id, Moved(s, step));
      match step
      case InitialRead(_, at) => NoteRead(moved, at)
      case ReadForSync(_, at) => NoteRead(moved, at)
      case ReadForRefresh(_, at) => NoteRead(moved, at)
      case Heartbeat(id, at) => moved.(registry := s.registry[id := at])
      case CleanUp(_, at) =>
        moved.(registry := Cleaned(s.registry, at),
               wentStale := s.wentStale + (s.registry.Keys - Cleaned(s.registry, at).Keys))
      case PublishJoin(id) => Publish(moved, Join(id)).(announced := s.announced + {id})
      case ForceLeave(id) => Publish(moved, Leave(id)).(departed := s.departed + {id})
      case SendLeave(id, delivered) =>
        (if delivered then Publish(moved, Leave(id)) else moved).(departed := s.departed + {id})
      case ForceRemove(id) => moved.(registry := s.registry - {id})
      case Deregister(id) => moved.(registry := s.registry - {id})
      case _ => moved
  }

  /** `steps` is a run from `s` to `t`. */
  ghost predicate Run(s: State, steps: seq<Step>, t: State)
    decreases |steps|
  {
    if steps == [] then s == t
    else Enabled(s, steps[0]) && Run(Next(s, steps[0]), steps[1..], t)
  }

  ghost predicate Reachable(t: State) {
    exists steps :: Run(Initial, steps, t)
  }

  // ---------------------------------------------------------------- the invariant

  /** Registered, not leaving, and never found stale. */
  function Live(s: State): set<Id> {
    set id | id in s.instances && id !in s.departed && id !in s.wentStale
  }

  /** Every id an instance has heard of belongs to some instance, and leaves are genuine. */
  ghost predicate Known(s: State, message: Message) {
    message.id in s.instances && (message.Leave? ==> message.id in s.departed)
  }

  ghost predicate Sane(s: State, i: Instance) {
    && i.ring <= s.instances.Keys
    && i.earlier <= s.instances.Keys
    && (i.previous.Some? ==> i.previous.value <= s.instances.Keys)
    && (i.lock.SyncRead? || i.lock.RefreshRead? ==> i.lock.active <= s.instances.Keys)
    && (forall m :: m in i.inbox ==> Known(s, m))
    && (i.listener.Loaded? ==> Known(s, i.listener.message) && i.listener.copy <= s.instances.Keys)
  }

  /** The join of b has reached the instance but not yet its ring. */
  ghost predicate Pending(i: Instance, b: Id) {
    Join(b) in i.inbox || (i.listener.Loaded? && i.listener.message == Join(b))
  }

  /** What a registry read in hand contains. */
  ghost predicate ReadCovers(s: State, id: Id, i: Instance) {
    Reading(i) ==>
      && (id in Live(s) ==> id in i.lock.active)
      && (forall b :: b in Live(s) && b in i.earlier ==> b in i.lock.active)
      && (forall b :: b in Live(s) && b in i.ring ==> b in i.lock.active || b in i.missed)
      && (i.listener.Loaded? ==>
            forall b :: b in Live(s) && b in i.listener.copy ==> b in i.lock.active || b in i.missed)
      && (i.previous.Some? ==> forall b :: b in Live(s) && b in i.previous.value ==>
            b in i.lock.active || (i.lock.RefreshRead? && b in i.missed))
      && (i.complete ==> forall b :: b in Live(s) && b in s.announced ==>
            b in i.lock.active || b in i.missed || Pending(i, b))
  }

  /** What the ring contains. */
  ghost predicate RingCovers(s: State, id: Id, i: Instance) {
    !i.raced ==>
      && (i.listener.Loaded? ==> i.listener.copy == i.ring)
      && (i.phase in {HasRead, Subscribed, Running, Closing} && id in Live(s) ==> id in i.ring)
      && (i.previous.Some? ==> forall b :: b in Live(s) && b in i.previous.value ==> b in i.ring)
  }

  /** Where each published join is: in the ring, on its way there, or accounted for. */
  ghost predicate Delivered(s: State, i: Instance) {
    !i.raced && !i.dropped && i.subscribed ==>
      forall b :: b in Live(s) && b in s.announced ==>
        b in i.ring || b in i.gapped || (b in i.earlier && !i.synced) || Pending(i, b)
  }

  ghost predicate Stopped(s: State, id: Id, i: Instance) {
    && (i.phase in {LeaveSent, Gone, Crashed} ==> !i.heartbeats)
    && (i.phase in {Registered, HasRead, Subscribed} ==> !i.heartbeats && i.previous.None? && !i.synced)
    && (i.phase.Running? ==> i.heartbeats)
    && (i.phase.Registered? ==> i.ring == {})
    && (i.phase.Gone? ==> id !in s.registry)
    && (i.phase in {LeaveSent, Gone} || i.lock.Deregistering? ==> id in s.departed)
    && (i.subscribed ==> i.phase.Subscribed? || i.listening)
    && (i.phase.Subscribed? || i.listening ==> i.subscribed || i.dropped)
    && (i.lock.SyncRead? ==> i.previous.Some?)
    && (i.lock.RefreshRead? || i.lock.Deregistering? ==> i.phase.Running?)
    && (i.listening ==> i.phase in {Running, Closing})
    && (i.listener.Loaded? ==> i.listener.message.id != id)
    && (i.listener.Loaded? ==> i.listening)
    && (Reading(i) && i.complete ==> i.subscribed)
    && (Reading(i) && i.subscribed ==> i.complete || i.dropped)
  }

  ghost predicate InstanceInv(s: State, id: Id, i: Instance) {
    Sane(s, i) && ReadCovers(s, id, i) && RingCovers(s, id, i) && Delivered(s, i) && Stopped(s, id, i)
  }

  ghost predicate RegistryInv(s: State) {
    && s.registry.Keys <= s.instances.Keys
    && s.announced <= s.instances.Keys
    && (forall b :: b in Live(s) ==> b in s.registry)
  }

  ghost predicate Inv(s: State) {
    && RegistryInv(s)
    && (forall id :: id in s.instances ==> InstanceInv(s, id, s.instances[id]))
  }

  // ---------------------------------------------------------------- every step keeps it

  /** How the shared parts of the state may change: nobody is forgotten, nobody who was not live
    * becomes live again, and only a heartbeat puts an id back in the registry. */
  ghost predicate Grown(s: State, t: State) {
    && s.instances.Keys <= t.instances.Keys
    && s.departed <= t.departed
    && (forall b :: b in s.instances && b in Live(t) ==> b in Live(s))
  }

  lemma Unmoved(s: State, t: State, id: Id, i: Instance)
    requires InstanceInv(s, id, i) && RegistryInv(s) && Grown(s, t) && id in s.instances
    requires i.phase.Gone? ==> id !in t.registry
    requires i.subscribed ==> t.announced == s.announced
    ensures InstanceInv(t, id, i)
  {}

  lemma Heard(s: State, t: State, id: Id, i: Instance, message: Message)
    requires InstanceInv(s, id, i) && RegistryInv(s) && Grown(s, t) && id in s.instances
    requires i.phase.Gone? ==> id !in t.registry
    requires i.subscribed && Known(t, message)
    requires t.announced == if message.Join? then s.announced + {message.id} else s.announced
    ensures InstanceInv(t, id, i.(inbox := i.inbox + [message]))
  {
    var j := i.(inbox := i.inbox + [message]);
    assert message in j.inbox;
    assert forall m :: m in i.inbox ==> m in j.inbox;
    assert forall m :: m in j.inbox ==> m in i.inbox || m == message;
    assert forall b :: Pending(i, b) ==> Pending(j, b);
  }

  /** What a step may do to the shared parts of the state. */
  ghost predicate Shift(s: State, step: Step, t: State) {
    && s.instances.Keys <= t.instances.Keys <= s.instances.Keys + {step.id}
    && s.departed <= t.departed && s.wentStale <= t.wentStale
    && t.announced <= s.announced + {step.id} && step.id in t.instances
    && t.registry.Keys <= s.registry.Keys + (if step.Register? || step.Heartbeat? then {step.id} else {})
    && (step.id in s.instances || step.id in t.registry)
    && (forall b :: b in s.registry && b !in t.registry ==> b in t.departed || b in t.wentStale)
  }

  /** What a step may do to the instances: it moves its own, and others at most hear something. */
  ghost predicate Touch(s: State, step: Step, t: State)
    requires Enabled(s, step)
  {
    && s.instances.Keys <= t.instances.Keys
    && (forall id :: id in s.instances && id != step.id ==> SameButInbox(s.instances[id], t.instances[id]))
    && (step.id in s.instances ==> SameButInbox(Moved(s, step), t.instances[step.id]))
  }

  ghost predicate SameButInbox(i: Instance, j: Instance) {
    j == i.(inbox := j.inbox)
  }

  lemma PublicationShifts(s: State, step: Step)
    requires Enabled(s, step) && Publishes(step)
    ensures Shift(s, step, Next(s, step))
  {}

  lemma StepShifts(s: State, step: Step)
    requires Enabled(s, step)
    requires step.id in s.instances ==> Stopped(s, step.id, s.instances[step.id])
    ensures Shift(s, step, Next(s, step))
  {
    if Publishes(step) {
      PublicationShifts(s, step);
    }
  }

  lemma PublishFillsInboxes(s: State, message: Message)
    ensures Publish(s, message).instances.Keys == s.instances.Keys
    ensures forall id :: id in s.instances ==>
              SameButInbox(s.instances[id], Publish(s, message).instances[id])
  {}

  lemma MoveTouches(s: State, step: Step, t: State)
    requires Enabled(s, step) && !step.Register?
    requires t.instances.Keys == s.instances.Keys
    requires forall id :: id in s.instances ==>
               SameButInbox(s.instances[step.id := Moved(s, step)][id], t.instances[id])
    ensures Touch(s, step, t)
  {
    assert SameButInbox(s.instances[step.id := Moved(s, step)][step.id], t.instances[step.id]);
    forall id | id in s.instances && id != step.id ensures SameButInbox(s.instances[id], t.instances[id]) {
      assert SameButInbox(s.instances[step.id := Moved(s, step)][id], t.instances[id]);
    }
  }

  lemma PublicationTouches(s: State, step: Step)
    requires Enabled(s, step) && Publishes(step)
    ensures Touch(s, step, Next(s, step))
  {
    var moved := Put(s, step.id, Moved(s, step));
    var message := if step.PublishJoin? then Join(step.id) else Leave(step.id);
    PublishFillsInboxes(moved, message);
    assert Next(s, step).instances in {moved.instances, Publish(moved, message).instances};
    MoveTouches(s, step, Next(s, step));
  }

  lemma StepTouches(s: State, step: Step)
    requires Enabled(s, step)
    ensures Touch(s, step, Next(s, step))
  {
    if Publishes(step) {
      PublicationTouches(s, step);
    } else if !step.Register? {
      assert Next(s, step).instances == s.instances[step.id := Moved(s, step)];
      MoveTouches(s, step, Next(s, step));
    }
  }

  lemma ShiftGrows(s: State, step: Step, t: State)
    requires RegistryInv(s) && Shift(s, step, t)
    ensures Grown(s, t) && RegistryInv(t)
  {}

  lemma StepGrows(s: State, step: Step)
    requires Inv(s) && Enabled(s, step)
    ensures Grown(s, Next(s, step))
    ensures RegistryInv(Next(s, step))
  {
    assert step.id in s.instances ==> InstanceInv(s, step.id, s.instances[step.id]);
    StepShifts(s, step);
    ShiftGrows(s, step, Next(s, step));
  }

  ghost predicate Reads(step: Step) {
    step.InitialRead? || step.ReadForSync? || step.ReadForRefresh?
  }

  ghost predicate Stores(step: Step) {
    step.ApplySync? || step.ApplyRefresh? || step.StoreMessage?
  }

  ghost predicate Publishes(step: Step) {
    step.PublishJoin? || step.ForceLeave? || step.SendLeave?
  }

  /** How the state may look after a step that publishes nothing, as far as one instance is concerned. */
  ghost predicate Quietly(s: State, step: Step, t: State)
    requires Enabled(s, step) && !step.Register?
  {
    && Grown(s, t) && t.announced == s.announced && RegistryInv(s)
    && (Moved(s, step).phase.Gone? ==> step.id !in t.registry)
    && (Reads(step) ==> forall b :: b in Live(t) && b in s.registry ==> b in Active(s.registry, step.at))
    && InstanceInv(s, step.id, s.instances[step.id])
  }

  lemma ReadKeepsInv(s: State, step: Step, t: State)
    requires Enabled(s, step) && Reads(step) && Quietly(s, step, t)
    ensures InstanceInv(t, step.id, Moved(s, step))
  {
    assert forall b :: b in Live(s) ==> b in s.registry;
  }

  lemma SyncKeepsInv(s: State, id: Id, i: Instance, t: State)
    requires InstanceInv(s, id, i) && RegistryInv(s) && Grown(s, t) && t.announced == s.announced
    requires i.lock.SyncRead? && i.previous.Some? && id in s.instances && (i.phase.Gone? ==> id !in t.registry)
    ensures InstanceInv(t, id, AfterSync(i))
  {
    if i.lock.active != i.previous.value {
      assert AfterSync(i).ring == i.lock.active;
    } else {
      assert AfterSync(i).ring == i.ring;
    }
  }

  lemma RefreshKeepsInv(s: State, id: Id, i: Instance, t: State)
    requires InstanceInv(s, id, i) && RegistryInv(s) && Grown(s, t) && t.announced == s.announced
    requires i.lock.RefreshRead? && id in s.instances
    ensures InstanceInv(t, id, AfterRefresh(i))
  {
    if i.previous.Some? {
      assert forall b :: b in i.previous.value && b in i.missed ==> b in i.previous.value * i.missed;
    }
  }

  lemma JoinStoreKeepsInv(s: State, id: Id, i: Instance, t: State)
    requires InstanceInv(s, id, i) && RegistryInv(s) && Grown(s, t) && t.announced == s.announced
    requires i.listener.Loaded? && i.listener.message.Join? && id in s.instances
    ensures InstanceInv(t, id, AfterStore(i))
  {}

  lemma LeaveStoreKeepsInv(s: State, id: Id, i: Instance, t: State)
    requires InstanceInv(s, id, i) && RegistryInv(s) && Grown(s, t) && t.announced == s.announced
    requires i.listener.Loaded? && i.listener.message.Leave? && id in s.instances
    ensures InstanceInv(t, id, AfterStore(i))
  {}

  lemma StoreKeepsInv(s: State, step: Step, t: State)
    requires Enabled(s, step) && Stores(step) && Quietly(s, step, t)
    ensures InstanceInv(t, step.id, Moved(s, step))
  {
    var i := s.instances[step.id];
    match step {
      case ApplySync(id) => SyncKeepsInv(s, id, i, t);
      case ApplyRefresh(id) => RefreshKeepsInv(s, id, i, t);
      case StoreMessage(id) =>
        if i.listener.message.Join? {
          JoinStoreKeepsInv(s, id, i, t);
        } else {
          LeaveStoreKeepsInv(s, id, i, t);
        }
    }
  }

  lemma TailKnown(s: State, inbox: seq<Message>, t: State)
    requires s.instances.Keys <= t.instances.Keys && s.departed <= t.departed
    requires inbox != [] && forall m :: m in inbox ==> Known(s, m)
    ensures Known(t, inbox[0]) && forall m :: m in inbox[1..] ==> Known(t, m)
  {
    assert Known(s, inbox[0]);
    forall m | m in inbox[1..] ensures Known(t, m) {
      assert m in inbox && Known(s, m);
    }
  }

  /** Taking the first message leaves every other pending join pending. */
  lemma TakenPending(id: Id, i: Instance, b: Id)
    requires i.listener.Idle? && b != id && Join(b) in i.inbox
    ensures Pending(Taken(id, i), b)
  {
    HeadOrTail(i.inbox, Join(b));
    if i.inbox[0].id == id {
      assert Join(b) in Taken(id, i).inbox;
    } else {
      assert Taken(id, i).listener == Loaded(i.inbox[0], i.ring);
    }
  }

  lemma HeadOrTail(inbox: seq<Message>, message: Message)
    requires message in inbox
    ensures inbox[0] == message || message in inbox[1..]
  {
    assert inbox == [inbox[0]] + inbox[1..];
  }

  lemma TakenCovers(s: State, id: Id, i: Instance, t: State)
    requires InstanceInv(s, id, i) && RegistryInv(s) && Grown(s, t) && t.announced == s.announced
    requires i.listening && i.listener.Idle? && i.inbox != [] && id in s.instances
    ensures Delivered(t, Taken(id, i))
    ensures Reading(i) && i.complete ==> forall b :: b in Live(t) && b in t.announced ==>
              b in i.lock.active || b in i.missed || Pending(Taken(id, i), b)
  {
    forall b | b in Live(t) && b in t.announced && b != id && Pending(i, b)
      ensures Pending(Taken(id, i), b)
    {
      TakenPending(id, i, b);
    }
  }

  lemma SkippedKeepsInv(s: State, id: Id, i: Instance, t: State)
    requires InstanceInv(s, id, i) && RegistryInv(s) && Grown(s, t) && t.announced == s.announced
    requires i.listening && i.listener.Idle? && i.inbox != [] && id in s.instances && i.inbox[0].id == id
    ensures InstanceInv(t, id, Taken(id, i))
  {
    TakenCovers(s, id, i, t);
    TailKnown(s, i.inbox, t);
  }

  lemma LoadedKeepsInv(s: State, id: Id, i: Instance, t: State)
    requires InstanceInv(s, id, i) && RegistryInv(s) && Grown(s, t) && t.announced == s.announced
    requires i.listening && i.listener.Idle? && i.inbox != [] && id in s.instances && i.inbox[0].id != id
    ensures InstanceInv(t, id, Taken(id, i))
  {
    TakenCovers(s, id, i, t);
    TailKnown(s, i.inbox, t);
  }

  lemma TakenKeepsInv(s: State, id: Id, i: Instance, t: State)
    requires InstanceInv(s, id, i) && RegistryInv(s) && Grown(s, t) && t.announced == s.announced
    requires i.listening && i.listener.Idle? && i.inbox != [] && id in s.instances
    ensures InstanceInv(t, id, Taken(id, i))
  {
    if i.inbox[0].id == id {
      SkippedKeepsInv(s, id, i, t);
    } else {
      LoadedKeepsInv(s, id, i, t);
    }
  }

  lemma TakeKeepsInv(s: State, step: Step, t: State)
    requires step.TakeMessage? && Enabled(s, step) && Quietly(s, step, t)
    ensures InstanceInv(t, step.id, Moved(s, step))
  {
    TakenKeepsInv(s, step.id, s.instances[step.id], t);
  }

  /** Steps that end or begin an instance's listening, or take its first record. */
  ghost predicate Turns(step: Step) {
    step.Subscribe? || step.StartHeartbeats? || step.Drop? || step.EndListener? || step.Crash?
  }

  lemma TurnKeepsInv(s: State, step: Step, t: State)
    requires Enabled(s, step) && Turns(step) && Quietly(s, step, t)
    ensures InstanceInv(t, step.id, Moved(s, step))
  {}

  lemma OtherMoveKeepsInv(s: State, step: Step, t: State)
    requires Enabled(s, step) && !Turns(step)
    requires !step.Register? && !step.TakeMessage? && !Reads(step) && !Stores(step) && !Publishes(step)
    requires Quietly(s, step, t)
    ensures InstanceInv(t, step.id, Moved(s, step))
  {}

  lemma QuietParts(s: State, step: Step)
    requires Enabled(s, step) && !step.Register? && !Publishes(step)
    ensures var t := Next(s, step);
      && t.instances == s.instances[step.id := Moved(s, step)] && t.announced == s.announced
      && (Moved(s, step).phase.Gone? && !s.instances[step.id].phase.Gone? ==> step.id !in t.registry)
      && (s.instances[step.id].phase.Gone? && !step.Heartbeat? ==> t.registry.Keys <= s.registry.Keys)
  {}

  lemma ReadSeesTheLiving(s: State, step: Step)
    requires Enabled(s, step) && Reads(step)
    ensures forall b :: b in s.registry && b in Live(Next(s, step)) ==> b in Active(s.registry, step.at)
  {}

  lemma StepIsQuiet(s: State, step: Step)
    requires Inv(s) && Enabled(s, step) && !step.Register? && !Publishes(step)
    ensures Quietly(s, step, Next(s, step))
    ensures Next(s, step).instances == s.instances[step.id := Moved(s, step)]
  {
    StepGrows(s, step);
    QuietParts(s, step);
    if Reads(step) {
      ReadSeesTheLiving(s, step);
    }
    assert InstanceInv(s, step.id, s.instances[step.id]);
  }

  /** The instance a publishing step moves, before its own message reaches its inbox. */
  lemma PublisherKeepsInv(s: State, step: Step, t: State)
    requires Enabled(s, step) && Publishes(step) && InstanceInv(s, step.id, s.instances[step.id])
    requires RegistryInv(s) && Grown(s, t) && t.announced == s.announced
    requires step.ForceLeave? || step.SendLeave? ==> step.id in t.departed
    ensures InstanceInv(t, step.id, Moved(s, step))
  {}

  lemma StepKeepsInv(s: State, step: Step)
    requires Inv(s) && Enabled(s, step)
    ensures Inv(Next(s, step))
  {
    var t := Next(s, step);
    StepGrows(s, step);
    forall id | id in t.instances ensures InstanceInv(t, id, t.instances[id]) {
      if step.Register? {
        if id != step.id {
          Unmoved(s, t, id, s.instances[id]);
        }
      } else if Publishes(step) {
        StepShifts(s, step);
        PublishKeepsInv(s, step, id);
      } else {
        QuietStepKeepsInv(s, step, id);
      }
    }
  }

  lemma QuietStepKeepsInv(s: State, step: Step, id: Id)
    requires Inv(s) && Enabled(s, step) && !step.Register? && !Publishes(step) && id in s.instances
    ensures id in Next(s, step).instances && InstanceInv(Next(s, step), id, Next(s, step).instances[id])
  {
    var t := Next(s, step);
    StepIsQuiet(s, step);
    if id != step.id {
      StepShifts(s, step);
      Unmoved(s, t, id, s.instances[id]);
    } else if Reads(step) {
      ReadKeepsInv(s, step, t);
    } else if Stores(step) {
      StoreKeepsInv(s, step, t);
    } else if step.TakeMessage? {
      TakeKeepsInv(s, step, t);
    } else if Turns(step) {
      TurnKeepsInv(s, step, t);
    } else {
      OtherMoveKeepsInv(s, step, t);
    }
  }

  /** The instance as a publishing step leaves it, apart from what it hears. */
  function Speaking(s: State, step: Step, id: Id): Instance
    requires Enabled(s, step) && Publishes(step) && id in s.instances
  {
    if id == step.id then Moved(s, step) else s.instances[id]
  }

  function Spoken(step: Step): Message {
    if step.PublishJoin? then Join(step.id) else Leave(step.id)
  }

  lemma PublishedInstance(s: State, step: Step, id: Id)
    requires Enabled(s, step) && Publishes(step) && id in s.instances
    ensures var t, i := Next(s, step), Speaking(s, step, id);
      && id in t.instances
      && t.instances[id] == if i.subscribed && (step.SendLeave? ==> step.delivered)
                            then i.(inbox := i.inbox + [Spoken(step)]) else i
    ensures Next(s, step).announced == if step.PublishJoin? then s.announced + {step.id} else s.announced
    ensures Next(s, step).registry == s.registry
    ensures step.ForceLeave? || step.SendLeave? ==> step.id in Next(s, step).departed
  {}

  lemma PublishKeepsInv(s: State, step: Step, id: Id)
    requires Inv(s) && Enabled(s, step) && Publishes(step) && id in s.instances
    ensures id in Next(s, step).instances && InstanceInv(Next(s, step), id, Next(s, step).instances[id])
  {
    StepGrows(s, step);
    PublishedInstance(s, step, id);
    assert InstanceInv(s, id, s.instances[id]);
    var t := Next(s, step);
    if id == step.id {
      PublisherHears(s, step, t);
    } else {
      OtherHears(s, step, id, t);
    }
  }

  ghost predicate Published(s: State, step: Step, t: State)
    requires Enabled(s, step) && Publishes(step)
  {
    && RegistryInv(s) && Grown(s, t) && RegistryInv(t) && t.registry == s.registry
    && t.announced == (if step.PublishJoin? then s.announced + {step.id} else s.announced)
    && (step.ForceLeave? || step.SendLeave? ==> step.id in t.departed)
  }

  lemma PublisherHears(s: State, step: Step, t: State)
    requires Enabled(s, step) && Publishes(step) && InstanceInv(s, step.id, s.instances[step.id])
    requires Published(s, step, t)
    ensures var i := Moved(s, step);
      InstanceInv(t, step.id, if i.subscribed && (step.SendLeave? ==> step.delivered)
                              then i.(inbox := i.inbox + [Spoken(step)]) else i)
  {
    var i, u := Moved(s, step), t.(announced := s.announced);
    PublisherKeepsInv(s, step, u);
    HearsOrNot(u, t, step.id, i, i.subscribed && (step.SendLeave? ==> step.delivered), Spoken(step));
  }

  lemma OtherHears(s: State, step: Step, id: Id, t: State)
    requires Enabled(s, step) && Publishes(step) && id in s.instances && InstanceInv(s, id, s.instances[id])
    requires Published(s, step, t)
    ensures var i := s.instances[id];
      InstanceInv(t, id, if i.subscribed && (step.SendLeave? ==> step.delivered)
                         then i.(inbox := i.inbox + [Spoken(step)]) else i)
  {
    var i := s.instances[id];
    HearsOrNot(s, t, id, i, i.subscribed && (step.SendLeave? ==> step.delivered), Spoken(step));
  }

  lemma HearsOrNot(s: State, t: State, id: Id, i: Instance, heard: bool, message: Message)
    requires InstanceInv(s, id, i) && RegistryInv(s) && Grown(s, t) && id in s.instances
    requires i.phase.Gone? ==> id !in t.registry
    requires i.subscribed ==> t.announced == if message.Join? then s.announced + {message.id} else s.announced
    requires heard ==> i.subscribed && Known(t, message)
    requires i.subscribed && !heard ==> message.Leave?
    ensures InstanceInv(t, id, if heard then i.(inbox := i.inbox + [message]) else i)
  {
    if heard {
      Heard(s, t, id, i, message);
    } else {
      Unmoved(s, t, id, i);
    }
  }

  lemma {:induction false} RunKeepsInv(s: State, steps: seq<Step>, t: State)
    requires Inv(s) && Run(s, steps, t)
    ensures Inv(t)
    decreases |steps|
  {
    if steps != [] {
      StepKeepsInv(s, steps[0]);
      RunKeepsInv(Next(s, steps[0]), steps[1..], t);
    }
  }

  lemma ReachableInv(t: State)
    requires Reachable(t)
    ensures Inv(t)
  {
    var steps :| Run(Initial, steps, t);
    RunKeepsInv(Initial, steps, t);
  }

  lemma {:induction false} RunExtends(s: State, steps: seq<Step>, t: State, step: Step)
    requires Run(s, steps, t) && Enabled(t, step)
    ensures Run(s, steps + [step], Next(t, step))
    decreases |steps|
  {
    if steps == [] {
      assert [step][1..] == [];
    } else {
      assert (steps + [step])[0] == steps[0] && (steps + [step])[1..] == steps[1..] + [step];
      RunExtends(Next(s, steps[0]), steps[1..], t, step);
    }
  }

  lemma ReachableStep(s: State, step: Step)
    requires Reachable(s) && Enabled(s, step)
    ensures Reachable(Next(s, step))
  {
    var steps :| Run(Initial, steps, s);
    RunExtends(Initial, steps, s, step);
  }

  lemma {:induction false} ReachableRun(s: State, steps: seq<Step>, t: State)
    requires Reachable(s) && Run(s, steps, t)
    ensures Reachable(t)
    decreases |steps|
  {
    if steps != [] {
      ReachableStep(s, steps[0]);
      ReachableRun(Next(s, steps[0]), steps[1..], t);
    }
  }

  // ---------------------------------------------------------------- no lost join

  /** In every reachable state of every interleaving: an instance that has applied a sync since it
    * started and has drained its messages holds every live instance whose join is out, including
    * one that published between this instance's first read and its subscription.
    *
    * Three things can stand in the way, and each only until a sync or refresh puts it right: the
    * subscription was lost after the last read that was applied, a message's store undid another
    * store of the ring, or the last read applied has overwritten this very join. */
  lemma NoLostJoin(s: State, a: Id, b: Id)
    requires Reachable(s) && a in s.instances
    requires var i := s.instances[a];
             i.subscribed && i.synced && i.inbox == [] && i.listener.Idle? && !i.dropped && !i.raced
    requires b in Live(s) && b in s.announced && b !in s.instances[a].gapped
    ensures b in s.instances[a].ring
  {
    ReachableInv(s);
    assert InstanceInv(s, a, s.instances[a]);
  }

  /** One full sync is enough, for good. If a's sync read the registry after b had registered, then
    * once that sync has been applied b is in a's ring in every later state in which b is live,
    * whatever else happened before, in between and after: messages lost, delayed or crossing other
    * syncs and refreshes, and races that a later sync has put right. */
  lemma SyncHealsForGood(s: State, at: int, a: Id, b: Id,
                         between: seq<Step>, u: State, after: seq<Step>, t: State)
    requires Reachable(s) && Enabled(s, ReadForSync(a, at)) && b in s.instances
    requires Run(Next(s, ReadForSync(a, at)), between, u) && Enabled(u, ApplySync(a))
    requires Run(Next(u, ApplySync(a)), after, t) && a in t.instances
    requires b in Live(t) && !t.instances[a].raced
    ensures b in t.instances[a].ring
  {
    var read, apply := ReadForSync(a, at), ApplySync(a);
    var r, v := Next(s, read), Next(u, apply);
    ReachableStep(s, read);
    ReachableRun(r, between, u);
    ReachableStep(u, apply);
    StepHistory(s, read, a, b);
    RunHistory(r, between, u, a, b);
    StepHistory(u, apply, a, b);
    RunHistory(v, after, t, a, b);
    HeldReadStep(s, read, a, b);
    HeldReadSees(r, between, u, a, b);
    ApplyRecords(u, a);
    SyncedMemberStays(v, after, t, a, b);
  }

  lemma ApplyRecords(s: State, a: Id)
    requires Enabled(s, ApplySync(a))
    ensures a in Next(s, ApplySync(a)).instances
    ensures Next(s, ApplySync(a)).instances[a].previous == Some(s.instances[a].lock.active)
  {}

  /** Instances are never forgotten, and nobody comes back to life. */
  lemma StepHistory(s: State, step: Step, a: Id, b: Id)
    requires Reachable(s) && Enabled(s, step) && a in s.instances && b in s.instances
    ensures var t := Next(s, step);
      && a in t.instances && b in t.instances
      && (b in Live(t) ==> b in Live(s))
  {
    ReachableInv(s);
    StepGrows(s, step);
  }

  lemma {:induction false} RunHistory(s: State, steps: seq<Step>, t: State, a: Id, b: Id)
    requires Reachable(s) && Run(s, steps, t) && a in s.instances && b in s.instances
    ensures a in t.instances && b in t.instances
    ensures b in Live(t) ==> b in Live(s)
    decreases |steps|
  {
    if steps != [] {
      ReachableStep(s, steps[0]);
      StepHistory(s, steps[0], a, b);
      RunHistory(Next(s, steps[0]), steps[1..], t, a, b);
    }
  }

  ghost predicate HeldReadHas(s: State, a: Id, b: Id) {
    a in s.instances && (s.instances[a].lock.SyncRead? ==> b in s.instances[a].lock.active)
  }

  lemma HeldReadFrom(s: State, step: Step, t: State, a: Id, b: Id)
    requires Enabled(s, step) && Touch(s, step, t) && HeldReadHas(s, a, b)
    requires step.ReadForSync? ==> b in Active(s.registry, step.at)
    ensures HeldReadHas(t, a, b)
  {
    if a == step.id {
      var j := Moved(s, step);
      assert SameButInbox(j, t.instances[a]);
      if step.ReadForSync? {
        assert j.lock == SyncRead(Active(s.registry, step.at));
      } else {
        assert j.lock.SyncRead? ==> j.lock == s.instances[a].lock;
      }
    }
  }

  lemma HeldReadStep(s: State, step: Step, a: Id, b: Id)
    requires Reachable(s) && Enabled(s, step) && HeldReadHas(s, a, b) && b in s.instances
    requires b in Live(Next(s, step))
    ensures HeldReadHas(Next(s, step), a, b)
  {
    ReachableInv(s);
    StepGrows(s, step);
    assert b in s.registry;
    if Reads(step) {
      ReadSeesTheLiving(s, step);
    }
    StepTouches(s, step);
    HeldReadFrom(s, step, Next(s, step), a, b);
  }

  /** A registry read taken while b is live contains b, and is held until it is used. */
  lemma {:induction false} HeldReadSees(s: State, steps: seq<Step>, t: State, a: Id, b: Id)
    requires Reachable(s) && Run(s, steps, t) && HeldReadHas(s, a, b) && b in s.instances
    requires b in Live(t)
    ensures HeldReadHas(t, a, b)
    decreases |steps|
  {
    if steps != [] {
      var u := Next(s, steps[0]);
      ReachableStep(s, steps[0]);
      StepHistory(s, steps[0], a, b);
      RunHistory(u, steps[1..], t, a, b);
      HeldReadStep(s, steps[0], a, b);
      HeldReadSees(u, steps[1..], t, a, b);
    }
  }

  ghost predicate Recorded(s: State, a: Id, b: Id) {
    a in s.instances && s.instances[a].previous.Some? && b in s.instances[a].previous.value
  }

  lemma RecordFrom(s: State, step: Step, t: State, a: Id, b: Id)
    requires Enabled(s, step) && Touch(s, step, t) && Recorded(s, a, b)
    requires step.ApplySync? && step.id == a ==> b in s.instances[a].lock.active
    ensures Recorded(t, a, b)
  {
    if a == step.id {
      var j := Moved(s, step);
      assert SameButInbox(j, t.instances[a]);
      if step.ApplySync? {
        assert j.previous == Some(s.instances[a].lock.active);
      } else {
        assert j.previous == s.instances[a].previous;
      }
    }
  }

  lemma RecordKeepsTheLiving(s: State, step: Step, a: Id, b: Id)
    requires Reachable(s) && Enabled(s, step) && Recorded(s, a, b) && b in s.instances
    requires b in Live(Next(s, step))
    ensures Recorded(Next(s, step), a, b)
  {
    StepHistory(s, step, a, b);
    ReachableInv(s);
    assert ReadCovers(s, a, s.instances[a]);
    StepTouches(s, step);
    RecordFrom(s, step, Next(s, step), a, b);
  }

  lemma RecordedMeansInRing(s: State, a: Id, b: Id)
    requires Reachable(s) && Recorded(s, a, b) && b in Live(s) && !s.instances[a].raced
    ensures b in s.instances[a].ring
  {
    ReachableInv(s);
    assert InstanceInv(s, a, s.instances[a]);
  }

  /** Once recorded by a sync, a live instance stays recorded and stays in the ring. */
  lemma {:induction false} SyncedMemberStays(s: State, steps: seq<Step>, t: State, a: Id, b: Id)
    requires Reachable(s) && Run(s, steps, t) && Recorded(s, a, b) && b in s.instances
    requires b in Live(t) && a in t.instances && !t.instances[a].raced
    ensures b in t.instances[a].ring
    decreases |steps|
  {
    if steps == [] {
      RecordedMeansInRing(s, a, b);
    } else {
      var u := Next(s, steps[0]);
      ReachableStep(s, steps[0]);
      StepHistory(s, steps[0], a, b);
      RunHistory(u, steps[1..], t, a, b);
      RecordKeepsTheLiving(s, steps[0], a, b);
      SyncedMemberStays(u, steps[1..], t, a, b);
    }
  }
}
