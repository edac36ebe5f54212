/** From agreeing registry reads to single ownership: a round of full syncs in any interleaving. */
module ClusterOwnership {
  import opened Options
  import opened HashRings
  import opened Registries
  import opened Coordinators
  import opened Clusters

  /** A step in a round: a sync of this instance reads `active`, by whatever clock, and nothing but its
    * syncs changes its ring. Other instances are not restricted. */
  ghost predicate SteadyStep(s: State, step: Step, id: Id, active: set<Id>)
    requires Enabled(s, step)
  {
    step.id == id && id in s.instances ==>
      && !step.InitialRead?
      && (step.ReadForSync? ==> Active(s.registry, step.at) == active)
      && (step.StoreMessage? || step.ApplyRefresh? ==> Moved(s, step).ring == s.instances[id].ring)
  }

  ghost predicate Steady(s: State, steps: seq<Step>, id: Id, active: set<Id>)
    decreases |steps|
  {
    steps != [] && Enabled(s, steps[0]) ==>
      SteadyStep(s, steps[0], id, active) && Steady(Next(s, steps[0]), steps[1..], id, active)
  }

  /** The heartbeat task has run, and a read in hand, if any, already is `active`. */
  ghost predicate Ready(s: State, id: Id, active: set<Id>) {
    && id in s.instances
    && s.instances[id].previous.Some?
    && (s.instances[id].lock.SyncRead? ==> s.instances[id].lock.active == active)
  }

  lemma SteadyMove(s: State, step: Step, active: set<Id>)
    requires Enabled(s, step) && Ready(s, step.id, active) && SteadyStep(s, step, step.id, active)
    ensures var i, j := s.instances[step.id], Moved(s, step);
      && (j.lock.SyncRead? ==> j.lock.active == active)
      && (if step.ApplySync?
          then j.previous == Some(active) && j.ring == Synced(i.ring, i.previous.value, active)
          else j.previous == i.previous && j.ring == i.ring)
  {
    if step.TakeMessage? {
      assert Moved(s, step) == Taken(step.id, s.instances[step.id]);
    } else if step.StoreMessage? {
      assert Moved(s, step) == AfterStore(s.instances[step.id]);
    }
  }

  lemma SteadyFrom(s: State, step: Step, t: State, id: Id, active: set<Id>)
    requires Enabled(s, step) && Touch(s, step, t) && Ready(s, id, active) && SteadyStep(s, step, id, active)
    ensures Ready(t, id, active)
    ensures var i, j := s.instances[id], t.instances[id];
      if step == ApplySync(id)
      then j.previous == Some(active) && j.ring == Synced(i.ring, i.previous.value, active)
      else j.previous == i.previous && j.ring == i.ring
  {
    if id == step.id {
      SteadyMove(s, step, active);
      assert SameButInbox(Moved(s, step), t.instances[id]);
    } else {
      assert SameButInbox(s.instances[id], t.instances[id]);
    }
  }

  /** However many syncs an instance applies during the round, the first decides. */
  lemma {:induction false} RoundSyncs(s: State, steps: seq<Step>, t: State, id: Id, active: set<Id>)
    requires Run(s, steps, t) && Steady(s, steps, id, active) && Ready(s, id, active)
    ensures id in t.instances
    ensures var i, j := s.instances[id], t.instances[id];
      if ApplySync(id) in steps
      then j.previous == Some(active) && j.ring == Synced(i.ring, i.previous.value, active)
      else j.previous == i.previous && j.ring == i.ring
    decreases |steps|
  {
    if steps != [] {
      var u := Next(s, steps[0]);
      StepTouches(s, steps[0]);
      SteadyFrom(s, steps[0], u, id, active);
      RoundSyncs(u, steps[1..], t, id, active);
      assert steps == [steps[0]] + steps[1..];
    }
  }

  ghost predicate TakesPart(s: State, steps: seq<Step>, id: Id, active: set<Id>) {
    Ready(s, id, active) && Steady(s, steps, id, active) && ApplySync(id) in steps
  }

  /** The instance's record differs from `active`, or its ring is right already. */
  ghost predicate Repairable(s: State, id: Id, active: set<Id>) {
    id in s.instances && (s.instances[id].previous != Some(active) || s.instances[id].ring == active)
  }

  ghost predicate Shares(s: State, id: Id, ring: set<Id>) {
    id in s.instances && s.instances[id].ring == ring
  }

  /** After a round every instance that took part holds exactly the set all of them read if and only if
    * each had a record that differed from it, or held it already. */
  lemma RoundAgreesIff(s: State, ids: set<Id>, active: set<Id>, steps: seq<Step>, t: State)
    requires Run(s, steps, t) && forall id :: id in ids ==> TakesPart(s, steps, id, active)
    ensures (forall id :: id in ids ==> Shares(t, id, active)) <==>
            (forall id :: id in ids ==> Repairable(s, id, active))
  {
    forall id | id in ids ensures Shares(t, id, active) <==> Repairable(s, id, active) {
      assert TakesPart(s, steps, id, active);
      RoundSyncs(s, steps, t, id, active);
    }
  }

  /** After a round in which exactly the active instances take part, in any interleaving with each other
    * and with everybody else, every key has one of them that owns it by its own ring, and no other
    * does; what an instance owns by its ring is what its coordinator handles. */
  lemma OneOwnerAfterARound(s: State, active: set<Id>, steps: seq<Step>, t: State,
                            lookup: Lookup, hash: Fnv.Word)
    returns (owner: Id)
    requires Lawful(lookup) && Run(s, steps, t) && 0 < |active| <= MAX_CAPACITY
    requires forall id :: id in active ==> TakesPart(s, steps, id, active)
    requires forall id :: id in active ==> Repairable(s, id, active)
    ensures owner in active
    ensures forall id :: id in active ==>
      id in t.instances && (Owns(lookup, t.instances[id].ring, hash, id) <==> id == owner)
  {
    RoundAgreesIff(s, active, active, steps, t);
    owner := OneOwner(lookup, active, hash);
    forall id | id in active
      ensures id in t.instances && (Owns(lookup, t.instances[id].ring, hash, id) <==> id == owner)
    {
      assert Shares(t, id, active);
    }
  }
}
