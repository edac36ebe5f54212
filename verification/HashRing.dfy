/**
  * The ring each signer instance keeps: a set of instance ids and an anchor built from it.
  *
  * AnchorHash itself is a parameter: a function from what the builder was given (the listed
  * resources and the capacity) and a key hash to a resource. What the ring contributes, and what
  * is proved here, is that those inputs are canonical.
  */
module HashRings {
  import opened Options
  import Fnv

  type Id = string

  /** What the builder was given. */
  datatype Anchor = Anchor(resources: seq<Id>, capacity: nat)

  type Lookup = (Anchor, Fnv.Word) -> Option<Id>

  const MAX_CAPACITY: nat := 65535

  function Capacity(count: nat): nat {
    var atLeast16 := if count < 16 then 16 else count;
    if atLeast16 > MAX_CAPACITY then MAX_CAPACITY else atLeast16
  }

  /** At least 16, at most 65535, and otherwise the number of members. */
  lemma CapacityIs(count: nat)
    ensures count <= 16 ==> Capacity(count) == 16
    ensures 16 <= count <= 65535 ==> Capacity(count) == count
    ensures 65535 <= count ==> Capacity(count) == 65535
  {}

  /** The law AnchorHash is relied on for: it names a listed resource whenever all of them fit. */
  ghost predicate Lawful(lookup: Lookup) {
    forall anchor: Anchor, hash: Fnv.Word ::
      0 < |anchor.resources| <= anchor.capacity ==>
        lookup(anchor, hash).Some? && lookup(anchor, hash).value in anchor.resources
  }

  // ---------------------------------------------------------------- the order `sort` uses

  /** Lexicographic order on ids. */
  predicate Less(a: Id, b: Id) {
    b != [] && (a == [] || a[0] < b[0] || (a[0] == b[0] && Less(a[1..], b[1..])))
  }

  lemma {:induction false} LessIsTransitive(a: Id, b: Id, c: Id)
    requires Less(a, b) && Less(b, c)
    ensures Less(a, c)
  {
    if a != [] && a[0] == b[0] && b[0] == c[0] {
      LessIsTransitive(a[1..], b[1..], c[1..]);
    }
  }

  lemma {:induction false} LessIsIrreflexive(a: Id)
    ensures !Less(a, a)
  {
    if a != [] {
      LessIsIrreflexive(a[1..]);
    }
  }

  lemma {:induction false} LessIsTotal(a: Id, b: Id)
    ensures Less(a, b) || a == b || Less(b, a)
  {
    if a != [] && b != [] && a[0] == b[0] {
      LessIsTotal(a[1..], b[1..]);
      assert a == [a[0]] + a[1..] && b == [b[0]] + b[1..];
    }
  }

  /** Upper case before lower case, a prefix before what it begins, and the first difference decides. */
  lemma SomeOrder()
    ensures Less("B", "a") && Less("a", "ab") && Less("ab", "b") && Less("a1", "a2")
    ensures !Less("b", "ab") && !Less("ab", "a") && !Less("a", "a")
  {
    assert "ab"[1..] == "b" && "a"[1..] == "" && "b"[1..] == "" && "a1"[1..] == "1" && "a2"[1..] == "2";
  }

  ghost predicate Ascending(ids: seq<Id>) {
    forall i, j :: 0 <= i < j < |ids| ==> Less(ids[i], ids[j])
  }

  ghost function Elements(ids: seq<Id>): set<Id> {
    set id | id in ids
  }

  /** `ids` lists the set in ascending order, each id once. */
  ghost predicate SortedListing(ids: seq<Id>, members: set<Id>) {
    Ascending(ids) && Elements(ids) == members
  }

  lemma HeadIsLeast(ids: seq<Id>, id: Id)
    requires Ascending(ids) && id in ids && id != ids[0]
    ensures Less(ids[0], id)
  {
    var i :| 0 <= i < |ids| && ids[i] == id;
  }

  lemma TailListsTheRest(ids: seq<Id>, members: set<Id>)
    requires SortedListing(ids, members) && ids != []
    ensures SortedListing(ids[1..], members - {ids[0]})
    ensures ids[0] in members && ids[0] !in ids[1..]
  {
    LessIsIrreflexive(ids[0]);
    assert ids == [ids[0]] + ids[1..];
    forall i, j | 0 <= i < j < |ids[1..]| ensures Less(ids[1..][i], ids[1..][j]) {
      assert Less(ids[i + 1], ids[j + 1]);
    }
  }

  /** A set has one sorted listing, whatever order its elements were enumerated in. */
  lemma {:induction false} SortedListingIsUnique(p: seq<Id>, q: seq<Id>, members: set<Id>)
    requires SortedListing(p, members) && SortedListing(q, members)
    ensures p == q
    decreases |p|
  {
    SortedListingLength(p, members);
    SortedListingLength(q, members);
    if p != [] {
      assert p[0] in Elements(p);
      assert p[0] in q;
      assert q[0] in Elements(q);
      assert q[0] in p;
      if p[0] != q[0] {
        HeadIsLeast(p, q[0]);
        HeadIsLeast(q, p[0]);
        LessIsTransitive(p[0], q[0], p[0]);
        LessIsIrreflexive(p[0]);
        assert false;
      }
      TailListsTheRest(p, members);
      TailListsTheRest(q, members);
      SortedListingIsUnique(p[1..], q[1..], members - {p[0]});
      assert p == [p[0]] + p[1..] && q == [q[0]] + q[1..];
    }
  }

  lemma {:induction false} SortedListingLength(ids: seq<Id>, members: set<Id>)
    requires SortedListing(ids, members)
    ensures |ids| == |members|
    decreases |ids|
  {
    if ids != [] {
      TailListsTheRest(ids, members);
      SortedListingLength(ids[1..], members - {ids[0]});
    } else {
      assert members == {};
    }
  }

  /** Puts one more id in its place. */
  method Insert(ids: seq<Id>, id: Id) returns (result: seq<Id>)
    requires Ascending(ids) && id !in ids
    ensures Ascending(result) && Elements(result) == Elements(ids) + {id}
  {
    var at := 0;
    while at < |ids| && Less(ids[at], id)
      invariant 0 <= at <= |ids|
      invariant forall i :: 0 <= i < at ==> Less(ids[i], id)
    {
      at := at + 1;
    }
    if at < |ids| {
      LessIsTotal(ids[at], id);
    }
    forall j | at <= j < |ids| ensures Less(id, ids[j]) {
      if at < j {
        LessIsTransitive(id, ids[at], ids[j]);
      }
    }
    result := ids[..at] + [id] + ids[at..];
    assert ids == ids[..at] + ids[at..];
  }

  /** Collects the set in whatever order it yields its elements, and sorts. */
  method SortedIds(members: set<Id>) returns (ids: seq<Id>)
    ensures SortedListing(ids, members)
  {
    ids := [];
    var rest := members;
    while rest != {}
      invariant rest <= members
      invariant SortedListing(ids, members - rest)
      decreases |rest|
    {
      var id :| id in rest;
      assert id !in Elements(ids);
      ids := Insert(ids, id);
      rest := rest - {id};
    }
  }

  // ---------------------------------------------------------------- the ring

  /** A ring's fields as a value. */
  datatype Ring = Ring(me: Id, members: set<Id>, anchor: Option<Anchor>) {

    /** The anchor is the one a fresh rebuild of `members` builds. */
    ghost predicate Canonical() {
      && (anchor.None? <==> members == {})
      && (anchor.Some? ==>
            && SortedListing(anchor.value.resources, members)
            && anchor.value.capacity == Capacity(|members|))
    }

    /** Whether this ring's owner handles the keys with this hash. */
    predicate Handles(lookup: Lookup, hash: Fnv.Word) {
      if members == {} then true
      else match anchor
        case None => true
        case Some(anchor) =>
          match lookup(anchor, hash)
          case Some(owner) => owner == me
          case None => true
    }
  }

  class HashRing {
    const lookup: Lookup
    const me: Id
    var members: set<Id>
    var anchor: Option<Anchor>

    function State(): Ring
      reads this
    {
      Ring(me, members, anchor)
    }

    ghost predicate Valid()
      reads this
    {
      State().Canonical()
    }

    constructor (lookup: Lookup, me: Id)
      ensures Valid() && members == {} && this.me == me && this.lookup == lookup
    {
      this.lookup, this.me := lookup, me;
      members, anchor := {}, None;
    }

    /** A copy with the same members, for readers to switch to once it has been changed. */
    constructor Clone(other: HashRing)
      requires other.Valid()
      ensures Valid() && State() == other.State() && lookup == other.lookup
    {
      lookup, me := other.lookup, other.me;
      members, anchor := other.members, other.anchor;
    }

    method Rebuild(ids: seq<Id>)
      requires Valid()
      modifies this
      ensures Valid() && members == Elements(ids)
    {
      var newMembers := set id | id in ids;
      if newMembers == members {
        return;
      }
      members := newMembers;
      RebuildAnchor();
    }

    method AddInstance(id: Id)
      requires Valid()
      modifies this
      ensures Valid() && members == old(members) + {id}
    {
      if id in members {
        return;
      }
      members := members + {id};
      RebuildAnchor();
    }

    method RemoveInstance(id: Id)
      requires Valid()
      modifies this
      ensures Valid() && members == old(members) - {id}
    {
      if id !in members {
        return;
      }
      members := members - {id};
      RebuildAnchor();
    }

    method RebuildAnchor()
      modifies this`anchor
      ensures Valid()
    {
      if members == {} {
        anchor := None;
        return;
      }
      var ids := SortedIds(members);
      SortedListingLength(ids, members);
      anchor := Some(Anchor(ids, Capacity(|ids|)));
    }

    method ShouldHandle(key: seq<Fnv.Byte>) returns (mine: bool)
      requires Valid()
      ensures mine == State().Handles(lookup, Fnv.Hash(key))
    {
      if members == {} {
        return true;
      }
      match anchor {
        case None =>
          mine := true;
        case Some(anchor) =>
          var hash := Fnv.HashKey(key);
          match lookup(anchor, hash) {
            case Some(owner) => mine := owner == me;
            case None => mine := true;
          }
      }
    }
  }

  // ---------------------------------------------------------------- what rings agree on

  /** The anchor depends on the current members alone: not on the history of rebuilds, additions
    * and removals that led there, and not on the order the set was enumerated in. */
  lemma CanonicalAnchorsAgree(r: Ring, q: Ring)
    requires r.Canonical() && q.Canonical() && r.members == q.members
    ensures r.anchor == q.anchor
  {
    if r.anchor.Some? {
      SortedListingIsUnique(r.anchor.value.resources, q.anchor.value.resources, r.members);
    }
  }

  /** Who a canonical ring sends a key hash to. */
  ghost function OwnerOf(lookup: Lookup, ring: Ring, hash: Fnv.Word): (owner: Id)
    requires Lawful(lookup) && ring.Canonical() && 0 < |ring.members| <= MAX_CAPACITY
    ensures owner in ring.members
    ensures lookup(ring.anchor.value, hash) == Some(owner)
  {
    var anchor := ring.anchor.value;
    SortedListingLength(anchor.resources, ring.members);
    assert lookup(anchor, hash).value in Elements(anchor.resources);
    lookup(anchor, hash).value
  }

  lemma HandlesIffOwner(lookup: Lookup, ring: Ring, other: Ring, hash: Fnv.Word)
    requires Lawful(lookup) && ring.Canonical() && other.Canonical()
    requires ring.members == other.members && 0 < |ring.members| <= MAX_CAPACITY
    ensures ring.Handles(lookup, hash) <==> OwnerOf(lookup, other, hash) == ring.me
  {
    CanonicalAnchorsAgree(ring, other);
  }

  ghost predicate IsSoleHandler(owner: Id, lookup: Lookup, rings: map<Id, Ring>, hash: Fnv.Word) {
    owner in rings && forall id :: id in rings ==> (rings[id].Handles(lookup, hash) <==> id == owner)
  }

  /** When every member of a set that fits the anchor holds that set, each key has one member that
    * handles it, and no other member does. */
  lemma ExactlyOneOwner(lookup: Lookup, members: set<Id>, rings: map<Id, Ring>, hash: Fnv.Word)
    requires Lawful(lookup)
    requires 0 < |members| <= MAX_CAPACITY
    requires rings.Keys == members
    requires forall id :: id in members ==>
               rings[id].Canonical() && rings[id].me == id && rings[id].members == members
    ensures exists owner :: IsSoleHandler(owner, lookup, rings, hash)
  {
    var first :| first in members;
    var owner := OwnerOf(lookup, rings[first], hash);
    forall id | id in members ensures rings[id].Handles(lookup, hash) <==> id == owner {
      HandlesIffOwner(lookup, rings[id], rings[first], hash);
    }
    assert IsSoleHandler(owner, lookup, rings, hash);
  }

  // ---------------------------------------------------------------- ownership from the members alone

  lemma {:induction false} Least(members: set<Id>) returns (least: Id)
    requires members != {}
    ensures least in members && forall id :: id in members && id != least ==> Less(least, id)
    decreases |members|
  {
    least :| least in members;
    var rest := members - {least};
    if rest != {} {
      var other := Least(rest);
      LessIsTotal(least, other);
      if Less(other, least) {
        least := other;
      } else {
        forall id | id in rest && id != other ensures Less(least, id) {
          LessIsTransitive(least, other, id);
        }
      }
    }
  }

  lemma {:induction false} ListingExists(members: set<Id>) returns (ids: seq<Id>)
    ensures SortedListing(ids, members)
    decreases |members|
  {
    if members == {} {
      ids := [];
    } else {
      var least := Least(members);
      var rest := ListingExists(members - {least});
      ids := [least] + rest;
      forall i | 0 <= i < |rest| ensures rest[i] in members && rest[i] != least {
        assert rest[i] in Elements(rest);
      }
      assert Elements(ids) == Elements(rest) + {least};
    }
  }

  /** The owner of a key hash as the members alone decide it: the resource that the anchor over their
    * ascending listing names. */
  ghost predicate Owns(lookup: Lookup, members: set<Id>, hash: Fnv.Word, id: Id) {
    exists ids :: SortedListing(ids, members) && lookup(Anchor(ids, Capacity(|members|)), hash) == Some(id)
  }

  /** Every set that fits the anchor has exactly one owner for each key hash, one of its members. */
  lemma OneOwner(lookup: Lookup, members: set<Id>, hash: Fnv.Word) returns (owner: Id)
    requires Lawful(lookup) && 0 < |members| <= MAX_CAPACITY
    ensures owner in members && forall id :: Owns(lookup, members, hash, id) <==> id == owner
  {
    var ids := ListingExists(members);
    SortedListingLength(ids, members);
    var anchor := Anchor(ids, Capacity(|members|));
    owner := lookup(anchor, hash).value;
    assert owner in Elements(ids);
    forall id ensures Owns(lookup, members, hash, id) <==> id == owner {
      if Owns(lookup, members, hash, id) {
        var other :| SortedListing(other, members) && lookup(Anchor(other, Capacity(|members|)), hash) == Some(id);
        SortedListingIsUnique(ids, other, members);
      }
    }
  }

  /** A canonical ring handles exactly the keys its own id owns among its members. */
  lemma HandlesIffOwns(lookup: Lookup, ring: Ring, hash: Fnv.Word)
    requires Lawful(lookup) && ring.Canonical() && 0 < |ring.members| <= MAX_CAPACITY
    ensures ring.Handles(lookup, hash) <==> Owns(lookup, ring.members, hash, ring.me)
  {
    var owner := OneOwner(lookup, ring.members, hash);
    assert Owns(lookup, ring.members, hash, OwnerOf(lookup, ring, hash));
  }

  /** Whenever the anchor gives no answer the key is handled. */
  lemma UnansweredIsHandled(lookup: Lookup, ring: Ring, hash: Fnv.Word)
    requires ring.anchor.Some? ==> lookup(ring.anchor.value, hash).None?
    ensures ring.Handles(lookup, hash)
  {}

  /** A ring alone in its cluster, or with no members yet, handles every key. */
  lemma SoleInstanceHandlesAll(lookup: Lookup, ring: Ring, hash: Fnv.Word)
    requires Lawful(lookup) && ring.Canonical() && ring.members <= {ring.me}
    ensures ring.Handles(lookup, hash)
  {
    if ring.members != {} {
      assert ring.members == {ring.me};
      HandlesIffOwner(lookup, ring, ring, hash);
    }
  }
}
