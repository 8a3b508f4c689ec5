/**
 * The actor registry as a value: a dense sequence of slots whose attachment links are indices.
 * Removal moves the last slot into the gap, so links have to follow.
 */
module ActorsSpec {

  const MAX_ACTORS: nat := 1000

  class Actor {
    const actorId: int
    var attachedActor: int

    constructor (actorId: int)
      ensures this.actorId == actorId && attachedActor == -1
    {
      this.actorId, attachedActor := actorId, -1;
    }
  }

  datatype Slot = Slot(obj: Actor, id: int, attached: int)

  type Slots = seq<Slot>

  ghost predicate Distinct(s: Slots) {
    forall i, j :: 0 <= i < j < |s| ==> s[i].obj != s[j].obj
  }

  /** Ids that name an actor name just one; attachments all carry -1. */
  ghost predicate UniqueIds(s: Slots) {
    forall i, j :: 0 <= i < j < |s| && 0 <= s[i].id ==> s[i].id != s[j].id
  }

  /** The link of a slot leads to another slot and back. */
  predicate LinkOk(s: Slots, i: nat)
    requires i < |s|
  {
    0 <= s[i].attached ==> s[i].attached < |s| && s[i].attached != i && s[s[i].attached].attached == i
  }

  ghost predicate Linked(s: Slots) {
    forall i :: 0 <= i < |s| ==> LinkOk(s, i)
  }

  ghost predicate Ok(s: Slots) {
    Distinct(s) && UniqueIds(s) && Linked(s)
  }

  // ---------- removal ----------

  /** The slot moved to k tells its partner. */
  function Patch(s: Slots, k: nat): Slots
    requires k < |s| && s[k].attached < |s|
  {
    if 0 <= s[k].attached then s[s[k].attached := s[s[k].attached].(attached := k)] else s
  }

  /** All links stay in range once the last slot has moved to k. */
  predicate Removable(s: Slots, k: nat) {
    k < |s| && (k < |s| - 1 ==> s[|s| - 1].attached < |s| - 1)
  }

  function RemoveSlot(s: Slots, k: nat): Slots
    requires Removable(s, k)
  {
    var n := |s| - 1;
    if k == n then s[..n] else Patch(s[..n][k := s[n]], k)
  }

  /** Where the partner is found once slot i is gone. */
  function Follow(s: Slots, i: nat): int
    requires i < |s|
  {
    if i != |s| - 1 && s[i].attached == |s| - 1 then i else s[i].attached
  }

  /** destroy_actor on slot i: the actor first, then its attachment. */
  function Destroy(s: Slots, i: nat): Slots
    requires i < |s| && Linked(s)
  {
    LinkedIsRemovable(s, i);
    var s1 := RemoveSlot(s, i);
    var a := Follow(s, i);
    if a < 0 then s1 else
      SecondIsRemovable(s, i);
      RemoveSlot(s1, a)
  }

  lemma LinkedIsRemovable(s: Slots, k: nat)
    requires Linked(s) && k < |s|
    ensures Removable(s, k)
  {
    assert LinkOk(s, |s| - 1);
  }

  lemma SecondIsRemovable(s: Slots, i: nat)
    requires i < |s| && Linked(s) && 0 <= Follow(s, i)
    ensures Removable(s, i) && Removable(RemoveSlot(s, i), Follow(s, i))
  {
    LinkedIsRemovable(s, i);
    assert LinkOk(s, i) && LinkOk(s, |s| - 1);
    if 2 <= |s| {
      assert LinkOk(s, |s| - 2);
    }
  }

  // ---------- what removal keeps ----------

  /** The partner's identity, whatever its index. */
  function PartnerAt(s: Slots, i: nat): (p: Actor?)
    requires i < |s| && s[i].attached < |s|
  {
    if s[i].attached < 0 then null else s[s[i].attached].obj
  }

  /** Slot j of t is slot i of s: same actor, and the same actor (or none) attached to it. */
  predicate SameActor(s: Slots, i: nat, t: Slots, j: nat) {
    && i < |s| && j < |t| && s[i].obj == t[j].obj && s[i].id == t[j].id
    && s[i].attached < |s| && t[j].attached < |t| && PartnerAt(s, i) == PartnerAt(t, j)
  }

  /** Every slot but the given one has a proper link. */
  ghost predicate LinkedExcept(s: Slots, loose: int) {
    forall i :: 0 <= i < |s| && i != loose ==> LinkOk(s, i)
  }

  /** The index a slot other than k has after the removal of k. */
  function NewIndex(s: Slots, k: nat, i: nat): nat
    requires i < |s| && k < |s|
  {
    if i == |s| - 1 then k else i
  }

  /** Removing a slot: only its own partner is left with a loose link. */
  lemma RemoveSlotLinks(s: Slots, k: nat)
    requires Distinct(s) && Linked(s) && k < |s|
    ensures Removable(s, k)
    ensures var t := RemoveSlot(s, k); LinkedExcept(t, Follow(s, k)) && Follow(s, k) < |t|
    ensures forall i :: 0 <= i < |s| && i != k && i != s[k].attached ==>
              SameActor(s, i, RemoveSlot(s, k), NewIndex(s, k, i))
    ensures 0 <= Follow(s, k) ==> RemoveSlot(s, k)[Follow(s, k)].obj == s[s[k].attached].obj
    ensures forall j :: 0 <= j < |s| - 1 && 0 <= Follow(s, k) != j ==> RemoveSlot(s, k)[j].attached != Follow(s, k)
  {
    LinkedIsRemovable(s, k);
    assert LinkOk(s, k) && LinkOk(s, |s| - 1);
    var t, n := RemoveSlot(s, k), |s| - 1;
    forall i | 0 <= i < |s| && i != k && i != s[k].attached
      ensures SameActor(s, i, t, NewIndex(s, k, i)) && LinkOk(t, NewIndex(s, k, i))
    {
      assert LinkOk(s, i);
    }
    forall j | 0 <= j < |t| && j != Follow(s, k)
      ensures LinkOk(t, j) && (0 <= Follow(s, k) ==> t[j].attached != Follow(s, k))
    {
      var i := if j == k then n else j;
      assert LinkOk(s, i) && NewIndex(s, k, i) == j;
    }
  }

  /** Removing the loose slot itself mends everything. */
  lemma RemoveLooseSlot(s: Slots, k: nat)
    requires Distinct(s) && LinkedExcept(s, k) && Removable(s, k)
    requires forall i :: 0 <= i < |s| && i != k ==> s[i].attached != k
    ensures Linked(RemoveSlot(s, k))
    ensures forall i :: 0 <= i < |s| && i != k ==> SameActor(s, i, RemoveSlot(s, k), NewIndex(s, k, i))
  {
    var t, n := RemoveSlot(s, k), |s| - 1;
    forall i | 0 <= i < |s| && i != k
      ensures SameActor(s, i, t, NewIndex(s, k, i)) && LinkOk(t, NewIndex(s, k, i))
    {
      assert LinkOk(s, i) && (n != k ==> LinkOk(s, n));
    }
    forall j | 0 <= j < |t| ensures LinkOk(t, j) {
      var i := if j == k then n else j;
      assert NewIndex(s, k, i) == j;
    }
  }

  lemma RemoveSlotObjects(s: Slots, k: nat)
    requires Removable(s, k) && Distinct(s) && UniqueIds(s)
    ensures Distinct(RemoveSlot(s, k)) && UniqueIds(RemoveSlot(s, k))
  {
    var t := RemoveSlot(s, k);
    assert forall j :: 0 <= j < |t| ==>
        t[j].obj == s[if j == k then |s| - 1 else j].obj && t[j].id == s[if j == k then |s| - 1 else j].id;
  }

  /** Where a survivor is found after the destruction of the actor in slot i. */
  function Landing(s: Slots, i: nat, j: nat): nat
    requires i < |s| && j < |s| && Linked(s)
  {
    LinkedIsRemovable(s, i);
    var j1, a := NewIndex(s, i, j), Follow(s, i);
    if a < 0 || j1 != |s| - 2 then j1 else a
  }

  /**
   * Destroying an actor removes exactly it and its attachment. Every other actor stays, with its id and
   * with the same partner, wherever it and the partner are moved; no slot is left empty.
   */
  lemma DestroyIsExact(s: Slots, i: nat)
    requires Ok(s) && i < |s|
    ensures Ok(Destroy(s, i)) && |Destroy(s, i)| == |s| - if 0 <= s[i].attached then 2 else 1
    ensures forall j :: 0 <= j < |s| && j != i && j != s[i].attached ==>
              SameActor(s, j, Destroy(s, i), Landing(s, i, j))
  {
    RemoveSlotLinks(s, i);
    RemoveSlotObjects(s, i);
    var s1, a := RemoveSlot(s, i), Follow(s, i);
    assert LinkOk(s, i);
    if 0 <= a {
      SecondIsRemovable(s, i);
      RemoveLooseSlot(s1, a);
      RemoveSlotObjects(s1, a);
      forall j | 0 <= j < |s| && j != i && j != s[i].attached
        ensures SameActor(s, j, Destroy(s, i), Landing(s, i, j))
      {
        assert SameActor(s, j, s1, NewIndex(s, i, j));
        assert SameActor(s1, NewIndex(s, i, j), Destroy(s, i), NewIndex(s1, a, NewIndex(s, i, j)));
      }
    }
  }

  lemma RemoveSlotComesFrom(s: Slots, k: nat)
    requires Removable(s, k)
    ensures forall j :: 0 <= j < |s| - 1 ==>
              var i := if j == k then |s| - 1 else j;
              RemoveSlot(s, k)[j].obj == s[i].obj && RemoveSlot(s, k)[j].id == s[i].id
  {
  }

  lemma ComesFrom(s: Slots, i: nat, j: nat) returns (k: nat)
    requires Linked(s) && i < |s| && j < |Destroy(s, i)|
    ensures k < |s| && k != i && s[k].obj == Destroy(s, i)[j].obj && s[k].id == Destroy(s, i)[j].id
  {
    LinkedIsRemovable(s, i);
    RemoveSlotComesFrom(s, i);
    var s1, a := RemoveSlot(s, i), Follow(s, i);
    assert |s1| == |s| - 1;
    var j1 := j;
    if 0 <= a {
      SecondIsRemovable(s, i);
      RemoveSlotComesFrom(s1, a);
      j1 := if j == a then |s1| - 1 else j;
    }
    k := if j1 == i then |s| - 1 else j1;
  }

  /** What is left was there before, and is not the destroyed actor. */
  lemma DestroyComesFrom(s: Slots, i: nat)
    requires Linked(s) && i < |s|
    ensures forall j :: 0 <= j < |Destroy(s, i)| ==>
              exists k :: 0 <= k < |s| && k != i && s[k].obj == Destroy(s, i)[j].obj && s[k].id == Destroy(s, i)[j].id
  {
    var t := Destroy(s, i);
    forall j | 0 <= j < |t|
      ensures exists k :: 0 <= k < |s| && k != i && s[k].obj == t[j].obj && s[k].id == t[j].id
    {
      var k := ComesFrom(s, i, j);
    }
  }

  // ---------- adding, attaching and detaching ----------

  function Add(s: Slots, obj: Actor, id: int): Slots {
    s + [Slot(obj, id, -1)]
  }

  /** A new attachment of the actor in slot j: the two link to each other. */
  function Attach(s: Slots, j: nat, obj: Actor): Slots
    requires j < |s|
  {
    s[j := s[j].(attached := |s|)] + [Slot(obj, -1, j)]
  }

  function Detach(s: Slots, j: nat): Slots
    requires j < |s| && 0 <= s[j].attached < |s| && Removable(s[j := s[j].(attached := -1)], s[j].attached)
  {
    RemoveSlot(s[j := s[j].(attached := -1)], s[j].attached)
  }

  lemma AddKeeps(s: Slots, obj: Actor, id: int)
    requires Ok(s)
    requires forall i :: 0 <= i < |s| ==> s[i].obj != obj && (0 <= id ==> s[i].id != id)
    ensures Ok(Add(s, obj, id))
    ensures forall i :: 0 <= i < |s| ==> SameActor(s, i, Add(s, obj, id), i)
  {
    var t := Add(s, obj, id);
    forall i | 0 <= i < |s| ensures LinkOk(t, i) && SameActor(s, i, t, i) {
      assert LinkOk(s, i);
    }
  }

  /** Attaching keeps the links mutual exactly if the actor had no attachment before. */
  lemma AttachKeepsIff(s: Slots, j: nat, obj: Actor)
    requires Ok(s) && j < |s| && forall i :: 0 <= i < |s| ==> s[i].obj != obj
    ensures Ok(Attach(s, j, obj)) <==> s[j].attached < 0
    ensures forall i :: 0 <= i < |s| && i != j && i != s[j].attached ==> SameActor(s, i, Attach(s, j, obj), i)
    ensures PartnerAt(Attach(s, j, obj), j) == obj && PartnerAt(Attach(s, j, obj), |s|) == s[j].obj
  {
    var t := Attach(s, j, obj);
    forall i | 0 <= i < |s| && i != j
      ensures i != s[j].attached ==> LinkOk(t, i) && SameActor(s, i, t, i)
    {
      assert LinkOk(s, i);
    }
    assert LinkOk(s, j);
    if 0 <= s[j].attached {
      assert !LinkOk(t, s[j].attached);
    }
  }

  /** The bearer's link cleared: the attachment is the only slot with a loose link, and nobody links to it. */
  lemma LoosenLink(s: Slots, j: nat, u: Slots)
    requires Ok(s) && j < |s| && 0 <= s[j].attached && u == s[j := s[j].(attached := -1)]
    ensures s[j].attached < |s| && s[j].attached != j && Distinct(u) && UniqueIds(u) && LinkedExcept(u, s[j].attached)
    ensures forall i :: 0 <= i < |s| && i != s[j].attached ==> u[i].attached != s[j].attached
    ensures forall i :: 0 <= i < |s| && i != s[j].attached && i != j ==> SameActor(s, i, u, i)
  {
    var k := s[j].attached;
    assert LinkOk(s, j);
    forall i | 0 <= i < |s| && i != k
      ensures LinkOk(u, i) && u[i].attached != k && (i != j ==> SameActor(s, i, u, i))
    {
      assert LinkOk(s, i);
    }
  }

  /** Detaching removes the attachment only; its bearer is left without a partner. */
  lemma DetachIsExact(s: Slots, j: nat)
    requires Ok(s) && j < |s| && 0 <= s[j].attached
    ensures s[j].attached < |s| && Removable(s[j := s[j].(attached := -1)], s[j].attached)
    ensures Ok(Detach(s, j)) && |Detach(s, j)| == |s| - 1
    ensures var k := s[j].attached;
            && (forall i :: 0 <= i < |s| && i != k && i != j ==> SameActor(s, i, Detach(s, j), NewIndex(s, k, i)))
            && NewIndex(s, k, j) < |s| - 1 && Detach(s, j)[NewIndex(s, k, j)] == s[j].(attached := -1)
  {
    var k, u := s[j].attached, s[j := s[j].(attached := -1)];
    LoosenLink(s, j, u);
    assert |s| - 1 != k ==> LinkOk(u, |s| - 1);
    hide Distinct, UniqueIds;
    RemoveLooseSlot(u, k);
    RemoveSlotObjects(u, k);
    forall i | 0 <= i < |s| && i != k && i != j ensures SameActor(s, i, Detach(s, j), NewIndex(s, k, i)) {
      assert SameActor(s, i, u, i) && SameActor(u, i, Detach(s, j), NewIndex(u, k, i));
    }
    assert SameActor(u, j, Detach(s, j), NewIndex(u, k, j));
  }

  // ---------- whole runs ----------

  /** The first slot with an id, or the number of slots. */
  function Find(s: Slots, id: int): (r: nat)
    ensures r <= |s| && (r < |s| ==> s[r].id == id) && forall i :: 0 <= i < r ==> s[i].id != id
  {
    if s == [] || s[0].id == id then 0 else 1 + Find(s[1..], id)
  }

  /** The registry without the actor of an id and its attachment. */
  function WithoutId(s: Slots, id: int): Slots
    requires Linked(s)
  {
    if Find(s, id) < |s| then Destroy(s, Find(s, id)) else s
  }

  /** Ids of actors being unique, one removal leaves no actor with the id. */
  lemma WithoutIdIsGone(s: Slots, id: int)
    requires Ok(s)
    ensures Ok(WithoutId(s, id)) && if Find(s, id) < |s| then |WithoutId(s, id)| < |s| else WithoutId(s, id) == s
    ensures 0 <= id ==> forall j :: 0 <= j < |WithoutId(s, id)| ==> WithoutId(s, id)[j].id != id
    ensures forall j :: 0 <= j < |WithoutId(s, id)| ==> exists k :: 0 <= k < |s| && s[k].obj == WithoutId(s, id)[j].obj
  {
    var i := Find(s, id);
    if i < |s| {
      DestroyIsExact(s, i);
      DestroyComesFrom(s, i);
    }
  }

  /** A newcomer is found by its id. */
  lemma NewcomerKeeps(s: Slots, a: Actor, id: int)
    requires Ok(s) && 0 <= id && forall j :: 0 <= j < |s| ==> s[j].id != id && s[j].obj != a
    ensures Find(Add(s, a, id), id) == |s| && Ok(Add(s, a, id))
  {
    var t := Add(s, a, id);
    AddKeeps(s, a, id);
    assert forall j :: 0 <= j < |s| ==> t[j].id == s[j].id;
    assert t[|s|].id == id;
  }

  datatype Op =
    | AddActor(obj: Actor, id: int)
    | AddAttachment(bearer: int, obj: Actor)
    | RemoveAttachment(bearer: int)
    | DestroyActor(id: int)

  /** Fresh objects and ids; nobody gets a second attachment; only what is attached is detached. */
  ghost predicate Allowed(s: Slots, op: Op) {
    match op
    case AddActor(obj, id) => forall i :: 0 <= i < |s| ==> s[i].obj != obj && (0 <= id ==> s[i].id != id)
    case AddAttachment(bearer, obj) =>
      && (forall i :: 0 <= i < |s| ==> s[i].obj != obj)
      && (Find(s, bearer) < |s| ==> s[Find(s, bearer)].attached < 0)
    case RemoveAttachment(bearer) => Find(s, bearer) < |s| ==> 0 <= s[Find(s, bearer)].attached
    case DestroyActor(_) => true
  }

  ghost function Step(s: Slots, op: Op): Slots
    requires Ok(s) && Allowed(s, op)
  {
    match op
    case AddActor(obj, id) => Add(s, obj, id)
    case AddAttachment(bearer, obj) => if Find(s, bearer) < |s| then Attach(s, Find(s, bearer), obj) else s
    case RemoveAttachment(bearer) =>
      if Find(s, bearer) < |s| then
        DetachIsExact(s, Find(s, bearer));
        Detach(s, Find(s, bearer))
      else s
    case DestroyActor(id) => WithoutId(s, id)
  }

  /** Every allowed operation keeps the registry dense, its ids unique and its links mutual. */
  lemma StepKeepsOk(s: Slots, op: Op)
    requires Ok(s) && Allowed(s, op)
    ensures Ok(Step(s, op))
  {
    match op
    case AddActor(obj, id) => AddKeeps(s, obj, id);
    case AddAttachment(bearer, obj) =>
      if Find(s, bearer) < |s| {
        AttachKeepsIff(s, Find(s, bearer), obj);
      }
    case RemoveAttachment(bearer) =>
      if Find(s, bearer) < |s| {
        DetachIsExact(s, Find(s, bearer));
      }
    case DestroyActor(id) =>
      if Find(s, id) < |s| {
        DestroyIsExact(s, Find(s, id));
      }
  }

  ghost predicate Run(states: seq<Slots>, ops: seq<Op>) {
    && |states| == |ops| + 1
    && forall i :: 0 <= i < |ops| ==>
         Ok(states[i]) ==> Allowed(states[i], ops[i]) && states[i + 1] == Step(states[i], ops[i])
  }

  lemma {:induction false} RunsStayOk(states: seq<Slots>, ops: seq<Op>, n: nat)
    requires Run(states, ops) && states[0] == [] && n <= |ops|
    ensures Ok(states[n])
    decreases n
  {
    if 0 < n {
      RunsStayOk(states, ops, n - 1);
      StepKeepsOk(states[n - 1], ops[n - 1]);
    }
  }
}
