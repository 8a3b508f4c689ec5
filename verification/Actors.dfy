/** actors.c and actor_scripts.c: the registry of actors, an array of pointers with max_actors in use. */
module Actors {
  import opened ActorsSpec

  ghost function SlotsOf(actors: seq<Actor>): Slots
    reads actors
  {
    seq(|actors|, i requires 0 <= i < |actors| reads actors =>
          Slot(actors[i], actors[i].actorId, actors[i].attachedActor))
  }

  class Registry {
    var actorsList: array<Actor?>
    var maxActors: nat
    // the actors in use, in order
    ghost var actors: seq<Actor>

    /** Dense: no empty slot below maxActors, none taken from there on. */
    ghost predicate Valid()
      reads this, actorsList
    {
      && actorsList.Length == MAX_ACTORS && maxActors == |actors| <= MAX_ACTORS
      && (forall i :: 0 <= i < maxActors ==> actorsList[i] == actors[i])
      && (forall i :: maxActors <= i < MAX_ACTORS ==> actorsList[i] == null)
    }

    ghost function View(): Slots
      reads this, actors
    {
      SlotsOf(actors)
    }

    ghost function Objects(): set<Actor>
      reads this
    {
      set a | a in actors
    }

    lemma ViewOfActors()
      ensures |View()| == |actors|
      ensures forall j :: 0 <= j < |actors| ==> View()[j].obj == actors[j] && View()[j].id == actors[j].actorId
    {
    }

    constructor ()
      ensures Valid() && View() == [] && fresh(actorsList)
    {
      actorsList := new Actor?[MAX_ACTORS](_ => null);
      maxActors, actors := 0, [];
    }

    /** Frees a slot and moves the last one into the gap, telling its partner. */
    method RemoveSlot(k: nat)
      requires Valid() && Distinct(View()) && Removable(View(), k)
      modifies this`maxActors, this`actors, actorsList, Objects()
      ensures Valid() && View() == ActorsSpec.RemoveSlot(old(View()), k)
      ensures forall a :: a in actors ==> a in old(actors)
    {
      actorsList[k] := null;
      if k == maxActors - 1 {
        maxActors := maxActors - 1;
        actors := actors[..k];
      } else {
        maxActors := maxActors - 1;
        actorsList[k] := actorsList[maxActors];
        actorsList[maxActors] := null;
        actors := actors[..maxActors][k := actors[maxActors]];
        assert View() == old(View())[..maxActors][k := old(View())[maxActors]];
        if actorsList[k] != null && actorsList[k].attachedActor >= 0 {
          actorsList[actorsList[k].attachedActor].attachedActor := k;
        }
      }
    }

    /** destroy_actor: the first actor with the id and what is attached to it; no effect for an unknown id. */
    method DestroyActor(actorId: int)
      requires Valid() && Ok(View())
      modifies this`maxActors, this`actors, actorsList, Objects()
      ensures Valid() && Ok(View())
      ensures View() == WithoutId(old(View()), actorId)
      ensures forall a :: a in actors ==> a in old(actors)
    {
      ghost var s := View();
      var i := FindIndex(actorId);
      if i < maxActors {
        DestroyIsExact(s, i);
        RemoveSlotLinks(s, i);
        RemoveSlotObjects(s, i);
        assert LinkOk(s, i);
        var attached := actorsList[i].attachedActor;
        if i != maxActors - 1 && attached == maxActors - 1 {
          attached := i;
        }
        RemoveSlot(i);
        if attached >= 0 {
          SecondIsRemovable(s, i);
          label second:
          assert forall a :: a in actors ==> a in old(actors);
          RemoveSlot(attached);
          assert forall a :: a in actors ==> a in old@second(actors);
        }
      }
    }

    method FindIndex(actorId: int) returns (i: nat)
      requires Valid()
      ensures i == Find(View(), actorId)
    {
      i := 0;
      while i < maxActors
        invariant 0 <= i <= maxActors && forall j :: 0 <= j < i ==> View()[j].id != actorId
      {
        assert View()[i].id == actorsList[i].actorId;
        if actorsList[i].actorId == actorId {
          break;
        }
        i := i + 1;
      }
      assert i < maxActors ==> View()[i].id == actorId;
    }

    method GetActorPtrFromId(actorId: int) returns (a: Actor?)
      requires Valid()
      ensures a == null <==> forall b :: b in actors ==> b.actorId != actorId
      ensures a != null ==> a in actors && a.actorId == actorId
    {
      var i := FindIndex(actorId);
      if i < maxActors {
        assert View()[i].id == actorsList[i].actorId;
        return actorsList[i];
      }
      forall j | 0 <= j < |actors| ensures actors[j].actorId != actorId {
        assert View()[j].id == actors[j].actorId;
      }
      a := null;
    }

    /** Takes the first free slot, which by density is the one after the last. */
    method AddActor(actorId: int) returns (i: nat)
      requires Valid() && maxActors < MAX_ACTORS
      modifies this`maxActors, this`actors, actorsList
      ensures Valid() && i == old(maxActors) == maxActors - 1
      ensures fresh(actors[i]) && actors == old(actors) + [actors[i]] && View() == Add(old(View()), actors[i], actorId)
    {
      var our := new Actor(actorId);
      i := 0;
      while i < maxActors && actorsList[i] != null
        invariant 0 <= i <= maxActors
      {
        i := i + 1;
      }
      actorsList[i] := our;
      if i >= maxActors {
        maxActors := i + 1;
      }
      actors := actors + [our];
    }

    /** Adds an attachment to the first actor with the id, if there is one and the kind of attachment exists. */
    method AddActorAttachment(actorId: int, legalType: bool)
      requires Valid() && Distinct(View()) && maxActors < MAX_ACTORS
      modifies this`maxActors, this`actors, actorsList, Objects()
      ensures Valid()
      ensures var i := Find(old(View()), actorId);
              if i < |old(View())| && legalType
              then && |actors| == old(|actors|) + 1 && actors[..old(|actors|)] == old(actors)
                   && fresh(actors[old(|actors|)]) && View() == Attach(old(View()), i, actors[old(|actors|)])
              else View() == old(View()) && actors == old(actors)
    {
      var i := FindIndex(actorId);
      if i < maxActors && legalType {
        var parent := actorsList[i];
        var id := AddActor(-1);
        ghost var t := View();
        assert t[i].obj == parent;
        actorsList[id].attachedActor := i;
        parent.attachedActor := id;
        forall j | 0 <= j < id && j != i ensures actors[j] != parent {
          assert old(View())[j].obj != old(View())[i].obj;
        }
        forall j | 0 <= j < id && j != i ensures View()[j] == old(View())[j] {
          assert actors[j].attachedActor == old(actors[j].attachedActor);
        }
        assert actors[id] != parent && t[id] == Slot(actors[id], -1, -1);
        assert View()[i] == old(View())[i].(attached := id) && View()[id] == Slot(actors[id], -1, i);
        assert View() == Attach(old(View()), i, actors[id]);
      }
    }

    /** Removes the attachment of the first actor with the id; that actor has to have one. */
    method RemoveActorAttachment(actorId: int)
      requires Valid() && Ok(View())
      requires var i := Find(View(), actorId); i < |View()| ==> 0 <= View()[i].attached
      modifies this`maxActors, this`actors, actorsList, Objects()
      ensures Valid() && Ok(View())
      ensures var i := Find(old(View()), actorId);
              View() == if i < |old(View())| then Step(old(View()), RemoveAttachment(actorId)) else old(View())
    {
      var i := FindIndex(actorId);
      if i < maxActors {
        DetachIsExact(View(), i);
        var att := actorsList[i].attachedActor;
        actorsList[i].attachedActor := -1;
        forall j | 0 <= j < |actors| && j != i ensures actors[j] != actors[i] {
          assert old(View())[j].obj != old(View())[i].obj;
        }
        assert View() == old(View())[i := old(View())[i].(attached := -1)];
        RemoveSlot(att);
      }
    }

    /** The search for duplicates goes on after a removal, at the slot just filled. */
    method RemoveDuplicates(actorId: int)
      requires Valid() && Ok(View()) && 0 <= actorId
      modifies this`maxActors, this`actors, actorsList, Objects()
      ensures Valid() && Ok(View()) && View() == WithoutId(old(View()), actorId) && maxActors <= old(maxActors)
      ensures forall a :: a in actors ==> a in old(actors) && a.actorId != actorId
    {
      var i := 0;
      ghost var found := false;
      while i < maxActors
        invariant Valid() && Ok(View())
        invariant forall a :: a in actors ==> a in old(actors)
        invariant View() == if found then WithoutId(old(View()), actorId) else old(View())
        invariant found ==> forall j :: 0 <= j < |View()| ==> View()[j].id != actorId
        invariant 0 <= i && (!found ==> i <= maxActors) && (found ==> maxActors < old(maxActors))
        invariant !found ==> forall j :: 0 <= j < i ==> View()[j].id != actorId
        decreases maxActors - i
      {
        assert View()[i].id == actorsList[i].actorId;
        if actorsList[i].actorId == actorId {
          label before:
          WithoutIdIsGone(View(), actorId);
          DestroyActor(actorsList[i].actorId);
          assert forall a :: a in actors ==> a in old@before(actors);
          found := true;
        } else {
          i := i + 1;
        }
      }
      forall j | 0 <= j < |actors| ensures actors[j].actorId != actorId {
        assert View()[j].id == actors[j].actorId;
      }
    }

    /** What the server sends replaces an actor with the same id, and brings its own attachment or none. */
    method AddActorFromServer(actorId: int, attachment: bool, legalType: bool)
      requires Valid() && Ok(View()) && maxActors + 2 <= MAX_ACTORS && 0 <= actorId
      modifies this`maxActors, this`actors, actorsList, Objects()
      ensures Valid() && Ok(View())
      ensures var s := WithoutId(old(View()), actorId);
              && |actors| == |s| + (if attachment && legalType then 2 else 1)
              && View() == if attachment && legalType then Attach(Add(s, actors[|s|], actorId), |s|, actors[|s| + 1])
                           else Add(s, actors[|s|], actorId)
    {
      hide Distinct, UniqueIds, Linked, WithoutId, Find, SlotsOf, Attach;
      ghost var s := WithoutId(View(), actorId);
      RemoveDuplicates(actorId);
      ViewOfActors();
      ghost var known := Objects();
      assert forall j :: 0 <= j < |s| ==> s[j].obj == actors[j] && actors[j] in known && s[j].id == actors[j].actorId;
      var i := AddActor(actorId);
      assert Objects() == known + {actors[i]};
      NewcomerKeeps(s, actors[i], actorId);
      if attachment {
        label added:
        AddActorAttachment(actorId, legalType);
        if legalType {
          ghost var t, b := Add(s, actors[i], actorId), actors[i + 1];
          forall j | 0 <= j <= i ensures t[j].obj != b {
            assert t[j].obj == old@added(actors)[j];
          }
          AttachKeepsIff(t, i, b);
          assert t[i] == Slot(actors[i], actorId, -1);
          assert actors[i] == actors[..i + 1][i];
        }
      }
    }
  }
}
