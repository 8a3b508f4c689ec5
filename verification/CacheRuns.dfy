/** All live caches and the system, over whole runs: the books always balance. */
module CacheRuns {
  import opened CacheSpec
  import opened CacheLevels

  /** A cache and the size of its bare structure. */
  datatype Live = Live(base: Uint32, c: CacheV)

  datatype World = World(sys: CacheV, caches: map<object, Live>)

  ghost predicate Inv(w: World) {
    && Ok(w.sys) && UniquePayloads(w.sys.entries)
    && (forall i :: 0 <= i < |w.sys.entries| ==> w.sys.entries[i].payload in w.caches)
    && (forall id :: id in w.caches ==> LiveOk(w, id))
  }

  ghost predicate LiveOk(w: World, id: object)
    requires id in w.caches
  {
    Ok(w.caches[id].c) && Balanced(w.sys, id, w.caches[id].base, w.caches[id].c.total)
  }

  datatype Op =
    | Init(e: Entry, room: nat)
    | AddItem(id: object, e: Entry)
    | AdjustSize(id: object, delta: Uint32, p: object?)
    | SetName(id: object, p: object?, name: string, result: CacheV)
    | Find(id: object, k: nat)
    | Clean(id: object, limit: Uint32)
    | Compact(id: object, limit: Uint32, freed: seq<Uint32>)
    | DeleteCache(id: object)

  function Both(w: World, id: object): Two
    requires id in w.caches
  {
    Two(w.sys, w.caches[id].c)
  }

  function Put(w: World, id: object, t: Two): World
    requires id in w.caches
  {
    World(t.sys, w.caches[id := w.caches[id].(c := t.c)])
  }

  ghost predicate FreshIn(obj: Item, c: CacheV) {
    forall i :: 0 <= i < |c.entries| ==> c.entries[i].obj != obj
  }

  /** Operations are on live caches; new entries are new objects; sorting may order equal names in any way. */
  ghost predicate Admissible(w: World, op: Op, now: Uint32) {
    match op
    case Init(e, _) => e.payload != null && e.payload !in w.caches && FreshIn(e.obj, w.sys)
    case AddItem(id, e) => id in w.caches && FreshIn(e.obj, w.caches[id].c)
    case SetName(id, p, name, result) => id in w.caches && Renamed(w.caches[id].c, p, name, now, result)
    case Find(id, k) => id in w.caches && k < |w.caches[id].c.entries|
    case Compact(id, _, freed) => id in w.caches && |freed| == |w.caches[id].c.entries|
    case AdjustSize(id, _, _) => id in w.caches
    case Clean(id, _) => id in w.caches
    case DeleteCache(id) => id in w.caches
  }

  ghost function Step(w: World, op: Op, now: Uint32): World
    requires Admissible(w, op, now)
  {
    match op
    case Init(e, room) =>
      World(if |w.sys.entries| >= w.sys.room then w.sys else Add(w.sys, e),
            w.caches[e.payload := Live(e.size, CacheV([], null, 0, room))])
    case AddItem(id, e) => Put(w, id, AddBoth(Both(w, id), id, e, now))
    case AdjustSize(id, delta, p) => Put(w, id, AdjustBoth(Both(w, id), id, delta, p, now))
    case SetName(id, _, _, result) => Put(w, id, Two(w.sys, result))
    case Find(id, k) => Put(w, id, Two(w.sys, UsedAt(w.caches[id].c, k, now)))
    case Clean(id, limit) => Put(w, id, CleanFrom(Both(w, id), id, |w.caches[id].c.entries|, limit, now))
    case Compact(id, limit, freed) => Put(w, id, CompactFrom(Both(w, id), id, 0, freed, limit, now))
    case DeleteCache(id) => World(Delete(Both(w, id), id, now), w.caches - {id})
  }

  lemma PassedOnKeepsInv(w: World, id: object, t: Two)
    requires Inv(w) && id in w.caches && PassedOn(Both(w, id), t, id)
    ensures Inv(Put(w, id, t))
  {
    var d := t.c.total - w.caches[id].c.total;
    var r, b := Put(w, id, t), w.caches[id].base;
    ChargedKeepsUnique(w.sys, t.sys, id, d);
    ChargedElsewhere(w.sys, t.sys, id, d);
    assert LiveOk(w, id);
    ChargedKeepsBalanced(w.sys, t.sys, id, d, b, w.caches[id].c.total);
    assert Wrap(w.caches[id].c.total + d) == t.c.total;
    assert forall i :: 0 <= i < |w.sys.entries| ==> w.sys.entries[i].payload in w.caches;
    hide Ok, Charged, Balanced, UniquePayloads, Wrap;
    forall i | i in r.caches ensures LiveOk(r, i) {
      if i != id {
        assert LiveOk(w, i);
        BalancedElsewhere(w.sys, t.sys, id, d, i, w.caches[i].base, w.caches[i].c.total);
      }
    }
  }

  lemma BalancedElsewhere(s: CacheV, r: CacheV, id: object, d: int, other: object, base: Uint32, total: Uint32)
    requires Charged(s, r, id, d) && other != id && Balanced(s, other, base, total)
    ensures Balanced(r, other, base, total)
  {
  }

  lemma SameTotalPassesOn(t: Two, c: CacheV, id: object)
    requires TwoOk(t) && Ok(c) && c.total == t.c.total
    ensures PassedOn(t, Two(t.sys, c), id)
  {
    ChargedNothing(t.sys, id);
  }

  lemma InitKeepsInv(w: World, e: Entry, room: nat, now: Uint32)
    requires Inv(w) && Admissible(w, Init(e, room), now)
    ensures Inv(Step(w, Init(e, room), now))
  {
    var r := Step(w, Init(e, room), now);
    assert forall i :: 0 <= i < |w.sys.entries| ==> w.sys.entries[i].payload in w.caches;
    if |w.sys.entries| < w.sys.room {
      AddedEntries(w.sys, e);
    }
    EmptyIsOk(room);
    hide Ok, UniquePayloads, Add;
    assert r.sys.entries == w.sys.entries ==>
             forall i :: 0 <= i < |r.sys.entries| ==> r.sys.entries[i] in w.sys.entries;
    forall id | id in r.caches ensures LiveOk(r, id) {
      if id != e.payload {
        assert LiveOk(w, id);
        BalancedAmong(w.sys, r.sys, id, w.caches[id].base, w.caches[id].c.total);
      } else {
        NewIsBalanced(w.sys, r.sys, e);
      }
    }
  }

  lemma NewIsBalanced(s: CacheV, r: CacheV, e: Entry)
    requires e.payload != null && forall i :: 0 <= i < |s.entries| ==> s.entries[i].payload != e.payload
    requires forall i :: 0 <= i < |r.entries| ==> r.entries[i] == e || r.entries[i] in s.entries
    ensures Balanced(r, e.payload, e.size, 0)
  {
  }

  lemma AddedEntries(s: CacheV, e: Entry)
    requires Ok(s) && UniquePayloads(s.entries) && |s.entries| < s.room && FreshIn(e.obj, s)
    requires forall i :: 0 <= i < |s.entries| ==> s.entries[i].payload != e.payload
    ensures Ok(Add(s, e)) && UniquePayloads(Add(s, e).entries)
    ensures forall i :: 0 <= i < |Add(s, e).entries| ==> Add(s, e).entries[i] == e || Add(s, e).entries[i] in s.entries
  {
    AddKeepsOk(s, e);
    Inserted(s.entries, Place(s.entries, e.name), e);
  }

  lemma Inserted(es: seq<Entry>, k: nat, e: Entry)
    requires k <= |es| && UniquePayloads(es) && forall i :: 0 <= i < |es| ==> es[i].payload != e.payload
    ensures var r := es[..k] + [e] + es[k..];
            UniquePayloads(r) && forall i :: 0 <= i < |r| ==> r[i] == e || r[i] in es
  {
    var r := es[..k] + [e] + es[k..];
    assert forall i :: 0 <= i < |r| ==> r[i] == if i < k then es[i] else if i == k then e else es[i - 1];
  }

  lemma Dropped(es: seq<Entry>, k: nat)
    requires k < |es| && UniquePayloads(es)
    ensures var r := es[..k] + es[k + 1..];
            UniquePayloads(r) && forall i :: 0 <= i < |r| ==> r[i] in es && r[i].payload != es[k].payload
  {
    var r := es[..k] + es[k + 1..];
    assert forall i :: 0 <= i < |r| ==> r[i] == es[if i < k then i else i + 1];
  }

  lemma BalancedAmong(s: CacheV, r: CacheV, id: object, base: Uint32, total: Uint32)
    requires Balanced(s, id, base, total)
    requires forall i :: 0 <= i < |r.entries| ==> r.entries[i].payload == id ==> r.entries[i] in s.entries
    ensures Balanced(r, id, base, total)
  {
  }

  lemma EmptyIsOk(room: nat)
    ensures Ok(CacheV([], null, 0, room))
  {
  }

  lemma DeleteKeepsInv(w: World, id: object, now: Uint32)
    requires Inv(w) && id in w.caches
    ensures Inv(Step(w, DeleteCache(id), now))
  {
    var r, es := Step(w, DeleteCache(id), now), w.sys.entries;
    assert LiveOk(w, id);
    DeletedEntries(Both(w, id), id, w.caches[id].base, now);
    hide Ok, Delete, UniquePayloads;
    assert forall i :: 0 <= i < |es| ==> es[i].payload in w.caches;
    forall i | i in r.caches ensures LiveOk(r, i) {
      assert LiveOk(w, i);
      BalancedAmong(w.sys, r.sys, i, w.caches[i].base, w.caches[i].c.total);
    }
  }

  lemma DeletedEntries(t: Two, id: object, base: Uint32, now: Uint32)
    requires TwoOk(t) && Balanced(t.sys, id, base, t.c.total)
    ensures var r := Delete(t, id, now);
            && Ok(r) && UniquePayloads(r.entries)
            && forall i :: 0 <= i < |r.entries| ==> r.entries[i] in t.sys.entries && r.entries[i].payload != id
  {
    DeleteIsExact(t, id, base, now);
    var es, k := t.sys.entries, FirstWith(t.sys.entries, id);
    hide Ok, Delete, UniquePayloads;
    if k < |es| {
      Dropped(es, k);
    }
  }

  /** Every operation keeps all caches sorted, their totals right and the system's account of them balanced. */
  lemma StepKeepsInv(w: World, op: Op, now: Uint32)
    requires Inv(w) && Admissible(w, op, now)
    ensures Inv(Step(w, op, now))
  {
    hide Ok, PassedOn;
    if op.Init? {
      InitKeepsInv(w, op.e, op.room, now);
    } else if op.DeleteCache? {
      DeleteKeepsInv(w, op.id, now);
    } else {
      var id := op.id;
      var t := Both(w, id);
      assert LiveOk(w, id);
      if op.AddItem? {
        AddPassesOn(t, id, op.e, now);
        PassedOnKeepsInv(w, id, AddBoth(t, id, op.e, now));
      } else if op.AdjustSize? {
        AdjustPassesOn(t, id, op.delta, op.p, now);
        PassedOnKeepsInv(w, id, AdjustBoth(t, id, op.delta, op.p, now));
      } else if op.SetName? {
        RenamedKeepsOk(t.c, op.p, op.name, now, op.result);
        SameTotalPassesOn(t, op.result, id);
        PassedOnKeepsInv(w, id, Two(t.sys, op.result));
      } else if op.Find? {
        UseKeepsOk(t.c, op.k, now);
        SameTotalPassesOn(t, UsedAt(t.c, op.k, now), id);
        PassedOnKeepsInv(w, id, Two(t.sys, UsedAt(t.c, op.k, now)));
      } else if op.Clean? {
        CleanPassesOn(t, id, |t.c.entries|, op.limit, now);
        PassedOnKeepsInv(w, id, CleanFrom(t, id, |t.c.entries|, op.limit, now));
      } else {
        CompactPassesOn(t, id, 0, op.freed, op.limit, now);
        PassedOnKeepsInv(w, id, CompactFrom(t, id, 0, op.freed, op.limit, now));
      }
    }
  }

  ghost predicate Run(worlds: seq<World>, ops: seq<Op>, times: seq<Uint32>) {
    && |worlds| == |ops| + 1 == |times| + 1
    && forall i :: 0 <= i < |ops| ==>
         Admissible(worlds[i], ops[i], times[i]) && worlds[i + 1] == Step(worlds[i], ops[i], times[i])
  }

  /** What the registered caches take up. */
  ghost function Footprint(w: World, es: seq<Entry>): int
    requires forall i :: 0 <= i < |es| ==> es[i].payload in w.caches
  {
    if es == [] then 0 else w.caches[es[0].payload].base + w.caches[es[0].payload].c.total + Footprint(w, es[1..])
  }

  lemma {:induction false} SizesAreFootprints(w: World, es: seq<Entry>)
    requires forall i :: 0 <= i < |es| ==> es[i].payload in w.caches
    requires forall i :: 0 <= i < |es| ==>
               es[i].size == Wrap(w.caches[es[i].payload].base + w.caches[es[i].payload].c.total)
    ensures Wrap(Sum(es)) == Wrap(Footprint(w, es))
  {
    if es != [] {
      SizesAreFootprints(w, es[1..]);
      var a := w.caches[es[0].payload].base + w.caches[es[0].payload].c.total;
      WrapSums(a, Sum(es[1..]), 0);
      WrapAlike(a, Sum(es[1..]), Footprint(w, es[1..]));
      hide Wrap;
    }
  }

  lemma {:induction false} RunsKeepInv(worlds: seq<World>, ops: seq<Op>, times: seq<Uint32>, n: nat)
    requires Run(worlds, ops, times) && Inv(worlds[0]) && n <= |ops|
    ensures Inv(worlds[n])
    decreases n
  {
    if 0 < n {
      RunsKeepInv(worlds, ops, times, n - 1);
      StepKeepsInv(worlds[n - 1], ops[n - 1], times[n - 1]);
    }
  }

  /** In every run the system's total is what the registered live caches take up, base and contents, modulo 2^32. */
  lemma SystemCountsEverything(worlds: seq<World>, ops: seq<Op>, times: seq<Uint32>, n: nat)
    requires Run(worlds, ops, times) && Inv(worlds[0]) && n <= |ops|
    ensures Inv(worlds[n]) && worlds[n].sys.total == Wrap(Footprint(worlds[n], worlds[n].sys.entries))
  {
    RunsKeepInv(worlds, ops, times, n);
    var w := worlds[n];
    forall i | 0 <= i < |w.sys.entries|
      ensures w.sys.entries[i].size ==
              Wrap(w.caches[w.sys.entries[i].payload].base + w.caches[w.sys.entries[i].payload].c.total)
    {
      assert LiveOk(w, w.sys.entries[i].payload);
    }
    SizesAreFootprints(w, w.sys.entries);
  }
}
