/** How long entries stay in a cache: as long as they are used, and not much longer. */
module CacheAges {
  import opened Seqs
  import opened CacheSpec
  import opened CacheLevels
  import opened CacheRuns

  // ---------- one clean ----------

  lemma CleanedEntries(t: Two, id: object, limit: Uint32, now: Uint32)
    ensures CleanFrom(t, id, |t.c.entries|, limit, now).c.entries == Staying(t.c.entries, limit, now)
  {
    var es := t.c.entries;
    CleanKeepsExactly(t, id, |es|, limit, now);
    assert es[..|es|] == es && es[|es|..] == [];
  }

  /** What a clean leaves: the entries without contents, those in use, and those whose time is not over yet. */
  lemma CleanedIff(t: Two, id: object, limit: Uint32, now: Uint32, e: Entry)
    requires e in t.c.entries
    ensures e in CleanFrom(t, id, |t.c.entries|, limit, now).c.entries <==>
            e.payload == null || 0 < e.count || now <= (e.time + limit) % 0x1_0000_0000
  {
    CleanedEntries(t, id, limit, now);
    FilterMembers(t.c.entries, x => !Goes(x, limit, now));
  }

  /** An entry in use survives every clean. */
  lemma InUseSurvives(t: Two, id: object, limit: Uint32, now: Uint32, e: Entry)
    requires e in t.c.entries && 0 < e.count
    ensures e in CleanFrom(t, id, |t.c.entries|, limit, now).c.entries
  {
    CleanedIff(t, id, limit, now, e);
  }

  /** An object that has just been used survives the next clean, however late, unless its count has run over. */
  lemma JustUsedSurvives(t: Two, k: nat, id: object, limit: Uint32, now: Uint32, later: Uint32)
    requires k < |t.c.entries| && t.c.entries[k].count < 0xFFFF_FFFF
    ensures var r := CleanFrom(t.(c := UsedAt(t.c, k, now)), id, |t.c.entries|, limit, later).c;
            exists e :: e in r.entries && e.obj == t.c.entries[k].obj && e.payload == t.c.entries[k].payload
  {
    var u := t.(c := UsedAt(t.c, k, now));
    var e := u.c.entries[k];
    assert e in u.c.entries;
    InUseSurvives(u, id, limit, later, e);
  }

  /** Compaction makes smaller what a clean would remove, and nothing else. */
  lemma CompactedIff(t: Two, id: object, i: nat, freed: Uint32, limit: Uint32, now: Uint32)
    requires i < |t.c.entries| && TwoOk(t) && 0 < freed
    ensures var e := t.c.entries[i];
            CompactOne(t, id, i, freed, limit, now).c.total != t.c.total <==>
            e.payload != null && e.count == 0 && (e.time + limit) % 0x1_0000_0000 < now
  {
    CompactOneFrees(t, id, i, freed, limit, now);
    TakenOff(t.c.total, freed);
    if t.c.entries[i].payload != null && Expired(t.c.entries[i], limit, now) {
      AdjustTotal(t.c, Neg(freed), t.c.entries[i].payload, now);
    }
    hide Adjust;
  }

  lemma TakenOff(a: Uint32, freed: Uint32)
    requires 0 < freed
    ensures Wrap(a + Neg(freed)) != a
  {
  }

  lemma CleanAddsNothing(t: Two, id: object, limit: Uint32, now: Uint32, e: Entry)
    requires e in CleanFrom(t, id, |t.c.entries|, limit, now).c.entries
    ensures e in t.c.entries
  {
    CleanedEntries(t, id, limit, now);
    FilterMembers(t.c.entries, x => !Goes(x, limit, now));
  }

  // ---------- operations that leave the entries in their slots ----------

  /** The same objects with the same contents in the same slots, used at no other time than now. */
  ghost predicate SameSlots(c: CacheV, r: CacheV, now: Uint32) {
    |r.entries| == |c.entries| && forall k :: 0 <= k < |c.entries| ==> SameSlot(c.entries[k], r.entries[k], now)
  }

  predicate SameSlot(e: Entry, f: Entry, now: Uint32) {
    f.obj == e.obj && f.payload == e.payload && (f.time == e.time || f.time == now)
  }

  lemma AdjustSameSlots(c: CacheV, delta: Uint32, p: object?, now: Uint32)
    ensures SameSlots(c, Adjust(c, delta, p, now), now)
    ensures forall k :: 0 <= k < |c.entries| && c.entries[k].payload != p ==>
              Adjust(c, delta, p, now).entries[k] == c.entries[k]
  {
  }

  lemma CompactOneSlots(t: Two, id: object, i: nat, freed: Uint32, limit: Uint32, now: Uint32)
    requires i < |t.c.entries|
    ensures SameSlots(t.c, CompactOne(t, id, i, freed, limit, now).c, now)
  {
    if t.c.entries[i].payload != null {
      AdjustSameSlots(t.c, Neg(freed), t.c.entries[i].payload, now);
    }
  }

  lemma {:induction false} CompactSlots(t: Two, id: object, i: nat, freed: seq<Uint32>, limit: Uint32, now: Uint32)
    requires i <= |t.c.entries| == |freed|
    ensures SameSlots(t.c, CompactFrom(t, id, i, freed, limit, now).c, now)
    decreases |freed| - i
  {
    if i < |freed| {
      CompactOneSlots(t, id, i, freed[i], limit, now);
      var r := CompactOne(t, id, i, freed[i], limit, now);
      hide CompactOne;
      CompactSlots(r, id, i + 1, freed, limit, now);
    }
  }

  // ---------- an entry in use stays ----------

  /** The cache has the object, last used at lo or later. */
  ghost predicate UsedSince(c: CacheV, o: Item, lo: int, hi: int) {
    exists e :: e in c.entries && e.obj == o && lo <= e.time <= hi
  }

  lemma SlotsKeepUse(c: CacheV, r: CacheV, o: Item, lo: int, hi: int, now: Uint32)
    requires SameSlots(c, r, now) && UsedSince(c, o, lo, hi) && lo <= hi <= now
    ensures UsedSince(r, o, lo, now)
  {
    var e :| e in c.entries && e.obj == o && lo <= e.time <= hi;
    var k :| 0 <= k < |c.entries| && c.entries[k] == e;
    assert SameSlot(c.entries[k], r.entries[k], now) && r.entries[k] in r.entries;
  }

  lemma MembersKeepUse(c: CacheV, r: CacheV, o: Item, lo: int, hi: int, now: int)
    requires UsedSince(c, o, lo, hi) && hi <= now && forall e :: e in c.entries && e.obj == o ==> e in r.entries
    ensures UsedSince(r, o, lo, now)
  {
  }

  lemma AddedMembers(c: CacheV, e: Entry)
    ensures forall x :: x in Add(c, e).entries <==> x in c.entries || x == e
  {
    var i := Place(c.entries, e.name);
    assert c.entries == c.entries[..i] + c.entries[i..];
  }

  lemma RenamedKeepsUse(c: CacheV, p: object?, name: string, now: Uint32, r: CacheV, o: Item, lo: int, hi: int)
    requires Renamed(c, p, name, now, r) && UsedSince(c, o, lo, hi) && lo <= hi <= now
    ensures UsedSince(r, o, lo, now)
  {
    var k := PtrIndex(c, p);
    if k < |c.entries| {
      var u := UsedAt(c, k, now);
      var es := u.entries[k := u.entries[k].(name := name)];
      PermutationMembers(r.entries, es);
      var e :| e in c.entries && e.obj == o && lo <= e.time <= hi;
      var j :| 0 <= j < |c.entries| && c.entries[j] == e;
      assert es[j] in es && es[j].obj == o && lo <= es[j].time <= now;
    }
  }

  lemma CleanKeepsUse(t: Two, id: object, limit: Uint32, o: Item, lo: int, hi: int, now: Uint32)
    requires UsedSince(t.c, o, lo, hi) && lo <= hi <= now <= lo + limit && now + limit < WIDTH
    ensures UsedSince(CleanFrom(t, id, |t.c.entries|, limit, now).c, o, lo, now)
  {
    var e :| e in t.c.entries && e.obj == o && lo <= e.time <= hi;
    CleanedIff(t, id, limit, now, e);
  }

  /** Not the end of the cache, and if a clean or a compaction, one within the time limit. */
  predicate InTime(op: Op, id: object, lo: int, now: Uint32) {
    match op
    case Clean(i, limit) => i == id ==> now <= lo + limit && now + limit < WIDTH
    case DeleteCache(i) => i != id
    case _ => true
  }

  lemma StepKeepsUse(w: World, op: Op, id: object, o: Item, lo: int, hi: int, now: Uint32)
    requires Admissible(w, op, now) && id in w.caches && UsedSince(w.caches[id].c, o, lo, hi)
    requires lo <= hi <= now && InTime(op, id, lo, now)
    ensures var r := Step(w, op, now); id in r.caches && UsedSince(r.caches[id].c, o, lo, now)
  {
    var c, t := w.caches[id].c, Both(w, id);
    hide Adjust, Add, CompactFrom, CleanFrom, Delete, PtrIndex, Renamed, UsedSince;
    if op.Init? || op.id != id {
      MembersKeepUse(c, c, o, lo, hi, now) by {
        hide *;
      }
    } else {
      match op
      case AddItem(_, e) =>
        AddedMembers(c, e);
        MembersKeepUse(c, AddBoth(t, id, e, now).c, o, lo, hi, now);
      case AdjustSize(_, delta, p) =>
        AdjustSameSlots(c, delta, p, now);
        SameSlotsSelf(c, now);
        SlotsKeepUse(c, AdjustBoth(t, id, delta, p, now).c, o, lo, hi, now);
      case SetName(_, p, name, result) =>
        RenamedKeepsUse(c, p, name, now, result, o, lo, hi);
      case Find(_, k) =>
        SlotsKeepUse(c, UsedAt(c, k, now), o, lo, hi, now);
      case Clean(_, limit) =>
        CleanKeepsUse(t, id, limit, o, lo, hi, now);
      case Compact(_, limit, freed) =>
        CompactSlots(t, id, 0, freed, limit, now);
        SlotsKeepUse(c, CompactFrom(t, id, 0, freed, limit, now).c, o, lo, hi, now);
    }
  }

  lemma SameSlotsSelf(c: CacheV, now: Uint32)
    ensures SameSlots(c, c, now)
  {
  }

  /** The operation uses the object: it is looked up, found by its contents, resized, renamed or added. */
  ghost predicate Uses(w: World, op: Op, id: object, o: Item, now: Uint32)
    requires Admissible(w, op, now)
  {
    match op
    case AddItem(i, e) => i == id && e.obj == o && e.time == now && |w.caches[id].c.entries| < w.caches[id].c.room
    case AdjustSize(i, _, p) => i == id && At(w.caches[id].c, PtrIndex(w.caches[id].c, p), o)
    case SetName(i, p, _, _) => i == id && At(w.caches[id].c, PtrIndex(w.caches[id].c, p), o)
    case Find(i, k) => i == id && At(w.caches[id].c, k, o)
    case _ => false
  }

  predicate At(c: CacheV, k: nat, o: Item) {
    k < |c.entries| && c.entries[k].obj == o
  }

  /** A use is noted with its time. */
  lemma UseIsNoted(w: World, op: Op, id: object, o: Item, now: Uint32)
    requires Admissible(w, op, now) && Uses(w, op, id, o, now)
    ensures var r := Step(w, op, now); id in r.caches && UsedSince(r.caches[id].c, o, now, now)
  {
    var c, r := w.caches[id].c, Step(w, op, now).caches[id].c;
    match op
    case AddItem(_, e) =>
      AddedMembers(c, e);
      assert e in r.entries;
    case AdjustSize(_, delta, p) =>
      var k := PtrIndex(c, p);
      assert r.entries[k] in r.entries && r.entries[k].time == now;
    case SetName(_, p, name, result) =>
      var k := PtrIndex(c, p);
      var u := UsedAt(c, k, now);
      var es := u.entries[k := u.entries[k].(name := name)];
      PermutationMembers(r.entries, es);
      assert es[k] in es && es[k].time == now;
    case Find(_, k) =>
      assert r.entries[k] in r.entries && r.entries[k].time == now;
  }

  /** The entry used last is the one found by its contents, also if others have the same. */
  lemma LastUsedIsFound(c: CacheV, k: nat, now: Uint32)
    requires Distinct(c.entries) && k < |c.entries|
    ensures PtrIndex(UsedAt(c, k, now), c.entries[k].payload) == k
  {
    var u := UsedAt(c, k, now);
    assert u.entries[k].obj == u.recent;
    assert forall i :: 0 <= i < |c.entries| ==> u.entries[i].obj == c.entries[i].obj;
  }

  /** The clock does not run backwards. */
  predicate Ticking(times: seq<Uint32>) {
    forall i, j :: 0 <= i < j < |times| ==> times[i] <= times[j]
  }

  /**
   * In every run, an object used at some time stays in its cache through all that happens, cleans and compactions
   * included, until its time limit is over (and the clock does not wrap around before the limit after that).
   */
  lemma {:induction false} UsedObjectsStay(worlds: seq<World>, ops: seq<Op>, times: seq<Uint32>, m: nat, n: nat,
                                           id: object, o: Item)
    requires Run(worlds, ops, times) && Ticking(times) && m < n <= |ops| && Uses(worlds[m], ops[m], id, o, times[m])
    requires forall i :: m < i < n ==> InTime(ops[i], id, times[m], times[i])
    ensures id in worlds[n].caches && UsedSince(worlds[n].caches[id].c, o, times[m], times[n - 1])
    decreases n
  {
    hide Step, UsedSince, Uses, InTime;
    if n == m + 1 {
      UseIsNoted(worlds[m], ops[m], id, o, times[m]);
    } else {
      UsedObjectsStay(worlds, ops, times, m, n - 1, id, o);
      StepKeepsUse(worlds[n - 1], ops[n - 1], id, o, times[m], times[n - 2], times[n - 1]);
    }
  }

  // ---------- an entry out of use goes ----------

  /** The object is there with contents that no other entry has, and was used last at time t. */
  ghost predicate LastUsed(c: CacheV, o: Item, p: object, t: int) {
    exists k :: 0 <= k < |c.entries| && LastUsedAt(c, k, o, p, t)
  }

  ghost predicate LastUsedAt(c: CacheV, k: nat, o: Item, p: object, t: int)
    requires k < |c.entries|
  {
    && c.entries[k].obj == o && c.entries[k].payload == p && c.entries[k].time == t
    && forall i :: 0 <= i < |c.entries| && i != k ==> c.entries[i].payload != p
  }

  /** Nothing has been done with it since its count was cleared. */
  ghost predicate Forgotten(c: CacheV, o: Item, p: object, t: int) {
    exists e :: e in c.entries && e.obj == o && e.payload == p && e.time == t && e.count == 0
  }

  lemma CompactOneAt(t: Two, id: object, i: nat, freed: Uint32, limit: Uint32, now: Uint32, k: nat, o: Item, p: object)
    requires i < |t.c.entries| && k < |t.c.entries| && LastUsedAt(t.c, k, o, p, t.c.entries[k].time)
    requires now <= t.c.entries[k].time + limit < WIDTH
    ensures var r := CompactOne(t, id, i, freed, limit, now).c;
            && k < |r.entries| && LastUsedAt(r, k, o, p, t.c.entries[k].time)
            && r.entries[k] == if i == k then t.c.entries[k].(count := 0) else t.c.entries[k]
  {
    var e := t.c.entries[i];
    CompactOneSlots(t, id, i, freed, limit, now);
    if e.payload != null {
      AdjustSameSlots(t.c, Neg(freed), e.payload, now);
    }
    hide Adjust;
  }

  lemma {:induction false} CompactAt(t: Two, id: object, i: nat, freed: seq<Uint32>, limit: Uint32, now: Uint32, k: nat,
                                     o: Item, p: object)
    requires i <= |t.c.entries| == |freed| && k < |t.c.entries| && LastUsedAt(t.c, k, o, p, t.c.entries[k].time)
    requires now <= t.c.entries[k].time + limit < WIDTH
    ensures var r := CompactFrom(t, id, i, freed, limit, now).c;
            && k < |r.entries| && r.entries[k] == if i <= k then t.c.entries[k].(count := 0) else t.c.entries[k]
    decreases |freed| - i
  {
    if i < |freed| {
      CompactOneAt(t, id, i, freed[i], limit, now, k, o, p);
      CompactOneSize(t, id, i, freed[i], limit, now);
      var r := CompactOne(t, id, i, freed[i], limit, now);
      hide CompactOne, LastUsedAt;
      CompactAt(r, id, i + 1, freed, limit, now, k, o, p);
    }
  }

  /** A compaction within the limit clears the count of an object and does not count as a use. */
  lemma CompactionForgets(w: World, id: object, limit: Uint32, freed: seq<Uint32>, now: Uint32,
                          o: Item, p: object, t: int)
    requires Admissible(w, Compact(id, limit, freed), now) && LastUsed(w.caches[id].c, o, p, t)
    requires now <= t + limit < WIDTH
    ensures Forgotten(Step(w, Compact(id, limit, freed), now).caches[id].c, o, p, t)
  {
    var c := w.caches[id].c;
    var k :| 0 <= k < |c.entries| && LastUsedAt(c, k, o, p, t);
    CompactAt(Both(w, id), id, 0, freed, limit, now, k, o, p);
    hide CompactFrom;
    var r := CompactFrom(Both(w, id), id, 0, freed, limit, now).c;
    assert r.entries[k] in r.entries;
  }

  /** The operation leaves the object alone: other objects, other contents, other caches, cleans within the limit. */
  ghost predicate Spares(w: World, op: Op, id: object, o: Item, p: object, t: int, now: Uint32)
    requires Admissible(w, op, now)
  {
    match op
    case AdjustSize(i, _, q) => i == id ==> q != p
    case SetName(i, q, _, _) => i == id ==> q != p
    case Find(i, k) => i == id ==> !At(w.caches[id].c, k, o)
    case Clean(i, limit) => i == id ==> now <= t + limit < WIDTH
    case Compact(i, limit, _) => i == id ==> LastUsed(w.caches[id].c, o, p, t) && now <= t + limit < WIDTH
    case DeleteCache(i) => i != id
    case _ => true
  }

  lemma RenamedSpares(c: CacheV, q: object?, name: string, now: Uint32, r: CacheV, o: Item, p: object, t: int)
    requires Renamed(c, q, name, now, r) && q != p && Forgotten(c, o, p, t)
    ensures Forgotten(r, o, p, t)
  {
    var k := PtrIndex(c, q);
    if k < |c.entries| {
      var e :| e in c.entries && e.obj == o && e.payload == p && e.time == t && e.count == 0;
      var u := UsedAt(c, k, now);
      var es := u.entries[k := u.entries[k].(name := name)];
      PermutationMembers(r.entries, es);
      var j :| 0 <= j < |c.entries| && c.entries[j] == e;
      assert es[j] == e && es[j] in es;
    }
  }

  lemma StepSpares(w: World, op: Op, id: object, o: Item, p: object, t: int, now: Uint32)
    requires Admissible(w, op, now) && id in w.caches && Forgotten(w.caches[id].c, o, p, t)
    requires Spares(w, op, id, o, p, t, now)
    ensures var r := Step(w, op, now); id in r.caches && Forgotten(r.caches[id].c, o, p, t)
  {
    var c, b := w.caches[id].c, Both(w, id);
    if op.Compact? && op.id == id {
      CompactionForgets(w, id, op.limit, op.freed, now, o, p, t);
    } else if op.SetName? && op.id == id {
      RenamedSpares(c, op.p, op.name, now, op.result, o, p, t);
    } else if !op.Init? && op.id == id {
      var e :| e in c.entries && e.obj == o && e.payload == p && e.time == t && e.count == 0;
      hide Adjust, Add, CompactFrom, CleanFrom, Delete, PtrIndex, Renamed, Forgotten;
      var r := Step(w, op, now).caches[id].c;
      assert e in r.entries by {
        EntrySpared(b, op, id, now, e);
      }
      ForgottenIs(r, e);
    }
  }

  lemma ForgottenIs(c: CacheV, e: Entry)
    requires e in c.entries && e.payload != null && e.count == 0
    ensures Forgotten(c, e.obj, e.payload, e.time)
  {
  }

  /** An entry that an operation on its cache leaves as it is. */
  lemma EntrySpared(b: Two, op: Op, id: object, now: Uint32, e: Entry)
    requires e in b.c.entries && e.payload != null && (op.AddItem? || op.AdjustSize? || op.Find? || op.Clean?)
    requires op.AdjustSize? ==> op.p != e.payload
    requires op.Find? ==> op.k < |b.c.entries| && b.c.entries[op.k].obj != e.obj
    requires op.Clean? ==> now <= e.time + op.limit < WIDTH
    ensures op.AddItem? ==> e in AddBoth(b, id, op.e, now).c.entries
    ensures op.AdjustSize? ==> e in AdjustBoth(b, id, op.delta, op.p, now).c.entries
    ensures op.Find? ==> e in UsedAt(b.c, op.k, now).entries
    ensures op.Clean? ==> e in CleanFrom(b, id, |b.c.entries|, op.limit, now).c.entries
  {
    hide Adjust, Add, CleanFrom;
    var j :| 0 <= j < |b.c.entries| && b.c.entries[j] == e;
    match op
    case AddItem(_, x) => AddedMembers(b.c, x);
    case AdjustSize(_, delta, p) =>
      AdjustSameSlots(b.c, delta, p, now);
      assert Adjust(b.c, delta, p, now).entries[j] == e;
    case Find(_, k) => assert UsedAt(b.c, k, now).entries[j] == e;
    case Clean(_, limit) => CleanedIff(b, id, limit, now, e);
    case _ =>
  }

  lemma {:induction false} SparedStaysForgotten(worlds: seq<World>, ops: seq<Op>, times: seq<Uint32>, m: nat, n: nat,
                                                id: object, o: Item, p: object, t: int)
    requires Run(worlds, ops, times) && m <= n <= |ops|
    requires id in worlds[m].caches && Forgotten(worlds[m].caches[id].c, o, p, t)
    requires forall i :: m <= i < n ==> Spares(worlds[i], ops[i], id, o, p, t, times[i])
    ensures id in worlds[n].caches && Forgotten(worlds[n].caches[id].c, o, p, t)
    decreases n
  {
    hide Step, Forgotten, Spares;
    if m < n {
      SparedStaysForgotten(worlds, ops, times, m, n - 1, id, o, p, t);
      StepSpares(worlds[n - 1], ops[n - 1], id, o, p, t, times[n - 1]);
    }
  }

  lemma CleanTakesForgotten(w: World, id: object, limit: Uint32, now: Uint32, o: Item, p: object, t: int)
    requires Inv(w) && id in w.caches && Forgotten(w.caches[id].c, o, p, t) && t + limit < now
    ensures forall e :: e in Step(w, Clean(id, limit), now).caches[id].c.entries ==> e.obj != o
  {
    var c, r := w.caches[id].c, Step(w, Clean(id, limit), now).caches[id].c;
    var e :| e in c.entries && e.obj == o && e.payload == p && e.time == t && e.count == 0;
    assert LiveOk(w, id);
    hide CleanFrom;
    forall x | x in r.entries ensures x.obj != o {
      CleanAddsNothing(Both(w, id), id, limit, now, x);
      CleanedIff(Both(w, id), id, limit, now, e);
      if x.obj == o {
        OneEntryEach(c, x, e);
      }
    }
  }

  lemma OneEntryEach(c: CacheV, e: Entry, f: Entry)
    requires Ok(c) && e in c.entries && f in c.entries && e.obj == f.obj
    ensures e == f
  {
    var i :| 0 <= i < |c.entries| && c.entries[i] == e;
    var j :| 0 <= j < |c.entries| && c.entries[j] == f;
    assert i == j;
  }

  /**
   * In every run, an object with contents that was last used at time t goes at the first clean after its limit, if a
   * compaction within the limit has cleared its count and it is left alone from then on.
   */
  lemma UnusedObjectsGo(worlds: seq<World>, ops: seq<Op>, times: seq<Uint32>, m: nat, n: nat,
                        id: object, o: Item, p: object, t: int)
    requires Run(worlds, ops, times) && Inv(worlds[0]) && m < n < |ops|
    requires ops[m].Compact? && ops[m].id == id && LastUsed(worlds[m].caches[id].c, o, p, t)
    requires times[m] <= t + ops[m].limit < WIDTH
    requires forall i :: m < i < n ==> Spares(worlds[i], ops[i], id, o, p, t, times[i])
    requires ops[n].Clean? && ops[n].id == id && t + ops[n].limit < times[n]
    ensures id in worlds[n + 1].caches
    ensures forall e :: e in worlds[n + 1].caches[id].c.entries ==> e.obj != o
  {
    RunsKeepInv(worlds, ops, times, n);
    assert Admissible(worlds[m], ops[m], times[m]) && worlds[m + 1] == Step(worlds[m], ops[m], times[m]);
    CompactionForgets(worlds[m], id, ops[m].limit, ops[m].freed, times[m], o, p, t);
    hide Forgotten, Spares, LastUsed, CompactFrom, CleanFrom;
    SparedStaysForgotten(worlds, ops, times, m + 1, n, id, o, p, t);
    assert worlds[n + 1] == Step(worlds[n], ops[n], times[n]);
    CleanTakesForgotten(worlds[n], id, ops[n].limit, times[n], o, p, t);
  }
}
