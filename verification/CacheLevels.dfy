/**
 * Caches and the system that accounts for them. A change of size is passed on to the entry that the system holds
 * for the cache; deleting a cache goes through the system's own removal, which calls the deletion again.
 */
module CacheLevels {
  import opened Seqs
  import opened CacheSpec

  /** The system and one other cache. */
  datatype Two = Two(sys: CacheV, c: CacheV)

  function AdjustBoth(t: Two, id: object, delta: Uint32, p: object?, now: Uint32): Two {
    if PtrIndex(t.c, p) < |t.c.entries| then Two(Adjust(t.sys, delta, id, now), Adjust(t.c, delta, p, now)) else t
  }

  function AddBoth(t: Two, id: object, e: Entry, now: Uint32): Two {
    if |t.c.entries| >= t.c.room then t else Two(Adjust(t.sys, e.size, id, now), Add(t.c, e))
  }

  function RemoveBoth(t: Two, id: object, k: nat, now: Uint32): Two
    requires k < |t.c.entries|
  {
    Two(Adjust(t.sys, Neg(t.c.entries[k].size), id, now), Remove(t.c, k))
  }

  /** cache_remove_all, from the last entry on. */
  function RemoveAll(t: Two, id: object, now: Uint32): Two
    decreases |t.c.entries|
  {
    if t.c.entries == [] then t.(c := t.c.(recent := null))
    else RemoveAll(RemoveBoth(t, id, |t.c.entries| - 1, now), id, now)
  }

  predicate Expired(e: Entry, limit: Uint32, now: Uint32) {
    e.count == 0 && Wrap(e.time + limit) < now
  }

  predicate Goes(e: Entry, limit: Uint32, now: Uint32) {
    e.payload != null && Expired(e, limit, now)
  }

  /** The entries in use or not yet expired. */
  function Staying(es: seq<Entry>, limit: Uint32, now: Uint32): seq<Entry> {
    Filter(es, e => !Goes(e, limit, now))
  }

  /** cache_clean below index i, from the top down. */
  function CleanFrom(t: Two, id: object, i: nat, limit: Uint32, now: Uint32): Two
    requires i <= |t.c.entries|
    decreases i
  {
    if i == 0 then t
    else if Goes(t.c.entries[i - 1], limit, now) then CleanFrom(RemoveBoth(t, id, i - 1, now), id, i - 1, limit, now)
    else CleanFrom(t, id, i - 1, limit, now)
  }

  /** cache_compact from index i; freed says how much each compaction yields. */
  function CompactFrom(t: Two, id: object, i: nat, freed: seq<Uint32>, limit: Uint32, now: Uint32): Two
    requires i <= |t.c.entries| == |freed|
    decreases |freed| - i
  {
    if i == |freed| then t else
      CompactOneSize(t, id, i, freed[i], limit, now);
      CompactFrom(CompactOne(t, id, i, freed[i], limit, now), id, i + 1, freed, limit, now)
  }

  function CompactOne(t: Two, id: object, i: nat, freed: Uint32, limit: Uint32, now: Uint32): Two
    requires i < |t.c.entries|
  {
    var e := t.c.entries[i];
    if e.payload == null then t
    else if Expired(e, limit, now) then AdjustBoth(t, id, Neg(freed), e.payload, now)
    else t.(c := t.c.(entries := t.c.entries[i := e.(count := 0)]))
  }

  /** What cache_compact reports from index i on. */
  function CompactFreed(t: Two, id: object, i: nat, freed: seq<Uint32>, limit: Uint32, now: Uint32): Uint32
    requires i <= |t.c.entries| == |freed|
    decreases |freed| - i
  {
    if i == |freed| then 0 else
      CompactOneSize(t, id, i, freed[i], limit, now);
      var rest := CompactFreed(CompactOne(t, id, i, freed[i], limit, now), id, i + 1, freed, limit, now);
      Wrap(rest + Yield(t, i, freed[i], limit, now))
  }

  function Yield(t: Two, i: nat, freed: Uint32, limit: Uint32, now: Uint32): Uint32
    requires i < |t.c.entries|
  {
    if Goes(t.c.entries[i], limit, now) then freed else 0
  }

  lemma CompactOneSize(t: Two, id: object, i: nat, freed: Uint32, limit: Uint32, now: Uint32)
    requires i < |t.c.entries|
    ensures |CompactOne(t, id, i, freed, limit, now).c.entries| == |t.c.entries|
  {
  }

  /**
   * The system after cache_delete. Its entry for the cache is lowered by the total, lowered again for each entry,
   * and once more by what is then left of the total, from inside the removal of the system's entry.
   */
  function Delete(t: Two, id: object, now: Uint32): CacheV {
    var t1 := RemoveAll(t.(sys := Adjust(t.sys, Neg(t.c.total), id, now)), id, now);
    Unregistered(t1.sys, id, t1.c.total, now)
  }

  /** The system without its entry for the cache; total is what is left of the total of that. */
  function Unregistered(sys: CacheV, id: object, total: Uint32, now: Uint32): CacheV {
    var k := PtrIndex(sys, id);
    var s := FindPtr(sys, id, now);
    if k == |s.entries| then s else Removing(s, k, Neg(total), id, now)
  }

  /** cache_remove on the system, with the deletion of the cache in the middle. */
  function Removing(s: CacheV, k: nat, delta: Uint32, id: object, now: Uint32): CacheV
    requires k < |s.entries|
  {
    AdjustSize(s, delta, id, now);
    Remove(Adjust(s, delta, id, now), k)
  }

  lemma AdjustSize(s: CacheV, delta: Uint32, id: object, now: Uint32)
    ensures |Adjust(s, delta, id, now).entries| == |s.entries|
  {
  }

  // ---------- the system's account of a cache ----------

  ghost predicate UniquePayloads(es: seq<Entry>) {
    forall i, j :: 0 <= i < j < |es| ==> es[i].payload != es[j].payload
  }

  ghost predicate Registered(s: CacheV, id: object) {
    exists k :: 0 <= k < |s.entries| && s.entries[k].payload == id
  }

  /** The system's entry for the cache, if there is one, has its base size and its total. */
  ghost predicate Balanced(s: CacheV, id: object, base: Uint32, total: Uint32) {
    forall k :: 0 <= k < |s.entries| && s.entries[k].payload == id ==> s.entries[k].size == Wrap(base + total)
  }

  /** The same entries, but the one for id counts delta more and so does the total; the others are untouched. */
  ghost predicate Charged(s: CacheV, r: CacheV, id: object, delta: int) {
    && |r.entries| == |s.entries| && r.room == s.room
    && (forall i :: 0 <= i < |s.entries| ==>
          if s.entries[i].payload == id
          then && r.entries[i].payload == id
               && r.entries[i].obj == s.entries[i].obj && r.entries[i].name == s.entries[i].name
               && r.entries[i].size == Wrap(s.entries[i].size + delta)
          else r.entries[i] == s.entries[i])
    && r.total == (if Registered(s, id) then Wrap(s.total + delta) else s.total)
  }

  lemma AdjustCharges(s: CacheV, delta: Uint32, id: object, now: Uint32)
    requires UniquePayloads(s.entries)
    ensures Charged(s, Adjust(s, delta, id, now), id, delta)
  {
  }

  lemma ChargedKeepsUnique(s: CacheV, r: CacheV, id: object, delta: int)
    requires UniquePayloads(s.entries) && Charged(s, r, id, delta)
    ensures UniquePayloads(r.entries) && (forall p: object :: Registered(r, p) <==> Registered(s, p))
  {
    assert forall i :: 0 <= i < |s.entries| ==> r.entries[i].payload == s.entries[i].payload;
  }

  lemma ChargedNothing(s: CacheV, id: object)
    requires Ok(s)
    ensures Charged(s, s, id, 0)
  {
  }

  lemma ChargedTwice(s: CacheV, r: CacheV, q: CacheV, id: object, d: int, e: int)
    requires UniquePayloads(s.entries) && Charged(s, r, id, d) && Charged(r, q, id, e)
    ensures Charged(s, q, id, d + e)
  {
    ChargedKeepsUnique(s, r, id, d);
    WrapSums(s.total + d, e, 0);
    forall i | 0 <= i < |s.entries| && s.entries[i].payload == id
      ensures q.entries[i].size == Wrap(s.entries[i].size + (d + e))
    {
      WrapSums(s.entries[i].size + d, e, 0);
    }
  }

  lemma ChargedAlike(s: CacheV, r: CacheV, id: object, d: int, e: int)
    requires Charged(s, r, id, d) && Wrap(d) == Wrap(e)
    ensures Charged(s, r, id, e)
  {
    WrapAlike(s.total, d, e);
    forall i | 0 <= i < |s.entries| && s.entries[i].payload == id
      ensures Wrap(s.entries[i].size + d) == Wrap(s.entries[i].size + e)
    {
      WrapAlike(s.entries[i].size, d, e);
    }
  }

  lemma WrapAlike(a: int, d: int, e: int)
    requires Wrap(d) == Wrap(e)
    ensures Wrap(a + d) == Wrap(a + e)
  {
    WrapSums(d, a, 0);
    WrapSums(e, a, 0);
  }

  /** Charging the same to both sides keeps the account. */
  lemma ChargedKeepsBalanced(s: CacheV, r: CacheV, id: object, delta: int, base: Uint32, total: Uint32)
    requires Charged(s, r, id, delta) && Balanced(s, id, base, total)
    ensures Balanced(r, id, base, Wrap(total + delta))
  {
    forall k | 0 <= k < |r.entries| && r.entries[k].payload == id
      ensures r.entries[k].size == Wrap(base + Wrap(total + delta))
    {
      WrapSums(base + total, delta, 0);
      WrapSums(total + delta, base, 0);
    }
  }

  /** What an operation on one cache does to the system: a charge of what it does to the total of the cache. */
  ghost predicate PassedOn(t: Two, r: Two, id: object) {
    Ok(r.sys) && Ok(r.c) && Charged(t.sys, r.sys, id, r.c.total - t.c.total)
  }

  ghost predicate TwoOk(t: Two) {
    Ok(t.sys) && Ok(t.c) && UniquePayloads(t.sys.entries)
  }

  lemma PassedOnTwice(t: Two, r: Two, q: Two, id: object)
    requires TwoOk(t) && PassedOn(t, r, id) && PassedOn(r, q, id)
    ensures PassedOn(t, q, id)
  {
    hide Charged, Ok;
    ChargedTwice(t.sys, r.sys, q.sys, id, r.c.total - t.c.total, q.c.total - r.c.total);
  }

  lemma PassedOnKeepsTwoOk(t: Two, r: Two, id: object)
    requires TwoOk(t) && PassedOn(t, r, id)
    ensures TwoOk(r)
  {
    ChargedKeepsUnique(t.sys, r.sys, id, r.c.total - t.c.total);
  }

  lemma AdjustPassesOn(t: Two, id: object, delta: Uint32, p: object?, now: Uint32)
    requires TwoOk(t)
    ensures PassedOn(t, AdjustBoth(t, id, delta, p, now), id)
  {
    var r := AdjustBoth(t, id, delta, p, now);
    AdjustKeepsOk(t.sys, delta, id, now);
    AdjustKeepsOk(t.c, delta, p, now);
    AdjustCharges(t.sys, delta, id, now);
    if PtrIndex(t.c, p) < |t.c.entries| {
      AdjustTotal(t.c, delta, p, now);
      WrapChange(t.c.total, delta);
      hide Charged, Ok, Wrap, UniquePayloads, Adjust;
      ChargedAlike(t.sys, r.sys, id, delta, r.c.total - t.c.total);
    } else {
      ChargedNothing(t.sys, id);
    }
  }

  lemma AdjustTotal(c: CacheV, delta: Uint32, p: object?, now: Uint32)
    requires PtrIndex(c, p) < |c.entries|
    ensures Adjust(c, delta, p, now).total == Wrap(c.total + delta)
  {
  }

  lemma AddPassesOn(t: Two, id: object, e: Entry, now: Uint32)
    requires TwoOk(t) && forall i :: 0 <= i < |t.c.entries| ==> t.c.entries[i].obj != e.obj
    ensures PassedOn(t, AddBoth(t, id, e, now), id)
  {
    var r := AddBoth(t, id, e, now);
    if |t.c.entries| < t.c.room {
      AdjustKeepsOk(t.sys, e.size, id, now);
      AddKeepsOk(t.c, e);
      AdjustCharges(t.sys, e.size, id, now);
      WrapChange(t.c.total, e.size);
      hide Charged, Ok, Wrap, UniquePayloads, Adjust;
      ChargedAlike(t.sys, r.sys, id, e.size, r.c.total - t.c.total);
    } else {
      ChargedNothing(t.sys, id);
    }
  }

  lemma RemovePassesOn(t: Two, id: object, k: nat, now: Uint32)
    requires TwoOk(t) && k < |t.c.entries|
    ensures PassedOn(t, RemoveBoth(t, id, k, now), id)
  {
    var r := RemoveBoth(t, id, k, now);
    var size: int := t.c.entries[k].size;
    AdjustKeepsOk(t.sys, Neg(size), id, now);
    RemoveKeepsOk(t.c, k);
    AdjustCharges(t.sys, Neg(size), id, now);
    WrapChange(t.c.total, 0 - size);
    WrapShift(0 - size, 1);
    WrapSums(WIDTH - size, 0, 0);
    hide Charged, Ok, Wrap, UniquePayloads, Adjust;
    ChargedAlike(t.sys, r.sys, id, Neg(size), r.c.total - t.c.total);
  }

  lemma WrapChange(a: int, d: int)
    ensures Wrap(d) == Wrap(Wrap(a + d) - a)
  {
    WrapSums(a + d, a, 0);
  }

  lemma {:induction false} RemoveAllPassesOn(t: Two, id: object, now: Uint32)
    requires TwoOk(t)
    ensures PassedOn(t, RemoveAll(t, id, now), id)
    ensures RemoveAll(t, id, now).c.entries == [] && RemoveAll(t, id, now).c.total == 0
    decreases |t.c.entries|
  {
    if t.c.entries == [] {
      ChargedNothing(t.sys, id);
    } else {
      var r := RemoveBoth(t, id, |t.c.entries| - 1, now);
      RemovePassesOn(t, id, |t.c.entries| - 1, now);
      PassedOnKeepsTwoOk(t, r, id);
      RemoveAllPassesOn(r, id, now);
      PassedOnTwice(t, r, RemoveAll(r, id, now), id);
    }
  }

  /** cache_clean keeps exactly the entries that are in use or not yet expired, in order. */
  lemma {:induction false} CleanKeepsExactly(t: Two, id: object, i: nat, limit: Uint32, now: Uint32)
    requires i <= |t.c.entries|
    ensures CleanFrom(t, id, i, limit, now).c.entries == Staying(t.c.entries[..i], limit, now) + t.c.entries[i..]
    decreases i
  {
    var es := t.c.entries;
    hide Goes, Adjust, Staying;
    if i == 0 {
      StayingNone(limit, now);
      assert es[..0] == [] && [] + es[0..] == es;
    } else {
      StayingNext(es, i - 1, limit, now);
      if Goes(es[i - 1], limit, now) {
        var r := RemoveBoth(t, id, i - 1, now);
        CleanKeepsExactly(r, id, i - 1, limit, now);
        assert r.c.entries[..i - 1] == es[..i - 1] && r.c.entries[i - 1..] == es[i..];
      } else {
        CleanKeepsExactly(t, id, i - 1, limit, now);
        assert es[i - 1..] == [es[i - 1]] + es[i..];
        Associative(Staying(es[..i - 1], limit, now), [es[i - 1]], es[i..]);
      }
    }
  }

  lemma StayingNone(limit: Uint32, now: Uint32)
    ensures Staying([], limit, now) == []
  {
  }

  lemma StayingNext(es: seq<Entry>, i: nat, limit: Uint32, now: Uint32)
    requires i < |es|
    ensures Staying(es[..i + 1], limit, now)
            == if Goes(es[i], limit, now) then Staying(es[..i], limit, now) else Staying(es[..i], limit, now) + [es[i]]
  {
    FilterNext(es, i, e => !Goes(e, limit, now));
  }

  lemma {:induction false} CleanPassesOn(t: Two, id: object, i: nat, limit: Uint32, now: Uint32)
    requires TwoOk(t) && i <= |t.c.entries|
    ensures PassedOn(t, CleanFrom(t, id, i, limit, now), id)
    decreases i
  {
    if i == 0 {
      ChargedNothing(t.sys, id);
    } else if Goes(t.c.entries[i - 1], limit, now) {
      var r := RemoveBoth(t, id, i - 1, now);
      RemovePassesOn(t, id, i - 1, now);
      PassedOnKeepsTwoOk(t, r, id);
      CleanPassesOn(r, id, i - 1, limit, now);
      PassedOnTwice(t, r, CleanFrom(r, id, i - 1, limit, now), id);
    } else {
      CleanPassesOn(t, id, i - 1, limit, now);
    }
  }

  lemma CompactOnePassesOn(t: Two, id: object, i: nat, freed: Uint32, limit: Uint32, now: Uint32)
    requires TwoOk(t) && i < |t.c.entries|
    ensures PassedOn(t, CompactOne(t, id, i, freed, limit, now), id)
  {
    var e := t.c.entries[i];
    ChargedNothing(t.sys, id);
    if e.payload != null && Expired(e, limit, now) {
      AdjustPassesOn(t, id, Neg(freed), e.payload, now);
    } else if e.payload != null {
      UncountKeepsOk(t.c, i);
    }
  }

  lemma UncountKeepsOk(c: CacheV, i: nat)
    requires Ok(c) && i < |c.entries|
    ensures Ok(c.(entries := c.entries[i := c.entries[i].(count := 0)]))
  {
    var e := c.entries[i].(count := 0);
    UpdateKeepsOk(c, i, e, c.total);
    var r := CacheV(c.entries[i := e], e.obj, c.total, c.room);
    if c.recent != null {
      var j :| 0 <= j < |c.entries| && c.entries[j].obj == c.recent;
      assert r.entries[j].obj == c.recent;
    }
  }

  lemma CompactOneFrees(t: Two, id: object, i: nat, freed: Uint32, limit: Uint32, now: Uint32)
    requires i < |t.c.entries|
    ensures Wrap(CompactOne(t, id, i, freed, limit, now).c.total + Yield(t, i, freed, limit, now)) == t.c.total
  {
    if Goes(t.c.entries[i], limit, now) {
      assert CompactOne(t, id, i, freed, limit, now).c.total == Wrap(t.c.total + Neg(freed));
      NegUndoes(t.c.total, freed);
    } else {
      WrapIsSame(t.c.total);
    }
  }

  lemma NegUndoes(a: Uint32, b: Uint32)
    ensures Wrap(Wrap(a + Neg(b)) + b) == a
  {
    WrapSums(a + Neg(b), b, 0);
    assert Neg(b) == if b == 0 then 0 else WIDTH - b;
    WrapShift(a, 1);
  }

  lemma WrapRegrouped(a: int, b: int, c: int)
    ensures Wrap(a + Wrap(b + c)) == Wrap(Wrap(a + b) + c)
  {
    hide Wrap;
    WrapSums(b + c, a, 0);
    WrapSums(a + b, c, 0);
    assert b + c + a == a + b + c && Wrap(b + c) + a == a + Wrap(b + c);
  }

  lemma WrapIsSame(a: Uint32)
    ensures Wrap(a) == a
  {
  }

  /** What cache_compact reports is what has gone from the total, modulo 2^32. */
  lemma {:induction false} CompactReportsWhatItFrees(t: Two, id: object, i: nat, freed: seq<Uint32>,
                                                     limit: Uint32, now: Uint32)
    requires i <= |t.c.entries| == |freed|
    ensures Wrap(CompactFrom(t, id, i, freed, limit, now).c.total + CompactFreed(t, id, i, freed, limit, now)) ==
            t.c.total
    decreases |freed| - i
  {
    if i == |freed| {
      WrapIsSame(t.c.total);
      hide CompactOne, Wrap;
    } else {
      hide CompactOne, Yield, Wrap, CompactFrom, CompactFreed;
      var d := Yield(t, i, freed[i], limit, now);
      var u := CompactUnfolds(t, id, i, freed, limit, now);
      CompactReportsWhatItFrees(u, id, i + 1, freed, limit, now);
      CompactOneFrees(t, id, i, freed[i], limit, now);
      hide *;
      WrapRegrouped(CompactFrom(u, id, i + 1, freed, limit, now).c.total,
                    CompactFreed(u, id, i + 1, freed, limit, now), d);
    }
  }

  lemma CompactUnfolds(t: Two, id: object, i: nat, freed: seq<Uint32>, limit: Uint32, now: Uint32) returns (u: Two)
    requires i < |t.c.entries| == |freed|
    ensures u == CompactOne(t, id, i, freed[i], limit, now) && |u.c.entries| == |freed|
    ensures CompactFrom(t, id, i, freed, limit, now) == CompactFrom(u, id, i + 1, freed, limit, now)
    ensures CompactFreed(t, id, i, freed, limit, now) ==
            Wrap(CompactFreed(u, id, i + 1, freed, limit, now) + Yield(t, i, freed[i], limit, now))
  {
    CompactOneSize(t, id, i, freed[i], limit, now);
    u := CompactOne(t, id, i, freed[i], limit, now);
  }

  lemma {:induction false} CompactPassesOn(t: Two, id: object, i: nat, freed: seq<Uint32>, limit: Uint32, now: Uint32)
    requires TwoOk(t) && i <= |t.c.entries| == |freed|
    ensures PassedOn(t, CompactFrom(t, id, i, freed, limit, now), id)
    decreases |freed| - i
  {
    if i == |freed| {
      ChargedNothing(t.sys, id);
    } else {
      CompactOneSize(t, id, i, freed[i], limit, now);
      var r := CompactOne(t, id, i, freed[i], limit, now);
      CompactOnePassesOn(t, id, i, freed[i], limit, now);
      PassedOnKeepsTwoOk(t, r, id);
      CompactPassesOn(r, id, i + 1, freed, limit, now);
      PassedOnTwice(t, r, CompactFrom(r, id, i + 1, freed, limit, now), id);
    }
  }

  /**
   * Deleting a cache takes its entry, and exactly its base size and its total, out of the system, although the
   * contents are subtracted twice on the way; nothing else in the system changes. An unregistered one changes nothing.
   */
  lemma DeleteIsExact(t: Two, id: object, base: Uint32, now: Uint32)
    requires TwoOk(t) && Balanced(t.sys, id, base, t.c.total)
    ensures Ok(Delete(t, id, now))
    ensures if Registered(t.sys, id) then
              var k := FirstWith(t.sys.entries, id);
              && Delete(t, id, now).entries == t.sys.entries[..k] + t.sys.entries[k + 1..]
              && Delete(t, id, now).total == Wrap(t.sys.total - (base + t.c.total))
            else Delete(t, id, now).entries == t.sys.entries && Delete(t, id, now).total == t.sys.total
  {
    hide Charged, Ok, UniquePayloads, Adjust, Wrap, Neg, Balanced, Registered, FirstWith, PtrIndex, Removing, RemoveAll;
    var t0 := t.(sys := Adjust(t.sys, Neg(t.c.total), id, now));
    AdjustKeepsOk(t.sys, Neg(t.c.total), id, now);
    AdjustCharges(t.sys, Neg(t.c.total), id, now);
    ChargedKeepsUnique(t.sys, t0.sys, id, Neg(t.c.total));
    var t1 := RemoveAll(t0, id, now);
    RemoveAllPassesOn(t0, id, now);
    ChargedTwice(t.sys, t0.sys, t1.sys, id, Neg(t.c.total), 0 - (t.c.total as int));
    ChargedKeepsUnique(t.sys, t1.sys, id, Neg(t.c.total) - t.c.total);
    ChargedElsewhere(t.sys, t1.sys, id, Neg(t.c.total) - t.c.total);
    ZeroNeg();
    var k := PtrIndex(t1.sys, id);
    if k < |t1.sys.entries| {
      RemovingIsExact(t.sys, t1.sys, id, Neg(t.c.total) - t.c.total, base, t.c.total, k, now);
    } else {
      NotRegistered(t.sys, t1.sys, id);
    }
  }

  lemma NotRegistered(s: CacheV, r: CacheV, id: object)
    requires PtrIndex(r, id) == |r.entries| == |s.entries|
    requires forall i :: 0 <= i < |s.entries| ==> r.entries[i].payload == s.entries[i].payload
    ensures !Registered(s, id)
  {
  }

  lemma ZeroNeg()
    ensures Neg(0) == 0
  {
  }

  lemma RemovingIsExact(s: CacheV, r: CacheV, id: object, d: int, base: Uint32, total: Uint32, k: nat, now: Uint32)
    requires UniquePayloads(s.entries) && Balanced(s, id, base, total) && Charged(s, r, id, d)
    requires UniquePayloads(r.entries) && Ok(r) && k < |r.entries| && r.entries[k].payload == id
    ensures Ok(Removing(UsedAt(r, k, now), k, 0, id, now))
    ensures Registered(s, id) && k == FirstWith(s.entries, id) < |s.entries|
    ensures Removing(UsedAt(r, k, now), k, 0, id, now).entries == s.entries[..k] + s.entries[k + 1..]
    ensures Removing(UsedAt(r, k, now), k, 0, id, now).total == Wrap(s.total - (base + total))
  {
    ChargedElsewhere(s, r, id, d);
    hide Charged, Ok, UniquePayloads, Adjust, Wrap, Balanced, FirstWith, Remove;
    var u := UsedAt(r, k, now);
    UseKeepsOk(r, k, now);
    UsedIsCharged(r, k, id, now);
    ChargedKeepsUnique(r, u, id, 0);
    AdjustKeepsOk(u, 0, id, now);
    AdjustCharges(u, 0, id, now);
    var q := Adjust(u, 0, id, now);
    ChargedTwice(s, r, u, id, d, 0);
    ChargedTwice(s, u, q, id, d, 0);
    ChargedElsewhere(s, q, id, d);
    RemoveKeepsOk(q, k);
    RemovingCharged(s, q, id, d, base, total, k);
  }

  lemma ChargedElsewhere(s: CacheV, r: CacheV, id: object, d: int)
    requires Charged(s, r, id, d)
    ensures |r.entries| == |s.entries|
    ensures forall i :: 0 <= i < |s.entries| ==> r.entries[i].payload == s.entries[i].payload
    ensures !Registered(s, id) ==> r.entries == s.entries && r.total == s.total
  {
  }

  lemma UsedIsCharged(s: CacheV, k: nat, id: object, now: Uint32)
    requires UniquePayloads(s.entries) && k < |s.entries| && s.entries[k].payload == id
    ensures Charged(s, UsedAt(s, k, now), id, 0)
  {
  }

  lemma RemovingCharged(s: CacheV, q: CacheV, id: object, d: int, base: Uint32, total: Uint32, k: nat)
    requires UniquePayloads(s.entries) && Charged(s, q, id, d) && Balanced(s, id, base, total)
    requires k < |s.entries| && s.entries[k].payload == id
    ensures k == FirstWith(s.entries, id) && Registered(s, id)
    ensures Remove(q, k).entries == s.entries[..k] + s.entries[k + 1..]
    ensures Remove(q, k).total == Wrap(s.total - (base + total))
  {
    assert q.total == Wrap(s.total + d) && q.entries[k].size == Wrap(s.entries[k].size + d);
    assert s.entries[k].size == Wrap(base + total);
    WrapDifference(s.total, base + total, d);
    assert q.entries[..k] == s.entries[..k] && q.entries[k + 1..] == s.entries[k + 1..];
  }

  lemma WrapDifference(a: int, b: int, d: int)
    ensures Wrap(Wrap(a + d) - Wrap(Wrap(b) + d)) == Wrap(a - b)
  {
    WrapSums(b, d, 0);
    WrapSums(a + d, 0 - (Wrap(b + d) as int), 0);
    WrapShift(a - b, (b + d) / WIDTH);
  }
}
