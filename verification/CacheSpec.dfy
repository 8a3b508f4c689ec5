/**
 * Caches as values: entries sorted by name, a most recent one, and a total of the sizes in wrapping 32-bit arithmetic.
 * A cache of caches, the system, holds one entry for each registered cache with its size.
 */
module CacheSpec {
  import opened Seqs

  const WIDTH: int := 0x1_0000_0000

  type Uint32 = x: int | 0 <= x < WIDTH

  function Wrap(x: int): Uint32 {
    x % WIDTH
  }

  function Neg(x: Uint32): Uint32 {
    Wrap(WIDTH - x)
  }

  lemma WrapShift(x: int, k: int)
    ensures Wrap(x + k * WIDTH) == Wrap(x)
  {
    assert x == x / WIDTH * WIDTH + Wrap(x);
    assert x + k * WIDTH == (x / WIDTH + k) * WIDTH + Wrap(x);
  }

  /** Sums wrapped on the way are sums wrapped at the end. */
  lemma WrapSums(a: int, b: int, c: int)
    ensures Wrap(Wrap(a) + b) == Wrap(a + b)
    ensures Wrap(a - b + Wrap(b + c)) == Wrap(a + c)
    ensures Wrap(Wrap(a) - b) == Wrap(a - b)
  {
    WrapShift(a + b, -(a / WIDTH));
    WrapShift(a + c, -((b + c) / WIDTH));
    WrapShift(a - b, -(a / WIDTH));
  }

  class Item {
    var payload: object?
    var size: Uint32
    var accessTime: Uint32
    var accessCount: Uint32
    var name: string

    constructor (payload: object?, size: Uint32, name: string, now: Uint32)
      ensures this.payload == payload && this.size == size && this.name == name && accessTime == now && accessCount == 1
    {
      this.payload, this.size, this.name, accessTime, accessCount := payload, size, name, now, 1;
    }
  }

  datatype Entry = Entry(obj: Item, payload: object?, size: Uint32, time: Uint32, count: Uint32, name: string)

  datatype CacheV = CacheV(entries: seq<Entry>, recent: Item?, total: Uint32, room: nat)

  // ---------- names ----------

  /** strcmp(a, b) <= 0. */
  predicate NameLe(a: string, b: string) {
    a == [] || (b != [] && (a[0] < b[0] || (a[0] == b[0] && NameLe(a[1..], b[1..]))))
  }

  lemma {:induction false} NameLeTotal(a: string, b: string)
    ensures NameLe(a, b) || NameLe(b, a)
    ensures NameLe(a, b) && NameLe(b, a) ==> a == b
    ensures NameLe(a, a)
  {
    if a != [] && b != [] {
      NameLeTotal(a[1..], b[1..]);
      assert a == [a[0]] + a[1..] && b == [b[0]] + b[1..];
    }
    if a != [] {
      NameLeTotal(a[1..], a[1..]);
    }
  }

  lemma {:induction false} NameLeTransitive(a: string, b: string, c: string)
    requires NameLe(a, b) && NameLe(b, c)
    ensures NameLe(a, c)
  {
    if a != [] && a[0] == b[0] == c[0] {
      NameLeTransitive(a[1..], b[1..], c[1..]);
    }
  }

  lemma NameLeNext(a: string, b: string)
    requires a != [] && b != []
    ensures NameLe(a, b) <==> a[0] < b[0] || (a[0] == b[0] && NameLe(a[1..], b[1..]))
  {
  }

  /** The first difference decides. */
  lemma {:induction false} FirstDifferenceDecides(s: string, a: char, u: string, b: char, v: string)
    requires a != b
    ensures NameLe(s + [a] + u, s + [b] + v) <==> a < b
    decreases |s|
  {
    var x, y := s + [a] + u, s + [b] + v;
    NameLeNext(x, y);
    hide NameLe;
    if s != [] {
      assert x[1..] == s[1..] + [a] + u && y[1..] == s[1..] + [b] + v;
      FirstDifferenceDecides(s[1..], a, u, b, v);
    }
  }

  /** A name comes after its own beginnings. */
  lemma {:induction false} BeginningsComeFirst(s: string, u: string)
    ensures NameLe(s, s + u) && (NameLe(s + u, s) ==> u == [])
    decreases |s|
  {
    if s == [] {
      assert s + u == u;
    } else {
      assert (s + u)[1..] == s[1..] + u;
      BeginningsComeFirst(s[1..], u);
    }
  }

  ghost predicate SortedByName(es: seq<Entry>) {
    forall i, j :: 0 <= i < j < |es| ==> NameLe(es[i].name, es[j].name)
  }

  // ---------- one cache ----------

  function Sum(es: seq<Entry>): int {
    if es == [] then 0 else es[0].size + Sum(es[1..])
  }

  ghost predicate Distinct(es: seq<Entry>) {
    forall i, j :: 0 <= i < j < |es| ==> es[i].obj != es[j].obj
  }

  ghost predicate RecentIsStored(c: CacheV) {
    c.recent != null ==> exists i :: 0 <= i < |c.entries| && c.entries[i].obj == c.recent
  }

  ghost predicate Ok(c: CacheV) {
    && SortedByName(c.entries) && Distinct(c.entries) && RecentIsStored(c)
    && c.total == Wrap(Sum(c.entries)) && |c.entries| <= c.room
  }

  /** The index of an object, or the number of entries. */
  function IndexOf(es: seq<Entry>, obj: Item?): (r: nat)
    ensures r <= |es| && (r < |es| ==> es[r].obj == obj) && forall i :: 0 <= i < r ==> es[i].obj != obj
  {
    if es == [] || es[0].obj == obj then 0 else 1 + IndexOf(es[1..], obj)
  }

  function FirstWith(es: seq<Entry>, p: object?): (r: nat)
    ensures r <= |es| && (r < |es| ==> es[r].payload == p) && forall i :: 0 <= i < r ==> es[i].payload != p
  {
    if es == [] || es[0].payload == p then 0 else 1 + FirstWith(es[1..], p)
  }

  /** cache_find_ptr: the most recent entry if it is about p, or else the first that is. */
  function PtrIndex(c: CacheV, p: object?): (r: nat)
    ensures r <= |c.entries| && (r < |c.entries| ==> c.entries[r].payload == p)
    ensures r == |c.entries| ==> forall i :: 0 <= i < |c.entries| ==> c.entries[i].payload != p
  {
    var k := IndexOf(c.entries, c.recent);
    if k < |c.entries| && c.entries[k].payload == p then k else FirstWith(c.entries, p)
  }

  function Use(e: Entry, now: Uint32): Entry {
    e.(time := now, count := Wrap(e.count + 1))
  }

  function UsedAt(c: CacheV, k: nat, now: Uint32): CacheV
    requires k < |c.entries|
  {
    c.(entries := c.entries[k := Use(c.entries[k], now)], recent := c.entries[k].obj)
  }

  function FindPtr(c: CacheV, p: object?, now: Uint32): CacheV {
    var k := PtrIndex(c, p);
    if k < |c.entries| then UsedAt(c, k, now) else c
  }

  function Resized(c: CacheV, k: nat, delta: Uint32, now: Uint32): CacheV
    requires k < |c.entries|
  {
    var e := c.entries[k];
    c.(entries := c.entries[k := Use(e.(size := Wrap(e.size + delta)), now)], total := Wrap(c.total + delta))
  }

  /** cache_adj_size on one level. */
  function Adjust(c: CacheV, delta: Uint32, p: object?, now: Uint32): CacheV {
    var k := PtrIndex(c, p);
    if k < |c.entries| then Resized(UsedAt(c, k, now), k, delta, now) else c
  }

  /** Where an entry of a name is put: before the first that is not smaller. */
  function Place(es: seq<Entry>, name: string): (r: nat)
    ensures r <= |es| && (r < |es| ==> NameLe(name, es[r].name))
    ensures forall i :: 0 <= i < r ==> !NameLe(name, es[i].name)
  {
    if es == [] || NameLe(name, es[0].name) then 0 else 1 + Place(es[1..], name)
  }

  function Add(c: CacheV, e: Entry): CacheV {
    var i := Place(c.entries, e.name);
    CacheV(c.entries[..i] + [e] + c.entries[i..], e.obj, Wrap(c.total + e.size), c.room)
  }

  function Remove(c: CacheV, k: nat): CacheV
    requires k < |c.entries|
  {
    CacheV(c.entries[..k] + c.entries[k + 1..], null, Wrap(c.total - c.entries[k].size), c.room)
  }

  /** The entries the same but for order and use, one of them renamed. */
  ghost predicate Renamed(c: CacheV, p: object?, name: string, now: Uint32, r: CacheV) {
    var k, u := PtrIndex(c, p), FindPtr(c, p, now);
    if k == |c.entries| then r == c else
      && multiset(r.entries) == multiset(u.entries[k := u.entries[k].(name := name)]) && SortedByName(r.entries)
      && r.recent == u.recent && r.total == u.total && r.room == u.room
  }

  // ---------- what the operations on one cache keep ----------

  lemma {:induction false} SumConcat(a: seq<Entry>, b: seq<Entry>)
    ensures Sum(a + b) == Sum(a) + Sum(b)
  {
    if a == [] {
      assert a + b == b;
    } else {
      assert (a + b)[1..] == a[1..] + b;
      SumConcat(a[1..], b);
    }
  }

  lemma SumAt(a: seq<Entry>, e: Entry, b: seq<Entry>)
    ensures Sum(a + [e] + b) == Sum(a) + e.size + Sum(b)
  {
    SumConcat(a + [e], b);
    SumConcat(a, [e]);
  }

  lemma SumWithout(s: seq<Entry>, i: nat)
    requires i < |s|
    ensures Sum(s) == s[i].size + Sum(s[..i] + s[i + 1..])
  {
    hide Sum;
    assert s == s[..i] + [s[i]] + s[i + 1..];
    SumAt(s[..i], s[i], s[i + 1..]);
    SumConcat(s[..i], s[i + 1..]);
  }

  lemma {:induction false} SumPermutation(s: seq<Entry>, t: seq<Entry>)
    requires multiset(s) == multiset(t)
    ensures Sum(s) == Sum(t)
    decreases |s|
  {
    if s == [] {
      PermutationOfNone(t);
    } else {
      var i := TakeFirst(s, t);
      SumWithout(t, i);
      SumPermutation(s[1..], t[..i] + t[i + 1..]);
    }
  }

  lemma SumUpdate(es: seq<Entry>, k: nat, e: Entry)
    requires k < |es|
    ensures Sum(es[k := e]) == Sum(es) - es[k].size + e.size
  {
    assert es == es[..k] + [es[k]] + es[k + 1..];
    assert es[k := e] == es[..k] + [e] + es[k + 1..];
    SumAt(es[..k], es[k], es[k + 1..]);
    SumAt(es[..k], e, es[k + 1..]);
  }

  lemma UpdateKeepsOk(c: CacheV, k: nat, e: Entry, total: Uint32)
    requires Ok(c) && k < |c.entries| && e.obj == c.entries[k].obj && e.name == c.entries[k].name
    requires total == Wrap(c.total - c.entries[k].size + e.size)
    ensures Ok(CacheV(c.entries[k := e], e.obj, total, c.room))
  {
    var r := CacheV(c.entries[k := e], e.obj, total, c.room);
    assert r.entries[k].obj == r.recent;
    assert SortedByName(r.entries) && Distinct(r.entries);
    SumUpdate(c.entries, k, e);
    WrapSums(Sum(c.entries), e.size - c.entries[k].size, 0);
    hide SortedByName, Distinct, Sum, Wrap;
  }

  lemma UseKeepsOk(c: CacheV, k: nat, now: Uint32)
    requires Ok(c) && k < |c.entries|
    ensures Ok(UsedAt(c, k, now))
  {
    UpdateKeepsOk(c, k, Use(c.entries[k], now), c.total);
  }

  lemma ResizedKeepsOk(c: CacheV, k: nat, delta: Uint32, now: Uint32)
    requires Ok(c) && k < |c.entries| && c.recent == c.entries[k].obj
    ensures Ok(Resized(c, k, delta, now))
  {
    var e := c.entries[k];
    WrapSums(c.total, e.size, delta);
    hide Ok, Wrap;
    UpdateKeepsOk(c, k, Use(e.(size := Wrap(e.size + delta)), now), Wrap(c.total + delta));
  }

  lemma AdjustKeepsOk(c: CacheV, delta: Uint32, p: object?, now: Uint32)
    requires Ok(c)
    ensures Ok(Adjust(c, delta, p, now))
  {
    var k := PtrIndex(c, p);
    hide Ok, Resized, PtrIndex;
    if k < |c.entries| {
      UseKeepsOk(c, k, now);
      ResizedKeepsOk(UsedAt(c, k, now), k, delta, now);
    }
  }

  lemma AddKeepsSorted(es: seq<Entry>, k: nat, e: Entry)
    requires SortedByName(es) && k == Place(es, e.name)
    ensures SortedByName(es[..k] + [e] + es[k..])
  {
    var r := es[..k] + [e] + es[k..];
    forall i | 0 <= i < k ensures NameLe(es[i].name, e.name) {
      NameLeTotal(es[i].name, e.name);
    }
    forall j | k <= j < |es| ensures NameLe(e.name, es[j].name) {
      if k < j {
        NameLeTransitive(e.name, es[k].name, es[j].name);
      }
    }
    hide NameLe, Place;
    forall i, j | 0 <= i < j < |r| ensures NameLe(r[i].name, r[j].name) {
      assert r[i] == if i < k then es[i] else if i == k then e else es[i - 1];
      assert r[j] == if j < k then es[j] else if j == k then e else es[j - 1];
    }
  }

  lemma AddKeepsOk(c: CacheV, e: Entry)
    requires Ok(c) && |c.entries| < c.room && forall i :: 0 <= i < |c.entries| ==> c.entries[i].obj != e.obj
    ensures Ok(Add(c, e))
  {
    var es, k, r := c.entries, Place(c.entries, e.name), Add(c, e);
    AddKeepsSorted(es, k, e);
    AddKeepsDistinct(es, k, e);
    AddKeepsSum(es, k, e);
    WrapSums(Sum(es), e.size, 0);
    hide SortedByName, Distinct, Place, Sum, Wrap;
    assert r.entries[k] == e;
  }

  lemma AddKeepsSum(es: seq<Entry>, k: nat, e: Entry)
    requires k <= |es|
    ensures Sum(es[..k] + [e] + es[k..]) == Sum(es) + e.size
  {
    hide Sum;
    assert es == es[..k] + es[k..];
    SumConcat(es[..k], es[k..]);
    SumAt(es[..k], e, es[k..]);
  }

  lemma AddKeepsDistinct(es: seq<Entry>, k: nat, e: Entry)
    requires Distinct(es) && k <= |es| && forall i :: 0 <= i < |es| ==> es[i].obj != e.obj
    ensures Distinct(es[..k] + [e] + es[k..])
  {
    var r := es[..k] + [e] + es[k..];
    assert forall i :: 0 <= i < |r| ==> r[i] == if i < k then es[i] else if i == k then e else es[i - 1];
  }

  lemma RemoveKeepsOk(c: CacheV, k: nat)
    requires Ok(c) && k < |c.entries|
    ensures Ok(Remove(c, k))
  {
    RemoveKeepsOrder(c.entries, k);
    WrapSums(Sum(c.entries), c.entries[k].size, 0);
    SumWithout(c.entries, k);
    hide SortedByName, Distinct, Sum, Wrap;
  }

  lemma RemoveKeepsOrder(es: seq<Entry>, k: nat)
    requires SortedByName(es) && Distinct(es) && k < |es|
    ensures SortedByName(es[..k] + es[k + 1..]) && Distinct(es[..k] + es[k + 1..])
  {
    var r := es[..k] + es[k + 1..];
    hide NameLe;
    assert forall i :: 0 <= i < |r| ==> r[i] == es[if i < k then i else i + 1];
  }

  /** Sorting after a change of name keeps the sizes, the objects and the most recent entry. */
  lemma RenamedKeepsOk(c: CacheV, p: object?, name: string, now: Uint32, r: CacheV)
    requires Ok(c) && Renamed(c, p, name, now, r)
    ensures Ok(r)
  {
    var k := PtrIndex(c, p);
    if k < |c.entries| {
      var u := UsedAt(c, k, now);
      UseKeepsOk(c, k, now);
      var es := u.entries[k := u.entries[k].(name := name)];
      SumUpdate(u.entries, k, es[k]);
      SumPermutation(r.entries, es);
      PermutedObjects(es, r.entries);
      assert es[k] in es && es[k] in multiset(es);
      assert es[k] in r.entries;
    }
  }

  /** The entry about p has the new name then, and no other entry has changed. */
  lemma RenamedIsNamed(c: CacheV, p: object?, name: string, now: Uint32, r: CacheV)
    requires Renamed(c, p, name, now, r) && PtrIndex(c, p) < |c.entries|
    ensures exists e :: e in r.entries && e.payload == p && e.name == name && e.time == now
    ensures var k := PtrIndex(c, p);
            multiset(c.entries[..k] + c.entries[k + 1..]) <= multiset(r.entries) && |r.entries| == |c.entries|
  {
    var k, es, u := PtrIndex(c, p), c.entries, UsedAt(c, PtrIndex(c, p), now);
    var e := u.entries[k].(name := name);
    var renamed := u.entries[k := e];
    PermutationMembers(r.entries, renamed);
    assert renamed[k] in renamed;
    assert renamed == es[..k] + [e] + es[k + 1..];
    assert multiset(renamed) == multiset(es[..k] + es[k + 1..]) + multiset{e};
  }

  lemma PermutedObjects(s: seq<Entry>, t: seq<Entry>)
    requires multiset(s) == multiset(t) && Distinct(s)
    ensures Distinct(t) && |s| == |t|
  {
    PermutationMembers(s, t);
    forall i, j | 0 <= i < j < |t| ensures t[i].obj != t[j].obj {
      if t[i].obj == t[j].obj {
        assert t[i] in s && t[j] in s;
        assert t[i] == t[j];
        TwiceIsCounted(t, i, j);
        var k :| 0 <= k < |s| && s[k] == t[i];
        OnceIsCounted(s, k);
      }
    }
  }

  lemma TwiceIsCounted(t: seq<Entry>, i: nat, j: nat)
    requires i < j < |t| && t[i] == t[j]
    ensures 2 <= multiset(t)[t[i]]
  {
    assert t == t[..j] + [t[j]] + t[j + 1..];
    assert t[i] in t[..j];
  }

  lemma OnceIsCounted(s: seq<Entry>, k: nat)
    requires Distinct(s) && k < |s|
    ensures multiset(s)[s[k]] == 1
  {
    assert s == s[..k] + [s[k]] + s[k + 1..];
    assert s[k] !in s[..k] && s[k] !in s[k + 1..];
  }
}
