/**
 * cache.c with FASTER_MAP_LOAD: caches are arrays of pointers to items, kept sorted by name. The cache of caches,
 * cache_system, is passed as `system`.
 */
module Caches {
  import opened Seqs
  import Sorting
  import opened CacheSpec
  import opened CacheLevels

  function EntryOf(item: Item): Entry
    reads item
  {
    Entry(item, item.payload, item.size, item.accessTime, item.accessCount, item.name)
  }

  method CacheUse(item: Item, now: Uint32)
    modifies item`accessTime, item`accessCount
    ensures EntryOf(item) == Use(old(EntryOf(item)), now)
  {
    item.accessTime := now;
    item.accessCount := Wrap(item.accessCount + 1);
  }

  class Cache {
    const numAllocated: nat
    const cachedItems: array<Item?>
    // false once cached_items has been freed
    var hasItems: bool
    var recentItem: Item?
    var numItems: nat
    var totalSize: Uint32
    var timeLimit: Uint32
    var lruTime: Uint32
    const hasFreeItem: bool
    // what the items in use look like, in order, and all items ever used
    ghost var entries: seq<Entry>
    ghost var objects: set<Item>

    ghost predicate Holds()
      reads this, cachedItems
    {
      && cachedItems.Length == numAllocated && numItems == |entries| <= numAllocated
      && forall i :: 0 <= i < numItems ==> cachedItems[i] == entries[i].obj
    }

    ghost predicate Current()
      reads this, objects
    {
      forall i :: 0 <= i < |entries| ==> entries[i].obj in objects && EntryOf(entries[i].obj) == entries[i]
    }

    ghost predicate CurrentBut(k: nat)
      reads this, objects
    {
      forall i :: 0 <= i < |entries| && i != k ==> entries[i].obj in objects && EntryOf(entries[i].obj) == entries[i]
    }

    ghost predicate Valid()
      reads this, cachedItems, objects
    {
      hasItems && Holds() && Current() && Ok(View())
    }

    ghost function View(): CacheV
      reads this
    {
      CacheV(entries, recentItem, totalSize, numAllocated)
    }

    /** Two caches share nothing. */
    ghost predicate Apart(other: Cache)
      reads this, other
    {
      this != other && cachedItems != other.cachedItems && objects !! other.objects
    }

    constructor (room: nat, hasFree: bool)
      ensures Valid() && View() == CacheV([], null, 0, room) && fresh(cachedItems)
      ensures objects == {} && hasFreeItem == hasFree
    {
      numAllocated, cachedItems := room, new Item?[room](_ => null);
      hasItems, recentItem, numItems, totalSize, timeLimit, lruTime, entries := true, null, 0, 0, 0, 0, [];
      hasFreeItem, objects := hasFree, {};
    }

    /** Takes over how item k looks now. */
    ghost method Refresh(k: nat)
      requires Holds() && Distinct(entries) && k < |entries|
      requires forall i :: 0 <= i < |entries| ==> entries[i].obj in objects
      requires forall i :: 0 <= i < |entries| && i != k ==> EntryOf(entries[i].obj) == entries[i]
      modifies this`entries
      ensures Holds() && Current() && entries == old(entries)[k := EntryOf(old(entries)[k].obj)]
    {
      entries := entries[k := EntryOf(entries[k].obj)];
    }

    method FindPtr(p: object?, now: Uint32) returns (item: Item?)
      requires Valid()
      modifies this`recentItem, this`entries, objects
      ensures Valid() && View() == CacheSpec.FindPtr(old(View()), p, now)
      ensures var k := PtrIndex(old(View()), p); item == if k < |entries| then entries[k].obj else null
    {
      ghost var k := PtrIndex(View(), p);
      if k < |entries| {
        UseKeepsOk(View(), k, now);
      }
      if recentItem != null && recentItem.payload == p {
        RecentIsFound(View(), p);
        item := recentItem;
        CacheUse(item, now);
        Refresh(k);
        return;
      }
      var i := 0;
      while i < numItems
        invariant 0 <= i <= numItems && Valid() && View() == old(View())
        invariant forall j :: 0 <= j < i ==> entries[j].payload != p
      {
        if cachedItems[i].payload == p {
          FirstIsFound(View(), p, i);
          item := cachedItems[i];
          CacheUse(item, now);
          recentItem := item;
          Refresh(k);
          return;
        }
        i := i + 1;
      }
      item := null;
    }

    /** cache_adj_size on one level: what it does to this cache. */
    method AdjHere(delta: Uint32, p: object?, now: Uint32) returns (found: bool)
      requires Valid()
      modifies this`recentItem, this`totalSize, this`entries, objects
      ensures Valid() && View() == Adjust(old(View()), delta, p, now)
      ensures found <==> PtrIndex(old(View()), p) < |entries|
    {
      AdjustKeepsOk(View(), delta, p, now);
      AdjustIs(View(), delta, p, now);
      ghost var k := PtrIndex(View(), p);
      hide Ok, PtrIndex, Adjust, CacheSpec.FindPtr, UsedAt, Wrap, Use;
      var item := FindPtr(p, now);
      found := item != null;
      if found {
        OkIsDistinct(View());
        Enlarge(k, item, delta, now);
      }
    }

    method Enlarge(ghost k: nat, item: Item, delta: Uint32, now: Uint32)
      requires Holds() && Current() && Distinct(entries) && k < |entries| && item == entries[k].obj
      modifies this`totalSize, this`entries, item
      ensures Holds() && Current() && View() == Resized(old(View()), k, delta, now)
    {
      hide Distinct;
      OthersAre(k);
      totalSize := Wrap(totalSize + delta);
      item.size := Wrap(item.size + delta);
      CacheUse(item, now);
      Refresh(k);
    }

    lemma OthersAre(k: nat)
      requires Distinct(entries) && k < |entries|
      ensures forall i :: 0 <= i < |entries| && i != k ==> entries[i].obj != entries[k].obj
    {
    }

    /** cache_adj_size on a cache other than the system: the system's entry for it follows. */
    method AdjSize(delta: Uint32, p: object?, now: Uint32, system: Cache)
      requires Valid() && system.Valid() && Apart(system)
      modifies this`recentItem, this`totalSize, this`entries, objects
      modifies system`recentItem, system`totalSize, system`entries, system.objects
      ensures Valid() && system.Valid()
      ensures Two(system.View(), View()) == AdjustBoth(old(Two(system.View(), View())), this, delta, p, now)
    {
      AdjustMisses(View(), delta, p, now);
      hide Ok, PtrIndex, Adjust;
      var found := AdjHere(delta, p, now);
      if found {
        var _ := system.AdjHere(delta, this, now);
      }
    }

    method FindPlace(name: string) returns (i: nat)
      requires Valid()
      ensures i == Place(entries, name)
    {
      i := 0;
      while i < numItems
        invariant 0 <= i <= numItems && forall j :: 0 <= j < i ==> !NameLe(name, entries[j].name)
      {
        if NameLe(name, cachedItems[i].name) {
          break;
        }
        i := i + 1;
      }
      PlaceIs(entries, name, i);
    }

    method InsertAt(i: nat, item: Item)
      requires Holds() && Current() && i <= numItems < numAllocated
      modifies this`numItems, this`entries, this`objects, cachedItems
      ensures Holds() && Current() && objects == old(objects) + {item}
      ensures entries == old(entries[..i] + [EntryOf(item)] + entries[i..])
    {
      ghost var was, e := entries, EntryOf(item);
      forall j | i < j <= numItems {
        cachedItems[j] := cachedItems[j - 1];
      }
      cachedItems[i] := item;
      numItems := numItems + 1;
      objects := objects + {item};
      entries := was[..i] + [e] + was[i..];
      forall j | 0 <= j < numItems
        ensures entries[j].obj in objects && EntryOf(entries[j].obj) == entries[j] && cachedItems[j] == entries[j].obj
      {
        InsertedAt(was, i, e, j);
      }
    }

    /** cache_add_item on one level, where there is room: the first item not smaller makes place. */
    method AddHere(name: string, payload: object?, size: Uint32, now: Uint32) returns (item: Item)
      requires Valid() && numItems < numAllocated
      modifies this`recentItem, this`numItems, this`totalSize, this`entries, this`objects, cachedItems
      ensures Valid() && fresh(item) && objects == old(objects) + {item}
      ensures View() == Add(old(View()), Entry(item, payload, size, now, 1, name))
    {
      item := new Item(payload, size, name, now);
      assert EntryOf(item) == Entry(item, payload, size, now, 1, name);
      hide Ok, Add, EntryOf;
      Store(item);
    }

    /** A new item takes its place in the array. */
    method Store(item: Item)
      requires Valid() && numItems < numAllocated && item !in objects
      modifies this`recentItem, this`numItems, this`totalSize, this`entries, this`objects, cachedItems
      ensures Valid() && objects == old(objects) + {item} && View() == Add(old(View()), EntryOf(item))
    {
      ObjectsOf();
      AddKeepsOk(View(), EntryOf(item));
      hide Ok, Place, Wrap, NameLe;
      var i := FindPlace(item.name);
      InsertAt(i, item);
      recentItem := item;
      totalSize := Wrap(totalSize + item.size);
    }

    lemma ObjectsOf()
      requires Current()
      ensures forall i :: 0 <= i < |entries| ==> entries[i].obj in objects
    {
    }

    method AddItem(name: string, payload: object?, size: Uint32, now: Uint32, system: Cache) returns (item: Item?)
      requires Valid() && system.Valid() && Apart(system)
      modifies this`recentItem, this`numItems, this`totalSize, this`entries, this`objects, cachedItems
      modifies system`recentItem, system`totalSize, system`entries, system.objects
      ensures Valid() && system.Valid() && Apart(system)
      ensures item == null <==> old(numItems) >= numAllocated
      ensures item != null ==> fresh(item) && objects == old(objects) + {item}
      ensures item != null ==>
                Two(system.View(), View()) ==
                AddBoth(old(Two(system.View(), View())), this, Entry(item, payload, size, now, 1, name), now)
      ensures item == null ==> Two(system.View(), View()) == old(Two(system.View(), View()))
    {
      if !hasItems || numItems >= numAllocated {
        return null;
      }
      hide Ok, Add, Adjust;
      item := AddHere(name, payload, size, now);
      var _ := system.AdjHere(size, this, now);
    }

    /** cache_find: the most recent item, or else a binary search, which may find any item of the name. */
    method CacheFind(name: string, now: Uint32) returns (item: Item?)
      requires Valid()
      modifies this`recentItem, this`entries, objects
      ensures Valid()
      ensures item == null <==> forall e :: e in old(entries) ==> e.name != name
      ensures item == null ==> View() == old(View())
      ensures item != null ==>
                exists k :: 0 <= k < |old(entries)| && old(entries)[k].obj == item && old(entries)[k].name == name
                                 && View() == UsedAt(old(View()), k, now)
    {
      ghost var k: nat;
      if recentItem != null && recentItem.name == name {
        k := RecentAt(View());
        item := recentItem;
      } else {
        var mid := Search(name);
        if mid >= numItems {
          return null;
        }
        k := mid;
        item := cachedItems[mid];
      }
      UseKeepsOk(View(), k, now);
      assert entries[k] in entries;
      CacheUse(item, now);
      recentItem := item;
      Refresh(k);
    }

    /** bsearch by name: the index of some item of the name, or the number of items. */
    method Search(name: string) returns (mid: nat)
      requires Valid()
      ensures mid < numItems ==> entries[mid].name == name
      ensures mid >= numItems ==> forall i :: 0 <= i < |entries| ==> entries[i].name != name
    {
      hide Ok, NameLe;
      var low, high := 0, numItems;
      while low < high
        invariant 0 <= low <= high <= numItems
        invariant forall i :: 0 <= i < low ==> entries[i].name != name
        invariant forall i :: high <= i < numItems ==> entries[i].name != name
      {
        mid := (low + high) / 2;
        var m := cachedItems[mid].name;
        if m == name {
          return;
        }
        NamesAround(View(), mid, name);
        if NameLe(name, m) {
          high := mid;
        } else {
          low := mid + 1;
        }
      }
      mid := numItems;
    }

    /** Closes the gap that an item leaves in the array. */
    method TakeOut(item: Item, ghost k: nat)
      requires Holds() && Distinct(entries) && CurrentBut(k) && k < |entries| && entries[k].obj == item
      modifies this`numItems, this`entries, cachedItems
      ensures Holds() && Current() && entries == old(entries[..k] + entries[k + 1..])
    {
      ghost var was := entries;
      numItems := numItems - 1;
      if cachedItems[numItems] != item {
        var ci := numItems;
        while cachedItems[ci] != item
          invariant k <= ci <= numItems
          decreases ci
        {
          ci := ci - 1;
        }
        assert ci == k;
        forall j | ci <= j < numItems {
          cachedItems[j] := cachedItems[j + 1];
        }
      }
      entries := was[..k] + was[k + 1..];
      forall j | 0 <= j < numItems
        ensures entries[j].obj in objects && EntryOf(entries[j].obj) == entries[j] && cachedItems[j] == entries[j].obj
      {
        DroppedAt(was, k, j);
      }
    }

    /** The part of cache_remove that concerns this cache only. */
    method RemoveHere(item: Item, ghost k: nat)
      requires Valid() && k < |entries| && entries[k].obj == item
      modifies this`recentItem, this`totalSize, this`numItems, this`entries, cachedItems, item
      ensures Valid() && View() == CacheSpec.Remove(old(View()), k) && numItems == old(numItems) - 1
    {
      RemoveKeepsOk(View(), k);
      OkIsDistinct(View());
      hide Ok, Distinct, Wrap;
      totalSize := Wrap(totalSize - item.size);
      recentItem := null;
      Clear(item, k);
      TakeOut(item, k);
    }

    /** Frees the contents of an item. */
    method Clear(item: Item, ghost k: nat)
      requires Holds() && Current() && Distinct(entries) && k < |entries| && entries[k].obj == item
      modifies item
      ensures Holds() && CurrentBut(k)
    {
      OthersAre(k);
      hide Distinct;
      item.payload, item.name, item.size := null, [], 0;
    }

    /** cache_remove on a cache other than the system; freeing the payload is not part of the model. */
    method Remove(item: Item, ghost k: nat, now: Uint32, system: Cache)
      requires Valid() && system.Valid() && Apart(system) && k < |entries| && entries[k].obj == item
      modifies this`recentItem, this`totalSize, this`numItems, this`entries, cachedItems, item
      modifies system`recentItem, system`totalSize, system`entries, system.objects
      ensures Valid() && system.Valid() && numItems == old(numItems) - 1
      ensures Two(system.View(), View()) == RemoveBoth(old(Two(system.View(), View())), this, k, now)
    {
      hide Ok, Adjust, CacheSpec.Remove;
      var _ := system.AdjHere(Neg(item.size), this, now);
      RemoveHere(item, k);
    }

    method CacheRemoveAll(now: Uint32, system: Cache)
      requires Valid() && system.Valid() && Apart(system)
      modifies this`recentItem, this`totalSize, this`numItems, this`entries, cachedItems, objects
      modifies system`recentItem, system`totalSize, system`entries, system.objects
      ensures Valid() && system.Valid()
      ensures Two(system.View(), View()) == RemoveAll(old(Two(system.View(), View())), this, now)
    {
      hide Ok, RemoveBoth;
      var i: int := numItems - 1;
      while i >= 0
        invariant -1 <= i == numItems - 1 && Valid() && system.Valid() && Apart(system)
        invariant RemoveAll(Two(system.View(), View()), this, now) ==
                  RemoveAll(old(Two(system.View(), View())), this, now)
      {
        Remove(cachedItems[i], i, now, system);
        cachedItems[i] := null;
        i := i - 1;
      }
      ForgetKeepsOk(View());
      numItems := 0;
      recentItem := null;
    }

    method CleanOne(i: nat, now: Uint32, system: Cache)
      requires Valid() && system.Valid() && Apart(system) && i < numItems
      modifies this`recentItem, this`totalSize, this`numItems, this`entries, cachedItems, objects
      modifies system`recentItem, system`totalSize, system`entries, system.objects
      ensures Valid() && system.Valid() && i <= numItems
      ensures Two(system.View(), View()) ==
                var t := old(Two(system.View(), View()));
                if Goes(t.c.entries[i], timeLimit, now) then RemoveBoth(t, this, i, now) else t
    {
      hide Ok, RemoveBoth;
      var item := cachedItems[i];
      if item.payload != null {
        if item.accessCount == 0 && Wrap(item.accessTime + timeLimit) < now {
          Remove(item, i, now, system);
        }
      }
    }

    /** cache_clean: what is neither in use nor recent goes, during a scan from the top. */
    method Clean(now: Uint32, system: Cache)
      requires Valid() && system.Valid() && Apart(system)
      modifies this`recentItem, this`totalSize, this`numItems, this`entries, this`lruTime, cachedItems, objects
      modifies system`recentItem, system`totalSize, system`entries, system.objects
      ensures Valid() && system.Valid()
      ensures Two(system.View(), View()) ==
                var t := old(Two(system.View(), View()));
                if timeLimit == 0 || !hasFreeItem then t else CleanFrom(t, this, |t.c.entries|, timeLimit, now)
      ensures entries == if timeLimit == 0 || !hasFreeItem then old(entries) else Staying(old(entries), timeLimit, now)
    {
      if !hasItems || timeLimit == 0 || !hasFreeItem {
        return;
      }
      CleanWhole(Two(system.View(), View()), this, timeLimit, now);
      hide Ok, Staying, CleanFrom;
      CleanItems(now, system);
      lruTime := now;
    }

    /** The loop of cache_clean. */
    method CleanItems(now: Uint32, system: Cache)
      requires Valid() && system.Valid() && Apart(system)
      modifies this`recentItem, this`totalSize, this`numItems, this`entries, cachedItems, objects
      modifies system`recentItem, system`totalSize, system`entries, system.objects
      ensures Valid() && system.Valid()
      ensures Two(system.View(), View()) ==
              CleanFrom(old(Two(system.View(), View())), this, |old(entries)|, timeLimit, now)
    {
      ghost var goal := CleanFrom(Two(system.View(), View()), this, |entries|, timeLimit, now);
      hide Ok, RemoveBoth, Staying, Goes, CleanFrom;
      var i: int := numItems - 1;
      while i >= 0
        invariant -1 <= i < numItems && Valid() && system.Valid() && Apart(system)
        invariant CleanFrom(Two(system.View(), View()), this, i + 1, timeLimit, now) == goal
      {
        CleanStep(Two(system.View(), View()), this, i, timeLimit, now);
        CleanOne(i, now, system);
        i := i - 1;
      }
      CleanEnd(Two(system.View(), View()), this, timeLimit, now);
    }

    method Uncount(item: Item, ghost k: nat)
      requires Valid() && k < |entries| && entries[k].obj == item
      modifies this`entries, item
      ensures Valid() && View() == old(View()).(entries := old(entries)[k := old(entries)[k].(count := 0)])
    {
      OkIsDistinct(View());
      UncountKeepsOk(View(), k);
      OthersAre(k);
      hide Ok, Distinct;
      item.accessCount := 0;
      Refresh(k);
    }

    method CompactItem(i: nat, freed: Uint32, now: Uint32, system: Cache) returns (r: Uint32)
      requires Valid() && system.Valid() && Apart(system) && i < numItems
      modifies this`recentItem, this`totalSize, this`entries, objects
      modifies system`recentItem, system`totalSize, system`entries, system.objects
      ensures Valid() && system.Valid()
      ensures Two(system.View(), View()) == CompactOne(old(Two(system.View(), View())), this, i, freed, timeLimit, now)
      ensures r == Yield(old(Two(system.View(), View())), i, freed, timeLimit, now)
    {
      r := 0;
      var item := cachedItems[i];
      hide Ok, AdjustBoth, Wrap;
      if item.payload != null {
        if item.accessCount == 0 && Wrap(item.accessTime + timeLimit) < now {
          AdjSize(Neg(freed), item.payload, now, system);
          r := freed;
        } else {
          Uncount(item, i);
        }
      }
    }

    /** The loop of cache_compact. */
    method CompactItems(freed: seq<Uint32>, now: Uint32, system: Cache) returns (memFreed: Uint32)
      requires Valid() && system.Valid() && Apart(system) && |freed| == numItems
      modifies this`recentItem, this`totalSize, this`entries, objects
      modifies system`recentItem, system`totalSize, system`entries, system.objects
      ensures Valid() && system.Valid()
      ensures Compacting(old(Two(system.View(), View())), Two(system.View(), View()), this, |freed|, freed, timeLimit,
                         now, memFreed)
    {
      ghost var t := Two(system.View(), View());
      CompactingStart(t, this, freed, timeLimit, now);
      hide Ok, Holds, Current, CompactOne, Yield, Wrap, Compacting;
      memFreed := 0;
      var i := 0;
      while i < numItems
        invariant 0 <= i <= numItems == |freed| && Valid() && system.Valid() && Apart(system)
        invariant Compacting(t, Two(system.View(), View()), this, i, freed, timeLimit, now, memFreed)
      {
        CompactingStep(t, Two(system.View(), View()), this, i, freed, timeLimit, now, memFreed);
        var r := CompactItem(i, freed[i], now, system);
        memFreed := Wrap(memFreed + r);
        i := i + 1;
      }
    }

    /** cache_compact: what is not in use is made smaller, the use of the rest is forgotten. */
    method Compact(freed: seq<Uint32>, hasCompactItem: bool, now: Uint32, system: Cache) returns (memFreed: Uint32)
      requires Valid() && system.Valid() && Apart(system) && |freed| == numItems
      modifies this`recentItem, this`totalSize, this`entries, this`lruTime, objects
      modifies system`recentItem, system`totalSize, system`entries, system.objects
      ensures Valid() && system.Valid()
      ensures var t, r := old(Two(system.View(), View())), Two(system.View(), View());
              if timeLimit == 0 || !hasCompactItem then r == t && memFreed == 0
              else && r == CompactFrom(t, this, 0, freed, timeLimit, now)
                   && memFreed == CompactFreed(t, this, 0, freed, timeLimit, now)
    {
      if !hasItems || timeLimit == 0 || !hasCompactItem {
        return 0;
      }
      hide Ok, Compacting;
      ghost var t := Two(system.View(), View());
      memFreed := CompactItems(freed, now, system);
      CompactingEnd(t, Two(system.View(), View()), this, freed, timeLimit, now, memFreed);
      lruTime := now;
    }

    /**
     * cache_delete on a cache other than the system. It is called again (inside is true then) from the removal of
     * the system's entry, when the contents are gone already.
     */
    method Delete(inside: bool, now: Uint32, system: Cache)
      requires system.Valid() && Apart(system) && (if inside then !hasItems else Valid())
      modifies if inside then {} else {this, cachedItems} + objects
      modifies system`recentItem, system`totalSize, system`numItems, system`entries, system.cachedItems, system.objects
      ensures system.Valid() && !hasItems
      ensures inside ==> system.View() == Adjust(old(system.View()), Neg(totalSize), this, now)
      ensures inside ==> system.numItems == old(system.numItems)
      ensures inside ==>
                forall i :: 0 <= i < system.cachedItems.Length ==> system.cachedItems[i] == old(system.cachedItems[i])
      ensures !inside ==> system.View() == CacheLevels.Delete(old(Two(system.View(), View())), this, now)
      decreases if inside then 0 else 3
    {
      hide Ok, Adjust, Removing, Holds, Current;
      var _ := system.AdjHere(Neg(totalSize), this, now);
      if hasItems {
        CacheRemoveAll(now, system);
        hasItems := false;
        recentItem := null;
      }
      if !inside {
        Unregister(now, system);
      }
    }

    /** The end of cache_delete: the entry in the system goes. */
    method Unregister(now: Uint32, system: Cache)
      requires system.Valid() && Apart(system) && !hasItems
      modifies system`recentItem, system`totalSize, system`numItems, system`entries, system.cachedItems, system.objects
      ensures system.Valid()
      ensures system.View() == CacheLevels.Unregistered(old(system.View()), this, totalSize, now)
      decreases 2
    {
      ghost var k := PtrIndex(system.View(), this);
      hide Ok, Adjust, Removing;
      var entry := system.FindPtr(this, now);
      if entry != null {
        system.RemoveCache(entry, k, this, now);
      }
    }

    /** cache_remove on the system, whose way to free a payload is to delete that cache. */
    method RemoveCache(entry: Item, ghost k: nat, ghost cache: Cache, now: Uint32)
      requires Valid() && cache.Apart(this) && !cache.hasItems
      requires k < |entries| && entries[k].obj == entry && entries[k].payload == cache
      modifies this`recentItem, this`totalSize, this`numItems, this`entries, cachedItems, objects
      ensures Valid() && View() == Removing(old(View()), k, Neg(cache.totalSize), cache, now)
      decreases 1
    {
      hide Ok, Adjust;
      AdjustSize(View(), Neg(cache.totalSize), cache, now);
      (entry.payload as Cache).Delete(true, now, this);
      RemoveHere(entry, k);
    }

    /** qsort by name, for which insertion stands here; only a sorted permutation is promised. */
    method QSort()
      requires Holds() && Current()
      modifies this`entries, cachedItems
      ensures Holds() && Current() && multiset(entries) == multiset(old(entries)) && SortedByName(entries)
    {
      var r: seq<Item> := [];
      ghost var es: seq<Entry> := [];
      var i := 0;
      hide SortedByName;
      assert SortedByName(es) by {
        NoneIsSorted();
      }
      while i < numItems
        invariant 0 <= i <= numItems && entries == old(entries) && Holds() && Current()
        invariant |r| == i && Matching(r, es) && SortedByName(es) && multiset(es) == multiset(entries[..i])
      {
        assert entries[..i + 1] == entries[..i] + [entries[i]];
        r, es := InsertByName(r, es, cachedItems[i]);
        i := i + 1;
      }
      assert entries[..i] == entries;
      PermutationMembers(es, entries);
      forall j | 0 <= j < numItems ensures es[j].obj in objects {
        assert es[j] in entries;
      }
      forall j | 0 <= j < numItems {
        cachedItems[j] := r[j];
      }
      entries := es;
    }

    method SetName(name: string, p: object?, now: Uint32)
      requires Valid()
      modifies this`recentItem, this`entries, cachedItems, objects
      ensures Valid() && Renamed(old(View()), p, name, now, View())
    {
      ghost var was, k := View(), PtrIndex(View(), p);
      hide Ok, SortedByName, PtrIndex;
      var item := FindPtr(p, now);
      if item != null {
        OkIsDistinct(View());
        OthersAre(k);
        item.name := name;
        Refresh(k);
        QSort();
        RenamedKeepsOk(was, p, name, now, View());
      }
    }

    /** cache_init: an empty cache, and an entry for it in the system if that has room. */
    static method CacheInit(name: string, maxItems: nat, base: Uint32, hasFree: bool, now: Uint32, system: Cache)
      returns (cache: Cache, entry: Item?)
      requires system.Valid()
      modifies system`recentItem, system`numItems, system`totalSize, system`entries, system`objects, system.cachedItems
      ensures cache.Valid() && system.Valid() && fresh(cache) && cache.Apart(system)
      ensures cache.View() == CacheV([], null, 0, maxItems)
      ensures entry == null <==> old(system.numItems) >= system.numAllocated
      ensures entry == null ==> system.View() == old(system.View())
      ensures entry != null ==>
                fresh(entry) && system.View() == Add(old(system.View()), Entry(entry, cache, base, now, 1, name))
    {
      hide Ok, Add;
      cache := new Cache(maxItems, hasFree);
      entry := null;
      if system.numItems < system.numAllocated {
        entry := system.AddHere(name, cache, base, now);
      }
    }
  }

  /** The items in the state that the entries say. */
  ghost predicate Matching(items: seq<Item>, es: seq<Entry>)
    reads items
  {
    |items| == |es| && forall j :: 0 <= j < |items| ==> items[j] == es[j].obj && EntryOf(items[j]) == es[j]
  }

  lemma MatchingInserted(items: seq<Item>, es: seq<Entry>, i: nat, item: Item)
    requires Matching(items, es) && i <= |items|
    ensures Matching(items[..i] + [item] + items[i..], es[..i] + [EntryOf(item)] + es[i..])
  {
    var r, rs := items[..i] + [item] + items[i..], es[..i] + [EntryOf(item)] + es[i..];
    forall j | 0 <= j < |r| ensures r[j] == rs[j].obj && EntryOf(r[j]) == rs[j] {
      InsertedAt(es, i, EntryOf(item), j);
      assert r[j] == if j < i then items[j] else if j == i then item else items[j - 1];
    }
  }

  method InsertByName(items: seq<Item>, ghost es: seq<Entry>, item: Item) returns (r: seq<Item>, ghost rs: seq<Entry>)
    requires Matching(items, es) && SortedByName(es)
    ensures Matching(r, rs) && SortedByName(rs) && |r| == |items| + 1
    ensures multiset(rs) == multiset(es) + multiset{EntryOf(item)}
  {
    var i := FindPlaceAmong(items, es, item.name);
    AddKeepsSorted(es, i, EntryOf(item));
    hide SortedByName, Place;
    MatchingInserted(items, es, i, item);
    Sorting.InsertPermutes(es, i, EntryOf(item));
    r, rs := items[..i] + [item] + items[i..], es[..i] + [EntryOf(item)] + es[i..];
  }

  method FindPlaceAmong(items: seq<Item>, ghost es: seq<Entry>, name: string) returns (i: nat)
    requires Matching(items, es)
    ensures i <= |items| && i == Place(es, name)
  {
    i := 0;
    while i < |items| && !NameLe(name, items[i].name)
      invariant 0 <= i <= |items| && forall j :: 0 <= j < i ==> !NameLe(name, es[j].name)
    {
      i := i + 1;
    }
    PlaceIs(es, name, i);
  }

  lemma PlaceIs(es: seq<Entry>, name: string, i: nat)
    requires i <= |es| && (i < |es| ==> NameLe(name, es[i].name))
    requires forall j :: 0 <= j < i ==> !NameLe(name, es[j].name)
    ensures Place(es, name) == i
  {
  }

  lemma NoneIsSorted()
    ensures SortedByName([])
  {
  }

  lemma InsertedAt(es: seq<Entry>, i: nat, e: Entry, j: nat)
    requires i <= |es| && j <= |es|
    ensures (es[..i] + [e] + es[i..])[j] == if j < i then es[j] else if j == i then e else es[j - 1]
  {
  }

  lemma DroppedAt(es: seq<Entry>, k: nat, j: nat)
    requires k < |es| && j < |es| - 1
    ensures (es[..k] + es[k + 1..])[j] == if j < k then es[j] else es[j + 1]
  {
  }

  lemma RecentAt(c: CacheV) returns (k: nat)
    requires Ok(c) && c.recent != null
    ensures k < |c.entries| && c.entries[k].obj == c.recent
  {
    k :| k < |c.entries| && c.entries[k].obj == c.recent;
  }

  /** In a sorted cache, a name missed in the middle is missed on one side. */
  lemma NamesAround(c: CacheV, mid: nat, name: string)
    requires Ok(c) && mid < |c.entries| && c.entries[mid].name != name
    ensures NameLe(name, c.entries[mid].name) ==> forall i :: mid <= i < |c.entries| ==> c.entries[i].name != name
    ensures !NameLe(name, c.entries[mid].name) ==> forall i :: 0 <= i <= mid ==> c.entries[i].name != name
  {
    NameLeTotal(name, c.entries[mid].name);
  }

  lemma ForgetKeepsOk(c: CacheV)
    requires Ok(c)
    ensures Ok(c.(recent := null))
  {
  }

  lemma CleanStep(t: Two, id: object, i: nat, limit: Uint32, now: Uint32)
    requires i < |t.c.entries|
    ensures CleanFrom(t, id, i + 1, limit, now)
            == CleanFrom(if Goes(t.c.entries[i], limit, now) then RemoveBoth(t, id, i, now) else t, id, i, limit, now)
  {
  }

  lemma CleanWhole(t: Two, id: object, limit: Uint32, now: Uint32)
    ensures CleanFrom(t, id, |t.c.entries|, limit, now).c.entries == Staying(t.c.entries, limit, now)
  {
    CleanKeepsExactly(t, id, |t.c.entries|, limit, now);
    assert t.c.entries[..|t.c.entries|] == t.c.entries;
  }

  lemma CleanEnd(t: Two, id: object, limit: Uint32, now: Uint32)
    ensures CleanFrom(t, id, 0, limit, now) == t
  {
  }

  /** What is done and reported so far leads to the same end. */
  ghost predicate Compacting(t: Two, u: Two, id: object, i: nat, freed: seq<Uint32>, limit: Uint32, now: Uint32,
                             so: Uint32)
  {
    && i <= |freed| == |t.c.entries| == |u.c.entries|
    && CompactFrom(u, id, i, freed, limit, now) == CompactFrom(t, id, 0, freed, limit, now)
    && Wrap(so + CompactFreed(u, id, i, freed, limit, now)) == CompactFreed(t, id, 0, freed, limit, now)
  }

  lemma CompactingStart(t: Two, id: object, freed: seq<Uint32>, limit: Uint32, now: Uint32)
    requires |t.c.entries| == |freed|
    ensures Compacting(t, t, id, 0, freed, limit, now, 0)
  {
    WrapIsSame(CompactFreed(t, id, 0, freed, limit, now));
  }

  lemma CompactingStep(t: Two, u: Two, id: object, i: nat, freed: seq<Uint32>, limit: Uint32, now: Uint32, so: Uint32)
    requires Compacting(t, u, id, i, freed, limit, now, so) && i < |freed|
    ensures Compacting(t, CompactOne(u, id, i, freed[i], limit, now), id, i + 1, freed, limit, now,
                       Wrap(so + Yield(u, i, freed[i], limit, now)))
  {
    hide CompactOne, Yield, Wrap, CompactFrom, CompactFreed;
    var v := CompactUnfolds(u, id, i, freed, limit, now);
    var rest, d := CompactFreed(v, id, i + 1, freed, limit, now), Yield(u, i, freed[i], limit, now);
    WrapRegrouped(so, d, rest);
    assert (rest as int) + (d as int) == (d as int) + (rest as int);
  }

  lemma CompactingEnd(t: Two, u: Two, id: object, freed: seq<Uint32>, limit: Uint32, now: Uint32, so: Uint32)
    requires Compacting(t, u, id, |freed|, freed, limit, now, so)
    ensures u == CompactFrom(t, id, 0, freed, limit, now) && so == CompactFreed(t, id, 0, freed, limit, now)
  {
    WrapIsSame(so);
  }

  lemma AdjustIs(c: CacheV, delta: Uint32, p: object?, now: Uint32)
    ensures var k := PtrIndex(c, p);
            if k < |c.entries|
            then && |CacheSpec.FindPtr(c, p, now).entries| == |c.entries|
                 && Adjust(c, delta, p, now) == Resized(CacheSpec.FindPtr(c, p, now), k, delta, now)
            else Adjust(c, delta, p, now) == c == CacheSpec.FindPtr(c, p, now)
  {
  }

  lemma AdjustMisses(c: CacheV, delta: Uint32, p: object?, now: Uint32)
    ensures PtrIndex(c, p) == |c.entries| ==> Adjust(c, delta, p, now) == c
  {
  }

  lemma OkIsDistinct(c: CacheV)
    requires Ok(c)
    ensures Distinct(c.entries)
  {
  }

  lemma RecentIsFound(c: CacheV, p: object?)
    requires Ok(c) && c.recent != null
    requires forall i :: 0 <= i < |c.entries| ==> c.entries[i].obj == c.recent ==> c.entries[i].payload == p
    ensures PtrIndex(c, p) < |c.entries| && c.entries[PtrIndex(c, p)].obj == c.recent
  {
  }

  lemma FirstIsFound(c: CacheV, p: object?, k: nat)
    requires Ok(c) && k < |c.entries| && c.entries[k].payload == p
    requires forall i :: 0 <= i < k ==> c.entries[i].payload != p
    requires c.recent == null ||
             exists i :: 0 <= i < |c.entries| && c.entries[i].obj == c.recent && c.entries[i].payload != p
    ensures PtrIndex(c, p) == k
  {
  }
}
