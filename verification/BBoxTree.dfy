/** bbox_tree.c: the bounding-box tree, updated in place. */
module BBoxTrees {
  import opened Geometry
  import opened Seqs
  import opened Sorting
  import opened BBoxItems
  import opened BBoxTreeSpec
  import opened BBoxCull
  import opened BBoxRuns
  import opened BBoxShown
  import opened BBoxPaths
  import opened BBoxNodes
  import opened BBoxBuild

  /** One result list (BBOX_INTERSECTION_DATA). */
  datatype IntersectData =
    IntersectData(updateNeeded: bool, items: seq<BBoxItem>, start: seq<nat>, stop: seq<nat>,
                  frustum: Frustum, frustumMask: set<nat>)

  /** Each type's slots lie in the list and hold items of that type. */
  ghost predicate ListOk(d: IntersectData) {
    && |d.start| == |d.stop| == TYPES_COUNT
    && InRange(d.frustum, d.frustumMask)
    && forall j :: 0 <= j < TYPES_COUNT ==>
         && d.start[j] <= d.stop[j] <= |d.items|
         && forall p :: d.start[j] <= p < d.stop[j] ==> d.items[p].itemType == j
  }

  function Segment(d: IntersectData, j: nat): seq<BBoxItem>
    requires j < |d.start| == |d.stop| && d.start[j] <= d.stop[j] <= |d.items|
  {
    d.items[d.start[j]..d.stop[j]]
  }

  /** The slots of a type are exactly the items of that type; absent types have no slots. */
  ghost predicate SegmentsExact(d: IntersectData) {
    ListOk(d) && forall j, p :: 0 <= j < TYPES_COUNT && 0 <= p < |d.items| && d.items[p].itemType == j ==>
                                  d.start[j] <= p < d.stop[j]
  }

  /** An exact segment is a filter of the list. */
  lemma ExactSegment(d: IntersectData, j: nat)
    requires SegmentsExact(d) && j < TYPES_COUNT
    ensures Segment(d, j) == OfType(d.items, j)
  {
    var a, b, c := d.items[..d.start[j]], Segment(d, j), d.items[d.stop[j]..];
    assert d.items == a + b + c;
    assert forall e :: e in b ==> e.itemType == j;
    assert forall e :: e in a || e in c ==> e.itemType != j;
    hide ListOk, SegmentsExact, Segment;
    OfOneType(a, b, c, j);
  }

  lemma OfOneType(a: seq<BBoxItem>, b: seq<BBoxItem>, c: seq<BBoxItem>, j: nat)
    requires (forall e :: e in b ==> e.itemType == j) && forall e :: e in a || e in c ==> e.itemType != j
    ensures OfType(a + b + c, j) == b
  {
    var p := (e: BBoxItem) => e.itemType == j;
    FilterConcat(a + b, c, p);
    FilterConcat(a, b, p);
    FilterNone(a, p);
    FilterAll(b, p);
    FilterNone(c, p);
  }

  lemma ExactSegments(d: IntersectData, s: seq<BBoxItem>)
    requires SegmentsExact(d) && multiset(d.items) == multiset(s)
    ensures forall j :: 0 <= j < TYPES_COUNT ==> multiset(Segment(d, j)) == multiset(OfType(s, j))
  {
    forall j | 0 <= j < TYPES_COUNT ensures multiset(Segment(d, j)) == multiset(OfType(s, j)) {
      ExactSegment(d, j);
      FilterPermutation(d.items, s, (e: BBoxItem) => e.itemType == j);
    }
  }

  ghost function ViewOf(d: IntersectData, seen: (Frustum, set<nat>)): View
    requires ListOk(d)
  {
    View(d.updateNeeded, seq(TYPES_COUNT, j requires 0 <= j < TYPES_COUNT => Segment(d, j)),
         d.frustum, d.frustumMask, seen.0, seen.1)
  }

  ghost function Views(lists: seq<IntersectData>, seen: seq<(Frustum, set<nat>)>): seq<View>
    requires |lists| == |seen| && forall i :: 0 <= i < |lists| ==> ListOk(lists[i])
  {
    seq(|lists|, i requires 0 <= i < |lists| => ViewOf(lists[i], seen[i]))
  }

  lemma ViewsUpdate(lists: seq<IntersectData>, seen: seq<(Frustum, set<nat>)>, idx: nat, d: IntersectData,
                    s: (Frustum, set<nat>))
    requires |lists| == |seen| && forall i :: 0 <= i < |lists| ==> ListOk(lists[i])
    requires idx < |lists| && ListOk(d)
    ensures Views(lists[idx := d], seen[idx := s]) == Views(lists, seen)[idx := ViewOf(d, s)]
  {
  }

  lemma FrustumView(d: IntersectData, seen: (Frustum, set<nat>), f: Frustum, mask: set<nat>)
    requires ListOk(d) && InRange(f, mask)
    ensures ViewOf(d.(frustum := f, frustumMask := mask), seen) == ViewOf(d, seen).(frustum := f, mask := mask)
  {
    var d' := d.(frustum := f, frustumMask := mask);
    assert ViewOf(d', seen).segments == ViewOf(d, seen).segments by {
      assert forall j :: 0 <= j < TYPES_COUNT ==> Segment(d', j) == Segment(d, j);
    }
  }

  /** The view of a recomputed list. */
  lemma FlagKeepsSegments(d: IntersectData)
    ensures SegmentsExact(d) ==> SegmentsExact(d.(updateNeeded := false))
  {
  }

  lemma RebuiltView(s: State, d: IntersectData, seen: (Frustum, set<nat>), d': IntersectData)
    requires WellFormed(s) && ListOk(d) && d.updateNeeded && SegmentsExact(d')
    requires multiset(d'.items) == multiset(Cull(s.tree, s.items, d.frustum, d.frustumMask))
    requires !d'.updateNeeded && d'.frustum == d.frustum && d'.frustumMask == d.frustumMask
    ensures Checked(s, ViewOf(d, seen), ViewOf(d', (d.frustum, d.frustumMask)))
  {
    ExactSegments(d', Cull(s.tree, s.items, d.frustum, d.frustumMask));
  }

  /** The lists after appending some items to one of them. */
  function Appended(lists: seq<IntersectData>, idx: nat, more: seq<BBoxItem>): seq<IntersectData>
    requires idx < |lists|
  {
    lists[idx := lists[idx].(items := lists[idx].items + more)]
  }

  lemma AppendedNone(lists: seq<IntersectData>, idx: nat)
    requires idx < |lists|
    ensures Appended(lists, idx, []) == lists
  {
    assert lists[idx].items + [] == lists[idx].items;
  }

  lemma AppendedTwice(lists: seq<IntersectData>, idx: nat, a: seq<BBoxItem>, b: seq<BBoxItem>)
    requires idx < |lists|
    ensures Appended(Appended(lists, idx, a), idx, b) == Appended(lists, idx, a + b)
  {
    assert lists[idx].items + a + b == lists[idx].items + (a + b);
  }

  lemma AppendedThrice(lists: seq<IntersectData>, idx: nat, a: seq<BBoxItem>, b: seq<BBoxItem>, c: seq<BBoxItem>)
    requires idx < |lists|
    ensures Appended(Appended(Appended(lists, idx, a), idx, b), idx, c) == Appended(lists, idx, a + (b + c))
  {
    AppendedTwice(Appended(lists, idx, a), idx, b, c);
    AppendedTwice(lists, idx, a, b + c);
  }

  lemma VisibleNone(f: Frustum, mask: set<nat>)
    requires InRange(f, mask)
    ensures Visible(f, mask, []) == []
  {
  }

  lemma VisibleOne(f: Frustum, mask: set<nat>, e: BBoxItem)
    requires InRange(f, mask)
    ensures Visible(f, mask, [e]) == if Passes(f, mask, e.bbox) then [e] else []
  {
    FilterAppend([], e, Seen(f, mask));
    assert [] + [e] == [e];
  }

  lemma VisibleNext(f: Frustum, mask: set<nat>, s: seq<BBoxItem>, i: nat)
    requires InRange(f, mask) && i < |s|
    ensures Visible(f, mask, s[..i + 1]) == Visible(f, mask, s[..i]) + Visible(f, mask, [s[i]])
  {
    assert s[..i + 1] == s[..i] + [s[i]];
    FilterConcat(s[..i], [s[i]], Seen(f, mask));
  }

  method CheckAabbInFrustum(bbox: Box, f: Frustum, inMask: set<nat>) returns (v: Verdict)
    requires InRange(f, inMask)
    ensures v == Classify(f, inMask, bbox)
    ensures GoodView(f, inMask) && Proper(bbox) ==>
              match v
              case Outside => !InSight(f, inMask, bbox)
              case Inside => forall i :: i in inMask ==> !Pokes(bbox, f[i])
              case Intersect(out) =>
                InSight(f, inMask, bbox) && out != {} && forall i :: i in out <==> i in inMask && Pokes(bbox, f[i])
  {
    if GoodView(f, inMask) && Proper(bbox) {
      ClassifyByPoints(f, inMask, bbox);
      PassesByPoints(f, inMask, bbox);
    }
    var outMask := {};
    for i := 0 to |f|
      invariant forall j :: j in inMask && j < i ==> 0.0 <= FarDot(bbox, f[j])
      invariant outMask == set j | j in inMask && j < i && NearDot(bbox, f[j]) < 0.0
    {
      if i in inMask {
        if FarDot(bbox, f[i]) < 0.0 {
          return Outside;
        }
        if NearDot(bbox, f[i]) < 0.0 {
          outMask := outMask + {i};
        }
      }
    }
    assert outMask == Crossed(f, inMask, bbox);
    v := if outMask == {} then Inside else Intersect(outMask);
  }

  method CheckAabbOutsideFrustum(bbox: Box, f: Frustum, inMask: set<nat>) returns (outside: bool)
    requires InRange(f, inMask)
    ensures outside == !Passes(f, inMask, bbox)
    ensures GoodView(f, inMask) && Proper(bbox) ==> outside == !InSight(f, inMask, bbox)
  {
    if GoodView(f, inMask) && Proper(bbox) {
      PassesByPoints(f, inMask, bbox);
    }
    for i := 0 to |f|
      invariant forall j :: j in inMask && j < i ==> 0.0 <= FarDot(bbox, f[j])
    {
      if i in inMask && FarDot(bbox, f[i]) < 0.0 {
        return true;
      }
    }
    outside := false;
  }

  function ByType(): BBoxItem -> real {
    (e: BBoxItem) => e.itemType as real
  }

  lemma TypesAscend(s: seq<BBoxItem>, i: nat, j: nat)
    requires SortedBy(s, ByType()) && i <= j < |s|
    ensures s[i].itemType <= s[j].itemType
  {
    assert ByType()(s[i]) <= ByType()(s[j]);
  }

  ghost predicate TypeSlots(s: seq<BBoxItem>, n: nat, j: nat, start: nat, stop: nat)
    requires n <= |s|
  {
    start <= stop <= n && forall p :: 0 <= p < n ==> (s[p].itemType == j <==> start <= p < stop)
  }

  /** The start and stop tables of a list sorted by type. */
  method BuildStartStop(s: seq<BBoxItem>) returns (start: seq<nat>, stop: seq<nat>)
    requires SortedBy(s, ByType())
    ensures |start| == |stop| == TYPES_COUNT
    ensures forall j :: 0 <= j < TYPES_COUNT ==> TypeSlots(s, |s|, j, start[j], stop[j])
  {
    start, stop := seq(TYPES_COUNT, _ => 0), seq(TYPES_COUNT, _ => 0);
    if 0 < |s| {
      var i, curType := 0, s[0].itemType;
      if curType == TYPE_DELETED {
        forall p | 0 <= p < |s| ensures s[p].itemType == TYPE_DELETED {
          TypesAscend(s, 0, p);
        }
        return;
      }
      start := start[curType := i];
      i := 1;
      while i < |s|
        invariant 1 <= i <= |s| && |start| == |stop| == TYPES_COUNT
        invariant curType == s[i - 1].itemType && curType != TYPE_DELETED
        invariant start[curType] < i && TypeSlots(s, i, curType, start[curType], i)
        invariant forall j :: 0 <= j < TYPES_COUNT && j != curType ==> TypeSlots(s, i, j, start[j], stop[j])
      {
        var itemType := s[i].itemType;
        TypesAscend(s, i - 1, i);
        if itemType != curType {
          forall p | 0 <= p < i ensures s[p].itemType < itemType {
            TypesAscend(s, p, i - 1);
          }
          if itemType == TYPE_DELETED {
            break;
          }
          start := start[itemType := i];
          stop := stop[curType := i];
          curType := itemType;
        }
        i := i + 1;
      }
      forall p | i <= p < |s| ensures s[p].itemType == TYPE_DELETED {
        TypesAscend(s, i, p);
      }
      stop := stop[curType := i];
    }
  }

  /** memmove by one slot: what follows slot k moves down, the last slot keeps its old contents. */
  function MovedDown(s: seq<BBoxItem>, k: nat, stop: nat): (r: seq<BBoxItem>)
    requires k < stop <= |s|
    ensures |r| == |s|
    ensures forall p :: 0 <= p < |s| && !(k <= p < stop) ==> r[p] == s[p]
    ensures forall p :: k <= p < stop - 1 ==> r[p] == s[p + 1]
    ensures r[stop - 1] == s[stop - 1]
  {
    s[..k] + s[k + 1..stop] + s[stop - 1..]
  }

  /** What is kept so far, followed by the filter of what remains. */
  ghost predicate Sifted(s: seq<BBoxItem>, start: nat, k: nat, stop: nat, p: BBoxItem -> bool, want: seq<BBoxItem>)
    requires start <= k <= stop <= |s|
  {
    want == s[start..k] + Filter(s[k..stop], p)
  }

  lemma SiftStep(s: seq<BBoxItem>, start: nat, k: nat, stop: nat, p: BBoxItem -> bool, want: seq<BBoxItem>)
    requires start <= k < stop <= |s| && Sifted(s, start, k, stop, p, want)
    ensures p(s[k]) ==> Sifted(s, start, k + 1, stop, p, want)
    ensures !p(s[k]) ==> Sifted(MovedDown(s, k, stop), start, k, stop - 1, p, want)
  {
    assert s[k..stop][1..] == s[k + 1..stop];
    if p(s[k]) {
      assert s[start..k + 1] == s[start..k] + [s[k]];
    } else {
      var moved := MovedDown(s, k, stop);
      assert moved[start..k] == s[start..k] && moved[k..stop - 1] == s[k + 1..stop];
    }
  }

  lemma SiftStart(s: seq<BBoxItem>, start: nat, stop: nat, p: BBoxItem -> bool)
    requires start <= stop <= |s|
    ensures Sifted(s, start, start, stop, p, Filter(s[start..stop], p))
  {
    assert s[start..start] == [];
  }

  lemma SiftEnd(s: seq<BBoxItem>, start: nat, stop: nat, p: BBoxItem -> bool, want: seq<BBoxItem>)
    requires start <= stop <= |s| && Sifted(s, start, stop, stop, p, want)
    ensures s[start..stop] == want
  {
    assert s[stop..stop] == [];
  }

  /** Removes one object from the slots of one type, closing each gap inside the segment. */
  method DeleteFromSlots(s: seq<BBoxItem>, j: nat, start: nat, stop0: nat, ID: nat, typeMask: nat)
    returns (items: seq<BBoxItem>, stop: nat)
    requires start <= stop0 <= |s| && j < TYPES_COUNT && GetTypeMaskFromType(j) == typeMask
    requires forall p :: start <= p < stop0 ==> s[p].itemType == j
    ensures |items| == |s| && start <= stop <= stop0
    ensures forall p :: 0 <= p < |items| && !(start <= p < stop0) ==> items[p] == s[p]
    ensures forall p :: start <= p < stop ==> items[p].itemType == j
    ensures items[start..stop] == Without(s[start..stop0], Key(typeMask, ID))
  {
    items, stop := s, stop0;
    var k := start;
    ghost var other := OtherKey(Key(typeMask, ID));
    ghost var want := Filter(s[start..stop0], other);
    assert want == Without(s[start..stop0], Key(typeMask, ID));
    SiftStart(s, start, stop0, other);
    hide Filter, Without, Sifted;
    while k < stop
      invariant start <= k <= stop <= stop0 && |items| == |s|
      invariant forall p :: 0 <= p < |items| && !(start <= p < stop0) ==> items[p] == s[p]
      invariant forall p :: start <= p < stop ==> items[p].itemType == j
      invariant Sifted(items, start, k, stop, other, want)
      decreases stop - k
    {
      SiftStep(items, start, k, stop, other, want);
      var id := if Is3DMask(typeMask) then items[k].ID / 4096 else items[k].ID;
      if id == ID {
        items := MovedDown(items, k, stop);
        stop := stop - 1;
      } else {
        k := k + 1;
      }
    }
    SiftEnd(items, start, stop, other, want);
  }

  method DeleteFromSegment(d: IntersectData, j: nat, ID: nat, typeMask: nat) returns (d': IntersectData)
    requires ListOk(d) && j < TYPES_COUNT && GetTypeMaskFromType(j) == typeMask
    ensures ListOk(d') && d' == d.(items := d'.items, stop := d'.stop)
    ensures Segment(d', j) == Without(Segment(d, j), Key(typeMask, ID))
    ensures forall i :: 0 <= i < TYPES_COUNT && i != j ==> Segment(d', i) == Segment(d, i)
  {
    var items, stop := DeleteFromSlots(d.items, j, d.start[j], d.stop[j], ID, typeMask);
    d' := d.(items := items, stop := d.stop[j := stop]);
    forall i | 0 <= i < TYPES_COUNT && i != j
      ensures items[d.start[i]..d.stop[i]] == Segment(d, i)
      ensures forall p :: d.start[i] <= p < d.stop[i] ==> items[p].itemType == i
    {
      forall p | d.start[i] <= p < d.stop[i] ensures items[p] == d.items[p] {
        assert d.items[p].itemType == i;
      }
    }
  }

  /** Segments of other masks hold no such key. */
  lemma OtherMasksUntouched(d: IntersectData, j: nat, k: Key)
    requires ListOk(d) && j < TYPES_COUNT && GetTypeMaskFromType(j) != k.mask
    ensures Without(Segment(d, j), k) == Segment(d, j)
  {
    WithoutAbsent(Segment(d, j), k);
  }

  method DeleteFromList(d: IntersectData, ID: nat, typeMask: nat) returns (d': IntersectData)
    requires ListOk(d)
    ensures ListOk(d') && d' == d.(items := d'.items, stop := d'.stop)
    ensures forall j :: 0 <= j < TYPES_COUNT ==> Segment(d', j) == Without(Segment(d, j), Key(typeMask, ID))
  {
    d' := d;
    for j := 0 to TYPES_COUNT
      invariant ListOk(d') && d' == d.(items := d'.items, stop := d'.stop)
      invariant forall i :: 0 <= i < j ==> Segment(d', i) == Without(Segment(d, i), Key(typeMask, ID))
      invariant forall i :: j <= i < TYPES_COUNT ==> Segment(d', i) == Segment(d, i)
    {
      if typeMask == GetTypeMaskFromType(j) {
        d' := DeleteFromSegment(d', j, ID, typeMask);
      } else {
        OtherMasksUntouched(d, j, Key(typeMask, ID));
      }
    }
  }

  // ---------- reflection portals: four planes each ----------

  predicate Behind(portals: seq<Plane>, i: nat, j: nat, bbox: Box)
    requires j < 4 && 4 * i + 4 <= |portals|
  {
    FarDot(bbox, portals[4 * i + j]) < 0.0
  }

  predicate InPortal(portals: seq<Plane>, i: nat, bbox: Box)
    requires 4 * i + 4 <= |portals|
  {
    forall j :: 0 <= j < 4 ==> !Behind(portals, i, j, bbox)
  }

  predicate InPortals(portals: seq<Plane>, count: nat, bbox: Box)
    requires 4 * count <= |portals|
  {
    exists i :: 0 <= i < count && InPortal(portals, i, bbox)
  }

  /** A portal shows a box that has some point before each of its four planes. */
  lemma PortalByPoints(portals: seq<Plane>, i: nat, bbox: Box)
    requires 4 * i + 4 <= |portals| && Proper(bbox) && GoodView(portals[4 * i..4 * i + 4], {0, 1, 2, 3})
    ensures InPortal(portals, i, bbox) <==> InSight(portals[4 * i..4 * i + 4], {0, 1, 2, 3}, bbox)
  {
    var portal := portals[4 * i..4 * i + 4];
    PassesByPoints(portal, {0, 1, 2, 3}, bbox);
    forall j | 0 <= j < 4 ensures Behind(portals, i, j, bbox) <==> FarDot(bbox, portal[j]) < 0.0 {
      assert portal[j] == portals[4 * i + j];
    }
  }

  function Shown(portals: seq<Plane>, count: nat): BBoxItem -> bool
    requires 4 * count <= |portals|
  {
    (e: BBoxItem) => InPortals(portals, count, e.bbox)
  }

  method CheckAabbInsidePortals(bbox: Box, portals: seq<Plane>, count: nat) returns (result: bool)
    requires 4 * count <= |portals|
    ensures result == InPortals(portals, count, bbox)
  {
    for i := 0 to count
      invariant forall k :: 0 <= k < i ==> !InPortal(portals, k, bbox)
    {
      var ret := true;
      for j := 0 to 4
        invariant ret ==> forall k :: 0 <= k < j ==> !Behind(portals, i, k, bbox)
        invariant !ret ==> !InPortal(portals, i, bbox)
      {
        if Behind(portals, i, j, bbox) {
          ret := false;
          break;
        }
      }
      if ret {
        assert InPortal(portals, i, bbox);
        return true;
      }
    }
    result := false;
  }

  function Mark(e: BBoxItem, keep: BBoxItem -> bool): BBoxItem {
    if e.itemType < TYPES_COUNT && !keep(e) then e.(itemType := TYPE_DELETED) else e
  }

  /** Hiding by type leaves of each type the items kept. */
  lemma {:induction false} MarkingFilters(s: seq<BBoxItem>, marked: seq<BBoxItem>, keep: BBoxItem -> bool, j: nat)
    requires |marked| == |s| && j < TYPES_COUNT
    requires forall p :: 0 <= p < |s| ==> marked[p] == Mark(s[p], keep)
    ensures OfType(marked, j) == Filter(OfType(s, j), keep)
  {
    if s != [] {
      MarkingFilters(s[1..], marked[1..], keep, j);
      var p := (e: BBoxItem) => e.itemType == j;
      if p(s[0]) {
        assert OfType(s, j) == [s[0]] + OfType(s[1..], j);
        assert OfType(s, j)[1..] == OfType(s[1..], j);
      } else {
        assert OfType(s, j) == OfType(s[1..], j) && !p(marked[0]);
      }
      assert OfType(marked, j) == (if p(marked[0]) then [marked[0]] else []) + OfType(marked[1..], j);
    }
  }

  /** Marks the items in the slots that no portal shows. */
  method ReflectionPortalChecks(d: IntersectData, portals: seq<Plane>, count: nat) returns (items: seq<BBoxItem>)
    requires ListOk(d) && 4 * count <= |portals|
    ensures |items| == |d.items|
    ensures SegmentsExact(d) ==> forall p :: 0 <= p < |items| ==> items[p] == Mark(d.items[p], Shown(portals, count))
  {
    items := d.items;
    ghost var keep := Shown(portals, count);
    for i := 0 to TYPES_COUNT
      invariant |items| == |d.items|
      invariant forall p :: 0 <= p < |items| ==>
        items[p] == if d.items[p].itemType < i && InSlot(d, p) then Mark(d.items[p], keep) else d.items[p]
    {
      for j := d.start[i] to d.stop[i]
        invariant |items| == |d.items|
        invariant forall p :: 0 <= p < |items| ==>
          items[p] == if InSlot(d, p) && (d.items[p].itemType < i || (d.items[p].itemType == i && p < j))
                      then Mark(d.items[p], keep) else d.items[p]
      {
        var shown := CheckAabbInsidePortals(items[j].bbox, portals, count);
        if !shown {
          items := items[j := items[j].(itemType := TYPE_DELETED)];
        }
      }
    }
  }

  ghost predicate InSlot(d: IntersectData, p: nat)
    requires ListOk(d) && p < |d.items|
  {
    var j := d.items[p].itemType;
    j < TYPES_COUNT && d.start[j] <= p < d.stop[j]
  }

  class BBoxTree {
    var items: seq<BBoxItem>
    var nodes: seq<Node>
    var curIntersectType: nat
    var intersect: seq<IntersectData>
    // the tree the nodes stand for, and the frustum each list was last checked with
    ghost var tree: Tree
    ghost var seen: seq<(Frustum, set<nat>)>

    ghost predicate Valid()
      reads this
    {
      && Represents(nodes, tree) && tree.node == 0
      && Built(tree, items) && tree.first == 0 && tree.count == |items|
      && |intersect| == |seen| == MAX_INTERSECTION_TYPES && curIntersectType < MAX_INTERSECTION_TYPES
      && forall i :: 0 <= i < MAX_INTERSECTION_TYPES ==> ListOk(intersect[i])
    }

    /** The state the run properties speak about. */
    ghost function Abstract(): State
      reads this
      requires Valid()
    {
      State(items, tree, curIntersectType, Views(intersect, seen))
    }

    // ---------- construction ----------

    /** Empty result lists and no tree yet. */
    constructor BuildBBoxTree()
      ensures items == [] && nodes == [] && curIntersectType == 0
      ensures |intersect| == |seen| == MAX_INTERSECTION_TYPES
      ensures forall i :: 0 <= i < MAX_INTERSECTION_TYPES ==> ListOk(intersect[i])
    {
      items, nodes, curIntersectType := [], [], 0;
      var zeros := seq(TYPES_COUNT, _ => 0);
      var empty := IntersectData(false, [], zeros, zeros, [], {});
      intersect := [empty, empty, empty];
      seen := [([], {}), ([], {}), ([], {})];
    }

    /** Running hull volumes, forwards if a < b and backwards otherwise. */
    method BuildAreaTable(a: nat, b: nat, areas: array<real>)
      requires a < |items| && b < |items|
      requires areas.Length == (if a < b then b - a else a - b) + 1
      modifies areas
      ensures a < b ==> forall j :: 0 <= j < areas.Length ==> areas[j] == AreaLeft(items[a..b + 1], j)
      ensures b <= a ==> forall j :: 0 <= j < areas.Length ==> areas[j] == AreaRight(items[b..a + 1], j)
    {
      var hull := EMPTY;
      if a < b {
        ghost var s := items[a..b + 1];
        for j := 0 to areas.Length
          invariant hull == Hull(s[..j])
          invariant forall k :: 0 <= k < j ==> areas[k] == AreaLeft(s, k)
        {
          assert s[..j + 1] == s[..j] + [items[a + j]];
          HullAppend(EMPTY, s[..j], items[a + j]);
          hull := Join(hull, items[a + j].bbox);
          areas[j] := Volume(hull);
        }
      } else {
        ghost var s := items[b..a + 1];
        for j := areas.Length downto 0
          invariant hull == Hull(s[j..])
          invariant forall k :: j <= k < areas.Length ==> areas[k] == AreaRight(s, k)
        {
          assert s[j..] == [items[b + j]] + s[j + 1..];
          HullPrepend(items[b + j], s[j + 1..]);
          hull := Join(hull, items[b + j].bbox);
          areas[j] := Volume(hull);
        }
      }
    }

    /** The hull of a range and the axes by decreasing extent. */
    method FindAxisAndBBox(first: nat, last: nat) returns (axes: seq<nat>, bbox: Box)
      requires first <= last <= |items|
      ensures bbox == Hull(items[first..last])
      ensures DecreasingAxes(bbox, axes)
    {
      bbox := EMPTY;
      for i := first to last
        invariant bbox == Hull(items[first..i])
      {
        assert items[first..i + 1] == items[first..i] + [items[i]];
        HullAppend(EMPTY, items[first..i], items[i]);
        bbox := Join(bbox, items[i].bbox);
      }
      axes := SortAxes(bbox);
    }

    static method SortAxes(bbox: Box) returns (axes: seq<nat>)
      ensures DecreasingAxes(bbox, axes)
    {
      var a1, a2, a3 := 0, 1, 2;
      if Extent(bbox, a1) < Extent(bbox, a2) {
        a1, a2 := a2, a1;
      }
      if Extent(bbox, a1) < Extent(bbox, a3) {
        a1, a3 := a3, a1;
      }
      if Extent(bbox, a2) < Extent(bbox, a3) {
        a2, a3 := a3, a2;
      }
      axes := [a1, a2, a3];
    }

    /** qsort of a range along one axis. */
    method SortRange(first: nat, last: nat, axis: nat)
      requires first < last <= |items|
      modifies this`items
      ensures RangePermuted(old(items), items, first, last)
      ensures SortedBy(items[first..last], AxisKey(axis))
    {
      var sorted := QSort(items[first..last], AxisKey(axis));
      PermutationMembers(sorted, items[first..last]);
      items := items[..first] + sorted + items[last..];
      assert items[first..last] == sorted;
    }

    /** The cheapest place to split the range as it is arranged now, if one beats the threshold. */
    method BestLocation(first: nat, last: nat) returns (bestLoc: int)
      requires first + 8 < last <= |items|
      ensures var s := items[first..last];
              if bestLoc < 0 then BestSplit(s, -1) else first <= bestLoc && BestSplit(s, bestLoc - first)
    {
      var size := last - first;
      ghost var s := items[first..last];
      var areaLeft, areaRight := new real[size], new real[size];
      BuildAreaTable(first, last - 1, areaLeft);
      BuildAreaTable(last - 1, first, areaRight);
      bestLoc := ScanCosts(first, size, areaLeft, areaRight, s);
    }

    static method ScanCosts(first: nat, size: nat, areaLeft: array<real>, areaRight: array<real>,
                            ghost s: seq<BBoxItem>)
      returns (bestLoc: int)
      requires 8 < size == |s| == areaLeft.Length == areaRight.Length
      requires forall j :: 0 <= j < size ==> areaLeft[j] == AreaLeft(s, j) && areaRight[j] == AreaRight(s, j)
      ensures if bestLoc < 0 then BestSplit(s, -1) else first <= bestLoc && BestSplit(s, bestLoc - first)
    {
      bestLoc := -1;
      ghost var costs, threshold := Costs(s, size - 1), Threshold(s);
      var bestIndex := areaRight[0] * (size as real - 3.0);
      for i := 0 to size - 1
        invariant bestLoc == -1 || first <= bestLoc < first + i
        invariant bestIndex == if bestLoc < 0 then threshold else costs[bestLoc - first]
        invariant Leftmost(costs, i, threshold, if bestLoc < 0 then -1 else bestLoc - first)
      {
        var newIndex := NewIndex(i, size, areaLeft[i], areaRight[i + 1], s);
        if newIndex < bestIndex {
          bestIndex, bestLoc := newIndex, i + first;
        }
      }
    }

    static method NewIndex(i: nat, size: nat, left: real, right: real, ghost s: seq<BBoxItem>) returns (r: real)
      requires |s| == size && i + 1 < size && left == AreaLeft(s, i) && right == AreaRight(s, i + 1)
      ensures r == Costs(s, size - 1)[i]
    {
      CostsAt(s, size - 1, i);
      r := (i + 1) as real * left + (size - 1 - i) as real * right;
    }

    method TryAxis(first: nat, last: nat, axis: nat) returns (bestLoc: int)
      requires first + 8 < last <= |items|
      modifies this`items
      ensures RangePermuted(old(items), items, first, last)
      ensures SortedBy(items[first..last], AxisKey(axis))
      ensures BestSplit(items[first..last], if bestLoc < 0 then -1 else bestLoc - first)
      ensures bestLoc < 0 || first <= bestLoc < last - 1
    {
      SortRange(first, last, axis);
      bestLoc := BestLocation(first, last);
    }

    /** Tries the axes in order, resorting the range for each, until one has a split that pays. */
    method FindSplit(first: nat, last: nat, axes: seq<nat>) returns (bestLoc: int, ghost trials: seq<seq<BBoxItem>>)
      requires first + 8 < last <= |items| && |axes| == 3
      modifies this`items
      ensures RangePermuted(old(items), items, first, last)
      ensures bestLoc == -1 || first <= bestLoc < last - 1
      ensures Searched(old(items)[first..last], axes, trials, if bestLoc < 0 then -1 else bestLoc - first)
      ensures items[first..last] == trials[|trials| - 1]
    {
      bestLoc, trials := -1, [];
      ghost var range := items[first..last];
      var j := 0;
      while j < 3
        invariant 0 <= j <= 3 && |trials| == j && bestLoc == -1
        invariant RangePermuted(old(items), items, first, last)
        invariant Trying(range, axes, trials, items[first..last])
      {
        ghost var before := items;
        bestLoc := TryAxis(first, last, axes[j]);
        RangePermutedTwice(old(items), before, items, first, last);
        ghost var split := if bestLoc < 0 then -1 else bestLoc - first;
        TryFurther(range, axes, trials, before[first..last], items[first..last], split);
        trials := trials + [items[first..last]];
        if 0 <= bestLoc {
          return;
        }
        bestLoc := -1;
        j := j + 1;
      }
      assert axes[..3] == axes;
    }

    /**
     * Builds the tree over items first..last at the given node, handing out nodes from index on.
     * The nodes always suffice, so the array never grows.
     */
    method SortAndSplit(node: nat, index: nat, first: nat, last: nat) returns (index': nat, ghost t: Tree)
      requires first < last <= |items|
      requires node < index && index + 2 * (last - first - 1) < |nodes| <= NO_INDEX
      modifies this`items, this`nodes
      ensures RangePermuted(old(items), items, first, last)
      ensures Grown(t, items, nodes, node, first, last, index, index')
      ensures index' <= index + 2 * (last - first - 1)
      ensures |nodes| == |old(nodes)|
      ensures forall i :: 0 <= i < |nodes| && i != node && !(index <= i < index') ==> nodes[i] == old(nodes)[i]
      decreases last - first, 1
    {
      hide Searched, DecreasingAxes, Grown, RangePermuted, Hull, Last;
      ghost var axes, trials;
      var bestLoc, bbox;
      bestLoc, bbox, axes, trials := ArrangeRange(first, last);
      label Arranged:
      var size := last - first;
      if bestLoc < 0 {
        nodes := nodes[node := Node(bbox, bbox, NO_INDEX, NO_INDEX, [], first, size)];
        index' := index;
        t := Leaf(node, bbox, bbox, first, size, []);
        GrowLeaf(items, nodes, node, bbox, first, last, index, axes, trials);
      } else {
        assert index + 2 < |nodes|;
        nodes := nodes[node := Node(bbox, bbox, index, index + 1, [], first, size)];
        index', t := SplitBelow(node, index, first, bestLoc + 1, last, bbox, axes, trials);
        RangePermutedTwice(old(items), old@Arranged(items), items, first, last);
      }
    }

    /**
     * The hull of the range and the place to split it. Small ranges are not split. Otherwise the axes
     * are tried by decreasing extent; the first with a split below the threshold gives the leftmost
     * cheapest one, and the range is left sorted along the last axis tried.
     */
    method ArrangeRange(first: nat, last: nat)
      returns (bestLoc: int, bbox: Box, ghost axes: seq<nat>, ghost trials: seq<seq<BBoxItem>>)
      requires first < last <= |items|
      modifies this`items
      ensures RangePermuted(old(items), items, first, last)
      ensures bbox == Hull(items[first..last])
      ensures DecreasingAxes(bbox, axes)
      ensures last - first <= 8 ==> bestLoc < 0 && items == old(items)
      ensures 8 < last - first ==>
                && Searched(items[first..last], axes, trials, if bestLoc < 0 then -1 else bestLoc - first)
                && items[first..last] == Last(trials)
      ensures bestLoc == -1 || first <= bestLoc < last - 1
    {
      var order;
      order, bbox := FindAxisAndBBox(first, last);
      bestLoc, axes, trials := -1, order, [];
      if 8 < last - first {
        bestLoc, trials := FindSplit(first, last, order);
        ghost var split := if bestLoc < 0 then -1 else bestLoc - first;
        SearchedAgain(old(items)[first..last], items[first..last], axes, trials, split);
      }
      HullOfPermutation(EMPTY, old(items)[first..last], items[first..last]);
    }

    method SplitBelow(node: nat, index: nat, first: nat, mid: nat, last: nat, ghost box: Box,
                      ghost axes: seq<nat>, ghost trials: seq<seq<BBoxItem>>)
      returns (index': nat, ghost t: Tree)
      requires first < mid < last <= |items| && 8 < last - first
      requires node < index && index + 2 * (last - first - 1) < |nodes| <= NO_INDEX
      requires nodes[node] == Node(box, box, index, index + 1, [], first, last - first)
      requires box == Hull(items[first..last]) && items[first..last] == Last(trials)
      requires DecreasingAxes(box, axes) && Searched(items[first..last], axes, trials, mid - first - 1)
      modifies this`items, this`nodes
      ensures RangePermuted(old(items), items, first, last)
      ensures Grown(t, items, nodes, node, first, last, index, index')
      ensures index' <= index + 2 * (last - first - 1)
      ensures |nodes| == |old(nodes)|
      ensures forall i :: 0 <= i < |nodes| && !(index <= i < index') ==> nodes[i] == old(nodes)[i]
      decreases last - first, 0
    {
      hide Searched, DecreasingAxes, Grown, RangePermuted, Hull, Last, HullOver;
      ghost var l, r;
      var index1;
      index1, l := SortAndSplit(index, index + 2, first, mid);
      OutsideRange(old(items), items, first, mid);
      GrownTakesNodes(l, items, nodes, index, first, mid, index + 2, index1);
      label Right:
      index', r := SortAndSplit(index + 1, index1, mid, last);
      OutsideRange(old@Right(items), items, mid, last);
      GrownTakesNodes(r, items, nodes, index + 1, mid, last, index1, index');
      GrownElsewhere(l, old@Right(items), old@Right(nodes), index, first, mid, index + 2, index1, items, nodes);
      SplitKept(old(items), old@Right(items), items, first, mid, last, axes, trials);
      t := Fork(node, box, box, first, last - first, [], l, r);
      GrowFork(l, r, items, nodes, node, box, first, mid, last, index, index1, index', axes, trials);
    }

    /** Builds the tree; the result holds the same items, is sound, and marks every list stale. */
    method InitBBoxTree(bboxItems: seq<BBoxItem>)
      requires 2 * |bboxItems| <= NO_INDEX && curIntersectType < MAX_INTERSECTION_TYPES
      requires |intersect| == |seen| == MAX_INTERSECTION_TYPES
      requires forall i :: 0 <= i < MAX_INTERSECTION_TYPES ==> ListOk(intersect[i])
      modifies this
      ensures bboxItems == [] ==> nodes == old(nodes) && items == old(items) && intersect == old(intersect)
      ensures bboxItems != [] ==>
                && Valid() && DynOk(tree) && NoDyn(tree) && multiset(items) == multiset(bboxItems)
                && Planned(tree, items)
                && |nodes| == NodeCount(tree) <= 2 * |bboxItems| - 1
                && forall i :: 0 <= i < MAX_INTERSECTION_TYPES ==>
                     intersect[i] == old(intersect)[i].(updateNeeded := true)
      ensures bboxItems != [] && AllProper(bboxItems)
              && (forall i :: 0 <= i < MAX_INTERSECTION_TYPES ==>
                    GoodView(old(intersect)[i].frustum, old(intersect)[i].frustumMask)) ==>
                Inv(Abstract())
    {
      if 0 < |bboxItems| {
        var size := |bboxItems|;
        items := bboxItems;
        nodes := seq(2 * size, _ => Node(EMPTY, EMPTY, NO_INDEX, NO_INDEX, [], 0, 0));
        var index;
        index, tree := SortAndSplit(0, 1, 0, size);
        assert items[0..size] == items && bboxItems[0..size] == bboxItems;
        FreshTreeIsSound(tree, items);
        FewNodes(tree, items);
        TrimNodes(nodes, tree, index);
        nodes := nodes[..index];
        SetAllIntersectUpdateNeeded();
        PermutationMembers(items, bboxItems);
        assert Range(tree, items) == items;
      }
    }

    // ---------- visibility ----------

    function StaticItems(node: nat): seq<BBoxItem>
      reads this
      requires node < |nodes| && nodes[node].itemsIndex + nodes[node].itemsCount <= |items|
    {
      items[nodes[node].itemsIndex..nodes[node].itemsIndex + nodes[node].itemsCount]
    }

    /** Appends an item to the current list, unless it is outside the frustum. */
    method AddIfSeen(e: BBoxItem, inMask: set<nat>)
      requires curIntersectType < |intersect| && InRange(intersect[curIntersectType].frustum, inMask)
      modifies this`intersect
      ensures intersect == Appended(old(intersect), curIntersectType,
                                    Visible(old(intersect)[curIntersectType].frustum, inMask, [e]))
    {
      VisibleOne(intersect[curIntersectType].frustum, inMask, e);
      AppendedNone(intersect, curIntersectType);
      var outside := CheckAabbOutsideFrustum(e.bbox, intersect[curIntersectType].frustum, inMask);
      hide Visible, Passes;
      if !outside {
        intersect := Appended(intersect, curIntersectType, [e]);
      }
    }

    method AddItems(subNode: nat, inMask: set<nat>)
      requires subNode < |nodes| && nodes[subNode].itemsIndex + nodes[subNode].itemsCount <= |items|
      requires curIntersectType < |intersect| && InRange(intersect[curIntersectType].frustum, inMask)
      modifies this`intersect
      ensures intersect == Appended(old(intersect), curIntersectType,
                                    Visible(old(intersect)[curIntersectType].frustum, inMask, StaticItems(subNode)))
    {
      var idx1, idx2, size := curIntersectType, nodes[subNode].itemsIndex, nodes[subNode].itemsCount;
      ghost var was, f, range := intersect, intersect[idx1].frustum, StaticItems(subNode);
      AppendedNone(intersect, idx1);
      assert range[..0] == [] && range[..size] == range;
      hide Visible, InRange;
      VisibleNone(f, inMask);
      for i := 0 to size
        invariant |intersect| == |was| && intersect[idx1].frustum == f
        invariant intersect == Appended(was, idx1, Visible(f, inMask, range[..i]))
      {
        VisibleNext(f, inMask, range, i);
        AppendedTwice(was, idx1, Visible(f, inMask, range[..i]), Visible(f, inMask, [range[i]]));
        AddIfSeen(items[idx2 + i], inMask);
      }
    }

    method AddDynItems(subNode: nat, inMask: set<nat>)
      requires subNode < |nodes|
      requires curIntersectType < |intersect| && InRange(intersect[curIntersectType].frustum, inMask)
      modifies this`intersect
      ensures intersect == Appended(old(intersect), curIntersectType,
                                    Visible(old(intersect)[curIntersectType].frustum, inMask,
                                            nodes[subNode].dynamicObjects))
    {
      var idx, dyn := curIntersectType, nodes[subNode].dynamicObjects;
      ghost var was, f := intersect, intersect[idx].frustum;
      AppendedNone(intersect, idx);
      assert dyn[..0] == [] && dyn[..|dyn|] == dyn;
      hide Visible, InRange;
      VisibleNone(f, inMask);
      for i := 0 to |dyn|
        invariant |intersect| == |was| && intersect[idx].frustum == f
        invariant intersect == Appended(was, idx, Visible(f, inMask, dyn[..i]))
      {
        VisibleNext(f, inMask, dyn, i);
        AppendedTwice(was, idx, Visible(f, inMask, dyn[..i]), Visible(f, inMask, [dyn[i]]));
        AddIfSeen(dyn[i], inMask);
      }
    }

    /** Appends what the cull of the subtree yields. */
    method CheckSubNodes(subNode: nat, inMask: set<nat>, ghost t: Tree)
      requires Represents(nodes, t) && t.node == subNode && Built(t, items)
      requires curIntersectType < |intersect| && InRange(intersect[curIntersectType].frustum, inMask)
      modifies this`intersect
      ensures intersect == Appended(old(intersect), curIntersectType,
                                    Cull(t, items, old(intersect)[curIntersectType].frustum, inMask))
      decreases t
    {
      var idx := curIntersectType;
      ghost var f := intersect[idx].frustum;
      var result := CheckAabbInFrustum(nodes[subNode].bbox, intersect[idx].frustum, inMask);
      if result == Inside {
        var first, count := nodes[subNode].itemsIndex, nodes[subNode].itemsCount;
        intersect := Appended(intersect, idx, items[first..first + count] + nodes[subNode].dynamicObjects);
      } else if result.Intersect? {
        var out := result.outMask;
        AddDynItems(subNode, out);
        if nodes[subNode].sub0 == NO_INDEX && nodes[subNode].sub1 == NO_INDEX {
          AppendedTwice(old(intersect), idx, Visible(f, out, t.dyn), Visible(f, out, Range(t, items)));
          AddItems(subNode, out);
        } else {
          AppendedThrice(old(intersect), idx, Visible(f, out, t.dyn), Cull(t.left, items, f, out),
                         Cull(t.right, items, f, out));
          CheckSubNodes(nodes[subNode].sub0, out, t.left);
          CheckSubNodes(nodes[subNode].sub1, out, t.right);
        }
      } else {
        AppendedNone(intersect, idx);
      }
    }

    // ---------- scene box ----------

    method MergeItems(subNode: nat, inMask: set<nat>, bbox: Box) returns (r: Box)
      requires subNode < |nodes| && nodes[subNode].itemsIndex + nodes[subNode].itemsCount <= |items|
      requires curIntersectType < |intersect| && InRange(intersect[curIntersectType].frustum, inMask)
      ensures r == HullOver(bbox, Visible(intersect[curIntersectType].frustum, inMask, StaticItems(subNode)))
    {
      var idx2, size := nodes[subNode].itemsIndex, nodes[subNode].itemsCount;
      ghost var f, range := intersect[curIntersectType].frustum, StaticItems(subNode);
      assert range[..0] == [] && range[..size] == range;
      r := bbox;
      VisibleNone(f, inMask);
      assert HullOver(bbox, []) == bbox;
      hide Visible, InRange, HullOver;
      for i := 0 to size
        invariant r == HullOver(bbox, Visible(f, inMask, range[..i]))
      {
        VisibleNext(f, inMask, range, i);
        HullOverConcat(bbox, Visible(f, inMask, range[..i]), Visible(f, inMask, [range[i]]));
        r := MergeIfSeen(items[idx2 + i], inMask, r);
      }
    }

    /** Widens a box by an item, unless it is outside the frustum. */
    method MergeIfSeen(e: BBoxItem, inMask: set<nat>, bbox: Box) returns (r: Box)
      requires curIntersectType < |intersect| && InRange(intersect[curIntersectType].frustum, inMask)
      ensures r == HullOver(bbox, Visible(intersect[curIntersectType].frustum, inMask, [e]))
    {
      VisibleOne(intersect[curIntersectType].frustum, inMask, e);
      assert [e][1..] == [];
      var outside := CheckAabbOutsideFrustum(e.bbox, intersect[curIntersectType].frustum, inMask);
      hide Visible, Passes;
      r := if outside then bbox else Join(bbox, e.bbox);
    }

    method MergeDynItems(subNode: nat, inMask: set<nat>, bbox: Box) returns (r: Box)
      requires subNode < |nodes|
      requires curIntersectType < |intersect| && InRange(intersect[curIntersectType].frustum, inMask)
      ensures r == HullOver(bbox, Visible(intersect[curIntersectType].frustum, inMask, nodes[subNode].dynamicObjects))
    {
      var idx, dyn := curIntersectType, nodes[subNode].dynamicObjects;
      ghost var f := intersect[idx].frustum;
      assert dyn[..0] == [] && dyn[..|dyn|] == dyn;
      r := bbox;
      VisibleNone(f, inMask);
      assert HullOver(bbox, []) == bbox;
      hide Visible, InRange, HullOver;
      for i := 0 to |dyn|
        invariant r == HullOver(bbox, Visible(f, inMask, dyn[..i]))
      {
        VisibleNext(f, inMask, dyn, i);
        HullOverConcat(bbox, Visible(f, inMask, dyn[..i]), Visible(f, inMask, [dyn[i]]));
        r := MergeIfSeen(dyn[i], inMask, r);
      }
    }

    method CalcBBoxSubNodes(subNode: nat, inMask: set<nat>, bbox: Box, ghost t: Tree) returns (r: Box)
      requires Represents(nodes, t) && t.node == subNode && Built(t, items)
      requires curIntersectType < |intersect| && InRange(intersect[curIntersectType].frustum, inMask)
      ensures r == CalcBox(t, items, intersect[curIntersectType].frustum, inMask, bbox)
      decreases t
    {
      r := bbox;
      var result := CheckAabbInFrustum(nodes[subNode].bbox, intersect[curIntersectType].frustum, inMask);
      if result == Inside {
        r := Join(r, nodes[subNode].bbox);
      } else if result.Intersect? {
        r := MergeDynItems(subNode, result.outMask, r);
        if nodes[subNode].sub0 == NO_INDEX && nodes[subNode].sub1 == NO_INDEX {
          r := MergeItems(subNode, result.outMask, r);
        } else {
          r := CalcBBoxSubNodes(nodes[subNode].sub0, result.outMask, r, t.left);
          r := CalcBBoxSubNodes(nodes[subNode].sub1, result.outMask, r, t.right);
        }
      }
    }

    /** For a sound tree, the exact hull of everything visible. */
    method CalcSceneBBox() returns (bbox: Box)
      requires Valid()
      ensures var d := intersect[curIntersectType];
              GoodTree(tree, items) && GoodView(d.frustum, d.frustumMask) ==>
                bbox == HullOver(EMPTY, Visible(d.frustum, d.frustumMask, items + tree.dyn))
    {
      var d := intersect[curIntersectType];
      bbox := CalcBBoxSubNodes(0, d.frustumMask, EMPTY, tree);
      if GoodTree(tree, items) && GoodView(d.frustum, d.frustumMask) {
        CalcSceneBoxIsHull(tree, items, d.frustum, d.frustumMask);
        assert Range(tree, items) == items;
      }
    }

    // ---------- dynamic items ----------

    method AddDynamicItemToNode(node: nat, e: BBoxItem, extra: bool, ghost t: Tree)
      requires Represents(nodes, t) && t.node == node
      modifies this`nodes
      ensures Represents(nodes, AddTo(t, e.(extra := extra))) && SameOutside(old(nodes), nodes, {node})
    {
      UpdateRoot(nodes, t, AddTo(t, e).box, t.dyn + [e.(extra := extra)]);
      var n := nodes[node];
      var d := n.dynamicObjects + [e.(extra := extra)];
      nodes := nodes[node := n.(bbox := Join(n.bbox, e.bbox), dynamicObjects := d)];
    }

    /** Inserts into the subtree; an absent node accepts nothing. */
    method AddDynamicAabbToAbtNode(node: nat, e: BBoxItem, fits: Fits, ghost t: Tree) returns (ok: bool)
      requires node != NO_INDEX ==> Represents(nodes, t) && t.node == node
      modifies this`nodes
      ensures node == NO_INDEX ==> !ok && nodes == old(nodes)
      ensures node != NO_INDEX ==>
                && Represents(nodes, Insert(t, e, fits).0) && ok == Insert(t, e, fits).1
                && SameOutside(old(nodes), nodes, Indices(t))
      decreases t, node != NO_INDEX, 1
    {
      if node == NO_INDEX || !fits(nodes[node].origBbox, e.bbox) {
        return false;
      }
      var extra := AddToSubNodes(node, e, fits, t);
      ghost var t1 := Descend(t, e, fits).0;
      DescendShape(t, e, fits);
      SameShapeIndices(t, t1);
      AddDynamicItemToNode(node, e, extra, t1);
      ok := true;
    }

    /** First child, else second child; tells whether the first one took the item. */
    method AddToSubNodes(node: nat, e: BBoxItem, fits: Fits, ghost t: Tree) returns (extra: bool)
      requires Represents(nodes, t) && t.node == node
      modifies this`nodes
      ensures Represents(nodes, Descend(t, e, fits).0) && extra == Descend(t, e, fits).1
      ensures SameOutside(old(nodes), nodes, Indices(t))
      decreases t, true, 0
    {
      extra := true;
      var result := AddDynamicAabbToAbtNode(nodes[node].sub0, e, fits, if t.Fork? then t.left else t);
      if t.Fork? {
        InsertShape(t.left, e, fits);
        SameShapeIndices(t.left, Insert(t.left, e, fits).0);
        UpdateChild(old(nodes), nodes, t, Insert(t.left, e, fits).0, true);
      }
      if !result {
        label Right:
        result := AddDynamicAabbToAbtNode(nodes[node].sub1, e, fits, if t.Fork? then t.right else t);
        extra := false;
        if t.Fork? {
          InsertShape(t.right, e, fits);
          SameShapeIndices(t.right, Insert(t.right, e, fits).0);
          UpdateChild(old@Right(nodes), nodes, t, Insert(t.right, e, fits).0, false);
        }
      }
    }

    method DeleteDynamicItemFromNode(node: nat, idx: nat, ID: nat, typeMask: nat, ghost t: Tree)
      requires Represents(nodes, t) && t.node == node && idx < |t.dyn|
      modifies this`nodes
      ensures Represents(nodes, DeleteAt(t, idx, Key(typeMask, ID))) && SameOutside(old(nodes), nodes, Indices(t))
      decreases Height(t), true, 1
    {
      ghost var k, first := Key(typeMask, ID), t.dyn[idx].extra;
      ghost var u := DeleteInChild(t, first, k);
      if nodes[node].dynamicObjects[idx].extra {
        var _ := DeleteDynamicAabbFromNode(nodes[node].sub0, ID, typeMask, if t.Fork? then t.left else t);
      } else {
        var _ := DeleteDynamicAabbFromNode(nodes[node].sub1, ID, typeMask, if t.Fork? then t.right else t);
      }
      DeleteInChildShape(t, first, k);
      SameShapeIndices(t, u);
      if t.Fork? {
        ghost var child := if first then t.left else t.right;
        DeleteShape(child, k);
        SameShapeIndices(child, Delete(child, k).0);
        UpdateChild(old(nodes), nodes, t, Delete(child, k).0, first);
      }
      var dyn := nodes[node].dynamicObjects;
      UpdateRoot(nodes, u, u.box, dyn[..idx] + dyn[idx + 1..]);
      nodes := nodes[node := nodes[node].(dynamicObjects := dyn[..idx] + dyn[idx + 1..])];
    }

    method DynamicAabbIsInNode(node: nat, ID: nat, typeMask: nat, ghost t: Tree) returns (result: bool)
      requires Represents(nodes, t) && t.node == node
      modifies this`nodes
      ensures var r := Scan(t, 0, Key(typeMask, ID));
              Represents(nodes, r.0) && result == r.1
      ensures SameOutside(old(nodes), nodes, Indices(t))
      decreases Height(t), true, 2
    {
      ghost var u, k := t, Key(typeMask, ID);
      result := false;
      var i := 0;
      SameShapeSelf(t);
      while i < |nodes[node].dynamicObjects|
        invariant Represents(nodes, u) && u.node == node && Height(u) == Height(t) && Indices(u) == Indices(t)
        invariant Scan(t, 0, k) == (Scan(u, i, k).0, result || Scan(u, i, k).1)
        invariant SameOutside(old(nodes), nodes, Indices(t))
        decreases |u.dyn| - i
      {
        var e := nodes[node].dynamicObjects[i];
        var id := if Is3DMask(typeMask) then e.ID / 4096 else e.ID;
        if id == ID && GetTypeMaskFromType(e.itemType) == typeMask {
          DeleteDynamicItemFromNode(node, i, ID, typeMask, u);
          DeleteInChildShape(u, u.dyn[i].extra, k);
          SameShapeIndices(u, DeleteInChild(u, u.dyn[i].extra, k));
          u := DeleteAt(u, i, k);
          result := true;
        }
        i := i + 1;
      }
    }

    method DeleteDynamicAabbFromNode(node: nat, ID: nat, typeMask: nat, ghost t: Tree) returns (found: bool)
      requires node != NO_INDEX ==> Represents(nodes, t) && t.node == node
      modifies this`nodes
      ensures node == NO_INDEX ==> !found && nodes == old(nodes)
      ensures node != NO_INDEX ==>
                var r := Delete(t, Key(typeMask, ID));
                Represents(nodes, r.0) && found == r.1 && SameOutside(old(nodes), nodes, Indices(t))
      decreases Height(t), node != NO_INDEX, 3
    {
      if node == NO_INDEX {
        return false;
      }
      found := DynamicAabbIsInNode(node, ID, typeMask, t);
      if found {
        ghost var u := Scan(t, 0, Key(typeMask, ID)).0;
        ScanShape(t, 0, Key(typeMask, ID));
        SameShapeIndices(t, u);
        var n := nodes[node];
        var newBox := if n.sub0 != NO_INDEX && n.sub1 != NO_INDEX then Join(nodes[n.sub0].bbox, nodes[n.sub1].bbox)
                      else n.origBbox;
        ghost var base, before := newBox, nodes;
        for i := 0 to |n.dynamicObjects|
          invariant nodes == before
          invariant newBox == HullOver(base, n.dynamicObjects[..i])
        {
          HullAppend(base, n.dynamicObjects[..i], n.dynamicObjects[i]);
          assert n.dynamicObjects[..i + 1] == n.dynamicObjects[..i] + [n.dynamicObjects[i]];
          newBox := Join(newBox, n.dynamicObjects[i].bbox);
        }
        assert n.dynamicObjects[..|n.dynamicObjects|] == n.dynamicObjects;
        UpdateRoot(nodes, u, newBox, u.dyn);
        nodes := nodes[node := n.(bbox := newBox)];
      }
    }

    // ---------- the operations on a whole tree ----------

    /** Collects the current list afresh. */
    method RecheckList()
      requires Valid()
      modifies this`intersect
      ensures |intersect| == |old(intersect)|
      ensures var d, d' := old(intersect)[curIntersectType], intersect[curIntersectType];
              && intersect == old(intersect)[curIntersectType := d'] && ListOk(d)
              && SegmentsExact(d') && multiset(d'.items) == multiset(Cull(tree, items, d.frustum, d.frustumMask))
              && d' == d.(items := d'.items, start := d'.start, stop := d'.stop, updateNeeded := false)
    {
      var idx := curIntersectType;
      intersect := intersect[idx := intersect[idx].(items := [])];
      CheckSubNodes(0, intersect[idx].frustumMask, tree);
      hide Built, Represents, ListOk, SegmentsExact;
      Rebuild();
      ghost var d := intersect[idx];
      intersect := intersect[idx := intersect[idx].(updateNeeded := false)];
      FlagKeepsSegments(d);
    }

    /** Recomputes a stale list; afterwards it is sorted by type with exact segments. */
    method CheckBBoxTree()
      requires Valid()
      modifies this`intersect, this`seen
      ensures Valid() && Next(old(Abstract()), CheckTree, Abstract())
      ensures old(intersect[curIntersectType].updateNeeded) ==> SegmentsExact(intersect[curIntersectType])
      ensures !intersect[curIntersectType].updateNeeded
      ensures old(intersect[curIntersectType].updateNeeded && Inv(Abstract())) ==>
                Shows(Abstract().views[curIntersectType].segments, Objects(old(Abstract())),
                      old(intersect[curIntersectType].frustum), old(intersect[curIntersectType].frustumMask))
    {
      var idx := curIntersectType;
      if intersect[idx].updateNeeded {
        ghost var d := intersect[idx];
        RecheckList();
        seen := seen[idx := (d.frustum, d.frustumMask)];
        hide Built, Represents, Cull, Inv, Shows, Objects;
        ViewsUpdate(old(intersect), old(seen), idx, intersect[idx], seen[idx]);
        RebuiltView(old(Abstract()), d, old(seen)[idx], intersect[idx]);
        if old(Inv(Abstract())) {
          CheckShows(old(Abstract()), Abstract());
        }
      }
    }

    /** qsort and build_start_stop on the current list. */
    method Rebuild()
      requires curIntersectType < |intersect|
      requires var d := intersect[curIntersectType]; InRange(d.frustum, d.frustumMask)
      modifies this`intersect
      ensures |intersect| == |old(intersect)|
      ensures var d, d' := old(intersect)[curIntersectType], intersect[curIntersectType];
              && intersect == old(intersect)[curIntersectType := d']
              && SegmentsExact(d') && multiset(d'.items) == multiset(d.items)
              && d' == d.(items := d'.items, start := d'.start, stop := d'.stop)
    {
      var idx := curIntersectType;
      var sorted := QSort(intersect[idx].items, ByType());
      var start, stop := BuildStartStop(sorted);
      intersect := intersect[idx := intersect[idx].(items := sorted, start := start, stop := stop)];
      assert forall j :: 0 <= j < TYPES_COUNT ==> TypeSlots(sorted, |sorted|, j, start[j], stop[j]);
    }

    /** On a list as the last check left it, the segments keep exactly the items some portal shows. */
    method ReflectionPortalCheck(portals: seq<Plane>, count: nat)
      requires Valid() && 4 * count <= |portals|
      modifies this`intersect
      ensures Valid()
      ensures old(intersect[curIntersectType].updateNeeded) ==> intersect == old(intersect)
      ensures old(!intersect[curIntersectType].updateNeeded && SegmentsExact(intersect[curIntersectType])) ==>
                var d, d' := old(intersect)[curIntersectType], intersect[curIntersectType];
                && SegmentsExact(d')
                && forall j :: 0 <= j < TYPES_COUNT ==>
                     multiset(Segment(d', j)) == multiset(Filter(Segment(d, j), Shown(portals, count)))
    {
      var idx := curIntersectType;
      if !intersect[idx].updateNeeded {
        var d := intersect[idx];
        var marked := ReflectionPortalChecks(d, portals, count);
        intersect := intersect[idx := intersect[idx].(items := marked)];
        Rebuild();
        if SegmentsExact(d) {
          ExactSegments(intersect[idx], marked);
          forall j | 0 <= j < TYPES_COUNT
            ensures multiset(Segment(intersect[idx], j)) == multiset(Filter(Segment(d, j), Shown(portals, count)))
          {
            ExactSegment(d, j);
            MarkingFilters(d.items, marked, Shown(portals, count), j);
          }
        }
      }
    }

    method SetAllIntersectUpdateNeeded()
      requires |intersect| == MAX_INTERSECTION_TYPES
      modifies this`intersect
      ensures |intersect| == MAX_INTERSECTION_TYPES
      ensures forall i :: 0 <= i < MAX_INTERSECTION_TYPES ==> intersect[i] == old(intersect)[i].(updateNeeded := true)
    {
      for i := 0 to MAX_INTERSECTION_TYPES
        invariant |intersect| == MAX_INTERSECTION_TYPES
        invariant forall j :: 0 <= j < i ==> intersect[j] == old(intersect)[j].(updateNeeded := true)
        invariant forall j :: i <= j < MAX_INTERSECTION_TYPES ==> intersect[j] == old(intersect)[j]
      {
        intersect := intersect[i := intersect[i].(updateNeeded := true)];
      }
    }

    /** An object goes into every node that it makes grow by a tenth at most, on one way down, and into the root. */
    method AddAabbToAbt(e: BBoxItem)
      requires Valid()
      modifies this`nodes, this`intersect, this`tree
      ensures Valid() && Next(old(Abstract()), AddItem(e, CheckAabbAabb(1.1)), Abstract())
    {
      hide CheckAabbAabb;
      var fits := CheckAabbAabb(1.1);
      InsertShape(tree, e, fits);
      ghost var t := Insert(tree, e, fits).0;
      var result := AddDynamicAabbToAbtNode(0, e, fits, tree);
      if !result {
        AddDynamicItemToNode(0, e, false, t);
      }
      InsertRootShape(tree, e, fits);
      SameShapeBuilt(tree, InsertRoot(tree, e, fits), items);
      tree := InsertRoot(tree, e, fits);
      SetAllIntersectUpdateNeeded();
    }

    method DeleteAabbFromAbt(ID: nat, typeMask: nat)
      requires Valid()
      modifies this`nodes, this`intersect, this`tree
      ensures Valid() && Next(old(Abstract()), DeleteKey(Key(typeMask, ID)), Abstract())
    {
      ghost var k := Key(typeMask, ID);
      hide Represents, Without, KeyOf, Delete;
      DeleteItemFromIntersectList(ID, typeMask);
      var _ := DeleteDynamicAabbFromNode(0, ID, typeMask, tree);
      DeleteShape(tree, k);
      SameShapeBuilt(tree, Delete(tree, k).0, items);
      tree := Delete(tree, k).0;
    }

    method DeleteItemFromIntersectList(ID: nat, typeMask: nat)
      requires |intersect| == MAX_INTERSECTION_TYPES
      requires forall i :: 0 <= i < MAX_INTERSECTION_TYPES ==> ListOk(intersect[i])
      modifies this`intersect
      ensures |intersect| == MAX_INTERSECTION_TYPES
      ensures forall i :: 0 <= i < MAX_INTERSECTION_TYPES ==>
                LessKey(old(intersect)[i], intersect[i], Key(typeMask, ID))
    {
      for i := 0 to MAX_INTERSECTION_TYPES
        invariant |intersect| == MAX_INTERSECTION_TYPES
        invariant forall j :: 0 <= j < i ==> LessKey(old(intersect)[j], intersect[j], Key(typeMask, ID))
        invariant forall j :: i <= j < MAX_INTERSECTION_TYPES ==> intersect[j] == old(intersect)[j]
      {
        var d := DeleteFromList(intersect[i], ID, typeMask);
        intersect := intersect[i := d];
      }
    }

    method SetFrustumOf(f: Frustum, mask: set<nat>)
      requires Valid() && InRange(f, mask)
      modifies this`intersect
      ensures Valid() && Next(old(Abstract()), SetFrustum(f, mask), Abstract())
    {
      var idx := curIntersectType;
      intersect := intersect[idx := intersect[idx].(frustum := f, frustumMask := mask)];
      assert seen[idx := seen[idx]] == seen;
      ViewsUpdate(old(intersect), seen, idx, intersect[idx], seen[idx]);
      FrustumView(old(intersect)[idx], seen[idx], f, mask);
    }

    method SetCurIntersectType(view: nat)
      requires Valid() && view < MAX_INTERSECTION_TYPES
      modifies this`curIntersectType
      ensures Valid() && Next(old(Abstract()), SetCurrent(view), Abstract())
    {
      curIntersectType := view;
    }
  }

  ghost predicate LessKey(d: IntersectData, d': IntersectData, k: Key) {
    && ListOk(d) && ListOk(d') && d' == d.(items := d'.items, stop := d'.stop)
    && forall j :: 0 <= j < TYPES_COUNT ==> Segment(d', j) == Without(Segment(d, j), k)
  }
}
