/**
 * Whole runs of the bounding-box tree: dynamic insertions, keyed deletions, visibility checks and
 * view changes in any order, and the cached result lists along them.
 */
module BBoxRuns {
  import opened Geometry
  import opened Seqs
  import opened BBoxItems
  import opened BBoxTreeSpec
  import opened BBoxCull

  const MAX_INTERSECTION_TYPES: nat := 3

  /** One result list: its segments by type, the frustum set, and the frustum of its last check. */
  datatype View = View(stale: bool, segments: seq<seq<BBoxItem>>, frustum: Frustum, mask: set<nat>,
                       seenFrustum: Frustum, seenMask: set<nat>)

  datatype State = State(items: seq<BBoxItem>, tree: Tree, current: nat, views: seq<View>)

  datatype Op =
    | AddItem(e: BBoxItem, fits: Fits)
    | DeleteKey(k: Key)
    | CheckTree
    | SetFrustum(f: Frustum, mask: set<nat>)
    | SetCurrent(view: nat)

  function OfType(s: seq<BBoxItem>, j: nat): seq<BBoxItem> {
    Filter(s, (e: BBoxItem) => e.itemType == j)
  }

  ghost predicate WellFormed(s: State) {
    && Built(s.tree, s.items) && s.tree.first == 0 && s.tree.count == |s.items|
    && s.current < MAX_INTERSECTION_TYPES && |s.views| == MAX_INTERSECTION_TYPES
    && forall i :: 0 <= i < MAX_INTERSECTION_TYPES ==>
         && |s.views[i].segments| == TYPES_COUNT
         && InRange(s.views[i].frustum, s.views[i].mask)
  }

  /** What each operation does; a check may order the items of one type as it likes. */
  ghost predicate Next(s: State, op: Op, s': State) {
    && WellFormed(s) && WellFormed(s')
    && s'.items == s.items
    && match op
       case AddItem(e, fits) =>
         && s'.tree == InsertRoot(s.tree, e, fits) && s'.current == s.current
         && forall i :: 0 <= i < MAX_INTERSECTION_TYPES ==> s'.views[i] == s.views[i].(stale := true)
       case DeleteKey(k) =>
         && s'.tree == Delete(s.tree, k).0 && s'.current == s.current
         && forall i :: 0 <= i < MAX_INTERSECTION_TYPES ==>
              s'.views[i] == s.views[i].(segments := s'.views[i].segments) && SegmentsLess(s.views[i], s'.views[i], k)
       case CheckTree =>
         && s'.tree == s.tree && s'.current == s.current
         && s'.views == s.views[s.current := s'.views[s.current]]
         && Checked(s, s.views[s.current], s'.views[s.current])
       case SetFrustum(f, mask) =>
         s' == s.(views := s.views[s.current := s.views[s.current].(frustum := f, mask := mask)])
       case SetCurrent(view) => s' == s.(current := view)
  }

  ghost predicate SegmentsLess(v: View, v': View, k: Key)
    requires |v.segments| == |v'.segments| == TYPES_COUNT
  {
    forall j :: 0 <= j < TYPES_COUNT ==> v'.segments[j] == Without(v.segments[j], k)
  }

  ghost predicate Checked(s: State, v: View, v': View)
    requires WellFormed(s) && InRange(v.frustum, v.mask) && |v'.segments| == TYPES_COUNT
  {
    if !v.stale then v' == v
    else
      && v' == View(false, v'.segments, v.frustum, v.mask, v.frustum, v.mask)
      && forall j :: 0 <= j < TYPES_COUNT ==>
           multiset(v'.segments[j]) == multiset(OfType(Cull(s.tree, s.items, v.frustum, v.mask), j))
  }

  /**
   * Operations as the callers issue them: proper boxes, masks from calc_plane_mask, static items are not deleted.
   * Several entries may have one key, but it is not deleted while two of them are neighbours.
   */
  ghost predicate Admissible(s: State, op: Op) {
    match op
    case AddItem(e, _) => Proper(e.bbox)
    case DeleteKey(k) => !HasKey(s.items, k) && !AdjacentKey(s.tree.dyn, k)
    case CheckTree => true
    case SetFrustum(f, mask) => GoodView(f, mask)
    case SetCurrent(_) => true
  }

  /** A fresh list equals what a brute-force test with the frustum of its last check finds now. */
  ghost predicate Fresh(s: State, v: View)
    requires |v.segments| == TYPES_COUNT
  {
    && GoodView(v.seenFrustum, v.seenMask)
    && forall j :: 0 <= j < TYPES_COUNT ==>
         Entries(v.segments[j]) == Entries(OfType(Visible(v.seenFrustum, v.seenMask, s.items + s.tree.dyn), j))
  }

  ghost predicate Inv(s: State) {
    && WellFormed(s) && GoodTree(s.tree, s.items)
    && forall i :: 0 <= i < MAX_INTERSECTION_TYPES ==>
         GoodView(s.views[i].frustum, s.views[i].mask) && (s.views[i].stale || Fresh(s, s.views[i]))
  }

  lemma OfTypeEntries(s: seq<BBoxItem>, j: nat)
    ensures forall x :: x in Entries(OfType(s, j)) <==> x in Entries(s) && x.itemType == j
  {
    FilterMembers(s, (e: BBoxItem) => e.itemType == j);
    forall x | x in Entries(s) && x.itemType == j ensures x in Entries(OfType(s, j)) {
      var e := EntryHasItem(s, x);
      assert e.itemType == x.itemType && e in OfType(s, j);
    }
  }

  lemma VisibleEntries(f: Frustum, mask: set<nat>, s: seq<BBoxItem>)
    requires InRange(f, mask)
    ensures forall x :: x in Entries(Visible(f, mask, s)) <==> x in Entries(s) && Passes(f, mask, x.bbox)
  {
    VisibleMembers(f, mask, s);
    forall x | x in Entries(s) && Passes(f, mask, x.bbox) ensures x in Entries(Visible(f, mask, s)) {
      var e := EntryHasItem(s, x);
      assert e.bbox == x.bbox && e in Visible(f, mask, s);
    }
  }

  /** Filtering what a deletion leaves is deleting from what the filter leaves. */
  lemma DeletionAgreesWithRecomputation(s: State, v: View, v': View, k: Key, dyn': seq<BBoxItem>)
    requires |v.segments| == |v'.segments| == TYPES_COUNT && Fresh(s, v) && SegmentsLess(v, v', k)
    requires v'.seenFrustum == v.seenFrustum && v'.seenMask == v.seenMask
    requires !HasKey(s.items, k) && dyn' == Without(s.tree.dyn, k)
    ensures Fresh(s.(tree := SetDyn(s.tree, dyn')), v')
  {
    var f, mask, before, after := v.seenFrustum, v.seenMask, s.items + s.tree.dyn, s.items + dyn';
    WithoutAbsent(s.items, k);
    FilterConcat(s.items, s.tree.dyn, OtherKey(k));
    assert after == Without(before, k);
    EntriesWithout(before, k);
    VisibleEntries(f, mask, before);
    VisibleEntries(f, mask, after);
    forall j | 0 <= j < TYPES_COUNT
      ensures Entries(v'.segments[j]) == Entries(OfType(Visible(f, mask, after), j))
    {
      EntriesWithout(v.segments[j], k);
      OfTypeEntries(Visible(f, mask, before), j);
      OfTypeEntries(Visible(f, mask, after), j);
    }
  }

  ghost predicate Displayed(s: State, v: View, dyn: seq<BBoxItem>, j: nat, x: BBoxItem)
    requires InRange(v.seenFrustum, v.seenMask)
  {
    x in Entries(OfType(Visible(v.seenFrustum, v.seenMask, s.items + dyn), j))
  }

  lemma DisplayedIff(s: State, v: View, dyn: seq<BBoxItem>, j: nat, x: BBoxItem)
    requires InRange(v.seenFrustum, v.seenMask)
    ensures Displayed(s, v, dyn, j, x) <==>
            (x in Entries(s.items) || x in Entries(dyn)) && Passes(v.seenFrustum, v.seenMask, x.bbox) && x.itemType == j
  {
    EntriesOfConcat(s.items, dyn);
    VisibleEntries(v.seenFrustum, v.seenMask, s.items + dyn);
    OfTypeEntries(Visible(v.seenFrustum, v.seenMask, s.items + dyn), j);
  }

  lemma AbsentEntry(s: seq<BBoxItem>, k: Key, x: BBoxItem)
    requires !HasKey(s, k) && x in Entries(s)
    ensures KeyOf(x) != k
  {
    var e := EntryHasItem(s, x);
    assert KeyOf(e) == KeyOf(x);
  }

  lemma OtherEntryStays(s: seq<BBoxItem>, k: Key, x: BBoxItem)
    requires KeyOf(x) != k
    ensures x in Entries(Skim(s, k)) <==> x in Entries(s)
  {
    SkimKeepsOthers(s, k);
    if x in Entries(s) {
      var e := EntryHasItem(s, x);
      assert KeyOf(e) == KeyOf(x);
    }
    if x in Entries(Skim(s, k)) {
      var e := EntryHasItem(Skim(s, k), x);
      assert KeyOf(e) == KeyOf(x);
    }
  }

  /** Where a list and the tree differ after a deletion: in entries with the key that the tree still has in sight. */
  lemma DisplayedAfterDeletion(s: State, v: View, dyn: seq<BBoxItem>, k: Key, j: nat, x: BBoxItem)
    requires InRange(v.seenFrustum, v.seenMask) && !HasKey(s.items, k) && dyn == Skim(s.tree.dyn, k)
    ensures Displayed(s, v, dyn, j, x) <==>
            if KeyOf(x) != k then Displayed(s, v, s.tree.dyn, j, x)
            else x in Entries(dyn) && Passes(v.seenFrustum, v.seenMask, x.bbox) && x.itemType == j
  {
    DisplayedIff(s, v, dyn, j, x);
    DisplayedIff(s, v, s.tree.dyn, j, x);
    if KeyOf(x) != k {
      OtherEntryStays(s.tree.dyn, k, x);
    } else if x in Entries(s.items) {
      AbsentEntry(s.items, k, x);
    }
  }

  ghost predicate OutOfSight(v: View, e: BBoxItem)
    requires InRange(v.seenFrustum, v.seenMask)
  {
    e.itemType < TYPES_COUNT ==> !Passes(v.seenFrustum, v.seenMask, e.bbox)
  }

  /**
   * Without any assumption about keys: a list that agreed with the root's list still does after a deletion exactly if
   * all entries with the key that a skimmed root list keeps are out of sight.
   */
  lemma DeletionStaysFreshIff(s: State, v: View, v': View, k: Key)
    requires |v.segments| == |v'.segments| == TYPES_COUNT && Fresh(s, v) && SegmentsLess(v, v', k)
    requires v'.seenFrustum == v.seenFrustum && v'.seenMask == v.seenMask && !HasKey(s.items, k)
    ensures Fresh(s.(tree := Delete(s.tree, k).0), v') <==>
            forall e :: e in Skim(s.tree.dyn, k) && KeyOf(e) == k ==> OutOfSight(v, e)
  {
    var t := Delete(s.tree, k).0;
    DeleteSkims(s.tree, k);
    forall j, x | 0 <= j < TYPES_COUNT
      ensures x in Entries(v'.segments[j]) <==> Displayed(s, v, s.tree.dyn, j, x) && KeyOf(x) != k
    {
      EntriesWithout(v.segments[j], k);
    }
    if Fresh(s.(tree := t), v') {
      forall e | e in t.dyn && KeyOf(e) == k ensures OutOfSight(v, e) {
        if e.itemType < TYPES_COUNT {
          assert KeyOf(Strip(e)) == k && Strip(e) in Entries(t.dyn);
          DisplayedAfterDeletion(s, v, t.dyn, k, e.itemType, Strip(e));
        }
      }
    }
    if forall e :: e in t.dyn && KeyOf(e) == k ==> OutOfSight(v, e) {
      forall j | 0 <= j < TYPES_COUNT
        ensures Entries(v'.segments[j]) == Entries(OfType(Visible(v.seenFrustum, v.seenMask, s.items + t.dyn), j))
      {
        forall x ensures x in Entries(v'.segments[j]) <==> Displayed(s, v, t.dyn, j, x) {
          DisplayedAfterDeletion(s, v, t.dyn, k, j, x);
          if KeyOf(x) == k && x in Entries(t.dyn) {
            var e := EntryHasItem(t.dyn, x);
            assert KeyOf(e) == k && e.bbox == x.bbox && e.itemType == x.itemType;
          }
        }
      }
    }
  }

  lemma CheckIsFresh(s: State, v: View, v': View)
    requires WellFormed(s) && GoodTree(s.tree, s.items) && GoodView(v.frustum, v.mask)
    requires |v'.segments| == TYPES_COUNT && v.stale && Checked(s, v, v')
    ensures Fresh(s, v')
  {
    var cull := Cull(s.tree, s.items, v.frustum, v.mask);
    var visible := Visible(v.frustum, v.mask, s.items + s.tree.dyn);
    assert Range(s.tree, s.items) == s.items;
    CullEntries(s.tree, s.items, v.frustum, v.mask);
    forall j | 0 <= j < TYPES_COUNT ensures Entries(v'.segments[j]) == Entries(OfType(visible, j)) {
      PermutationMembers(v'.segments[j], OfType(cull, j));
      OfTypeEntries(cull, j);
      OfTypeEntries(visible, j);
    }
  }

  /** The tree part of a step. */
  lemma StepKeepsTree(s: State, op: Op, s': State)
    requires Inv(s) && Admissible(s, op) && Next(s, op, s')
    ensures GoodTree(s'.tree, s'.items)
    ensures op.DeleteKey? ==> s'.tree.dyn == Without(s.tree.dyn, op.k)
  {
    match op
    case AddItem(e, fits) =>
      InsertRootKeeps(s.tree, e, fits);
      forall x | x in s'.tree.dyn ensures Proper(x.bbox) {
        assert Strip(x) in Entries(s'.tree.dyn);
        if Strip(x) != Strip(e) {
          var y := EntryHasItem(s.tree.dyn, Strip(x));
          assert y.bbox == Strip(x).bbox;
        } else {
          assert Strip(x).bbox == e.bbox;
        }
      }
    case DeleteKey(k) =>
      DeleteKeeps(s.tree, k);
      WithoutMembers(s.tree.dyn, k);
    case CheckTree =>
    case SetFrustum(_, _) =>
    case SetCurrent(_) =>
  }

  lemma StepKeepsViews(s: State, op: Op, s': State, i: nat)
    requires Inv(s) && Admissible(s, op) && Next(s, op, s') && i < MAX_INTERSECTION_TYPES
    ensures GoodView(s'.views[i].frustum, s'.views[i].mask) && (s'.views[i].stale || Fresh(s', s'.views[i]))
  {
    var v, v' := s.views[i], s'.views[i];
    match op
    case AddItem(_, _) =>
    case DeleteKey(k) =>
      StepKeepsTree(s, op, s');
      if !v.stale {
        DeletionAgreesWithRecomputation(s, v, v', k, s'.tree.dyn);
      }
    case CheckTree =>
      if i == s.current && v.stale {
        CheckIsFresh(s, v, v');
      }
    case SetFrustum(_, _) =>
    case SetCurrent(_) =>
  }

  lemma StepKeepsInv(s: State, op: Op, s': State)
    requires Inv(s) && Admissible(s, op) && Next(s, op, s')
    ensures Inv(s')
  {
    StepKeepsTree(s, op, s');
    forall i | 0 <= i < MAX_INTERSECTION_TYPES
      ensures GoodView(s'.views[i].frustum, s'.views[i].mask) && (s'.views[i].stale || Fresh(s', s'.views[i]))
    {
      StepKeepsViews(s, op, s', i);
    }
  }

  ghost predicate Run(states: seq<State>, ops: seq<Op>) {
    && |states| == |ops| + 1
    && forall i :: 0 <= i < |ops| ==> Next(states[i], ops[i], states[i + 1]) && Admissible(states[i], ops[i])
  }

  /** At every moment of every run the tree is sound and each list not marked stale is up to date. */
  lemma {:induction false} RunsStayFresh(states: seq<State>, ops: seq<Op>, n: nat)
    requires Run(states, ops) && Inv(states[0]) && n <= |ops|
    ensures Inv(states[n])
    decreases n
  {
    if 0 < n {
      RunsStayFresh(states, ops, n - 1);
      StepKeepsInv(states[n - 1], ops[n - 1], states[n]);
    }
  }
}
