/**
 * The cached lists when several entries have one key: when a deletion in place agrees with the cull of the tree left
 * over, and what holds in every run of operations whatsoever.
 */
module BBoxAnyRuns {
  import opened Geometry
  import opened BBoxItems
  import opened BBoxTreeSpec
  import opened BBoxRemains
  import opened BBoxCull
  import opened BBoxNodes
  import opened BBoxRuns

  // ---------- trees ----------

  lemma ListsProperIff(t: Tree)
    ensures ListsProper(t) <==> forall x :: x in Lists(t) ==> Proper(x.bbox)
    decreases t
  {
    forall e | e in t.dyn ensures Strip(e) in Entries(t.dyn) && Strip(e).bbox == e.bbox {
    }
    if t.Fork? {
      ListsProperIff(t.left);
      ListsProperIff(t.right);
    }
  }

  lemma DeleteKeepsTree(t: Tree, items: seq<BBoxItem>, k: Key)
    requires SoundTree(t, items)
    ensures var r := Delete(t, k).0;
            SoundTree(r, items) && r.first == t.first && r.count == t.count && OnlyKeyGone(Lists(t), Lists(r), k)
  {
    hide Delete, Built, BoxesOk, ListsProper, Lists;
    DeleteShape(t, k);
    SameShapeBuilt(t, Delete(t, k).0, items);
    DeleteKeepsBoxes(t, k);
    DeleteKeepsOthers(t, k);
    ListsProperIff(t);
    ListsProperIff(Delete(t, k).0);
  }

  lemma InsertKeepsTree(t: Tree, items: seq<BBoxItem>, e: BBoxItem, fits: Fits)
    requires SoundTree(t, items) && Proper(e.bbox)
    ensures var r := InsertRoot(t, e, fits); SoundTree(r, items) && r.first == t.first && r.count == t.count
  {
    hide InsertRoot, Built, BoxesOk, ListsProper, Lists;
    InsertRootShape(t, e, fits);
    SameShapeBuilt(t, InsertRoot(t, e, fits), items);
    InsertRootKeepsBoxes(t, e, fits);
    InsertRootLists(t, e, fits);
    ListsProperIff(t);
    ListsProperIff(InsertRoot(t, e, fits));
  }

  /** In a tree whose lists agree nothing is listed below that the root does not list. */
  lemma ListsOfSound(t: Tree)
    requires DynOk(t)
    ensures Lists(t) == Entries(t.dyn)
    decreases t
  {
    if t.Fork? {
      ChildEntries(t);
      ListsOfSound(t.left);
      ListsOfSound(t.right);
    }
  }

  // ---------- one deletion ----------

  /** A list holds, type by type, what the cull of a tree collects. */
  ghost predicate MatchesCull(t: Tree, items: seq<BBoxItem>, v: View)
    requires Built(t, items) && InRange(v.seenFrustum, v.seenMask) && |v.segments| == TYPES_COUNT
  {
    forall j :: 0 <= j < TYPES_COUNT ==>
      Entries(v.segments[j]) == Entries(OfType(Cull(t, items, v.seenFrustum, v.seenMask), j))
  }

  lemma ListedIff(s: State, v: View, j: nat, x: BBoxItem)
    requires |v.segments| == TYPES_COUNT && Fresh(s, v) && j < TYPES_COUNT
    ensures x in Entries(v.segments[j]) <==>
            && (x in Entries(s.items) || x in Entries(s.tree.dyn))
            && Passes(v.seenFrustum, v.seenMask, x.bbox) && x.itemType == j
  {
    DisplayedIff(s, v, s.tree.dyn, j, x);
  }

  lemma CulledIff(t: Tree, items: seq<BBoxItem>, v: View, j: nat, x: BBoxItem)
    requires SoundTree(t, items) && Range(t, items) == items && GoodView(v.seenFrustum, v.seenMask)
    ensures x in Entries(OfType(Cull(t, items, v.seenFrustum, v.seenMask), j)) <==>
            && (x in Entries(items) || Exposed(t, v.seenFrustum, v.seenMask, x))
            && Passes(v.seenFrustum, v.seenMask, x.bbox) && x.itemType == j
  {
    CullIsExact(t, items, v.seenFrustum, v.seenMask, x);
    OfTypeEntries(Cull(t, items, v.seenFrustum, v.seenMask), j);
  }

  /** All that is left of a key where the cull looks is out of sight. */
  ghost predicate NoneMet(t: Tree, v: View, k: Key)
    requires InRange(v.seenFrustum, v.seenMask)
  {
    forall x :: x in Lists(t) && KeyOf(x) == k && Exposed(t, v.seenFrustum, v.seenMask, x) ==> OutOfSight(v, x)
  }

  lemma OtherKeysAgree(s: State, v: View, k: Key, x: BBoxItem)
    requires GoodTree(s.tree, s.items) && GoodView(v.seenFrustum, v.seenMask) && KeyOf(x) != k
    ensures Exposed(Delete(s.tree, k).0, v.seenFrustum, v.seenMask, x) <==> x in Entries(s.tree.dyn)
  {
    var t := Delete(s.tree, k).0;
    GoodIsSound(s.tree, s.items);
    DeleteKeepsTree(s.tree, s.items, k);
    ListsOfSound(s.tree);
    ExposedIsListed(t, v.seenFrustum, v.seenMask, x);
    DeleteSkims(s.tree, k);
    SkimEntries(s.tree.dyn, k);
    hide Delete, Lists, Skim;
  }

  /**
   * A list that was up to date, and from which a key is deleted in place, holds what a check of the tree left over
   * would collect, exactly if the entries with the key on the lists that such a check looks at are out of sight.
   * Those are the root's list and the lists below it as long as the frustum crosses the boxes on the way. The lists
   * left over are known before the deletion (DeleteIs).
   */
  lemma DeletionAgreesWithCullIff(s: State, v: View, v': View, k: Key)
    requires WellFormed(s) && GoodTree(s.tree, s.items) && !HasKey(s.items, k)
    requires |v.segments| == |v'.segments| == TYPES_COUNT && Fresh(s, v) && SegmentsLess(v, v', k)
    requires v'.seenFrustum == v.seenFrustum && v'.seenMask == v.seenMask
    ensures Built(Delete(s.tree, k).0, s.items)
    ensures MatchesCull(Delete(s.tree, k).0, s.items, v') <==> NoneMet(Delete(s.tree, k).0, v, k)
  {
    var t := Delete(s.tree, k).0;
    GoodIsSound(s.tree, s.items);
    DeleteKeepsTree(s.tree, s.items, k);
    assert Range(t, s.items) == s.items;
    forall j, x | 0 <= j < TYPES_COUNT
      ensures x in Entries(v'.segments[j]) <==> x in Entries(v.segments[j]) && KeyOf(x) != k
    {
      EntriesWithout(v.segments[j], k);
    }
    hide Delete, SegmentsLess, Fresh, Cull, Exposed, Lists, GoodTree, SoundTree, WellFormed, Passes, OutOfSight;
    if MatchesCull(t, s.items, v') {
      forall x | x in Lists(t) && KeyOf(x) == k && Exposed(t, v.seenFrustum, v.seenMask, x) ensures OutOfSight(v, x) {
        MetIsShown(t, s.items, v', v, x);
      }
    }
    if NoneMet(t, v, k) {
      forall j | 0 <= j < TYPES_COUNT
        ensures Entries(v'.segments[j]) == Entries(OfType(Cull(t, s.items, v.seenFrustum, v.seenMask), j))
      {
        forall x ensures x in Entries(v'.segments[j]) <==>
                         x in Entries(OfType(Cull(t, s.items, v.seenFrustum, v.seenMask), j))
        {
          SameWhereNoneMet(s, v, k, j, x);
        }
      }
    }
  }

  lemma MetIsShown(t: Tree, items: seq<BBoxItem>, v': View, v: View, x: BBoxItem)
    requires SoundTree(t, items) && Range(t, items) == items && GoodView(v.seenFrustum, v.seenMask)
    requires |v'.segments| == TYPES_COUNT && v'.seenFrustum == v.seenFrustum && v'.seenMask == v.seenMask
    requires MatchesCull(t, items, v') && Exposed(t, v.seenFrustum, v.seenMask, x)
    requires forall j :: 0 <= j < TYPES_COUNT ==> x !in Entries(v'.segments[j])
    ensures OutOfSight(v, x)
  {
    if x.itemType < TYPES_COUNT {
      CulledIff(t, items, v', x.itemType, x);
    }
  }

  lemma SameWhereNoneMet(s: State, v: View, k: Key, j: nat, x: BBoxItem)
    requires WellFormed(s) && GoodTree(s.tree, s.items) && !HasKey(s.items, k) && j < TYPES_COUNT
    requires |v.segments| == TYPES_COUNT && Fresh(s, v) && NoneMet(Delete(s.tree, k).0, v, k)
    ensures Built(Delete(s.tree, k).0, s.items)
    ensures x in Entries(v.segments[j]) && KeyOf(x) != k <==>
            x in Entries(OfType(Cull(Delete(s.tree, k).0, s.items, v.seenFrustum, v.seenMask), j))
  {
    var t := Delete(s.tree, k).0;
    GoodIsSound(s.tree, s.items);
    DeleteKeepsTree(s.tree, s.items, k);
    assert Range(t, s.items) == s.items;
    ListedIff(s, v, j, x);
    hide Delete, Fresh, Cull, Exposed, Lists, SoundTree, WellFormed, Passes;
    CulledIff(t, s.items, v, j, x);
    if KeyOf(x) != k {
      OtherKeysAgree(s, v, k, x);
    } else {
      ExposedIsListed(t, v.seenFrustum, v.seenMask, x);
      if x in Entries(s.items) {
        AbsentEntry(s.items, k, x);
      }
    }
  }

  // ---------- three materials ----------

  /** Three entries with one key of which the last two fit the first child. */
  ghost predicate LastTwoFit(t: Tree, a: BBoxItem, b: BBoxItem, c: BBoxItem, fits: Fits) {
    && t.Fork? && t.left.Leaf? && t.dyn == t.left.dyn == []
    && KeyOf(a) == KeyOf(b) == KeyOf(c)
    && fits(t.orig, a.bbox) && fits(t.orig, b.bbox) && fits(t.orig, c.bbox)
    && !fits(t.left.orig, a.bbox) && fits(t.left.orig, b.bbox) && fits(t.left.orig, c.bbox)
  }

  function AddThree(t: Tree, a: BBoxItem, b: BBoxItem, c: BBoxItem, fits: Fits): Tree {
    InsertRoot(InsertRoot(InsertRoot(t, a, fits), b, fits), c, fits)
  }

  lemma ThreeAdded(t: Tree, a: BBoxItem, b: BBoxItem, c: BBoxItem, fits: Fits)
    requires LastTwoFit(t, a, b, c, fits)
    ensures var u := AddThree(t, a, b, c, fits);
            && u.Fork? && u.left.Leaf?
            && u.dyn == [a.(extra := false), b.(extra := true), c.(extra := true)]
            && u.left.dyn == [b.(extra := false), c.(extra := false)]
  {
    var u := InsertRoot(t, a, fits);
    var v := InsertRoot(u, b, fits);
    hide KeyOf, Join, InsertRoot, Insert;
    IntoFork(t, a, fits);
    IntoLeaf(t.left, a, fits);
    IntoFork(u, b, fits);
    IntoLeaf(u.left, b, fits);
    IntoFork(v, c, fits);
    IntoLeaf(v.left, c, fits);
  }

  lemma IntoFork(t: Tree, e: BBoxItem, fits: Fits)
    requires t.Fork? && fits(t.orig, e.bbox)
    ensures InsertRoot(t, e, fits) ==
            if Insert(t.left, e, fits).1 then AddTo(t.(left := Insert(t.left, e, fits).0), e.(extra := true))
            else AddTo(t.(right := Insert(t.right, e, fits).0), e.(extra := false))
  {
    var d := Descend(t, e, fits);
  }

  lemma IntoLeaf(t: Tree, e: BBoxItem, fits: Fits)
    requires t.Leaf?
    ensures Insert(t, e, fits) == if fits(t.orig, e.bbox) then (AddTo(t, e.(extra := false)), true) else (t, false)
  {
  }

  /** The root keeps the second of them and the child the third, which the root has lost. */
  lemma ThirdStaysBelow(t: Tree, a: BBoxItem, b: BBoxItem, c: BBoxItem, fits: Fits)
    requires LastTwoFit(t, a, b, c, fits)
    ensures var d := Delete(AddThree(t, a, b, c, fits), KeyOf(a)).0;
            d.Fork? && d.dyn == [b.(extra := true)] && d.left.dyn == [c.(extra := false)]
  {
    var u, k := AddThree(t, a, b, c, fits), KeyOf(a);
    ThreeAdded(t, a, b, c, fits);
    var a0, b0, c0 := a.(extra := false), b.(extra := false), c.(extra := false);
    var b1, c1 := b.(extra := true), c.(extra := true);
    assert KeyOf(a0) == KeyOf(b1) == KeyOf(c1) == KeyOf(b0) == KeyOf(c0) == k;
    DeleteIs(u, k);
    DeleteIs(u.left, k);
    hide AddThree, Delete, KeyOf;
    TwoSkimmed(b0, c0, k);
    ThreeSkimmed(a0, b1, c1, k);
    assert Deletes(u.left, k, 1) == Deletes(Delete(u.left, k).0, k, 0) == Delete(u.left, k).0;
  }

  lemma TwoSkimmed(b: BBoxItem, c: BBoxItem, k: Key)
    requires KeyOf(b) == k
    ensures Skim([b, c], k) == [c]
  {
    assert [b, c][2..] == [];
  }

  lemma ThreeSkimmed(a: BBoxItem, b: BBoxItem, c: BBoxItem, k: Key)
    requires KeyOf(a) == KeyOf(c) == k && !a.extra && c.extra
    ensures Skim([a, b, c], k) == [b] && Hits([a, b, c], true, k) == 1
  {
    assert [a, b, c][2..] == [c];
  }

  /** With the second out of sight the lists agree with the root's list, but a check collects the third again. */
  lemma ThirdIsShown(t: Tree, items: seq<BBoxItem>, a: BBoxItem, b: BBoxItem, c: BBoxItem, fits: Fits, f: Frustum,
                     mask: set<nat>)
    requires LastTwoFit(t, a, b, c, fits) && GoodTree(t, items) && GoodView(f, mask)
    requires Proper(a.bbox) && Proper(b.bbox) && Proper(c.bbox)
    requires !Passes(f, mask, b.bbox) && Passes(f, mask, c.bbox)
    ensures var d := Delete(AddThree(t, a, b, c, fits), KeyOf(a)).0;
            && Built(d, items) && Strip(c) in Entries(Cull(d, items, f, mask))
            && forall e :: e in d.dyn ==> !Passes(f, mask, e.bbox)
  {
    var d := Delete(AddThree(t, a, b, c, fits), KeyOf(a)).0;
    GoodIsSound(t, items);
    ThreeKeepTree(t, items, a, b, c, fits);
    ThirdStaysBelow(t, a, b, c, fits);
    hide AddThree, Delete, Cull, Built, KeyOf, GoodTree, LastTwoFit;
    CullIsExact(d, items, f, mask, Strip(c));
    RootIsCrossed(d, f, mask, b.(extra := true));
    EntriesOfOne(c.(extra := false));
    assert Strip(c.(extra := false)) == Strip(c) && Strip(c).bbox == c.bbox;
    assert Exposed(d.left, f, mask, Strip(c));
  }

  lemma ThreeKeepTree(t: Tree, items: seq<BBoxItem>, a: BBoxItem, b: BBoxItem, c: BBoxItem, fits: Fits)
    requires SoundTree(t, items) && Proper(a.bbox) && Proper(b.bbox) && Proper(c.bbox)
    ensures SoundTree(Delete(AddThree(t, a, b, c, fits), KeyOf(a)).0, items)
  {
    hide InsertRoot, SoundTree, Delete;
    InsertKeepsTree(t, items, a, fits);
    InsertKeepsTree(InsertRoot(t, a, fits), items, b, fits);
    InsertKeepsTree(InsertRoot(InsertRoot(t, a, fits), b, fits), items, c, fits);
    DeleteKeepsTree(AddThree(t, a, b, c, fits), items, KeyOf(a));
  }

  lemma RootIsCrossed(d: Tree, f: Frustum, mask: set<nat>, e: BBoxItem)
    requires BoxesOk(d) && GoodView(f, mask) && e in d.dyn && Proper(e.bbox) && !Passes(f, mask, e.bbox)
    ensures Crossed(f, mask, d.box) != {}
  {
    BoxContains(d);
    var i :| i in mask && FarDot(e.bbox, f[i]) < 0.0;
    DotsMonotone(e.bbox, d.box, f[i]);
    assert i in Crossed(f, mask, d.box);
  }

  // ---------- every run ----------

  /** Nothing is listed that is not in the tree, in sight and not deleted since the last check. */
  ghost predicate ShowsOnly(s: State, v: View, gone: set<Key>, j: nat, x: BBoxItem)
    requires InRange(v.seenFrustum, v.seenMask) && j < |v.segments|
  {
    x in Entries(v.segments[j]) ==>
      && (x in Entries(s.items) || x in Lists(s.tree)) && KeyOf(x) !in gone
      && Passes(v.seenFrustum, v.seenMask, x.bbox) && x.itemType == j
  }

  /** Of what is static or on the root's list nothing is missing that is in sight and not deleted since. */
  ghost predicate Shows(s: State, v: View, gone: set<Key>, j: nat, x: BBoxItem)
    requires InRange(v.seenFrustum, v.seenMask) && j < |v.segments|
  {
    (x in Entries(s.items) || x in Entries(s.tree.dyn)) && KeyOf(x) !in gone
    && Passes(v.seenFrustum, v.seenMask, x.bbox) && x.itemType == j ==>
      x in Entries(v.segments[j])
  }

  ghost predicate Bounded(s: State, v: View, gone: set<Key>)
    requires |v.segments| == TYPES_COUNT
  {
    && GoodView(v.seenFrustum, v.seenMask)
    && forall j, x :: 0 <= j < TYPES_COUNT ==> ShowsOnly(s, v, gone, j, x) && Shows(s, v, gone, j, x)
  }

  /** The keys deleted since the last check, list by list. */
  ghost predicate AnyInv(s: State, gone: seq<set<Key>>) {
    && WellFormed(s) && SoundTree(s.tree, s.items) && |gone| == MAX_INTERSECTION_TYPES
    && forall i :: 0 <= i < MAX_INTERSECTION_TYPES ==>
         GoodView(s.views[i].frustum, s.views[i].mask) && (s.views[i].stale || Bounded(s, s.views[i], gone[i]))
  }

  function GoneAfter(s: State, op: Op, gone: seq<set<Key>>): seq<set<Key>>
    requires |gone| == MAX_INTERSECTION_TYPES == |s.views|
  {
    match op
    case DeleteKey(k) => seq(MAX_INTERSECTION_TYPES, i requires 0 <= i < MAX_INTERSECTION_TYPES => gone[i] + {k})
    case CheckTree => if s.current < |gone| && s.views[s.current].stale then gone[s.current := {}] else gone
    case _ => gone
  }

  /** Every run starts so: a tree just built, or any other state where the lists are right. */
  lemma InvIsAnyInv(s: State)
    requires Inv(s)
    ensures AnyInv(s, [{}, {}, {}])
  {
    GoodIsSound(s.tree, s.items);
    ListsOfSound(s.tree);
    forall i, j, x | 0 <= i < MAX_INTERSECTION_TYPES && !s.views[i].stale && 0 <= j < TYPES_COUNT
      ensures ShowsOnly(s, s.views[i], {}, j, x) && Shows(s, s.views[i], {}, j, x)
    {
      ListedIff(s, s.views[i], j, x);
    }
  }

  /** Proper boxes and masks from calc_plane_mask; any key may be added and deleted at any time. */
  predicate WellPosed(op: Op) {
    op.AddItem? ==> Proper(op.e.bbox)
  }

  lemma DeletionStaysBounded(s: State, v: View, v': View, gone: set<Key>, k: Key)
    requires |v.segments| == |v'.segments| == TYPES_COUNT && SoundTree(s.tree, s.items) && Bounded(s, v, gone)
    requires SegmentsLess(v, v', k) && v'.seenFrustum == v.seenFrustum && v'.seenMask == v.seenMask
    ensures Bounded(s.(tree := Delete(s.tree, k).0), v', gone + {k})
  {
    var s', gone' := s.(tree := Delete(s.tree, k).0), gone + {k};
    DeleteKeepsTree(s.tree, s.items, k);
    DeleteSkims(s.tree, k);
    SkimEntries(s.tree.dyn, k);
    forall j, x | 0 <= j < TYPES_COUNT ensures ShowsOnly(s', v', gone', j, x) && Shows(s', v', gone', j, x) {
      EntriesWithout(v.segments[j], k);
      assert ShowsOnly(s, v, gone, j, x) && Shows(s, v, gone, j, x);
      hide Delete, Lists, Skim, Passes, Without, KeyOf;
    }
  }

  lemma CheckIsBounded(s: State, v: View, v': View)
    requires WellFormed(s) && SoundTree(s.tree, s.items) && GoodView(v.frustum, v.mask)
    requires |v'.segments| == TYPES_COUNT && v.stale && Checked(s, v, v')
    ensures Bounded(s, v', {})
  {
    var cull := Cull(s.tree, s.items, v.frustum, v.mask);
    assert Range(s.tree, s.items) == s.items;
    forall j, x | 0 <= j < TYPES_COUNT ensures ShowsOnly(s, v', {}, j, x) && Shows(s, v', {}, j, x) {
      CulledIff(s.tree, s.items, v', j, x);
      ExposedIsListed(s.tree, v.frustum, v.mask, x);
      SameEntries(v'.segments[j], OfType(cull, j));
    }
  }

  lemma SameEntries(a: seq<BBoxItem>, b: seq<BBoxItem>)
    requires multiset(a) == multiset(b)
    ensures Entries(a) == Entries(b)
  {
    forall e ensures e in a <==> e in b {
      assert e in a <==> e in multiset(a);
      assert e in b <==> e in multiset(b);
    }
  }

  lemma AnyStepKeepsTree(s: State, op: Op, s': State, gone: seq<set<Key>>)
    requires AnyInv(s, gone) && WellPosed(op) && Next(s, op, s')
    ensures SoundTree(s'.tree, s'.items)
  {
    match op
    case AddItem(e, fits) => InsertKeepsTree(s.tree, s.items, e, fits);
    case DeleteKey(k) => DeleteKeepsTree(s.tree, s.items, k);
    case _ =>
  }

  lemma AnyStepKeepsView(s: State, op: Op, s': State, gone: seq<set<Key>>, i: nat)
    requires AnyInv(s, gone) && WellPosed(op) && Next(s, op, s') && i < MAX_INTERSECTION_TYPES
    requires op.SetFrustum? ==> GoodView(op.f, op.mask)
    ensures GoodView(s'.views[i].frustum, s'.views[i].mask)
    ensures s'.views[i].stale || Bounded(s', s'.views[i], GoneAfter(s, op, gone)[i])
  {
    var v, v' := s.views[i], s'.views[i];
    hide Delete, InsertRoot, SoundTree;
    match op
    case AddItem(_, _) =>
    case DeleteKey(k) =>
      if !v.stale {
        DeletionStaysBounded(s, v, v', gone[i], k);
        BoundedElsewhere(s.(tree := s'.tree), s', v', v', gone[i] + {k});
      }
    case CheckTree =>
      if i == s.current && v.stale {
        CheckIsBounded(s, v, v');
        BoundedElsewhere(s, s', v', v', {});
      } else if !v.stale {
        BoundedElsewhere(s, s', v, v', gone[i]);
      }
    case _ =>
      if !v.stale {
        BoundedElsewhere(s, s', v, v', gone[i]);
      }
  }

  lemma BoundedElsewhere(s: State, s': State, v: View, v': View, gone: set<Key>)
    requires |v.segments| == TYPES_COUNT && Bounded(s, v, gone) && s'.items == s.items && s'.tree == s.tree
    requires v'.segments == v.segments && v'.seenFrustum == v.seenFrustum && v'.seenMask == v.seenMask
    ensures Bounded(s', v', gone)
  {
    forall j, x | 0 <= j < TYPES_COUNT ensures ShowsOnly(s', v', gone, j, x) && Shows(s', v', gone, j, x) {
      assert ShowsOnly(s, v, gone, j, x) && Shows(s, v, gone, j, x);
    }
  }

  lemma AnyStepKeepsInv(s: State, op: Op, s': State, gone: seq<set<Key>>)
    requires AnyInv(s, gone) && WellPosed(op) && Next(s, op, s')
    requires op.SetFrustum? ==> GoodView(op.f, op.mask)
    ensures AnyInv(s', GoneAfter(s, op, gone))
  {
    AnyStepKeepsTree(s, op, s', gone);
    var gone' := GoneAfter(s, op, gone);
    forall i | 0 <= i < MAX_INTERSECTION_TYPES
      ensures GoodView(s'.views[i].frustum, s'.views[i].mask)
      ensures s'.views[i].stale || Bounded(s', s'.views[i], gone'[i])
    {
      AnyStepKeepsView(s, op, s', gone, i);
    }
  }

  ghost predicate AnyRun(states: seq<State>, ops: seq<Op>) {
    && |states| == |ops| + 1
    && forall i :: 0 <= i < |ops| ==>
         && Next(states[i], ops[i], states[i + 1]) && WellPosed(ops[i])
         && (ops[i].SetFrustum? ==> GoodView(ops[i].f, ops[i].mask))
  }

  /** The keys deleted since the last check after n operations. */
  ghost function GoneAt(states: seq<State>, ops: seq<Op>, n: nat): (gone: seq<set<Key>>)
    requires AnyRun(states, ops) && n <= |ops|
    ensures |gone| == MAX_INTERSECTION_TYPES
  {
    if n == 0 then [{}, {}, {}] else
      assert Next(states[n - 1], ops[n - 1], states[n - 1 + 1]);
      GoneAfter(states[n - 1], ops[n - 1], GoneAt(states, ops, n - 1))
  }

  /**
   * Every run, with any keys added and deleted in any order: the boxes stay right, a list that is not stale shows
   * nothing that is not in the tree and in sight, and misses nothing in sight on the root's list but what has a key
   * deleted since the last check.
   */
  lemma {:induction false} EveryRunIsBounded(states: seq<State>, ops: seq<Op>, n: nat)
    requires AnyRun(states, ops) && AnyInv(states[0], [{}, {}, {}]) && n <= |ops|
    ensures AnyInv(states[n], GoneAt(states, ops, n))
    decreases n
  {
    hide AnyInv, Next, GoneAfter;
    if 0 < n {
      EveryRunIsBounded(states, ops, n - 1);
      AnyStepKeepsInv(states[n - 1], ops[n - 1], states[n], GoneAt(states, ops, n - 1));
    }
  }

  /** While the lists of the tree agree, this is exact: it is right if nothing with a key deleted since is in sight. */
  lemma BoundedIsFreshIff(s: State, v: View, gone: set<Key>)
    requires |v.segments| == TYPES_COUNT && DynOk(s.tree) && Bounded(s, v, gone)
    ensures Fresh(s, v) <==>
            forall x :: (x in Entries(s.items) || x in Entries(s.tree.dyn)) && KeyOf(x) in gone ==> OutOfSight(v, x)
  {
    ListsOfSound(s.tree);
    if Fresh(s, v) {
      forall x | (x in Entries(s.items) || x in Entries(s.tree.dyn)) && KeyOf(x) in gone ensures OutOfSight(v, x) {
        if x.itemType < TYPES_COUNT {
          ListedIff(s, v, x.itemType, x);
          assert ShowsOnly(s, v, gone, x.itemType, x);
        }
      }
    }
    if forall x :: (x in Entries(s.items) || x in Entries(s.tree.dyn)) && KeyOf(x) in gone ==> OutOfSight(v, x) {
      forall j | 0 <= j < TYPES_COUNT
        ensures Entries(v.segments[j]) ==
                Entries(OfType(Visible(v.seenFrustum, v.seenMask, s.items + s.tree.dyn), j))
      {
        forall x ensures x in Entries(v.segments[j]) <==> Displayed(s, v, s.tree.dyn, j, x) {
          DisplayedIff(s, v, s.tree.dyn, j, x);
          assert ShowsOnly(s, v, gone, j, x) && Shows(s, v, gone, j, x);
        }
      }
    }
  }
}
