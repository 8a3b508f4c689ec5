/** The recursive frustum cull over a tree value, and its agreement with testing every item. */
module BBoxCull {
  import opened Geometry
  import opened Seqs
  import opened BBoxItems
  import opened BBoxTreeSpec
  import opened BBoxRemains

  ghost predicate GoodTree(t: Tree, items: seq<BBoxItem>) {
    Built(t, items) && DynOk(t) && AllProper(Range(t, items)) && AllProper(t.dyn)
  }

  lemma GoodChildren(t: Tree, items: seq<BBoxItem>)
    requires GoodTree(t, items) && t.Fork?
    ensures GoodTree(t.left, items) && GoodTree(t.right, items)
    ensures Range(t, items) == Range(t.left, items) + Range(t.right, items)
  {
    var l, r := Range(t.left, items), Range(t.right, items);
    assert Range(t, items) == l + r;
    assert forall e :: e in l + r <==> e in l || e in r;
    ChildEntries(t);
    ProperEntries(t.left.dyn, t.dyn);
    ProperEntries(t.right.dyn, t.dyn);
  }

  lemma ProperEntries(s: seq<BBoxItem>, t: seq<BBoxItem>)
    requires Entries(s) <= Entries(t) && AllProper(t)
    ensures AllProper(s)
  {
    forall e | e in s ensures Proper(e.bbox) {
      assert Strip(e) in Entries(s);
      var e' := EntryHasItem(t, Strip(e));
      assert e'.bbox == Strip(e).bbox;
    }
  }

  ghost predicate ListsProper(t: Tree) {
    AllProper(t.dyn) && (t.Fork? ==> ListsProper(t.left) && ListsProper(t.right))
  }

  /** What holds whatever keys there are and whatever has been deleted: right boxes, but lists that need not agree. */
  ghost predicate SoundTree(t: Tree, items: seq<BBoxItem>) {
    Built(t, items) && BoxesOk(t) && AllProper(Range(t, items)) && ListsProper(t)
  }

  lemma {:induction false} GoodIsSound(t: Tree, items: seq<BBoxItem>)
    requires GoodTree(t, items)
    ensures SoundTree(t, items)
    decreases t
  {
    SoundHasBoxes(t);
    if t.Fork? {
      GoodChildren(t, items);
      GoodIsSound(t.left, items);
      GoodIsSound(t.right, items);
    }
  }

  lemma SoundChildren(t: Tree, items: seq<BBoxItem>)
    requires SoundTree(t, items) && t.Fork?
    ensures SoundTree(t.left, items) && SoundTree(t.right, items)
    ensures Range(t, items) == Range(t.left, items) + Range(t.right, items)
  {
    var l, r := Range(t.left, items), Range(t.right, items);
    assert Range(t, items) == l + r;
    assert forall e :: e in l + r <==> e in l || e in r;
  }

  lemma ContentsWithinBox(t: Tree, items: seq<BBoxItem>)
    requires SoundTree(t, items)
    ensures AllWithin(Range(t, items), t.box) && AllWithin(t.dyn, t.box)
  {
    BoxContains(t);
    HullContains(EMPTY, Range(t, items));
  }

  // ---------- check_sub_nodes ----------

  /** The collected list, in the order the recursion appends. */
  function Cull(t: Tree, items: seq<BBoxItem>, f: Frustum, mask: set<nat>): seq<BBoxItem>
    requires Built(t, items) && InRange(f, mask)
  {
    match Classify(f, mask, t.box)
    case Outside => []
    case Inside => Range(t, items) + t.dyn
    case Intersect(out) =>
      Visible(f, out, t.dyn) +
      if t.Leaf? then Visible(f, out, Range(t, items))
      else Cull(t.left, items, f, out) + Cull(t.right, items, f, out)
  }

  /** The part of the list that comes from dynamic entries; a visible entry shows up once per node on its path. */
  function CullDyn(t: Tree, f: Frustum, mask: set<nat>): seq<BBoxItem>
    requires InRange(f, mask)
  {
    match Classify(f, mask, t.box)
    case Outside => []
    case Inside => t.dyn
    case Intersect(out) =>
      Visible(f, out, t.dyn) + if t.Leaf? then [] else CullDyn(t.left, f, out) + CullDyn(t.right, f, out)
  }

  /** Every static item is collected exactly once if it passes the full mask, and never otherwise. */
  lemma {:induction false} CullIsBruteForce(t: Tree, items: seq<BBoxItem>, f: Frustum, mask: set<nat>)
    requires SoundTree(t, items) && GoodView(f, mask)
    ensures multiset(Cull(t, items, f, mask))
         == multiset(Visible(f, mask, Range(t, items))) + multiset(CullDyn(t, f, mask))
  {
    ContentsWithinBox(t, items);
    VerdictOnItems(f, mask, t.box, Range(t, items));
    match Classify(f, mask, t.box) {
      case Outside =>
      case Inside =>
      case Intersect(out) =>
        if t.Fork? {
          SoundChildren(t, items);
          CullIsBruteForce(t.left, items, f, out);
          CullIsBruteForce(t.right, items, f, out);
          FilterConcat(Range(t.left, items), Range(t.right, items), Seen(f, out));
          MergeCounts(Visible(f, out, t.dyn), Cull(t.left, items, f, out), Cull(t.right, items, f, out),
                      Visible(f, out, Range(t.left, items)), Visible(f, out, Range(t.right, items)),
                      CullDyn(t.left, f, out), CullDyn(t.right, f, out));
        } else {
          assert multiset(Cull(t, items, f, mask))
              == multiset(Visible(f, out, t.dyn)) + multiset(Visible(f, out, Range(t, items)));
          assert CullDyn(t, f, mask) == Visible(f, out, t.dyn);
        }
    }
  }

  lemma MergeCounts<T>(d: seq<T>, l: seq<T>, r: seq<T>, vl: seq<T>, vr: seq<T>, dl: seq<T>, dr: seq<T>)
    requires multiset(l) == multiset(vl) + multiset(dl) && multiset(r) == multiset(vr) + multiset(dr)
    ensures multiset(d + (l + r)) == multiset(vl + vr) + multiset(d + (dl + dr))
  {
  }

  /** The dynamic entries collected are, as a set, those of the root that pass the full mask. */
  lemma {:induction false} CullDynIsBruteForce(t: Tree, items: seq<BBoxItem>, f: Frustum, mask: set<nat>)
    requires GoodTree(t, items) && GoodView(f, mask)
    ensures Entries(CullDyn(t, f, mask)) == Entries(Visible(f, mask, t.dyn))
  {
    GoodIsSound(t, items);
    ContentsWithinBox(t, items);
    VerdictOnItems(f, mask, t.box, t.dyn);
    match Classify(f, mask, t.box) {
      case Outside =>
      case Inside =>
      case Intersect(out) =>
        if t.Fork? {
          GoodChildren(t, items);
          ChildEntries(t);
          CullDynIsBruteForce(t.left, items, f, out);
          CullDynIsBruteForce(t.right, items, f, out);
          VisibleEntriesMonotone(f, out, t.left.dyn, t.dyn);
          VisibleEntriesMonotone(f, out, t.right.dyn, t.dyn);
          EntriesOfConcat(CullDyn(t.left, f, out), CullDyn(t.right, f, out));
        }
        EntriesOfConcat(Visible(f, out, t.dyn),
                        if t.Leaf? then [] else CullDyn(t.left, f, out) + CullDyn(t.right, f, out));
    }
  }

  lemma VisibleEntriesMonotone(f: Frustum, mask: set<nat>, s: seq<BBoxItem>, t: seq<BBoxItem>)
    requires InRange(f, mask) && Entries(s) <= Entries(t)
    ensures Entries(Visible(f, mask, s)) <= Entries(Visible(f, mask, t))
  {
    VisibleMembers(f, mask, s);
    VisibleMembers(f, mask, t);
    forall x | x in Entries(Visible(f, mask, s)) ensures x in Entries(Visible(f, mask, t)) {
      var e := EntryHasItem(Visible(f, mask, s), x);
      assert Strip(e) in Entries(s);
      var e' := EntryHasItem(t, x);
      assert e'.bbox == x.bbox == e.bbox && e' in Visible(f, mask, t);
    }
  }

  /** As a set of entries, the cull is the brute-force filter over all static items and root entries. */
  lemma CullEntries(t: Tree, items: seq<BBoxItem>, f: Frustum, mask: set<nat>)
    requires GoodTree(t, items) && GoodView(f, mask)
    ensures Entries(Cull(t, items, f, mask)) == Entries(Visible(f, mask, Range(t, items) + t.dyn))
  {
    GoodIsSound(t, items);
    CullIsBruteForce(t, items, f, mask);
    CullDynIsBruteForce(t, items, f, mask);
    var all, statics, dyns := Cull(t, items, f, mask), Visible(f, mask, Range(t, items)), CullDyn(t, f, mask);
    assert multiset(all) == multiset(statics + dyns);
    PermutationMembers(all, statics + dyns);
    EntriesOfConcat(statics, dyns);
    FilterConcat(Range(t, items), t.dyn, Seen(f, mask));
    EntriesOfConcat(statics, Visible(f, mask, t.dyn));
  }

  // ---------- the cull of a tree whose lists need not agree ----------

  /** On the list of a node such that the frustum's sides cross the boxes of all nodes above it. */
  ghost predicate Exposed(t: Tree, f: Frustum, mask: set<nat>, x: BBoxItem)
    requires InRange(f, mask)
  {
    || x in Entries(t.dyn)
    || (t.Fork? && Crossed(f, mask, t.box) != {} && (Exposed(t.left, f, mask, x) || Exposed(t.right, f, mask, x)))
  }

  lemma ExposedIsListed(t: Tree, f: Frustum, mask: set<nat>, x: BBoxItem)
    requires InRange(f, mask)
    ensures Exposed(t, f, mask, x) ==> x in Lists(t)
  {
  }

  /** The planes left out have the whole box in front of them. */
  ghost predicate Narrowed(f: Frustum, mask: set<nat>, out: set<nat>, b: Box)
    requires InRange(f, mask)
  {
    out <= mask && forall i :: i in mask && i !in out ==> 0.0 <= NearDot(b, f[i])
  }

  lemma NarrowedInside(f: Frustum, mask: set<nat>, out: set<nat>, b: Box, a: Box)
    requires GoodView(f, mask) && Narrowed(f, mask, out, b) && Within(a, b) && Proper(a)
    ensures Narrowed(f, mask, out, a) && Crossed(f, out, a) == Crossed(f, mask, a)
  {
    forall i | i in mask && i !in out ensures 0.0 <= NearDot(a, f[i]) {
      DotsMonotone(a, b, f[i]);
    }
  }

  lemma BoxIsProper(t: Tree, items: seq<BBoxItem>)
    requires SoundTree(t, items)
    ensures Proper(t.box)
  {
    ContentsWithinBox(t, items);
    var e := Range(t, items)[0];
    assert e in Range(t, items);
  }

  lemma {:induction false} NarrowedExposes(t: Tree, items: seq<BBoxItem>, f: Frustum, mask: set<nat>, out: set<nat>,
                                           x: BBoxItem)
    requires SoundTree(t, items) && GoodView(f, mask) && Narrowed(f, mask, out, t.box)
    ensures Exposed(t, f, out, x) <==> Exposed(t, f, mask, x)
    decreases t
  {
    BoxIsProper(t, items);
    NarrowedInside(f, mask, out, t.box, t.box);
    if t.Fork? {
      SoundChildren(t, items);
      BoxContains(t);
      BoxIsProper(t.left, items);
      BoxIsProper(t.right, items);
      hide BoxesOk, Built, Classify, Crossed, Narrowed;
      NarrowedInside(f, mask, out, t.box, t.left.box);
      NarrowedInside(f, mask, out, t.box, t.right.box);
      NarrowedExposes(t.left, items, f, mask, out, x);
      NarrowedExposes(t.right, items, f, mask, out, x);
    }
  }

  lemma ListedIsWithin(t: Tree, x: BBoxItem)
    requires BoxesOk(t) && ListsProper(t) && x in Lists(t)
    ensures Within(x.bbox, t.box) && Proper(x.bbox)
    decreases t
  {
    BoxContains(t);
    if x in Entries(t.dyn) {
      var e := EntryHasItem(t.dyn, x);
      assert e.bbox == x.bbox;
    } else if x in Lists(t.left) {
      ListedIsWithin(t.left, x);
    } else {
      ListedIsWithin(t.right, x);
    }
  }

  lemma SeenEntries(f: Frustum, mask: set<nat>, s: seq<BBoxItem>, x: BBoxItem)
    requires InRange(f, mask)
    ensures x in Entries(Visible(f, mask, s)) <==> x in Entries(s) && Passes(f, mask, x.bbox)
  {
    VisibleMembers(f, mask, s);
    if x in Entries(s) {
      var e := EntryHasItem(s, x);
      assert e.bbox == x.bbox;
    }
    if x in Entries(Visible(f, mask, s)) {
      var e := EntryHasItem(Visible(f, mask, s), x);
      assert e.bbox == x.bbox;
    }
  }

  /** The dynamic entries collected are those in sight that are exposed. */
  lemma {:induction false} CullDynIsExposed(t: Tree, items: seq<BBoxItem>, f: Frustum, mask: set<nat>, x: BBoxItem)
    requires SoundTree(t, items) && GoodView(f, mask)
    ensures x in Entries(CullDyn(t, f, mask)) <==> Passes(f, mask, x.bbox) && Exposed(t, f, mask, x)
    decreases t
  {
    ExposedIsListed(t, f, mask, x);
    if x in Lists(t) {
      ListedIsWithin(t, x);
      VerdictOnContents(f, mask, t.box, x.bbox);
    }
    match Classify(f, mask, t.box) {
      case Outside =>
      case Inside =>
      case Intersect(out) =>
        SeenEntries(f, out, t.dyn, x);
        if t.Fork? {
          CullDynBelow(t, items, f, mask, out, x);
          EntriesOfConcat(CullDyn(t.left, f, out), CullDyn(t.right, f, out));
          EntriesOfConcat(Visible(f, out, t.dyn), CullDyn(t.left, f, out) + CullDyn(t.right, f, out));
        } else {
          assert CullDyn(t, f, mask) == Visible(f, out, t.dyn);
        }
        hide Passes, Visible;
    }
  }

  lemma {:induction false} CullDynBelow(t: Tree, items: seq<BBoxItem>, f: Frustum, mask: set<nat>, out: set<nat>,
                                        x: BBoxItem)
    requires SoundTree(t, items) && GoodView(f, mask) && t.Fork? && out == Crossed(f, mask, t.box)
    ensures GoodView(f, out)
    ensures x in Entries(CullDyn(t.left, f, out)) <==> Passes(f, out, x.bbox) && Exposed(t.left, f, mask, x)
    ensures x in Entries(CullDyn(t.right, f, out)) <==> Passes(f, out, x.bbox) && Exposed(t.right, f, mask, x)
    decreases t, 0
  {
    SoundChildren(t, items);
    BoxContains(t);
    BoxIsProper(t.left, items);
    BoxIsProper(t.right, items);
    assert Narrowed(f, mask, out, t.box);
    hide BoxesOk, Built, Classify, Crossed, Narrowed, Passes, ListsProper;
    NarrowedInside(f, mask, out, t.box, t.left.box);
    NarrowedInside(f, mask, out, t.box, t.right.box);
    NarrowedExposes(t.left, items, f, mask, out, x);
    NarrowedExposes(t.right, items, f, mask, out, x);
    CullDynIsExposed(t.left, items, f, out, x);
    CullDynIsExposed(t.right, items, f, out, x);
  }

  /**
   * What the cull collects from any tree with right boxes, whatever its lists hold: of what is in sight, all static
   * items and exactly the exposed dynamic entries.
   */
  lemma CullIsExact(t: Tree, items: seq<BBoxItem>, f: Frustum, mask: set<nat>, x: BBoxItem)
    requires SoundTree(t, items) && GoodView(f, mask)
    ensures x in Entries(Cull(t, items, f, mask)) <==>
            Passes(f, mask, x.bbox) && (x in Entries(Range(t, items)) || Exposed(t, f, mask, x))
  {
    CullIsBruteForce(t, items, f, mask);
    CullDynIsExposed(t, items, f, mask, x);
    var all, statics, dyns := Cull(t, items, f, mask), Visible(f, mask, Range(t, items)), CullDyn(t, f, mask);
    SeenEntries(f, mask, Range(t, items), x);
    hide Cull, CullDyn, Exposed, Passes, Visible, SoundTree;
    assert multiset(all) == multiset(statics + dyns);
    PermutationMembers(all, statics + dyns);
    EntriesOfConcat(statics, dyns);
  }

  // ---------- calc_bbox_sub_nodes ----------

  function CalcBox(t: Tree, items: seq<BBoxItem>, f: Frustum, mask: set<nat>, acc: Box): Box
    requires Built(t, items) && InRange(f, mask)
  {
    match Classify(f, mask, t.box)
    case Outside => acc
    case Inside => Join(acc, t.box)
    case Intersect(out) =>
      var withDyn := HullOver(acc, Visible(f, out, t.dyn));
      if t.Leaf? then HullOver(withDyn, Visible(f, out, Range(t, items)))
      else CalcBox(t.right, items, f, out, CalcBox(t.left, items, f, out, withDyn))
  }

  ghost predicate VisibleWithin(f: Frustum, mask: set<nat>, s: seq<BBoxItem>, c: Box)
    requires InRange(f, mask)
  {
    AllWithin(Visible(f, mask, s), c)
  }

  lemma VisibleWithinMonotone(f: Frustum, mask: set<nat>, s: seq<BBoxItem>, t: seq<BBoxItem>, c: Box)
    requires InRange(f, mask) && Entries(s) <= Entries(t) && VisibleWithin(f, mask, t, c)
    ensures VisibleWithin(f, mask, s, c)
  {
    VisibleEntriesMonotone(f, mask, s, t);
    EntriesWithin(Visible(f, mask, s), Visible(f, mask, t), c);
  }

  /** The computed box is the least one around its start and all survivors. */
  lemma {:induction false} CalcBoxIsLeast(t: Tree, items: seq<BBoxItem>, f: Frustum, mask: set<nat>, acc: Box, c: Box)
    requires GoodTree(t, items) && GoodView(f, mask) && Within(EMPTY, acc)
    ensures Within(CalcBox(t, items, f, mask, acc), c) <==>
            Within(acc, c) && VisibleWithin(f, mask, Range(t, items), c) && VisibleWithin(f, mask, t.dyn, c)
    ensures Within(EMPTY, CalcBox(t, items, f, mask, acc))
    decreases t
  {
    GoodIsSound(t, items);
    ContentsWithinBox(t, items);
    VerdictOnItems(f, mask, t.box, Range(t, items));
    VerdictOnItems(f, mask, t.box, t.dyn);
    match Classify(f, mask, t.box) {
      case Outside =>
      case Inside =>
        HullIsLeast(t.orig, t.dyn, c);
        HullIsLeast(EMPTY, Range(t, items), c);
      case Intersect(out) =>
        var withDyn := HullOver(acc, Visible(f, out, t.dyn));
        HullIsLeast(acc, Visible(f, out, t.dyn), c);
        HullContains(acc, Visible(f, out, t.dyn));
        if t.Leaf? {
          HullIsLeast(withDyn, Visible(f, out, Range(t, items)), c);
          HullContains(withDyn, Visible(f, out, Range(t, items)));
        } else {
          GoodChildren(t, items);
          ChildEntries(t);
          CalcBoxIsLeast(t.left, items, f, out, withDyn, c);
          CalcBoxIsLeast(t.right, items, f, out, CalcBox(t.left, items, f, out, withDyn), c);
          FilterConcat(Range(t.left, items), Range(t.right, items), Seen(f, out));
          var l, r := Visible(f, out, Range(t.left, items)), Visible(f, out, Range(t.right, items));
          assert AllWithin(l + r, c) <==> AllWithin(l, c) && AllWithin(r, c) by {
            assert forall e :: e in l + r <==> e in l || e in r;
          }
          if VisibleWithin(f, out, t.dyn, c) {
            VisibleWithinMonotone(f, out, t.left.dyn, t.dyn, c);
            VisibleWithinMonotone(f, out, t.right.dyn, t.dyn, c);
          }
        }
    }
  }

  /** The scene box is exactly the hull of all static and dynamic boxes that survive the brute-force test. */
  lemma CalcSceneBoxIsHull(t: Tree, items: seq<BBoxItem>, f: Frustum, mask: set<nat>)
    requires GoodTree(t, items) && GoodView(f, mask)
    ensures CalcBox(t, items, f, mask, EMPTY) == HullOver(EMPTY, Visible(f, mask, Range(t, items) + t.dyn))
  {
    var scene, all := CalcBox(t, items, f, mask, EMPTY), Visible(f, mask, Range(t, items) + t.dyn);
    var hull := HullOver(EMPTY, all);
    FilterConcat(Range(t, items), t.dyn, Seen(f, mask));
    assert forall e :: e in all <==> e in Visible(f, mask, Range(t, items)) || e in Visible(f, mask, t.dyn);
    CalcBoxIsLeast(t, items, f, mask, EMPTY, scene);
    CalcBoxIsLeast(t, items, f, mask, EMPTY, hull);
    HullContains(EMPTY, all);
    HullIsLeast(EMPTY, all, scene);
    WithinBoth(scene, hull);
  }
}
