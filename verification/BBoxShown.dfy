/** What the result lists show, said by points, planes and the objects added and deleted alone. */
module BBoxShown {
  import opened Geometry
  import opened Seqs
  import opened BBoxItems
  import opened BBoxTreeSpec
  import opened BBoxCull
  import opened BBoxRuns

  /** Each segment holds exactly the objects of its type that some plane set has in sight. */
  ghost predicate Shows(segments: seq<seq<BBoxItem>>, objects: set<BBoxItem>, f: Frustum, mask: set<nat>)
    requires InRange(f, mask) && |segments| == TYPES_COUNT
  {
    forall j, x :: 0 <= j < TYPES_COUNT ==>
      (x in Entries(segments[j]) <==> x in objects && x.itemType == j && InSight(f, mask, x.bbox))
  }

  ghost function Objects(s: State): set<BBoxItem> {
    Entries(s.items) + Entries(s.tree.dyn)
  }

  lemma ProperObjects(s: State, x: BBoxItem)
    requires WellFormed(s) && GoodTree(s.tree, s.items) && x in Objects(s)
    ensures Proper(x.bbox)
  {
    assert Range(s.tree, s.items) == s.items;
    if x in Entries(s.items) {
      var e := EntryHasItem(s.items, x);
      assert e.bbox == x.bbox;
    } else {
      var e := EntryHasItem(s.tree.dyn, x);
      assert e.bbox == x.bbox;
    }
  }

  /** A list that is up to date shows, of all objects, those in sight at its last check. */
  lemma FreshShows(s: State, v: View)
    requires WellFormed(s) && GoodTree(s.tree, s.items) && |v.segments| == TYPES_COUNT && Fresh(s, v)
    ensures Shows(v.segments, Objects(s), v.seenFrustum, v.seenMask)
  {
    var f, mask := v.seenFrustum, v.seenMask;
    forall j, x | 0 <= j < TYPES_COUNT
      ensures x in Entries(v.segments[j]) <==> x in Objects(s) && x.itemType == j && InSight(f, mask, x.bbox)
    {
      DisplayedIff(s, v, s.tree.dyn, j, x);
      if x in Objects(s) {
        ProperObjects(s, x);
        PassesByPoints(f, mask, x.bbox);
      }
    }
  }

  /** A check of a stale list shows what is in sight through the frustum that is set. */
  lemma CheckShows(s: State, s': State)
    requires Inv(s) && Next(s, CheckTree, s') && s.views[s.current].stale
    ensures var v := s.views[s.current];
            Shows(s'.views[s.current].segments, Objects(s), v.frustum, v.mask)
  {
    var v, v' := s.views[s.current], s'.views[s.current];
    CheckIsFresh(s, v, v');
    FreshShows(s, v');
  }

  /** That frustum is the one given to set_frustum, and nothing of the list before remains. */
  lemma SetAndCheckShows(s: State, f: Frustum, mask: set<nat>, s': State, s'': State)
    requires Inv(s) && GoodView(f, mask) && s.views[s.current].stale
    requires Next(s, SetFrustum(f, mask), s') && Next(s', CheckTree, s'')
    ensures Shows(s''.views[s.current].segments, Objects(s), f, mask)
  {
    StepKeepsInv(s, SetFrustum(f, mask), s');
    CheckShows(s', s'');
  }

  /** Static objects come once per item, however the tree splits them. */
  lemma CheckShowsItemsOnce(s: State, s': State, j: nat, e: BBoxItem)
    requires Inv(s) && Next(s, CheckTree, s') && s.views[s.current].stale && j < TYPES_COUNT && s.tree.dyn == []
    ensures var v := s.views[s.current];
            multiset(s'.views[s.current].segments[j])[e] ==
            (if e.itemType == j && e in s.items && InSight(v.frustum, v.mask, e.bbox) then multiset(s.items)[e] else 0)
  {
    var v, cull := s.views[s.current], Cull(s.tree, s.items, s.views[s.current].frustum, s.views[s.current].mask);
    assert Range(s.tree, s.items) == s.items;
    GoodIsSound(s.tree, s.items);
    CullIsBruteForce(s.tree, s.items, v.frustum, v.mask);
    NoDynCulled(s.tree, s.items, v.frustum, v.mask);
    FilterCount(s.items, Seen(v.frustum, v.mask), e);
    FilterCount(cull, (x: BBoxItem) => x.itemType == j, e);
    if e in s.items {
      PassesByPoints(v.frustum, v.mask, e.bbox);
    }
  }

  lemma NoDynCulled(t: Tree, items: seq<BBoxItem>, f: Frustum, mask: set<nat>)
    requires GoodTree(t, items) && GoodView(f, mask) && t.dyn == []
    ensures CullDyn(t, f, mask) == []
  {
    CullDynIsBruteForce(t, items, f, mask);
    NoEntries(CullDyn(t, f, mask));
  }

  lemma NoEntries(s: seq<BBoxItem>)
    ensures Entries(s) == {} <==> s == []
  {
    if s != [] {
      assert Strip(s[0]) in Entries(s);
    }
  }

  /** The dynamic objects there should be after n operations, from those there were. */
  ghost function Live(start: set<BBoxItem>, ops: seq<Op>, n: nat): set<BBoxItem>
    requires n <= |ops|
    decreases n
  {
    if n == 0 then start else LiveAfter(Live(start, ops, n - 1), ops[n - 1])
  }

  ghost function LiveAfter(before: set<BBoxItem>, op: Op): set<BBoxItem> {
    match op
    case AddItem(e, _) => before + {Strip(e)}
    case DeleteKey(k) => set x | x in before && KeyOf(x) != k
    case _ => before
  }

  lemma {:induction false} RunsListLive(states: seq<State>, ops: seq<Op>, n: nat)
    requires Run(states, ops) && Inv(states[0]) && n <= |ops|
    ensures Entries(states[n].tree.dyn) == Live(Entries(states[0].tree.dyn), ops, n)
    ensures states[n].items == states[0].items
    decreases n
  {
    if 0 < n {
      hide Inv, Admissible, Next, Live;
      RunsListLive(states, ops, n - 1);
      RunsStayFresh(states, ops, n - 1);
      StepLists(states[n - 1], ops[n - 1], states[n]);
      LiveNext(Entries(states[0].tree.dyn), ops, n - 1);
    }
  }

  lemma LiveNext(start: set<BBoxItem>, ops: seq<Op>, n: nat)
    requires n < |ops|
    ensures Live(start, ops, n + 1) == LiveAfter(Live(start, ops, n), ops[n])
  {
  }

  lemma StepLists(s: State, op: Op, s': State)
    requires Inv(s) && Admissible(s, op) && Next(s, op, s')
    ensures Entries(s'.tree.dyn) == LiveAfter(Entries(s.tree.dyn), op) && s'.items == s.items
  {
    StepKeepsTree(s, op, s');
    match op
    case AddItem(e, fits) => InsertRootKeeps(s.tree, e, fits);
    case DeleteKey(k) => EntriesWithout(s.tree.dyn, k);
    case _ =>
  }

  /**
   * At every moment of every run, a list not marked stale shows for each type exactly the static items and the
   * objects added and not deleted since that have some point before each plane it was last checked with.
   */
  lemma RunsShowWhatIsInSight(states: seq<State>, ops: seq<Op>, n: nat, i: nat)
    requires Run(states, ops) && Inv(states[0]) && n <= |ops| && i < MAX_INTERSECTION_TYPES
    ensures Inv(states[n])
    ensures var s, v := states[0], states[n].views[i];
            var objects := Entries(s.items) + Live(Entries(s.tree.dyn), ops, n);
            v.stale || Shows(v.segments, objects, v.seenFrustum, v.seenMask)
  {
    RunsStayFresh(states, ops, n);
    RunsListLive(states, ops, n);
    if !states[n].views[i].stale {
      FreshShows(states[n], states[n].views[i]);
    }
  }
}
