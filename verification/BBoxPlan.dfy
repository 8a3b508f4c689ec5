/** Where the static tree is split, and what that is worth in volumes. */
module BBoxPlan {
  import opened Geometry
  import opened Seqs
  import opened Sorting
  import opened BBoxItems
  import opened BBoxTreeSpec
  import opened BBoxBuild

  /** All trials rearrange the range; on the last one the split is the best. */
  lemma {:induction false} SearchedLast(range: seq<BBoxItem>, axes: seq<nat>, trials: seq<seq<BBoxItem>>, split: int)
    requires Searched(range, axes, trials, split)
    ensures multiset(Last(trials)) == multiset(range) && BestSplit(Last(trials), split)
    ensures SortedBy(Last(trials), AxisKey(axes[|trials| - 1]))
    ensures split < 0 ==> |trials| == |axes|
  {
    if 1 < |trials| {
      SearchedLast(range, axes[1..], trials[1..], split);
    }
  }

  /** All trials but the last gain nothing, and the last neither if there is no split. */
  lemma {:induction false} SearchedAt(range: seq<BBoxItem>, axes: seq<nat>, trials: seq<seq<BBoxItem>>, split: int,
                                      j: nat)
    requires Searched(range, axes, trials, split) && j < |trials| && (j < |trials| - 1 || split == -1)
    ensures multiset(trials[j]) == multiset(range) && SortedBy(trials[j], AxisKey(axes[j]))
    ensures BestSplit(trials[j], -1)
  {
    if 0 < j {
      SearchedAt(range, axes[1..], trials[1..], split, j - 1);
    }
  }

  lemma HullOfRange(t: Tree, items: seq<BBoxItem>, s: seq<BBoxItem>)
    requires Built(t, items) && multiset(s) == multiset(Range(t, items))
    ensures |s| == t.count && Hull(s) == t.orig && s[0..] == s
  {
    PermutationMembers(s, Range(t, items));
    HullOfPermutation(EMPTY, s, Range(t, items));
  }

  /** Two volumes, each weighed with a number of items. */
  function Weighed(m: nat, v: real, n: nat, w: real): real {
    m as real * v + n as real * w
  }

  /** What leaving n items in a volume costs: three items less. */
  function Kept(n: nat, v: real): real {
    v * (n as real - 3.0)
  }

  /** The cost of a cut is that of the volumes of its two sides. */
  lemma CostOfCut(s: seq<BBoxItem>, k: nat)
    requires 0 < k < |s|
    ensures Cost(s, k - 1) == Weighed(k, Volume(Hull(s[..k])), |s| - k, Volume(Hull(s[k..])))
    ensures Threshold(s) == Kept(|s|, Volume(Hull(s)))
  {
    hide Volume, Hull;
    assert s[0..] == s && s[..k - 1 + 1] == s[..k] && s[k - 1 + 1..] == s[k..];
  }

  lemma SecondHalf(s: seq<BBoxItem>, n: nat, l: seq<BBoxItem>, r: seq<BBoxItem>)
    requires n <= |s| && multiset(s) == multiset(l + r) && multiset(s[..n]) == multiset(l)
    ensures multiset(s[n..]) == multiset(r)
  {
    assert s == s[..n] + s[n..];
    assert multiset(s[n..]) == multiset(s) - multiset(s[..n]) && multiset(r) == multiset(l + r) - multiset(l);
  }

  lemma ForkRanges(t: Tree, items: seq<BBoxItem>)
    requires Built(t, items) && t.Fork?
    ensures Built(t.left, items) && Built(t.right, items) && t.count == t.left.count + t.right.count
    ensures Range(t, items) == Range(t.left, items) + Range(t.right, items)
  {
  }

  /** The halves of a split node, as the search left them. */
  lemma SplitHalves(t: Tree, items: seq<BBoxItem>, axes: seq<nat>, trials: seq<seq<BBoxItem>>)
    requires Built(t, items) && t.Fork? && PlannedBy(t, items, axes, trials)
    ensures var s, n := Last(trials), t.left.count;
            && 0 < n < |s| == t.count
            && Built(t.left, items) && Built(t.right, items)
            && multiset(s[..n]) == multiset(Range(t.left, items)) && multiset(s[n..]) == multiset(Range(t.right, items))
            && Hull(s[..n]) == t.left.orig && Hull(s[n..]) == t.right.orig && Hull(s) == t.orig
  {
    var s, n := Last(trials), t.left.count;
    ForkRanges(t, items);
    SearchedLast(Range(t, items), axes, trials, n - 1);
    HullOfRange(t, items, s);
    hide Searched, Hull, DecreasingAxes, BestSplit, SortedBy;
    SecondHalf(s, n, Range(t.left, items), Range(t.right, items));
    HullOfRange(t.left, items, s[..n]);
    HullOfRange(t.right, items, s[n..]);
  }

  /** The cut of a split node beats the threshold. */
  lemma SplitBeats(t: Tree, items: seq<BBoxItem>, axes: seq<nat>, trials: seq<seq<BBoxItem>>)
    requires Built(t, items) && t.Fork? && PlannedBy(t, items, axes, trials)
    ensures 0 < t.left.count < |Last(trials)|
    ensures Cost(Last(trials), t.left.count - 1) < Threshold(Last(trials))
  {
    SplitHalves(t, items, axes, trials);
    SearchedLast(Range(t, items), axes, trials, t.left.count - 1);
    BestSplitMeaning(Last(trials), t.left.count - 1);
  }

  /** What a split is worth: the halves, weighed with their items, against the whole with three items less. */
  ghost predicate Pays(t: Tree)
    requires t.Fork?
  {
    Weighed(t.left.count, Volume(t.left.orig), t.right.count, Volume(t.right.orig)) < Kept(t.count, Volume(t.orig))
  }

  lemma SearchedSplitPays(t: Tree, items: seq<BBoxItem>, axes: seq<nat>, trials: seq<seq<BBoxItem>>)
    requires Built(t, items) && t.Fork? && PlannedBy(t, items, axes, trials)
    ensures Pays(t)
  {
    hide Volume, Cost, Threshold, Weighed, Kept;
    SplitHalves(t, items, axes, trials);
    SplitBeats(t, items, axes, trials);
    ForkRanges(t, items);
    CostOfCut(Last(trials), t.left.count);
    hide Built, PlannedBy, Hull, Range, Last;
    assert |Last(trials)| - t.left.count == t.right.count;
  }

  /** Every split pays. */
  lemma SplitPays(t: Tree, items: seq<BBoxItem>)
    requires Built(t, items) && Planned(t, items) && t.Fork?
    ensures Pays(t)
  {
    var axes, trials :| PlannedBy(t, items, axes, trials);
    hide PlannedBy, Pays;
    SearchedSplitPays(t, items, axes, trials);
  }

  lemma HalvesInOrder(s: seq<BBoxItem>, n: nat, l: seq<BBoxItem>, r: seq<BBoxItem>, key: BBoxItem -> real,
                      e: BBoxItem, x: BBoxItem)
    requires n <= |s| && multiset(s[..n]) == multiset(l) && multiset(s[n..]) == multiset(r) && SortedBy(s, key)
    requires e in l && x in r
    ensures key(e) <= key(x)
  {
    PermutationMembers(s[..n], l);
    PermutationMembers(s[n..], r);
    var i :| 0 <= i < n && s[..n][i] == e;
    var j :| 0 <= j < |s| - n && s[n..][j] == x;
    assert s[i] == e && s[n + j] == x;
  }

  /** Along some axis, no item of r has its lower corner below that of an item of l. */
  ghost predicate InOrder(l: seq<BBoxItem>, r: seq<BBoxItem>) {
    || (forall e, x :: e in l && x in r ==> e.bbox.bbmin.x <= x.bbox.bbmin.x)
    || (forall e, x :: e in l && x in r ==> e.bbox.bbmin.y <= x.bbox.bbmin.y)
    || (forall e, x :: e in l && x in r ==> e.bbox.bbmin.z <= x.bbox.bbmin.z)
  }

  lemma InOrderAlong(l: seq<BBoxItem>, r: seq<BBoxItem>, axis: nat)
    requires axis < 3 && forall e, x :: e in l && x in r ==> AxisKey(axis)(e) <= AxisKey(axis)(x)
    ensures InOrder(l, r)
  {
    forall e, x | e in l && x in r
      ensures axis == 0 ==> e.bbox.bbmin.x <= x.bbox.bbmin.x
      ensures axis == 1 ==> e.bbox.bbmin.y <= x.bbox.bbmin.y
      ensures axis == 2 ==> e.bbox.bbmin.z <= x.bbox.bbmin.z
    {
      assert AxisKey(axis)(e) <= AxisKey(axis)(x);
    }
  }

  lemma SearchedInOrder(t: Tree, items: seq<BBoxItem>, axes: seq<nat>, trials: seq<seq<BBoxItem>>)
    requires Built(t, items) && t.Fork? && PlannedBy(t, items, axes, trials)
    ensures Built(t.left, items) && Built(t.right, items) && InOrder(Range(t.left, items), Range(t.right, items))
  {
    SearchedLast(Range(t, items), axes, trials, t.left.count - 1);
    SplitHalves(t, items, axes, trials);
    var axis, l, r := axes[|trials| - 1], Range(t.left, items), Range(t.right, items);
    assert axis < 3;
    hide Built, Range, Hull, Searched, BestSplit, SortedBy, DecreasingAxes, InOrder;
    forall e, x | e in l && x in r ensures AxisKey(axis)(e) <= AxisKey(axis)(x) {
      HalvesInOrder(Last(trials), t.left.count, l, r, AxisKey(axis), e, x);
    }
    InOrderAlong(l, r, axis);
  }

  /** The halves of a split are in order along some axis: by the lower corners of their boxes. */
  lemma SplitInOrder(t: Tree, items: seq<BBoxItem>)
    requires Built(t, items) && Planned(t, items) && t.Fork?
    ensures Built(t.left, items) && Built(t.right, items) && InOrder(Range(t.left, items), Range(t.right, items))
  {
    var axes, trials :| PlannedBy(t, items, axes, trials);
    hide PlannedBy, InOrder;
    SearchedInOrder(t, items, axes, trials);
  }

  /** A cut that is not worth it. */
  ghost predicate CutCosts(s: seq<BBoxItem>, k: nat, whole: Box)
    requires k <= |s|
  {
    Kept(|s|, Volume(whole)) <= Weighed(k, Volume(Hull(s[..k])), |s| - k, Volume(Hull(s[k..])))
  }

  ghost predicate NoCutPays(s: seq<BBoxItem>, whole: Box) {
    forall k :: 0 < k < |s| ==> CutCosts(s, k, whole)
  }

  lemma NoCutFound(t: Tree, items: seq<BBoxItem>, s: seq<BBoxItem>)
    requires Built(t, items) && multiset(s) == multiset(Range(t, items)) && BestSplit(s, -1)
    ensures NoCutPays(s, t.orig)
  {
    hide Volume, Cost, Threshold, Weighed, Kept;
    HullOfRange(t, items, s);
    BestSplitMeaning(s, -1);
    hide Built, Hull, BestSplit, Range;
    forall k | 0 < k < |s| ensures CutCosts(s, k, t.orig) {
      CostOfCut(s, k);
      var i := k - 1;
      assert Threshold(s) <= Cost(s, i);
    }
  }

  /** A leaf of more than 8 items: sorted by the lower corners along any axis, no cut is worth it. */
  lemma BigLeaf(t: Tree, items: seq<BBoxItem>)
    returns (sx: seq<BBoxItem>, sy: seq<BBoxItem>, sz: seq<BBoxItem>)
    requires Built(t, items) && Planned(t, items) && t.Leaf? && 8 < t.count
    ensures multiset(sx) == multiset(sy) == multiset(sz) == multiset(Range(t, items))
    ensures NoCutPays(sx, t.orig) && NoCutPays(sy, t.orig) && NoCutPays(sz, t.orig)
    ensures forall i, j :: 0 <= i < j < |sx| ==> sx[i].bbox.bbmin.x <= sx[j].bbox.bbmin.x
    ensures forall i, j :: 0 <= i < j < |sy| ==> sy[i].bbox.bbmin.y <= sy[j].bbox.bbmin.y
    ensures forall i, j :: 0 <= i < j < |sz| ==> sz[i].bbox.bbmin.z <= sz[j].bbox.bbmin.z
  {
    var axes, trials :| PlannedBy(t, items, axes, trials);
    sx := TrialAlong(t, items, axes, trials, 0);
    sy := TrialAlong(t, items, axes, trials, 1);
    sz := TrialAlong(t, items, axes, trials, 2);
    forall i, j | 0 <= i < j < |sx| ensures sx[i].bbox.bbmin.x <= sx[j].bbox.bbmin.x {
      assert AxisKey(0)(sx[i]) <= AxisKey(0)(sx[j]);
    }
    forall i, j | 0 <= i < j < |sy| ensures sy[i].bbox.bbmin.y <= sy[j].bbox.bbmin.y {
      assert AxisKey(1)(sy[i]) <= AxisKey(1)(sy[j]);
    }
    forall i, j | 0 <= i < j < |sz| ensures sz[i].bbox.bbmin.z <= sz[j].bbox.bbmin.z {
      assert AxisKey(2)(sz[i]) <= AxisKey(2)(sz[j]);
    }
  }

  lemma TrialAlong(t: Tree, items: seq<BBoxItem>, axes: seq<nat>, trials: seq<seq<BBoxItem>>, axis: nat)
    returns (s: seq<BBoxItem>)
    requires Built(t, items) && t.Leaf? && PlannedBy(t, items, axes, trials) && axis < 3
    ensures multiset(s) == multiset(Range(t, items)) && SortedBy(s, AxisKey(axis)) && NoCutPays(s, t.orig)
  {
    SearchedLast(Range(t, items), axes, trials, -1);
    var j := if axes[0] == axis then 0 else if axes[1] == axis then 1 else 2;
    SearchedAt(Range(t, items), axes, trials, -1, j);
    s := trials[j];
    NoCutFound(t, items, s);
  }

  /** The axes by the extents of the box: the widest first, the narrowest last. */
  lemma WidestFirst(b: Box, axes: seq<nat>)
    requires DecreasingAxes(b, axes)
    ensures var dx, dy, dz := b.bbmax.x - b.bbmin.x, b.bbmax.y - b.bbmin.y, b.bbmax.z - b.bbmin.z;
            && (dx > dy && dx > dz ==> axes[0] == 0) && (dx < dy && dx < dz ==> axes[2] == 0)
            && (dy > dx && dy > dz ==> axes[0] == 1) && (dy < dx && dy < dz ==> axes[2] == 1)
            && (dz > dx && dz > dy ==> axes[0] == 2) && (dz < dx && dz < dy ==> axes[2] == 2)
  {
  }

  // ---------- flat ranges ----------

  /** All boxes lie in one plane across the x, the y or the z axis. */
  ghost predicate Flat(s: seq<BBoxItem>, c: real) {
    || (forall e :: e in s ==> e.bbox.bbmin.x == e.bbox.bbmax.x == c)
    || (forall e :: e in s ==> e.bbox.bbmin.y == e.bbox.bbmax.y == c)
    || (forall e :: e in s ==> e.bbox.bbmin.z == e.bbox.bbmax.z == c)
  }

  lemma ProperHull(s: seq<BBoxItem>)
    requires s != [] && AllProper(s)
    ensures Proper(Hull(s)) && AllWithin(s, Hull(s))
  {
    HullContains(EMPTY, s);
    assert s[0] in s;
  }

  lemma FlatHull(s: seq<BBoxItem>, c: real)
    requires AllProper(s) && Flat(s, c) && exists e :: e in s && Reachable(e.bbox)
    ensures Volume(Hull(s)) == 0.0
  {
    var h := Hull(s);
    ProperHull(s);
    VolumeSign(h);
    hide Volume, Hull, HullOver;
    if forall e :: e in s ==> e.bbox.bbmin.x == e.bbox.bbmax.x == c {
      HullOfItems(s, Box(h.bbmin.(x := c), h.bbmax.(x := c)));
    } else if forall e :: e in s ==> e.bbox.bbmin.y == e.bbox.bbmax.y == c {
      HullOfItems(s, Box(h.bbmin.(y := c), h.bbmax.(y := c)));
    } else {
      HullOfItems(s, Box(h.bbmin.(z := c), h.bbmax.(z := c)));
    }
  }

  lemma HalvesHaveVolume(t: Tree, items: seq<BBoxItem>)
    requires Built(t, items) && t.Fork? && AllProper(Range(t, items))
    ensures 0.0 <= Volume(t.left.orig) && 0.0 <= Volume(t.right.orig)
  {
    ForkRanges(t, items);
    var l, r := Range(t.left, items), Range(t.right, items);
    assert forall e :: e in l + r <==> e in l || e in r;
    ProperHull(l);
    ProperHull(r);
    VolumeSign(t.left.orig);
    VolumeSign(t.right.orig);
  }

  lemma NothingToGain(m: nat, v: real, n: nat, w: real, k: nat)
    requires 0.0 <= v && 0.0 <= w
    ensures Kept(k, 0.0) <= Weighed(m, v, n, w)
  {
    ProductSign(m as real, v);
    ProductSign(n as real, w);
  }

  /** Boxes in one plane across an axis are never split, however many there are. */
  lemma FlatIsNeverSplit(t: Tree, items: seq<BBoxItem>, c: real)
    requires Built(t, items) && Planned(t, items) && AllProper(Range(t, items))
    requires Flat(Range(t, items), c) && exists e :: e in Range(t, items) && Reachable(e.bbox)
    ensures t.Leaf?
  {
    if t.Fork? {
      SplitPays(t, items);
      FlatHull(Range(t, items), c);
      HalvesHaveVolume(t, items);
      NothingToGain(t.left.count, Volume(t.left.orig), t.right.count, Volume(t.right.orig), t.count);
      hide Weighed, Kept, Volume, HullOver;
      assert false;
    }
  }
}
