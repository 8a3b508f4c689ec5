/** How the static tree is built: hull volumes, split costs and the shape that results. */
module BBoxBuild {
  import opened Geometry
  import opened Seqs
  import opened Sorting
  import opened BBoxItems
  import opened BBoxTreeSpec
  import opened BBoxNodes

  function Hull(s: seq<BBoxItem>): Box {
    HullOver(EMPTY, s)
  }

  /** Volume of the first i + 1 boxes. */
  function AreaLeft(s: seq<BBoxItem>, i: nat): real
    requires i < |s|
  {
    Volume(Hull(s[..i + 1]))
  }

  /** Volume of the boxes from the i-th on. */
  function AreaRight(s: seq<BBoxItem>, i: nat): real
    requires i < |s|
  {
    Volume(Hull(s[i..]))
  }

  /** The cost of splitting after the i-th item: N1*A1 + N2*A2. */
  function Cost(s: seq<BBoxItem>, i: nat): real
    requires i + 1 < |s|
  {
    (i + 1) as real * AreaLeft(s, i) + (|s| - 1 - i) as real * AreaRight(s, i + 1)
  }

  /** What a split has to beat. */
  function Threshold(s: seq<BBoxItem>): real
    requires s != []
  {
    AreaRight(s, 0) * (|s| as real - 3.0)
  }

  /** The costs of the first n split places. */
  function Costs(s: seq<BBoxItem>, n: nat): (c: seq<real>)
    requires n < |s|
    ensures |c| == n
  {
    if n == 0 then [] else Costs(s, n - 1) + [Cost(s, n - 1)]
  }

  lemma {:induction false} CostsAt(s: seq<BBoxItem>, n: nat, i: nat)
    requires i < n < |s|
    ensures Costs(s, n)[i] == Cost(s, i)
  {
    if i < n - 1 {
      CostsAt(s, n - 1, i);
    }
  }

  /** best is the leftmost minimiser among the first n, if any of them is below the threshold. */
  ghost predicate Leftmost(c: seq<real>, n: nat, threshold: real, best: int)
    requires n <= |c|
  {
    if best < 0 then forall k :: 0 <= k < n ==> threshold <= c[k]
    else
      && best < n && c[best] < threshold
      && (forall k :: 0 <= k < n ==> c[best] <= c[k])
      && (forall k :: 0 <= k < best ==> c[best] < c[k])
  }

  /** The split a range gets, or none if best is negative. */
  ghost predicate BestSplit(s: seq<BBoxItem>, best: int) {
    s != [] && Leftmost(Costs(s, |s| - 1), |s| - 1, Threshold(s), best)
  }

  /** In terms of the cost function: no split pays, or the leftmost cheapest one is taken. */
  lemma BestSplitMeaning(s: seq<BBoxItem>, best: int)
    requires s != []
    ensures BestSplit(s, best) <==>
            if best < 0 then forall i :: 0 <= i < |s| - 1 ==> Threshold(s) <= Cost(s, i)
            else
              && best < |s| - 1 && Cost(s, best) < Threshold(s)
              && (forall i :: 0 <= i < |s| - 1 ==> Cost(s, best) <= Cost(s, i))
              && (forall i :: 0 <= i < best ==> Cost(s, best) < Cost(s, i))
  {
    var c := Costs(s, |s| - 1);
    forall k | 0 <= k < |s| - 1 ensures c[k] == Cost(s, k) {
      CostsAt(s, |s| - 1, k);
    }
  }

  /** The items of a range are rearranged among themselves, all others stay where they are. */
  ghost predicate RangePermuted(s: seq<BBoxItem>, t: seq<BBoxItem>, first: nat, last: nat) {
    && first <= last <= |s| == |t|
    && multiset(s[first..last]) == multiset(t[first..last])
    && forall i :: 0 <= i < first || last <= i < |s| ==> s[i] == t[i]
  }

  lemma OutsideRange(s: seq<BBoxItem>, t: seq<BBoxItem>, first: nat, last: nat)
    requires RangePermuted(s, t, first, last)
    ensures first <= last <= |s| == |t| && forall i :: 0 <= i < first || last <= i < |s| ==> t[i] == s[i]
  {
  }

  lemma RangePermutedTwice(s: seq<BBoxItem>, t: seq<BBoxItem>, u: seq<BBoxItem>, first: nat, last: nat)
    requires RangePermuted(s, t, first, last) && RangePermuted(t, u, first, last)
    ensures RangePermuted(s, u, first, last)
  {
  }

  lemma RangePermutedWider(s: seq<BBoxItem>, t: seq<BBoxItem>, a: nat, b: nat, first: nat, last: nat)
    requires RangePermuted(s, t, a, b) && first <= a && b <= last <= |s|
    ensures RangePermuted(s, t, first, last)
  {
    assert s[first..last] == s[first..a] + s[a..b] + s[b..last];
    assert t[first..last] == t[first..a] + t[a..b] + t[b..last];
    assert s[first..a] == t[first..a] && s[b..last] == t[b..last];
  }

  /** Rearranging two neighbouring ranges rearranges their union. */
  lemma NeighboursPermuted(s: seq<BBoxItem>, t: seq<BBoxItem>, u: seq<BBoxItem>, first: nat, mid: nat, last: nat)
    requires RangePermuted(s, t, first, mid) && RangePermuted(t, u, mid, last)
    ensures RangePermuted(s, u, first, last)
  {
    RangePermutedWider(s, t, first, mid, first, last);
    RangePermutedWider(t, u, mid, last, first, last);
    RangePermutedTwice(s, t, u, first, last);
  }

  /** All three axes, the widest first. */
  ghost predicate DecreasingAxes(b: Box, axes: seq<nat>) {
    && |axes| == 3 && axes[0] < 3 && axes[1] < 3 && axes[2] < 3
    && axes[0] != axes[1] && axes[0] != axes[2] && axes[1] != axes[2]
    && Extent(b, axes[0]) >= Extent(b, axes[1]) >= Extent(b, axes[2])
  }

  function Extent(b: Box, axis: nat): real {
    if axis == 0 then b.bbmax.x - b.bbmin.x
    else if axis == 1 then b.bbmax.y - b.bbmin.y
    else b.bbmax.z - b.bbmin.z
  }

  function AxisKey(axis: nat): BBoxItem -> real {
    (e: BBoxItem) => if axis == 0 then e.bbox.bbmin.x else if axis == 1 then e.bbox.bbmin.y else e.bbox.bbmin.z
  }

  /**
   * The search along the axes: each trial is a rearrangement sorted along its axis; all but the
   * last gain nothing, and the last one either gives the split or ends the search.
   */
  ghost predicate Searched(range: seq<BBoxItem>, axes: seq<nat>, trials: seq<seq<BBoxItem>>, split: int) {
    && 0 < |trials| <= |axes| && trials[0] != []
    && multiset(trials[0]) == multiset(range) && SortedBy(trials[0], AxisKey(axes[0]))
    && if 1 < |trials| then BestSplit(trials[0], -1) && Searched(range, axes[1..], trials[1..], split)
       else BestSplit(trials[0], split) && (0 <= split || |axes| == 1)
  }

  /** One more trial. */
  lemma {:induction false} SearchedFurther(range: seq<BBoxItem>, axes: seq<nat>, trials: seq<seq<BBoxItem>>,
                                           s: seq<BBoxItem>, split: int)
    requires |trials| < |axes| && s != []
    requires trials == [] || Searched(range, axes[..|trials|], trials, -1)
    requires multiset(s) == multiset(range) && SortedBy(s, AxisKey(axes[|trials|]))
    requires BestSplit(s, split)
    ensures Searched(range, if 0 <= split then axes else axes[..|trials| + 1], trials + [s], split)
    decreases |trials|
  {
    var j := |trials|;
    hide BestSplit, SortedBy;
    if j != 0 {
      assert axes[..j][1..] == axes[1..][..j - 1];
      SearchedFurther(range, axes[1..], trials[1..], s, split);
      assert (trials + [s])[1..] == trials[1..] + [s] && axes[..j + 1][1..] == axes[1..][..j];
    }
  }

  /** The trials so far have found no split, and the last of them is the current arrangement. */
  ghost predicate Trying(range: seq<BBoxItem>, axes: seq<nat>, trials: seq<seq<BBoxItem>>, current: seq<BBoxItem>) {
    && |trials| <= |axes|
    && (trials != [] ==>
          current == trials[|trials| - 1] && Searched(range, axes[..|trials|], trials, -1))
  }

  lemma TryFurther(range: seq<BBoxItem>, axes: seq<nat>, trials: seq<seq<BBoxItem>>, current: seq<BBoxItem>,
                   s: seq<BBoxItem>, split: int)
    requires Trying(range, axes, trials, current) && |trials| < |axes| && s != []
    requires multiset(s) == multiset(range) && SortedBy(s, AxisKey(axes[|trials|])) && BestSplit(s, split)
    ensures 0 <= split ==> Searched(range, axes, trials + [s], split)
    ensures split == -1 ==> Trying(range, axes, trials + [s], s)
  {
    SearchedFurther(range, axes, trials, s, split);
  }

  lemma HullPrepend(e: BBoxItem, s: seq<BBoxItem>)
    ensures Hull([e] + s) == Join(Hull(s), e.bbox)
  {
    HullOfConcat([e], s);
    assert Hull([e]) == Join(EMPTY, e.bbox) by {
      assert [e][1..] == [];
    }
    HullContains(EMPTY, s);
    WithinBoth(Join(Join(EMPTY, e.bbox), Hull(s)), Join(Hull(s), e.bbox));
  }

  /** All axes are held against one threshold: it does not depend on the arrangement. */
  lemma ThresholdOfPermutation(s: seq<BBoxItem>, t: seq<BBoxItem>)
    requires s != [] && t != [] && multiset(s) == multiset(t)
    ensures Threshold(s) == Threshold(t)
  {
    PermutationMembers(s, t);
    HullOfPermutation(EMPTY, s, t);
    assert s[0..] == s && t[0..] == t;
  }

  // ---------- freshly built trees ----------

  ghost predicate NoDyn(t: Tree) {
    t.dyn == [] && t.box == t.orig && (t.Fork? ==> NoDyn(t.left) && NoDyn(t.right))
  }

  /** A tree depends on its own range only. */
  lemma BuiltElsewhere(t: Tree, items: seq<BBoxItem>, items': seq<BBoxItem>)
    requires Built(t, items) && |items| == |items'|
    requires forall i :: t.first <= i < t.first + t.count ==> items[i] == items'[i]
    ensures Built(t, items')
  {
    assert Range(t, items) == Range(t, items');
    if t.Fork? {
      BuiltElsewhere(t.left, items, items');
      BuiltElsewhere(t.right, items, items');
    }
  }

  /** A built tree starts out sound. */
  lemma {:induction false} FreshTreeIsSound(t: Tree, items: seq<BBoxItem>)
    requires Built(t, items) && NoDyn(t)
    ensures DynOk(t)
  {
    if t.Fork? {
      FreshTreeIsSound(t.left, items);
      FreshTreeIsSound(t.right, items);
      assert Range(t, items) == Range(t.left, items) + Range(t.right, items);
      HullOfConcat(Range(t.left, items), Range(t.right, items));
    }
  }

  function NodeCount(t: Tree): nat {
    1 + if t.Leaf? then 0 else NodeCount(t.left) + NodeCount(t.right)
  }

  /** n items need at most 2n - 1 nodes. */
  lemma {:induction false} FewNodes(t: Tree, items: seq<BBoxItem>)
    requires Built(t, items)
    ensures NodeCount(t) <= 2 * t.count - 1
  {
    if t.Fork? {
      FewNodes(t.left, items);
      FewNodes(t.right, items);
    }
  }

  // ---------- where a tree is split ----------

  /** The search that decided about a node: on failure it is a leaf, otherwise its halves are those of the split. */
  ghost predicate PlannedBy(t: Tree, items: seq<BBoxItem>, axes: seq<nat>, trials: seq<seq<BBoxItem>>)
    requires t.first + t.count <= |items| && (t.Fork? ==> t.left.first + t.left.count <= |items|)
  {
    && DecreasingAxes(t.orig, axes)
    && Searched(Range(t, items), axes, trials, if t.Leaf? then -1 else t.left.count - 1)
    && (t.Fork? ==>
          && t.left.count <= |Last(trials)|
          && multiset(Range(t.left, items)) == multiset(Last(trials)[..t.left.count]))
  }

  function Last(trials: seq<seq<BBoxItem>>): seq<BBoxItem> {
    if trials == [] then [] else trials[|trials| - 1]
  }

  /** Small nodes are leaves, and about all others a search has decided. */
  ghost predicate Planned(t: Tree, items: seq<BBoxItem>)
    requires Built(t, items)
  {
    && (if t.count <= 8 then t.Leaf? else exists axes, trials :: PlannedBy(t, items, axes, trials))
    && (t.Fork? ==> Planned(t.left, items) && Planned(t.right, items))
  }

  lemma {:induction false} SearchedAgain(range: seq<BBoxItem>, range': seq<BBoxItem>, axes: seq<nat>,
                                         trials: seq<seq<BBoxItem>>, split: int)
    requires Searched(range, axes, trials, split) && multiset(range) == multiset(range')
    ensures Searched(range', axes, trials, split)
  {
    if 1 < |trials| {
      SearchedAgain(range, range', axes[1..], trials[1..], split);
    }
  }

  lemma {:induction false} PlannedElsewhere(t: Tree, items: seq<BBoxItem>, items': seq<BBoxItem>)
    requires Built(t, items) && Built(t, items') && Planned(t, items) && |items| == |items'|
    requires forall i :: t.first <= i < t.first + t.count ==> items[i] == items'[i]
    ensures Planned(t, items')
  {
    SameRanges(t, items, items');
    hide PlannedBy, Hull, HullOver, Range;
    if t.Fork? {
      PlannedElsewhere(t.left, items, items');
      PlannedElsewhere(t.right, items, items');
    }
    if 8 < t.count {
      var axes, trials :| PlannedBy(t, items, axes, trials);
      PlannedByElsewhere(t, items, items', axes, trials);
    }
  }

  lemma SameRanges(t: Tree, items: seq<BBoxItem>, items': seq<BBoxItem>)
    requires Built(t, items) && Built(t, items') && |items| == |items'|
    requires forall i :: t.first <= i < t.first + t.count ==> items[i] == items'[i]
    ensures t.first + t.count <= |items| && Range(t, items) == Range(t, items')
    ensures t.Fork? ==>
              && Built(t.left, items) && Built(t.left, items') && Built(t.right, items) && Built(t.right, items')
              && t.left.first == t.first && t.right.first == t.first + t.left.count
              && t.count == t.left.count + t.right.count
              && Range(t.left, items) == Range(t.left, items')
  {
    hide HullOver;
  }

  lemma PlannedByElsewhere(t: Tree, items: seq<BBoxItem>, items': seq<BBoxItem>, axes: seq<nat>,
                           trials: seq<seq<BBoxItem>>)
    requires t.first + t.count <= |items| == |items'| && Range(t, items) == Range(t, items')
    requires t.Fork? ==> t.left.first + t.left.count <= |items| && Range(t.left, items) == Range(t.left, items')
    requires PlannedBy(t, items, axes, trials)
    ensures PlannedBy(t, items', axes, trials)
  {
    hide Searched, DecreasingAxes, Range;
  }

  /** A tree on nodes of its own: its root, and the block of indices handed out while building it. */
  ghost predicate OnBlock(t: Tree, node: nat, index: nat, index': nat) {
    && t.node == node && index' == index + NodeCount(t) - 1
    && forall i :: i in Indices(t) ==> i == node || index <= i < index'
  }

  /** What building a subtree yields. */
  ghost predicate Grown(t: Tree, items: seq<BBoxItem>, nodes: seq<Node>, node: nat, first: nat, last: nat,
                        index: nat, index': nat)
  {
    && first < last && t.first == first && t.count == last - first
    && Represents(nodes, t) && Built(t, items) && Planned(t, items) && NoDyn(t)
    && OnBlock(t, node, index, index')
  }

  lemma GrownTakesNodes(t: Tree, items: seq<BBoxItem>, nodes: seq<Node>, node: nat, first: nat, last: nat,
                        index: nat, index': nat)
    requires Grown(t, items, nodes, node, first, last, index, index')
    ensures index <= index'
  {
    hide NoDyn, Represents, Built, Planned, Indices;
  }

  /** Building the right subtree leaves the left one intact. */
  lemma GrownElsewhere(t: Tree, items: seq<BBoxItem>, nodes: seq<Node>, node: nat, first: nat, last: nat,
                       index: nat, index': nat, items': seq<BBoxItem>, nodes': seq<Node>)
    requires Grown(t, items, nodes, node, first, last, index, index')
    requires |items'| == |items| && forall i :: first <= i < last ==> items'[i] == items[i]
    requires |nodes'| == |nodes| && node < |nodes| && nodes'[node] == nodes[node]
    requires forall i :: index <= i < index' && i < |nodes| ==> nodes'[i] == nodes[i]
    ensures Grown(t, items', nodes', node, first, last, index, index')
  {
    BuiltElsewhere(t, items, items');
    PlannedElsewhere(t, items, items');
    RepresentsElsewhere(nodes, nodes', t, set i | 0 <= i < |nodes| && i !in Indices(t));
  }

  /** Subtrees on blocks of their own share no nodes and make one block together. */
  lemma JoinBlocks(t: Tree, node: nat, index: nat, index1: nat, index2: nat)
    requires t.Fork? && t.node == node < index
    requires OnBlock(t.left, index, index + 2, index1) && OnBlock(t.right, index + 1, index1, index2)
    ensures OnBlock(t, node, index, index2) && t.left.node == index && t.right.node == index + 1
    ensures Indices(t.left) !! Indices(t.right) && node !in Indices(t.left) + Indices(t.right)
  {
  }

  lemma GrowFork(l: Tree, r: Tree, items: seq<BBoxItem>, nodes: seq<Node>, node: nat, box: Box,
                 first: nat, mid: nat, last: nat, index: nat, index1: nat, index2: nat,
                 axes: seq<nat>, trials: seq<seq<BBoxItem>>)
    requires node < index && node < |nodes| && node != NO_INDEX && last <= |items| && 8 < last - first
    requires Grown(l, items, nodes, index, first, mid, index + 2, index1)
    requires Grown(r, items, nodes, index + 1, mid, last, index1, index2)
    requires box == Hull(items[first..last])
    requires nodes[node] == Node(box, box, index, index + 1, [], first, last - first)
    requires DecreasingAxes(box, axes) && Searched(items[first..last], axes, trials, mid - first - 1)
    requires mid - first <= |Last(trials)| && multiset(items[first..mid]) == multiset(Last(trials)[..mid - first])
    ensures Grown(Fork(node, box, box, first, last - first, [], l, r), items, nodes, node, first, last, index, index2)
  {
    hide *;
    GrownParts(l, items, nodes, index, first, mid, index + 2, index1);
    GrownParts(r, items, nodes, index + 1, mid, last, index1, index2);
    var t := Fork(node, box, box, first, last - first, [], l, r);
    JoinBlocks(t, node, index, index1, index2);
    NodeOfFork(t, nodes);
    ForkRepresented(nodes, t);
    ForkRange(t, items, first, mid, last);
    ForkBuilt(t, items);
    PlanFork(t, items, axes, trials);
    NoDynInFork(t);
    GrownWhole(t, items, nodes, node, first, last, index, index2);
  }

  lemma GrownParts(t: Tree, items: seq<BBoxItem>, nodes: seq<Node>, node: nat, first: nat, last: nat,
                   index: nat, index': nat)
    requires Grown(t, items, nodes, node, first, last, index, index')
    ensures first < last && t.first == first && t.count == last - first && NoDyn(t)
    ensures Represents(nodes, t) && Built(t, items) && Planned(t, items) && OnBlock(t, node, index, index')
  {
    hide NoDyn, Represents, Built, Planned, OnBlock;
  }

  lemma GrownWhole(t: Tree, items: seq<BBoxItem>, nodes: seq<Node>, node: nat, first: nat, last: nat,
                   index: nat, index': nat)
    requires first < last && t.first == first && t.count == last - first && NoDyn(t)
    requires Represents(nodes, t) && Built(t, items) && Planned(t, items) && OnBlock(t, node, index, index')
    ensures Grown(t, items, nodes, node, first, last, index, index')
  {
    hide NoDyn, Represents, Built, Planned, OnBlock;
  }

  lemma NodeOfFork(t: Tree, nodes: seq<Node>)
    requires t.Fork? && t.node < |nodes|
    requires nodes[t.node] == Node(t.box, t.orig, t.left.node, t.right.node, t.dyn, t.first, t.count)
    ensures nodes[t.node] == NodeOf(t)
  {
  }

  lemma ForkRange(t: Tree, items: seq<BBoxItem>, first: nat, mid: nat, last: nat)
    requires t.Fork? && first <= mid <= last <= |items| && t.first == first && t.count == last - first
    requires t.left.first == first && t.left.count == mid - first
    ensures Range(t, items) == items[first..last] && Range(t.left, items) == items[first..mid]
  {
  }

  lemma NoDynInFork(t: Tree)
    requires t.Fork? && NoDyn(t.left) && NoDyn(t.right) && t.dyn == [] && t.box == t.orig
    ensures NoDyn(t)
  {
  }

  lemma ForkRepresented(nodes: seq<Node>, t: Tree)
    requires t.Fork? && Represents(nodes, t.left) && Represents(nodes, t.right)
    requires t.node < |nodes| && t.node != NO_INDEX && nodes[t.node] == NodeOf(t)
    requires Indices(t.left) !! Indices(t.right) && t.node !in Indices(t.left) + Indices(t.right)
    ensures Represents(nodes, t)
  {
  }

  lemma ForkBuilt(t: Tree, items: seq<BBoxItem>)
    requires t.Fork? && Built(t.left, items) && Built(t.right, items)
    requires t.left.first == t.first && t.right.first == t.first + t.left.count
    requires t.left.count + t.right.count == t.count
    requires t.first + t.count <= |items| && t.orig == Hull(Range(t, items))
    ensures Built(t, items)
  {
  }

  lemma PlanFork(t: Tree, items: seq<BBoxItem>, axes: seq<nat>, trials: seq<seq<BBoxItem>>)
    requires Built(t, items) && t.Fork? && 8 < t.count && Planned(t.left, items) && Planned(t.right, items)
    requires DecreasingAxes(t.orig, axes) && Searched(Range(t, items), axes, trials, t.left.count - 1)
    requires t.left.count <= |Last(trials)|
    requires multiset(Range(t.left, items)) == multiset(Last(trials)[..t.left.count])
    ensures Planned(t, items)
  {
    hide Hull, Searched, DecreasingAxes;
    assert PlannedBy(t, items, axes, trials);
    hide PlannedBy, Range, Last;
  }

  /** Arranging the halves anew changes nothing about the search that made them. */
  lemma SplitKept(s: seq<BBoxItem>, t: seq<BBoxItem>, u: seq<BBoxItem>, first: nat, mid: nat, last: nat,
                  axes: seq<nat>, trials: seq<seq<BBoxItem>>)
    requires first < mid < last && RangePermuted(s, t, first, mid) && RangePermuted(t, u, mid, last)
    requires s[first..last] == Last(trials) && Searched(s[first..last], axes, trials, mid - first - 1)
    ensures RangePermuted(s, u, first, last) && Hull(u[first..last]) == Hull(s[first..last])
    ensures Searched(u[first..last], axes, trials, mid - first - 1)
    ensures mid - first <= |Last(trials)| && multiset(u[first..mid]) == multiset(Last(trials)[..mid - first])
  {
    NeighboursPermuted(s, t, u, first, mid, last);
    HullOfPermutation(EMPTY, s[first..last], u[first..last]);
    SearchedAgain(s[first..last], u[first..last], axes, trials, mid - first - 1);
    hide Searched, Last, Hull;
    assert s[first..last][..mid - first] == s[first..mid];
    assert u[first..mid] == t[first..mid];
  }

  lemma GrowLeaf(items: seq<BBoxItem>, nodes: seq<Node>, node: nat, box: Box, first: nat, last: nat, index: nat,
                 axes: seq<nat>, trials: seq<seq<BBoxItem>>)
    requires node < index && node < |nodes| && node != NO_INDEX && first < last <= |items|
    requires box == Hull(items[first..last])
    requires nodes[node] == Node(box, box, NO_INDEX, NO_INDEX, [], first, last - first)
    requires DecreasingAxes(box, axes) && (8 < last - first ==> Searched(items[first..last], axes, trials, -1))
    ensures Grown(Leaf(node, box, box, first, last - first, []), items, nodes, node, first, last, index, index)
  {
    var t := Leaf(node, box, box, first, last - first, []);
    assert 8 < t.count ==> PlannedBy(t, items, axes, trials) by {
      hide Searched, DecreasingAxes;
    }
    hide PlannedBy, Searched, DecreasingAxes;
  }

  /** Cutting off unused nodes. */
  lemma TrimNodes(nodes: seq<Node>, t: Tree, n: nat)
    requires Represents(nodes, t) && n <= |nodes| && forall i :: i in Indices(t) ==> i < n
    ensures Represents(nodes[..n], t)
  {
    assert t.node in Indices(t);
    if t.Fork? {
      assert Indices(t.left) <= Indices(t) && Indices(t.right) <= Indices(t);
      TrimNodes(nodes, t.left, n);
      TrimNodes(nodes, t.right, n);
    }
  }
}
