/** The node array of the bounding-box tree and the tree value it stands for. */
module BBoxNodes {
  import opened Geometry
  import opened BBoxItems
  import opened BBoxTreeSpec

  const NO_INDEX: nat := 0xFFFFFFFF

  datatype Node = Node(bbox: Box, origBbox: Box, sub0: nat, sub1: nat,
                       dynamicObjects: seq<BBoxItem>, itemsIndex: nat, itemsCount: nat)

  function NodeOf(t: Tree): Node {
    if t.Leaf? then Node(t.box, t.orig, NO_INDEX, NO_INDEX, t.dyn, t.first, t.count)
    else Node(t.box, t.orig, t.left.node, t.right.node, t.dyn, t.first, t.count)
  }

  /** The node indices a tree uses. */
  function Indices(t: Tree): set<nat> {
    {t.node} + if t.Leaf? then {} else Indices(t.left) + Indices(t.right)
  }

  /** The array holds the tree, each node at its own index. */
  ghost predicate Represents(nodes: seq<Node>, t: Tree) {
    && t.node < |nodes| && t.node != NO_INDEX && nodes[t.node] == NodeOf(t)
    && (t.Fork? ==>
          && Represents(nodes, t.left) && Represents(nodes, t.right)
          && Indices(t.left) !! Indices(t.right)
          && t.node !in Indices(t.left) + Indices(t.right))
  }

  /** Two arrays agree everywhere outside a set of indices. */
  ghost predicate SameOutside(nodes: seq<Node>, nodes': seq<Node>, changed: set<nat>) {
    |nodes| == |nodes'| && forall i :: 0 <= i < |nodes| && i !in changed ==> nodes'[i] == nodes[i]
  }

  lemma RepresentsElsewhere(nodes: seq<Node>, nodes': seq<Node>, t: Tree, changed: set<nat>)
    requires Represents(nodes, t) && |nodes| <= |nodes'| && Indices(t) !! changed
    requires forall i :: 0 <= i < |nodes| && i !in changed ==> nodes'[i] == nodes[i]
    ensures Represents(nodes', t)
  {
    if t.Fork? {
      RepresentsElsewhere(nodes, nodes', t.left, changed);
      RepresentsElsewhere(nodes, nodes', t.right, changed);
    }
  }

  lemma SameShapeIndices(t: Tree, u: Tree)
    requires SameShape(t, u)
    ensures Indices(t) == Indices(u)
  {
  }

  /** Deletion changes no shape. */
  lemma {:induction false} DeleteShape(t: Tree, k: Key)
    ensures SameShape(t, Delete(t, k).0)
    decreases Height(t), 1, 0
  {
    ScanShape(t, 0, k);
    SameShapeSelf(t);
  }

  lemma {:induction false} DeleteInChildShape(t: Tree, first: bool, k: Key)
    ensures SameShape(t, DeleteInChild(t, first, k))
    decreases Height(t), 0, 0
  {
    SameShapeSelf(t);
    if t.Fork? {
      SameShapeSelf(t.left);
      SameShapeSelf(t.right);
      DeleteShape(t.left, k);
      DeleteShape(t.right, k);
    }
  }

  lemma {:induction false} ScanShape(t: Tree, i: nat, k: Key)
    ensures SameShape(t, Scan(t, i, k).0)
    decreases Height(t), 0, |t.dyn| - i
  {
    SameShapeSelf(t);
    if i < |t.dyn| {
      if KeyOf(t.dyn[i]) == k {
        DeleteInChildShape(t, t.dyn[i].extra, k);
        var u := DeleteAt(t, i, k);
        assert SameShape(t, u);
        ScanShape(u, i + 1, k);
        SameShapeTransitive(t, u, Scan(u, i + 1, k).0);
      } else {
        ScanShape(t, i + 1, k);
      }
    }
  }

  /** Replacing the node of a tree by one that differs in box and entries only. */
  lemma UpdateRoot(nodes: seq<Node>, t: Tree, box: Box, dyn: seq<BBoxItem>)
    requires Represents(nodes, t)
    ensures var nodes' := nodes[t.node := nodes[t.node].(bbox := box, dynamicObjects := dyn)];
            Represents(nodes', t.(box := box, dyn := dyn)) && SameOutside(nodes, nodes', {t.node})
  {
    var nodes' := nodes[t.node := nodes[t.node].(bbox := box, dynamicObjects := dyn)];
    if t.Fork? {
      RepresentsElsewhere(nodes, nodes', t.left, {t.node});
      RepresentsElsewhere(nodes, nodes', t.right, {t.node});
    }
  }

  /** Replacing a subtree by one of the same shape, in place. */
  lemma UpdateChild(nodes: seq<Node>, nodes': seq<Node>, t: Tree, child: Tree, first: bool)
    requires t.Fork? && Represents(nodes, t) && SameShape(if first then t.left else t.right, child)
    requires Represents(nodes', child) && SameOutside(nodes, nodes', Indices(child))
    ensures Represents(nodes', if first then t.(left := child) else t.(right := child))
    ensures SameOutside(nodes, nodes', Indices(t))
  {
    SameShapeIndices(if first then t.left else t.right, child);
    RepresentsElsewhere(nodes, nodes', if first then t.right else t.left, Indices(child));
  }
}
