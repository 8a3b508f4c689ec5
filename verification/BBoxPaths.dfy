/** Where a dynamic object goes: the growth test, and the nodes that list an object that is added. */
module BBoxPaths {
  import opened Geometry
  import opened Seqs
  import opened BBoxItems
  import opened BBoxTreeSpec

  // ---------- the growth test ----------

  /**
   * check_aabb_aabb: the volume of the two boxes together over that of the first is not above the limit. For a flat
   * box the quotient is infinite, or not a number if the two are flat together; then it is not above either.
   */
  function CheckAabbAabb(grow: real): Fits {
    (bbox: Box, dynBbox: Box) =>
      var oldVolume, newVolume := Volume(bbox), Volume(Join(bbox, dynBbox));
      if oldVolume == 0.0 then newVolume == 0.0 else !(newVolume / oldVolume > grow)
  }

  lemma QuotientAbove(u: real, v: real, grow: real)
    requires 0.0 < v
    ensures u / v > grow <==> u > grow * v
  {
    if u / v > grow {
      assert 0.0 < (u / v - grow) * v;
    } else {
      assert 0.0 <= (grow - u / v) * v;
    }
  }

  /** A box fits another if it does not make that grow by more than the limit. */
  lemma FitsIffGrowthIsSmall(bbox: Box, dynBbox: Box, grow: real)
    requires Proper(bbox) && Proper(dynBbox)
    ensures CheckAabbAabb(grow)(bbox, dynBbox) <==> Volume(Join(bbox, dynBbox)) <= grow * Volume(bbox)
  {
    VolumeSign(bbox);
    VolumeSign(Join(bbox, dynBbox));
    var u, v := Volume(Join(bbox, dynBbox)), Volume(bbox);
    hide Volume, Join;
    if v == 0.0 {
      assert grow * v == 0.0;
    } else {
      QuotientAbove(u, v, grow);
    }
  }

  /** A box inside another fits it, if that has a volume and may be left as it is. */
  lemma InsideFits(bbox: Box, dynBbox: Box, grow: real)
    requires Proper(bbox) && Proper(dynBbox) && Within(dynBbox, bbox) && 1.0 <= grow
    ensures CheckAabbAabb(grow)(bbox, dynBbox)
  {
    FitsIffGrowthIsSmall(bbox, dynBbox, grow);
    WithinBoth(Join(bbox, dynBbox), bbox);
    VolumeSign(bbox);
    var v := Volume(bbox);
    hide Volume;
    ProductSign(grow - 1.0, v);
    assert (grow - 1.0) * v == grow * v - v;
  }

  // ---------- paths ----------

  /** A way down the tree: to the first child or to the second, at each step. */
  type Path = seq<bool>

  predicate HasPath(t: Tree, path: Path)
    decreases |path|
  {
    path == [] || (t.Fork? && HasPath(if path[0] then t.left else t.right, path[1..]))
  }

  function At(t: Tree, path: Path): Tree
    requires HasPath(t, path)
    decreases |path|
  {
    if path == [] then t else At(if path[0] then t.left else t.right, path[1..])
  }

  /** The box fits all nodes on the way, and no first child that the way passes by. */
  predicate Takes(t: Tree, path: Path, b: Box, fits: Fits)
    requires HasPath(t, path)
    decreases |path|
  {
    && fits(t.orig, b)
    && (path == [] ||
        (if path[0] then Takes(t.left, path[1..], b, fits)
         else !fits(t.left.orig, b) && Takes(t.right, path[1..], b, fits)))
  }

  /** What one node gets: the entry at the end of its list, flagged if the first child takes it, in a wider box. */
  ghost predicate Given(u: Tree, u': Tree, e: BBoxItem, taken: bool, fits: Fits) {
    if taken then
      && u'.dyn == u.dyn + [e.(extra := u.Fork? && fits(u.left.orig, e.bbox))]
      && u'.box == Join(u.box, e.bbox)
    else u'.dyn == u.dyn && u'.box == u.box
  }

  lemma InsertSucceedsIff(t: Tree, e: BBoxItem, fits: Fits)
    ensures Insert(t, e, fits).1 <==> fits(t.orig, e.bbox)
    ensures !fits(t.orig, e.bbox) ==> Insert(t, e, fits).0 == t
  {
  }

  /** Below a node exactly the nodes on the one way that the box fits get the entry; all others stay as they are. */
  lemma {:induction false} InsertGives(t: Tree, e: BBoxItem, fits: Fits, path: Path)
    requires HasPath(t, path)
    ensures var t' := Insert(t, e, fits).0;
            HasPath(t', path) && Given(At(t, path), At(t', path), e, Takes(t, path, e.bbox, fits), fits)
    decreases |path|
  {
    var t' := Insert(t, e, fits).0;
    InsertSucceedsIff(t, e, fits);
    if t.Fork? {
      InsertSucceedsIff(t.left, e, fits);
      if path != [] {
        InsertGives(if path[0] then t.left else t.right, e, fits, path[1..]);
        StaysPut(if path[0] then t.left else t.right, path[1..]);
      }
    }
  }

  lemma StaysPut(t: Tree, path: Path)
    requires HasPath(t, path)
    ensures forall e: BBoxItem, fits: Fits :: Given(At(t, path), At(t, path), e, false, fits)
  {
  }

  /** In a whole tree the root gets the entry in any case. */
  lemma InsertRootGives(t: Tree, e: BBoxItem, fits: Fits, path: Path)
    requires HasPath(t, path)
    ensures var t' := InsertRoot(t, e, fits);
            && HasPath(t', path)
            && if path == [] && !fits(t.orig, e.bbox) then
                 t'.dyn == t.dyn + [e.(extra := false)] && t'.box == Join(t.box, e.bbox)
               else Given(At(t, path), At(t', path), e, Takes(t, path, e.bbox, fits), fits)
  {
    InsertGives(t, e, fits, path);
    InsertSucceedsIff(t, e, fits);
    hide Insert;
  }
}
