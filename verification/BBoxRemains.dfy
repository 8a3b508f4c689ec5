/**
 * What any deletion leaves, whatever keys there are: the lists of all nodes, computed from the lists before; and the
 * boxes, which always are what a recomputation gives.
 */
module BBoxRemains {
  import opened Geometry
  import opened BBoxItems
  import opened BBoxTreeSpec

  // ---------- the lists ----------

  /** How many of the entries that the deleting scan hits have a flag. */
  function Hits(s: seq<BBoxItem>, first: bool, k: Key): nat
    decreases |s|
  {
    if s == [] then 0
    else if KeyOf(s[0]) != k then Hits(s[1..], first, k)
    else (if s[0].extra == first then 1 else 0) + if |s| == 1 then 0 else Hits(s[2..], first, k)
  }

  /** A child is deleted from once for each hit that names it. */
  function Deletes(t: Tree, k: Key, m: nat): (r: Tree)
    ensures Height(r) == Height(t)
    decreases m
  {
    if m == 0 then t else Deletes(Delete(t, k).0, k, m - 1)
  }

  lemma HitIs(t: Tree, i: nat, k: Key)
    requires i < |t.dyn|
    ensures var u, rest := DeleteAt(t, i, k), t.dyn[..i] + t.dyn[i + 1..];
            && (t.Leaf? ==> u == t.(dyn := rest))
            && (t.Fork? && t.dyn[i].extra ==> u == t.(dyn := rest, left := Delete(t.left, k).0))
            && (t.Fork? && !t.dyn[i].extra ==> u == t.(dyn := rest, right := Delete(t.right, k).0))
  {
    var c := DeleteInChild(t, t.dyn[i].extra, k);
    assert DeleteAt(t, i, k) == SetDyn(c, t.dyn[..i] + t.dyn[i + 1..]);
  }

  lemma {:induction false} ScanIs(t: Tree, i: nat, k: Key)
    requires t.Fork? && i <= |t.dyn|
    ensures var r := Scan(t, i, k).0;
            r == t.(dyn := r.dyn, left := Deletes(t.left, k, Hits(t.dyn[i..], true, k)),
                    right := Deletes(t.right, k, Hits(t.dyn[i..], false, k)))
    decreases |t.dyn| - i
  {
    hide Delete, KeyOf;
    if i < |t.dyn| {
      assert t.dyn[i..][1..] == t.dyn[i + 1..];
      if KeyOf(t.dyn[i]) != k {
        ScanIs(t, i + 1, k);
      } else {
        var u := DeleteAt(t, i, k);
        HitIs(t, i, k);
        if i + 1 <= |u.dyn| {
          assert u.dyn[i + 1..] == t.dyn[i..][2..];
          ScanIs(u, i + 1, k);
        } else {
          assert |t.dyn[i..]| == 1 && Scan(u, i + 1, k) == (u, false);
        }
      }
    }
  }

  /** A deletion, node by node: the root's list is skimmed, each child is deleted from once for each hit on its flag. */
  lemma DeleteIs(t: Tree, k: Key)
    ensures var r := Delete(t, k).0;
            && r.dyn == Skim(t.dyn, k) && r.box == (if HasKey(t.dyn, k) then Recomputed(r) else t.box)
            && (t.Fork? ==> r == t.(box := r.box, dyn := r.dyn, left := Deletes(t.left, k, Hits(t.dyn, true, k)),
                                    right := Deletes(t.right, k, Hits(t.dyn, false, k))))
            && (t.Leaf? ==> r == t.(box := r.box, dyn := r.dyn))
  {
    DeleteSkims(t, k);
    ScanFinds(t, 0, k);
    assert t.dyn[0..] == t.dyn;
    if t.Fork? {
      ScanIs(t, 0, k);
    }
    assert HasKey(t.dyn, k) <==> exists j :: 0 <= j < |t.dyn| && KeyOf(t.dyn[j]) == k by {
      assert forall j :: 0 <= j < |t.dyn| ==> t.dyn[j] in t.dyn;
    }
  }

  lemma {:induction false} ScanFinds(t: Tree, i: nat, k: Key)
    requires i <= |t.dyn|
    ensures var (r, found) := Scan(t, i, k);
            && (found <==> exists j :: i <= j < |t.dyn| && KeyOf(t.dyn[j]) == k)
            && r.box == t.box && (t.Leaf? ==> r == t.(dyn := r.dyn)) && (t.Fork? <==> r.Fork?)
    decreases |t.dyn| - i
  {
    hide Delete, KeyOf;
    if i < |t.dyn| {
      if KeyOf(t.dyn[i]) != k {
        ScanFinds(t, i + 1, k);
      } else {
        var u := DeleteAt(t, i, k);
        HitIs(t, i, k);
        if i + 1 <= |u.dyn| {
          ScanFinds(u, i + 1, k);
        } else {
          assert Scan(u, i + 1, k) == (u, false);
        }
      }
    }
  }

  /** The entries on any list of the tree. */
  ghost function Lists(t: Tree): set<BBoxItem> {
    Entries(t.dyn) + if t.Leaf? then {} else Lists(t.left) + Lists(t.right)
  }

  /** From a to b some entries with the key have gone, and nothing else. */
  ghost predicate OnlyKeyGone(a: set<BBoxItem>, b: set<BBoxItem>, k: Key) {
    b <= a && forall x :: x in a && KeyOf(x) != k ==> x in b
  }

  lemma {:induction false} SkimMembers(s: seq<BBoxItem>, k: Key)
    ensures forall e :: e in Skim(s, k) ==> e in s
    decreases |s|
  {
    if s != [] {
      assert s == [s[0]] + s[1..];
      if KeyOf(s[0]) != k {
        SkimMembers(s[1..], k);
      } else if 1 < |s| {
        assert s[1..] == [s[1]] + s[2..];
        SkimMembers(s[2..], k);
      }
    }
  }

  lemma SkimEntries(s: seq<BBoxItem>, k: Key)
    ensures OnlyKeyGone(Entries(s), Entries(Skim(s, k)), k)
  {
    SkimMembers(s, k);
    SkimKeepsOthers(s, k);
    forall x | x in Entries(s) && KeyOf(x) != k ensures x in Entries(Skim(s, k)) {
      var e := EntryHasItem(s, x);
      assert KeyOf(e) == KeyOf(x) && e in Skim(s, k);
    }
  }

  lemma {:induction false} DeleteKeepsOthers(t: Tree, k: Key)
    ensures OnlyKeyGone(Lists(t), Lists(Delete(t, k).0), k)
    decreases Height(t), 0, 0
  {
    DeleteIs(t, k);
    SkimEntries(t.dyn, k);
    hide Delete, Skim, Entries, KeyOf, Hits, Deletes;
    if t.Fork? {
      DeletesKeepOthers(t.left, k, Hits(t.dyn, true, k));
      DeletesKeepOthers(t.right, k, Hits(t.dyn, false, k));
    }
  }

  lemma {:induction false} DeletesKeepOthers(t: Tree, k: Key, m: nat)
    ensures OnlyKeyGone(Lists(t), Lists(Deletes(t, k, m)), k)
    decreases Height(t), 1, m
  {
    hide Lists, Delete;
    if 0 < m {
      DeleteKeepsOthers(t, k);
      DeletesKeepOthers(Delete(t, k).0, k, m - 1);
    }
  }

  lemma InsertLists(t: Tree, e: BBoxItem, fits: Fits)
    ensures Lists(Insert(t, e, fits).0) <= Lists(t) + {Strip(e)}
    decreases t
  {
    InsertEntries(t, e, fits);
    InsertShape(t, e, fits);
    hide Entries, Strip;
    if t.Fork? {
      InsertLists(t.left, e, fits);
      InsertLists(t.right, e, fits);
    }
  }

  lemma InsertRootLists(t: Tree, e: BBoxItem, fits: Fits)
    ensures Lists(InsertRoot(t, e, fits)) <= Lists(t) + {Strip(e)}
    ensures Entries(InsertRoot(t, e, fits).dyn) == Entries(t.dyn) + {Strip(e)}
  {
    InsertLists(t, e, fits);
    InsertEntries(t, e, fits);
    var e0 := e.(extra := false);
    EntriesOfConcat(Insert(t, e, fits).0.dyn, [e0]);
    EntriesOfOne(e0);
    assert Strip(e0) == Strip(e);
    hide Insert;
  }

  // ---------- the boxes ----------

  /** Every box is what a recomputation gives. */
  ghost predicate BoxesOk(t: Tree) {
    && t.box == Recomputed(t)
    && (t.Fork? ==> t.orig == Join(t.left.orig, t.right.orig) && BoxesOk(t.left) && BoxesOk(t.right))
  }

  lemma {:induction false} SoundHasBoxes(t: Tree)
    requires DynOk(t)
    ensures BoxesOk(t)
    decreases t
  {
    if t.Fork? {
      ChildEntries(t);
      SoundHasBoxes(t.left);
      SoundHasBoxes(t.right);
    }
    RecomputedIsExact(t);
  }

  lemma {:induction false} DeleteKeepsBoxes(t: Tree, k: Key)
    requires BoxesOk(t)
    ensures BoxesOk(Delete(t, k).0) && Delete(t, k).0.orig == t.orig
    decreases Height(t), 0, 0
  {
    DeleteIs(t, k);
    hide Delete, Skim, KeyOf, Hits, Deletes, Join, HullOver;
    if t.Fork? {
      DeletesKeepBoxes(t.left, k, Hits(t.dyn, true, k));
      DeletesKeepBoxes(t.right, k, Hits(t.dyn, false, k));
    }
    if !HasKey(t.dyn, k) {
      NoKeyNoHits(t.dyn, k);
      if t.Fork? {
        NoDeletes(t.left, k);
        NoDeletes(t.right, k);
      }
    }
  }

  lemma {:induction false} DeletesKeepBoxes(t: Tree, k: Key, m: nat)
    requires BoxesOk(t)
    ensures BoxesOk(Deletes(t, k, m)) && Deletes(t, k, m).orig == t.orig
    decreases Height(t), 1, m
  {
    hide BoxesOk, Delete;
    if 0 < m {
      DeleteKeepsBoxes(t, k);
      DeletesKeepBoxes(Delete(t, k).0, k, m - 1);
    }
  }

  lemma NoDeletes(t: Tree, k: Key)
    ensures Deletes(t, k, 0) == t
  {
  }

  lemma {:induction false} NoKeyNoHits(s: seq<BBoxItem>, k: Key)
    requires !HasKey(s, k)
    ensures Skim(s, k) == s && Hits(s, true, k) == Hits(s, false, k) == 0
    decreases |s|
  {
    if s != [] {
      assert s[0] in s && s == [s[0]] + s[1..];
      assert !HasKey(s[1..], k);
      NoKeyNoHits(s[1..], k);
    }
  }

  lemma JoinLaws(a: Box, b: Box, e: Box)
    ensures Join(Join(a, e), b) == Join(Join(a, b), e) == Join(a, Join(b, e))
    ensures Join(Join(a, e), e) == Join(a, e)
  {
  }

  lemma {:induction false} HullOverWider(b: Box, s: seq<BBoxItem>, e: Box)
    ensures HullOver(Join(b, e), s) == Join(HullOver(b, s), e)
    decreases |s|
  {
    if s != [] {
      JoinLaws(b, s[0].bbox, e);
      HullOverWider(Join(b, s[0].bbox), s[1..], e);
    }
  }

  /** One entry more on a list and perhaps in a child widens the box by just that. */
  lemma WiderByOne(b: Box, c: Box, s: seq<BBoxItem>, e: BBoxItem)
    requires c == b || c == Join(b, e.bbox)
    ensures HullOver(c, s + [e]) == Join(HullOver(b, s), e.bbox)
  {
    hide Join;
    HullAppend(c, s, e);
    if c != b {
      HullOverWider(b, s, e.bbox);
      JoinLaws(HullOver(b, s), HullOver(b, s), e.bbox);
    }
  }

  lemma {:induction false} InsertKeepsBoxes(t: Tree, e: BBoxItem, fits: Fits)
    requires BoxesOk(t)
    ensures var (t', ok) := Insert(t, e, fits);
            BoxesOk(t') && t'.orig == t.orig && t'.box == if ok then Join(t.box, e.bbox) else t.box
    decreases t
  {
    InsertShape(t, e, fits);
    hide Join, HullOver, SameShape;
    if t.Leaf? {
      WiderByOne(t.orig, t.orig, t.dyn, e.(extra := false));
    } else {
      InsertKeepsBoxes(t.left, e, fits);
      InsertKeepsBoxes(t.right, e, fits);
      var (d, inFirst) := Descend(t, e, fits);
      JoinLaws(t.left.box, t.right.box, e.bbox);
      WiderByOne(Join(t.left.box, t.right.box), Join(d.left.box, d.right.box), t.dyn, e.(extra := inFirst));
    }
  }

  lemma InsertRootKeepsBoxes(t: Tree, e: BBoxItem, fits: Fits)
    requires BoxesOk(t)
    ensures BoxesOk(InsertRoot(t, e, fits))
  {
    InsertKeepsBoxes(t, e, fits);
    var u, e0 := Insert(t, e, fits).0, e.(extra := false);
    hide Insert, Join, HullOver;
    var b := if u.Fork? then Join(u.left.box, u.right.box) else u.orig;
    WiderByOne(b, b, u.dyn, e0);
  }

  lemma BoxContains(t: Tree)
    requires BoxesOk(t)
    ensures Within(t.orig, t.box) && AllWithin(t.dyn, t.box)
    ensures t.Fork? ==> Within(t.left.box, t.box) && Within(t.right.box, t.box)
    decreases t
  {
    HullContains(if t.Fork? then Join(t.left.box, t.right.box) else t.orig, t.dyn);
    if t.Fork? {
      BoxContains(t.left);
      BoxContains(t.right);
    }
  }
}
