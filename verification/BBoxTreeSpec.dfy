/**
 * The bounding-box tree as a value: what inserting, deleting and culling do to it, and why the
 * cull agrees with testing every item. The class BBoxTree does the same in place on node arrays.
 */
module BBoxTreeSpec {
  import opened Geometry
  import opened Seqs
  import opened BBoxItems

  /** first and count delimit the static items; dyn lists the dynamic ones, also those of the subtrees. */
  datatype Tree =
    | Leaf(node: nat, box: Box, orig: Box, first: nat, count: nat, dyn: seq<BBoxItem>)
    | Fork(node: nat, box: Box, orig: Box, first: nat, count: nat, dyn: seq<BBoxItem>, left: Tree, right: Tree)

  // ---------- invariants ----------

  function Range(t: Tree, items: seq<BBoxItem>): seq<BBoxItem>
    requires t.first + t.count <= |items|
  {
    items[t.first..t.first + t.count]
  }

  /** The static part: nonempty adjacent ranges, each with the hull of its items. */
  ghost predicate Built(t: Tree, items: seq<BBoxItem>) {
    && 0 < t.count && t.first + t.count <= |items|
    && t.orig == HullOver(EMPTY, Range(t, items))
    && (t.Fork? ==>
          && t.left.first == t.first && t.right.first == t.first + t.left.count
          && t.left.count + t.right.count == t.count
          && Built(t.left, items) && Built(t.right, items))
  }

  function Flagged(s: seq<BBoxItem>, first: bool): seq<BBoxItem> {
    Filter(s, (e: BBoxItem) => e.extra == first)
  }

  /** How many entries have a flag and a key. */
  function Tally(s: seq<BBoxItem>, first: bool, k: Key): nat {
    |Filter(s, (e: BBoxItem) => e.extra == first && KeyOf(e) == k)|
  }

  /** Of no key has a child more entries than its parent with the flag of the child. */
  ghost predicate Covered(child: seq<BBoxItem>, s: seq<BBoxItem>, first: bool) {
    forall k: Key :: Count(child, k) <= Tally(s, first, k)
  }

  /**
   * The dynamic part: exact boxes, and in a fork the flagged entries are those of the first child while the
   * second child holds only unflagged ones. There may be several entries with one key.
   */
  ghost predicate DynOk(t: Tree) {
    && t.box == HullOver(t.orig, t.dyn)
    && (t.Fork? ==>
          && DynOk(t.left) && DynOk(t.right)
          && t.orig == Join(t.left.orig, t.right.orig)
          && Covered(t.left.dyn, t.dyn, true) && Covered(t.right.dyn, t.dyn, false)
          && Entries(t.left.dyn) == Entries(Flagged(t.dyn, true))
          && Entries(t.right.dyn) <= Entries(Flagged(t.dyn, false)))
  }

  lemma TallyAppend(s: seq<BBoxItem>, e: BBoxItem, first: bool, k: Key)
    ensures Tally(s + [e], first, k) == Tally(s, first, k) + if e.extra == first && KeyOf(e) == k then 1 else 0
  {
    FilterAppend(s, e, (x: BBoxItem) => x.extra == first && KeyOf(x) == k);
  }

  lemma TallyRemoved(s: seq<BBoxItem>, i: nat, first: bool, k: Key)
    requires i < |s|
    ensures Tally(s[..i] + s[i + 1..], first, k) ==
            Tally(s, first, k) - if s[i].extra == first && KeyOf(s[i]) == k then 1 else 0
  {
    FilterRemoved(s, i, (x: BBoxItem) => x.extra == first && KeyOf(x) == k);
  }

  lemma TallyOfAbsent(s: seq<BBoxItem>, first: bool, k: Key)
    requires !HasKey(s, k)
    ensures Tally(s, first, k) == 0
  {
    var p := (x: BBoxItem) => x.extra == first && KeyOf(x) == k;
    FilterMembers(s, p);
    if 0 < |Filter(s, p)| {
      assert Filter(s, p)[0] in s;
    }
  }

  /** A child that grows by an entry is still covered if its parent does. */
  lemma CoveredGrows(child: seq<BBoxItem>, c: seq<BBoxItem>, s: seq<BBoxItem>, e: BBoxItem, first: bool)
    requires Covered(child, s, first)
    requires c == child || (first == e.extra && exists x :: c == child + [x] && KeyOf(x) == KeyOf(e))
    ensures Covered(c, s + [e], first)
  {
    forall k: Key ensures Count(c, k) <= Tally(s + [e], first, k) {
      TallyAppend(s, e, first, k);
      assert Count(child, k) <= Tally(s, first, k);
      if c != child {
        var x :| c == child + [x] && KeyOf(x) == KeyOf(e);
        CountAppend(child, x, k);
      }
    }
  }

  lemma FlaggedMembers(s: seq<BBoxItem>, first: bool)
    ensures forall e :: e in Flagged(s, first) <==> e in s && e.extra == first
  {
    FilterMembers(s, (e: BBoxItem) => e.extra == first);
  }

  lemma FlaggedAppend(s: seq<BBoxItem>, e: BBoxItem, first: bool)
    ensures Entries(Flagged(s + [e], first)) == Entries(Flagged(s, first)) + if e.extra == first then {Strip(e)} else {}
  {
    FlaggedMembers(s, first);
    FlaggedMembers(s + [e], first);
  }

  /** A child holds no more than its parent. */
  lemma ChildEntries(t: Tree)
    requires DynOk(t) && t.Fork?
    ensures Entries(t.left.dyn) <= Entries(t.dyn) && Entries(t.right.dyn) <= Entries(t.dyn)
  {
    FlaggedMembers(t.dyn, true);
    FlaggedMembers(t.dyn, false);
  }

  lemma KeyFromEntries(s: seq<BBoxItem>, t: seq<BBoxItem>, k: Key)
    requires Entries(s) <= Entries(t) && HasKey(s, k)
    ensures HasKey(t, k)
  {
    var e :| e in s && KeyOf(e) == k;
    assert Strip(e) in Entries(s);
    var e' := EntryHasItem(t, Strip(e));
    assert e'.itemType == e.itemType && e'.ID == e.ID;
  }

  lemma EntriesWithin(s: seq<BBoxItem>, t: seq<BBoxItem>, c: Box)
    requires Entries(s) <= Entries(t) && AllWithin(t, c)
    ensures AllWithin(s, c)
  {
    forall e | e in s ensures Within(e.bbox, c) {
      assert Strip(e) in Entries(s);
      var e' := EntryHasItem(t, Strip(e));
      assert e'.bbox == Strip(e).bbox;
    }
  }

  // ---------- boxes ----------

  function Recomputed(t: Tree): Box {
    HullOver(if t.Fork? then Join(t.left.box, t.right.box) else t.orig, t.dyn)
  }

  /** Children's boxes and own entries already determine the exact hull. */
  lemma RecomputedIsExact(t: Tree)
    requires t.Fork? ==> t.orig == Join(t.left.orig, t.right.orig)
    requires t.Fork? ==>
               && t.left.box == HullOver(t.left.orig, t.left.dyn)
               && t.right.box == HullOver(t.right.orig, t.right.dyn)
    requires t.Fork? ==> Entries(t.left.dyn) <= Entries(t.dyn) && Entries(t.right.dyn) <= Entries(t.dyn)
    ensures Recomputed(t) == HullOver(t.orig, t.dyn)
  {
    if t.Fork? {
      var l, r, exact := t.left, t.right, HullOver(t.orig, t.dyn);
      var base := Join(l.box, r.box);
      HullContains(t.orig, t.dyn);
      EntriesWithin(l.dyn, t.dyn, exact);
      EntriesWithin(r.dyn, t.dyn, exact);
      HullIsLeast(l.orig, l.dyn, exact);
      HullIsLeast(r.orig, r.dyn, exact);
      HullIsLeast(base, t.dyn, exact);
      HullContains(base, t.dyn);
      HullContains(l.orig, l.dyn);
      HullContains(r.orig, r.dyn);
      HullIsLeast(t.orig, t.dyn, Recomputed(t));
      WithinBoth(Recomputed(t), exact);
    }
  }

  // ---------- insertion ----------

  /** The growth test decides how deep an item goes; it may be any predicate. */
  type Fits = (Box, Box) -> bool

  function AddTo(t: Tree, e: BBoxItem): Tree {
    t.(box := Join(t.box, e.bbox), dyn := t.dyn + [e])
  }

  function Insert(t: Tree, e: BBoxItem, fits: Fits): (Tree, bool)
    decreases t, 1
  {
    if !fits(t.orig, e.bbox) then (t, false)
    else
      var (t', inFirst) := Descend(t, e, fits);
      (AddTo(t', e.(extra := inFirst)), true)
  }

  /** The children are tried in order; says whether the first one took the item. */
  function Descend(t: Tree, e: BBoxItem, fits: Fits): (Tree, bool)
    decreases t, 0
  {
    if t.Leaf? then (t, false)
    else
      var (l, inLeft) := Insert(t.left, e, fits);
      if inLeft then (t.(left := l), true) else (t.(right := Insert(t.right, e, fits).0), false)
  }

  function InsertRoot(t: Tree, e: BBoxItem, fits: Fits): Tree {
    var (t', ok) := Insert(t, e, fits);
    if ok then t' else AddTo(t', e.(extra := false))
  }

  /** Same nodes, ranges and original boxes. */
  predicate SameShape(t: Tree, u: Tree) {
    && t.node == u.node && t.orig == u.orig && t.first == u.first && t.count == u.count
    && t.Fork? == u.Fork?
    && (t.Fork? ==> SameShape(t.left, u.left) && SameShape(t.right, u.right))
  }

  lemma SameShapeSelf(t: Tree)
    ensures SameShape(t, t)
  {
  }

  lemma SameShapeTransitive(t: Tree, u: Tree, v: Tree)
    requires SameShape(t, u) && SameShape(u, v)
    ensures SameShape(t, v)
  {
  }

  lemma SameShapeBuilt(t: Tree, u: Tree, items: seq<BBoxItem>)
    requires SameShape(t, u) && Built(t, items)
    ensures Built(u, items)
  {
  }

  /** Insertion changes no shape; where it succeeds it appends the entry. */
  lemma InsertShape(t: Tree, e: BBoxItem, fits: Fits)
    ensures var (t', ok) := Insert(t, e, fits);
            && SameShape(t, t')
            && (if ok then exists flag :: t'.dyn == t.dyn + [e.(extra := flag)] else t' == t)
  {
    SameShapeSelf(t);
    if t.Fork? {
      SameShapeSelf(t.left);
      SameShapeSelf(t.right);
    }
  }

  lemma InsertRootShape(t: Tree, e: BBoxItem, fits: Fits)
    ensures SameShape(t, InsertRoot(t, e, fits))
  {
    InsertShape(t, e, fits);
    SameShapeSelf(t);
    if t.Fork? {
      SameShapeSelf(t.left);
      SameShapeSelf(t.right);
    }
  }

  lemma DescendShape(t: Tree, e: BBoxItem, fits: Fits)
    ensures SameShape(t, Descend(t, e, fits).0) && Descend(t, e, fits).0.dyn == t.dyn
  {
    if t.Fork? {
      InsertShape(t.left, e, fits);
      InsertShape(t.right, e, fits);
    }
    SameShapeSelf(t);
  }

  lemma InsertEntries(t: Tree, e: BBoxItem, fits: Fits)
    ensures Entries(Insert(t, e, fits).0.dyn) == Entries(t.dyn) + if Insert(t, e, fits).1 then {Strip(e)} else {}
    ensures Insert(t, e, fits).1 ==> exists x :: Insert(t, e, fits).0.dyn == t.dyn + [x] && KeyOf(x) == KeyOf(e)
  {
    InsertShape(t, e, fits);
    var (t', ok) := Insert(t, e, fits);
    if ok {
      var flag :| t'.dyn == t.dyn + [e.(extra := flag)];
      EntriesOfConcat(t.dyn, [e.(extra := flag)]);
      EntriesOfOne(e.(extra := flag));
      assert KeyOf(e.(extra := flag)) == KeyOf(e);
    }
  }

  lemma AddFlaggedKeeps(t: Tree, e: BBoxItem, l: Tree)
    requires t.Fork? && DynOk(t) && DynOk(l) && l.orig == t.left.orig && e.extra
    requires Entries(l.dyn) == Entries(t.left.dyn) + {Strip(e)}
    requires exists x :: l.dyn == t.left.dyn + [x] && KeyOf(x) == KeyOf(e)
    ensures DynOk(AddTo(t.(left := l), e))
  {
    HullAppend(t.orig, t.dyn, e);
    FlaggedAppend(t.dyn, e, true);
    FlaggedAppend(t.dyn, e, false);
    CoveredGrows(t.left.dyn, l.dyn, t.dyn, e, true);
    CoveredGrows(t.right.dyn, t.right.dyn, t.dyn, e, false);
  }

  lemma AddUnflaggedKeeps(t: Tree, e: BBoxItem, r: Tree)
    requires t.Fork? && DynOk(t) && DynOk(r) && r.orig == t.right.orig && !e.extra
    requires Entries(r.dyn) <= Entries(t.right.dyn) + {Strip(e)}
    requires r.dyn == t.right.dyn || exists x :: r.dyn == t.right.dyn + [x] && KeyOf(x) == KeyOf(e)
    ensures DynOk(AddTo(t.(right := r), e))
  {
    HullAppend(t.orig, t.dyn, e);
    FlaggedAppend(t.dyn, e, true);
    FlaggedAppend(t.dyn, e, false);
    CoveredGrows(t.left.dyn, t.left.dyn, t.dyn, e, true);
    CoveredGrows(t.right.dyn, r.dyn, t.dyn, e, false);
  }

  lemma FreshInChildren(t: Tree, k: Key)
    requires DynOk(t) && t.Fork? && !HasKey(t.dyn, k)
    ensures !HasKey(t.left.dyn, k) && !HasKey(t.right.dyn, k)
  {
    ChildEntries(t);
    if HasKey(t.left.dyn, k) {
      KeyFromEntries(t.left.dyn, t.dyn, k);
    }
    if HasKey(t.right.dyn, k) {
      KeyFromEntries(t.right.dyn, t.dyn, k);
    }
  }

  /** Inserting keeps the dynamic invariant, whatever the growth test. */
  lemma {:induction false} InsertKeeps(t: Tree, e: BBoxItem, fits: Fits)
    requires DynOk(t)
    ensures DynOk(Insert(t, e, fits).0)
  {
    var e0, e1 := e.(extra := false), e.(extra := true);
    assert KeyOf(e0) == KeyOf(e) == KeyOf(e1) && Strip(e0) == Strip(e) == Strip(e1);
    if t.Leaf? {
      HullAppend(t.orig, t.dyn, e0);
    } else if fits(t.orig, e.bbox) {
      InsertKeeps(t.left, e, fits);
      InsertShape(t.left, e, fits);
      InsertEntries(t.left, e, fits);
      if Insert(t.left, e, fits).1 {
        AddFlaggedKeeps(t, e1, Insert(t.left, e, fits).0);
      } else {
        InsertKeeps(t.right, e, fits);
        InsertShape(t.right, e, fits);
        InsertEntries(t.right, e, fits);
        AddUnflaggedKeeps(t, e0, Insert(t.right, e, fits).0);
      }
    }
  }

  /** One more entry, everywhere it belongs: the root lists exactly the old entries and the new one. */
  lemma InsertRootKeeps(t: Tree, e: BBoxItem, fits: Fits)
    requires DynOk(t)
    ensures DynOk(InsertRoot(t, e, fits)) && SameShape(t, InsertRoot(t, e, fits))
    ensures Entries(InsertRoot(t, e, fits).dyn) == Entries(t.dyn) + {Strip(e)}
  {
    InsertKeeps(t, e, fits);
    InsertShape(t, e, fits);
    InsertEntries(t, e, fits);
    SameShapeSelf(t);
    if !Insert(t, e, fits).1 {
      var e0 := e.(extra := false);
      assert KeyOf(e0) == KeyOf(e) && Strip(e0) == Strip(e);
      EntriesOfConcat(t.dyn, [e0]);
      EntriesOfOne(e0);
      HullAppend(t.orig, t.dyn, e0);
      if t.Fork? {
        SameShapeSelf(t.left);
        SameShapeSelf(t.right);
        AddUnflaggedKeeps(t, e0, t.right);
      }
    }
  }

  // ---------- deletion ----------

  function Height(t: Tree): nat {
    if t.Leaf? then 0
    else 1 + if Height(t.left) < Height(t.right) then Height(t.right) else Height(t.left)
  }

  function SetDyn(t: Tree, s: seq<BBoxItem>): Tree {
    t.(dyn := s)
  }

  /** delete_dynamic_item_from_node: first from the child the flag names, then from the list. */
  function DeleteAt(t: Tree, i: nat, k: Key): (t': Tree)
    requires i < |t.dyn|
    ensures Height(t') == Height(t) && |t'.dyn| == |t.dyn| - 1
    decreases Height(t), 1, 0
  {
    SetDyn(DeleteInChild(t, t.dyn[i].extra, k), t.dyn[..i] + t.dyn[i + 1..])
  }

  function DeleteInChild(t: Tree, first: bool, k: Key): (t': Tree)
    ensures Height(t') == Height(t) && t'.dyn == t.dyn
    decreases Height(t), 0, 0
  {
    if t.Leaf? then t
    else if first then t.(left := Delete(t.left, k).0)
    else t.(right := Delete(t.right, k).0)
  }

  /** dynamic_aabb_is_in_node: the index still advances past the entry that moved into a freed slot. */
  function Scan(t: Tree, i: nat, k: Key): (r: (Tree, bool))
    ensures Height(r.0) == Height(t) && (!r.1 ==> r.0 == t)
    decreases Height(t), 2, |t.dyn| - i
  {
    if |t.dyn| <= i then (t, false)
    else if KeyOf(t.dyn[i]) == k then (Scan(DeleteAt(t, i, k), i + 1, k).0, true)
    else Scan(t, i + 1, k)
  }

  function Delete(t: Tree, k: Key): (r: (Tree, bool))
    ensures Height(r.0) == Height(t)
    decreases Height(t), 3, 0
  {
    var (t', found) := Scan(t, 0, k);
    if found then (t'.(box := Recomputed(t')), true) else (t, false)
  }

  lemma ScanMisses(t: Tree, i: nat, k: Key)
    requires forall j :: i <= j < |t.dyn| ==> KeyOf(t.dyn[j]) != k
    ensures Scan(t, i, k) == (t, false)
    decreases |t.dyn| - i
  {
    if i < |t.dyn| {
      ScanMisses(t, i + 1, k);
    }
  }

  lemma ScanHits(t: Tree, i: nat, j: nat, k: Key)
    requires i <= j < |t.dyn| && KeyOf(t.dyn[j]) == k
    requires forall m :: 0 <= m < |t.dyn| && m != j ==> KeyOf(t.dyn[m]) != k
    ensures Scan(t, i, k) == (DeleteAt(t, j, k), true)
    decreases j - i
  {
    if i < j {
      ScanHits(t, i + 1, j, k);
    } else {
      ScanMisses(DeleteAt(t, j, k), i + 1, k);
    }
  }

  lemma EntriesWithout(s: seq<BBoxItem>, k: Key)
    ensures forall x :: x in Entries(Without(s, k)) <==> x in Entries(s) && KeyOf(x) != k
  {
    WithoutMembers(s, k);
    forall x | x in Entries(s) && KeyOf(x) != k
      ensures x in Entries(Without(s, k))
    {
      var e := EntryHasItem(s, x);
      assert KeyOf(e) == KeyOf(x) && e in Without(s, k);
    }
  }

  // While the entries with a key are deleted, children may lose them sooner than their parents. What keeps the tree
  // in order is that no child ever has more of them than its parent with its flag, as each hit deletes one at least.

  /** The stripped entries with other keys. */
  ghost function Others(s: seq<BBoxItem>, k: Key): set<BBoxItem> {
    set e | e in s && KeyOf(e) != k :: Strip(e)
  }

  ghost function FlaggedOthers(s: seq<BBoxItem>, first: bool, k: Key): set<BBoxItem> {
    set e | e in s && e.extra == first && KeyOf(e) != k :: Strip(e)
  }

  ghost predicate SettlingBelow(t: Tree, k: Key)
    decreases t, 0
  {
    t.Fork? ==>
      && Settling(t.left, k) && Settling(t.right, k)
      && t.orig == Join(t.left.orig, t.right.orig)
      && Covered(t.left.dyn, t.dyn, true) && Covered(t.right.dyn, t.dyn, false)
      && Others(t.left.dyn, k) == FlaggedOthers(t.dyn, true, k)
      && Others(t.right.dyn, k) <= FlaggedOthers(t.dyn, false, k)
  }

  ghost predicate Settling(t: Tree, k: Key)
    decreases t, 1
  {
    (HasKey(t.dyn, k) || t.box == HullOver(t.orig, t.dyn)) && SettlingBelow(t, k)
  }

  lemma OthersOfEntries(s: seq<BBoxItem>, t: seq<BBoxItem>, first: bool, k: Key)
    ensures Entries(s) == Entries(Flagged(t, first)) ==> Others(s, k) == FlaggedOthers(t, first, k)
    ensures Entries(s) <= Entries(Flagged(t, first)) ==> Others(s, k) <= FlaggedOthers(t, first, k)
  {
    FlaggedMembers(t, first);
    if Entries(s) <= Entries(Flagged(t, first)) {
      forall x | x in Others(s, k) ensures x in FlaggedOthers(t, first, k) {
        var e :| e in s && KeyOf(e) != k && Strip(e) == x;
        assert x in Entries(s);
        var d := EntryHasItem(Flagged(t, first), x);
        assert KeyOf(d) == KeyOf(x) == KeyOf(e);
      }
    }
    if Entries(s) == Entries(Flagged(t, first)) {
      forall x | x in FlaggedOthers(t, first, k) ensures x in Others(s, k) {
        var e :| e in t && e.extra == first && KeyOf(e) != k && Strip(e) == x;
        assert e in Flagged(t, first) && x in Entries(s);
        var d := EntryHasItem(s, x);
        assert KeyOf(d) == KeyOf(x) == KeyOf(e);
      }
    }
  }

  lemma EntriesOfOthers(s: seq<BBoxItem>, t: seq<BBoxItem>, first: bool, k: Key)
    requires !HasKey(s, k) && !HasKey(t, k)
    ensures Others(s, k) == Entries(s) && FlaggedOthers(t, first, k) == Entries(Flagged(t, first))
  {
    FlaggedMembers(t, first);
    assert forall e :: e in s ==> KeyOf(e) != k;
    assert forall e :: e in t ==> KeyOf(e) != k;
  }

  lemma {:induction false} SoundIsSettling(t: Tree, k: Key)
    requires DynOk(t)
    ensures Settling(t, k)
    decreases t
  {
    if t.Fork? {
      SoundIsSettling(t.left, k);
      SoundIsSettling(t.right, k);
      OthersOfEntries(t.left.dyn, t.dyn, true, k);
      OthersOfEntries(t.right.dyn, t.dyn, false, k);
    }
  }

  lemma CoveredIsClear(child: seq<BBoxItem>, s: seq<BBoxItem>, first: bool, k: Key)
    requires Covered(child, s, first) && !HasKey(s, k)
    ensures !HasKey(child, k)
  {
    TallyOfAbsent(s, first, k);
    CountIsPositive(child, k);
    assert Count(child, k) <= Tally(s, first, k);
  }

  /** Once the root has no entry with the key, nothing below has. */
  lemma {:induction false} SettledIsSound(t: Tree, k: Key)
    requires SettlingBelow(t, k) && t.box == HullOver(t.orig, t.dyn) && !HasKey(t.dyn, k)
    ensures DynOk(t)
    decreases t
  {
    if t.Fork? {
      CoveredIsClear(t.left.dyn, t.dyn, true, k);
      CoveredIsClear(t.right.dyn, t.dyn, false, k);
      SettledIsSound(t.left, k);
      SettledIsSound(t.right, k);
      EntriesOfOthers(t.left.dyn, t.dyn, true, k);
      EntriesOfOthers(t.right.dyn, t.dyn, false, k);
    }
  }

  lemma SettledBoxIsExact(t: Tree, k: Key)
    requires SettlingBelow(t, k) && !HasKey(t.dyn, k)
    ensures Recomputed(t) == HullOver(t.orig, t.dyn)
  {
    if t.Fork? {
      CoveredIsClear(t.left.dyn, t.dyn, true, k);
      CoveredIsClear(t.right.dyn, t.dyn, false, k);
      EntriesOfOthers(t.left.dyn, t.dyn, true, k);
      EntriesOfOthers(t.right.dyn, t.dyn, false, k);
      FlaggedMembers(t.dyn, true);
      FlaggedMembers(t.dyn, false);
    }
    RecomputedIsExact(t);
  }

  /** From s to u some entries with the key have gone, and nothing else. */
  ghost predicate Fewer(s: seq<BBoxItem>, u: seq<BBoxItem>, k: Key) {
    && Others(u, k) == Others(s, k)
    && (forall first :: FlaggedOthers(u, first, k) == FlaggedOthers(s, first, k))
    && (forall m: Key :: Count(u, m) <= Count(s, m))
    && (HasKey(u, k) ==> HasKey(s, k))
  }

  lemma FewerRemoved(s: seq<BBoxItem>, i: nat, k: Key)
    requires i < |s| && KeyOf(s[i]) == k
    ensures Fewer(s, s[..i] + s[i + 1..], k) && Count(s[..i] + s[i + 1..], k) < Count(s, k)
  {
    var u := s[..i] + s[i + 1..];
    forall m: Key ensures Count(u, m) <= Count(s, m) {
      CountRemoved(s, i, m);
    }
    CountRemoved(s, i, k);
    forall e ensures e in u ==> e in s {
    }
    forall e | e in s && KeyOf(e) != k ensures e in u {
      var j :| 0 <= j < |s| && s[j] == e;
      assert e == if j < i then u[j] else u[j - 1];
    }
    forall first ensures FlaggedOthers(u, first, k) == FlaggedOthers(s, first, k) {
    }
  }

  lemma FewerTwice(s: seq<BBoxItem>, u: seq<BBoxItem>, v: seq<BBoxItem>, k: Key)
    requires Fewer(s, u, k) && Fewer(u, v, k)
    ensures Fewer(s, v, k)
  {
    assert forall m: Key :: Count(v, m) <= Count(u, m) <= Count(s, m);
  }

  lemma FewerCounts(s: seq<BBoxItem>, u: seq<BBoxItem>, k: Key)
    requires Fewer(s, u, k)
    ensures Count(u, k) <= Count(s, k)
  {
  }

  lemma FewerSelf(s: seq<BBoxItem>, k: Key)
    ensures Fewer(s, s, k)
  {
  }

  /** A hit takes one entry with its flag, and one at least from the child named, if there is any. */
  lemma CoveredAfterHit(child: seq<BBoxItem>, c: seq<BBoxItem>, s: seq<BBoxItem>, i: nat, first: bool, k: Key)
    requires Covered(child, s, first) && i < |s| && KeyOf(s[i]) == k && Fewer(child, c, k)
    requires s[i].extra == first ==> HasKey(child, k) ==> Count(c, k) < Count(child, k)
    ensures Covered(c, s[..i] + s[i + 1..], first)
  {
    var u := s[..i] + s[i + 1..];
    forall m: Key ensures Count(c, m) <= Tally(u, first, m) {
      TallyRemoved(s, i, first, m);
      assert Count(c, m) <= Count(child, m) <= Tally(s, first, m);
      CountIsPositive(child, k);
    }
  }

  /** What a deletion does with a tree, whatever entries it leaves. */
  lemma {:induction false} DeleteSettles(t: Tree, k: Key)
    requires Settling(t, k)
    ensures var (t', found) := Delete(t, k);
            && Settling(t', k) && t'.orig == t.orig && Fewer(t.dyn, t'.dyn, k)
            && (found <==> HasKey(t.dyn, k)) && (found ==> Count(t'.dyn, k) < Count(t.dyn, k))
    decreases Height(t), 3, 0
  {
    ScanSettles(t, 0, k);
    FewerSelf(t.dyn, k);
    var t' := Scan(t, 0, k).0;
    if !HasKey(t'.dyn, k) {
      SettledBoxIsExact(t', k);
    }
    assert HasKey(t.dyn, k) <==> exists j :: 0 <= j < |t.dyn| && KeyOf(t.dyn[j]) == k by {
      assert forall j :: 0 <= j < |t.dyn| ==> t.dyn[j] in t.dyn;
    }
  }

  lemma {:induction false} ScanSettles(t: Tree, i: nat, k: Key)
    requires SettlingBelow(t, k) && i <= |t.dyn|
    ensures var (t', found) := Scan(t, i, k);
            && SettlingBelow(t', k) && t'.orig == t.orig && Fewer(t.dyn, t'.dyn, k)
            && (found <==> exists j :: i <= j < |t.dyn| && KeyOf(t.dyn[j]) == k)
            && (found ==> Count(t'.dyn, k) < Count(t.dyn, k))
    decreases Height(t), 2, |t.dyn| - i
  {
    hide Fewer, SettlingBelow, Count, KeyOf;
    FewerSelf(t.dyn, k);
    if i < |t.dyn| {
      if KeyOf(t.dyn[i]) == k {
        var u := DeleteAt(t, i, k);
        HitSettles(t, i, k);
        if i + 1 <= |u.dyn| {
          ScanSettles(u, i + 1, k);
          FewerTwice(t.dyn, u.dyn, Scan(u, i + 1, k).0.dyn, k);
          FewerCounts(u.dyn, Scan(u, i + 1, k).0.dyn, k);
        }
      } else {
        ScanSettles(t, i + 1, k);
      }
    }
  }

  lemma {:induction false} HitSettles(t: Tree, i: nat, k: Key)
    requires SettlingBelow(t, k) && i < |t.dyn| && KeyOf(t.dyn[i]) == k
    ensures var u := DeleteAt(t, i, k);
            && SettlingBelow(u, k) && u.orig == t.orig && Fewer(t.dyn, u.dyn, k) && Count(u.dyn, k) < Count(t.dyn, k)
    decreases Height(t), 1, 0
  {
    hide Fewer, Settling, Count, Covered, Delete, HasKey;
    FewerRemoved(t.dyn, i, k);
    if t.Fork? {
      DeleteSettles(t.left, k);
      DeleteSettles(t.right, k);
      FewerSelf(t.left.dyn, k);
      FewerSelf(t.right.dyn, k);
      HitLeavesSettling(t, DeleteAt(t, i, k), i, k);
    }
  }

  ghost predicate Hit(c: Tree, u: Tree, k: Key, named: bool) {
    && Settling(u, k) && u.orig == c.orig && Fewer(c.dyn, u.dyn, k)
    && (named && HasKey(c.dyn, k) ==> Count(u.dyn, k) < Count(c.dyn, k))
  }

  lemma HitLeavesSettling(t: Tree, u: Tree, i: nat, k: Key)
    requires t.Fork? && u.Fork? && SettlingBelow(t, k) && i < |t.dyn| && KeyOf(t.dyn[i]) == k
    requires u.orig == t.orig && u.dyn == t.dyn[..i] + t.dyn[i + 1..]
    requires Hit(t.left, u.left, k, t.dyn[i].extra) && Hit(t.right, u.right, k, !t.dyn[i].extra)
    ensures SettlingBelow(u, k)
  {
    FewerRemoved(t.dyn, i, k);
    hide Settling, Count, Covered, HasKey;
    CoveredAfterHit(t.left.dyn, u.left.dyn, t.dyn, i, true, k);
    CoveredAfterHit(t.right.dyn, u.right.dyn, t.dyn, i, false, k);
  }

  /**
   * Deletion keeps the dynamic invariant and removes the key, and only the key, if no two entries with it are
   * neighbours in the root's list: then every one of them is hit, and below every one goes as well.
   */
  lemma DeleteKeeps(t: Tree, k: Key)
    requires DynOk(t) && !AdjacentKey(t.dyn, k)
    ensures var (t', found) := Delete(t, k);
            DynOk(t') && t'.dyn == Without(t.dyn, k) && found == HasKey(t.dyn, k)
  {
    SoundIsSettling(t, k);
    DeleteSettles(t, k);
    DeleteSkims(t, k);
    SkimIsWithout(t.dyn, k);
    WithoutMembers(t.dyn, k);
    SettledIsSound(Delete(t, k).0, k);
  }

  lemma DeleteAbsent(t: Tree, k: Key)
    requires !HasKey(t.dyn, k)
    ensures Delete(t, k) == (t, false)
  {
    forall j | 0 <= j < |t.dyn| ensures KeyOf(t.dyn[j]) != k {
      assert t.dyn[j] in t.dyn;
    }
    ScanMisses(t, 0, k);
  }

  /** Deleting the entry added last to a node undoes the addition, if it undoes it in the child named. */
  lemma DeleteUndoesAddTo(t: Tree, u: Tree, e: BBoxItem)
    requires DynOk(t) && DynOk(u) && !HasKey(t.dyn, KeyOf(e))
    requires u.dyn == t.dyn + [e] && SameShape(t, u)
    requires t.Fork? ==> if e.extra then Delete(u.left, KeyOf(e)).0 == t.left && u.right == t.right
                         else u.left == t.left && Delete(u.right, KeyOf(e)).0 == t.right
    ensures Delete(u, KeyOf(e)).0 == t
  {
    var n, k := |t.dyn|, KeyOf(e);
    forall m | 0 <= m < n ensures KeyOf(u.dyn[m]) != k {
      assert u.dyn[m] in t.dyn;
    }
    ScanHits(u, 0, n, k);
    var v := DeleteInChild(u, e.extra, k);
    assert DeleteAt(u, n, k) == SetDyn(v, u.dyn[..n] + u.dyn[n + 1..]);
    assert u.dyn[..n] + u.dyn[n + 1..] == t.dyn;
    DeleteKeeps(u, k);
    WithoutAt(u.dyn, n);
  }

  lemma {:induction false} DeleteUndoesInsert(t: Tree, e: BBoxItem, fits: Fits)
    requires DynOk(t) && !HasKey(t.dyn, KeyOf(e))
    ensures Delete(Insert(t, e, fits).0, KeyOf(e)).0 == t
  {
    var u := Insert(t, e, fits).0;
    InsertKeeps(t, e, fits);
    InsertShape(t, e, fits);
    if !Insert(t, e, fits).1 {
      DeleteAbsent(t, KeyOf(e));
    } else {
      if t.Fork? {
        FreshInChildren(t, KeyOf(e));
        DeleteUndoesInsert(t.left, e, fits);
        DeleteUndoesInsert(t.right, e, fits);
        InsertShape(t.left, e, fits);
      }
      var e' := e.(extra := t.Fork? && Insert(t.left, e, fits).1);
      assert KeyOf(e') == KeyOf(e);
      DeleteUndoesAddTo(t, u, e');
    }
  }

  /** Inserting and then deleting a fresh key restores every entry and every box of the tree. */
  lemma DeleteUndoesInsertRoot(t: Tree, e: BBoxItem, fits: Fits)
    requires DynOk(t) && !HasKey(t.dyn, KeyOf(e))
    ensures Delete(InsertRoot(t, e, fits), KeyOf(e)).0 == t
  {
    DeleteUndoesInsert(t, e, fits);
    InsertRootKeeps(t, e, fits);
    if !Insert(t, e, fits).1 {
      InsertShape(t, e, fits);
      var e0 := e.(extra := false);
      assert KeyOf(e0) == KeyOf(e);
      if t.Fork? {
        FreshInChildren(t, KeyOf(e));
        DeleteAbsent(t.right, KeyOf(e));
      }
      DeleteUndoesAddTo(t, InsertRoot(t, e, fits), e0);
    }
  }

  // ---------- what the scan does to several entries with one key ----------

  /** The scan skips the entry behind each one it deletes. */
  function Skim(s: seq<BBoxItem>, k: Key): seq<BBoxItem> {
    if s == [] then []
    else if KeyOf(s[0]) != k then [s[0]] + Skim(s[1..], k)
    else if |s| == 1 then []
    else [s[1]] + Skim(s[2..], k)
  }

  ghost predicate AdjacentKey(s: seq<BBoxItem>, k: Key) {
    exists i :: 0 <= i < |s| - 1 && KeyOf(s[i]) == k && KeyOf(s[i + 1]) == k
  }

  lemma SkimStep(s: seq<BBoxItem>, i: nat, k: Key)
    requires i < |s|
    ensures KeyOf(s[i]) != k ==> s[..i] + Skim(s[i..], k) == s[..i + 1] + Skim(s[i + 1..], k)
    ensures KeyOf(s[i]) == k ==>
              var rest := s[..i] + s[i + 1..];
              s[..i] + Skim(s[i..], k) == if i < |rest| then rest[..i + 1] + Skim(rest[i + 1..], k) else rest
  {
    if KeyOf(s[i]) != k {
      assert s[i..][1..] == s[i + 1..] && s[..i + 1] == s[..i] + [s[i]];
    } else if i + 1 < |s| {
      var rest := s[..i] + s[i + 1..];
      assert rest[i + 1..] == s[i..][2..] && rest[..i + 1] == s[..i] + [s[i + 1]];
    }
  }

  lemma {:induction false} ScanSkims(t: Tree, i: nat, k: Key)
    requires i <= |t.dyn|
    ensures Scan(t, i, k).0.dyn == t.dyn[..i] + Skim(t.dyn[i..], k)
    decreases |t.dyn| - i
  {
    if i < |t.dyn| {
      SkimStep(t.dyn, i, k);
      if KeyOf(t.dyn[i]) != k {
        ScanSkims(t, i + 1, k);
      } else if i + 1 < |t.dyn| {
        ScanSkims(DeleteAt(t, i, k), i + 1, k);
      } else {
        ScanMisses(DeleteAt(t, i, k), i + 1, k);
      }
    }
  }

  lemma AdjacentFurther(s: seq<BBoxItem>, d: nat, k: Key)
    requires d <= |s|
    ensures AdjacentKey(s[d..], k) ==> AdjacentKey(s, k)
    ensures AdjacentKey(s, k) ==>
              || AdjacentKey(s[d..], k)
              || exists i :: 0 <= i < d && i < |s| - 1 && KeyOf(s[i]) == k && KeyOf(s[i + 1]) == k
  {
    if AdjacentKey(s[d..], k) {
      var i :| 0 <= i < |s[d..]| - 1 && KeyOf(s[d..][i]) == k && KeyOf(s[d..][i + 1]) == k;
      assert KeyOf(s[i + d]) == k && KeyOf(s[i + d + 1]) == k;
    }
    if AdjacentKey(s, k) {
      var i :| 0 <= i < |s| - 1 && KeyOf(s[i]) == k && KeyOf(s[i + 1]) == k;
      if d <= i {
        assert KeyOf(s[d..][i - d]) == k && KeyOf(s[d..][i - d + 1]) == k;
      }
    }
  }

  lemma HasKeyFirst(e: BBoxItem, s: seq<BBoxItem>, k: Key)
    ensures HasKey([e] + s, k) <==> KeyOf(e) == k || HasKey(s, k)
  {
    assert ([e] + s)[0] == e;
  }

  lemma {:induction false} SkimLeavesIffAdjacent(s: seq<BBoxItem>, k: Key)
    ensures HasKey(Skim(s, k), k) <==> AdjacentKey(s, k)
    decreases |s|
  {
    if s != [] {
      var d := if KeyOf(s[0]) != k then 1 else 2;
      if d <= |s| {
        SkimLeavesIffAdjacent(s[d..], k);
        AdjacentFurther(s, d, k);
        HasKeyFirst(if d == 1 then s[0] else s[1], Skim(s[d..], k), k);
        hide HasKey, KeyOf;
        assert d == 2 && KeyOf(s[1]) == k ==> KeyOf(s[0]) == k && KeyOf(s[0 + 1]) == k;
      }
    }
  }

  lemma WithoutFirst(s: seq<BBoxItem>, k: Key)
    requires s != []
    ensures Without(s, k) == if KeyOf(s[0]) != k then [s[0]] + Without(s[1..], k) else Without(s[1..], k)
  {
    assert OtherKey(k)(s[0]) <==> KeyOf(s[0]) != k;
  }

  lemma {:induction false} SkimIsWithout(s: seq<BBoxItem>, k: Key)
    requires !AdjacentKey(s, k)
    ensures Skim(s, k) == Without(s, k)
    decreases |s|
  {
    if s != [] {
      hide KeyOf, OtherKey;
      WithoutFirst(s, k);
      if KeyOf(s[0]) != k {
        AdjacentFurther(s, 1, k);
        SkimIsWithout(s[1..], k);
      } else if 1 < |s| {
        assert KeyOf(s[0 + 1]) != k;
        AdjacentFurther(s, 2, k);
        SkimIsWithout(s[2..], k);
        WithoutFirst(s[1..], k);
        assert s[1..][1..] == s[2..];
      } else {
        assert s[1..] == [];
      }
    }
  }

  lemma {:induction false} SkimKeepsOthers(s: seq<BBoxItem>, k: Key)
    ensures forall e :: KeyOf(e) != k ==> (e in Skim(s, k) <==> e in s)
    decreases |s|
  {
    if s != [] {
      assert s == [s[0]] + s[1..];
      if KeyOf(s[0]) != k {
        SkimKeepsOthers(s[1..], k);
      } else if 1 < |s| {
        assert s[1..] == [s[1]] + s[2..];
        SkimKeepsOthers(s[2..], k);
      }
    }
  }

  lemma DeleteSkims(t: Tree, k: Key)
    ensures Delete(t, k).0.dyn == Skim(t.dyn, k)
  {
    ScanSkims(t, 0, k);
    assert t.dyn[0..] == t.dyn && t.dyn[..0] + Skim(t.dyn, k) == Skim(t.dyn, k);
  }

  /** A deletion clears a key exactly if no two entries with it are neighbours in the root's list. */
  lemma DeleteClearsKeyIff(t: Tree, k: Key)
    ensures !HasKey(Delete(t, k).0.dyn, k) <==> !AdjacentKey(t.dyn, k)
  {
    DeleteSkims(t, k);
    SkimLeavesIffAdjacent(t.dyn, k);
  }

  /** Of two entries with one key added in a row one stays behind, in any tree and with any growth test. */
  lemma TwoInARowLeaveOne(t: Tree, d: BBoxItem, e: BBoxItem, fits: Fits)
    requires KeyOf(d) == KeyOf(e)
    ensures HasKey(Delete(InsertRoot(InsertRoot(t, d, fits), e, fits), KeyOf(d)).0.dyn, KeyOf(d))
  {
    var u := InsertRoot(t, d, fits);
    var v := InsertRoot(u, e, fits);
    var i := |t.dyn|;
    InsertRootAppends(t, d, fits);
    InsertRootAppends(u, e, fits);
    assert KeyOf(v.dyn[i]) == KeyOf(d) && KeyOf(v.dyn[i + 1]) == KeyOf(d);
    DeleteClearsKeyIff(v, KeyOf(d));
  }

  lemma InsertRootAppends(t: Tree, e: BBoxItem, fits: Fits)
    ensures exists x :: InsertRoot(t, e, fits).dyn == t.dyn + [x] && KeyOf(x) == KeyOf(e)
  {
    InsertShape(t, e, fits);
    InsertEntries(t, e, fits);
    assert KeyOf(e.(extra := false)) == KeyOf(e);
  }

  /** So it is with two materials of one 3D object, alpha or not. */
  lemma TwoMaterialsLeaveOne(t: Tree, d: BBoxItem, e: BBoxItem, n: nat, fits: Fits)
    requires Is3DMask(GetTypeMaskFromType(d.itemType))
    requires GetTypeMaskFromType(e.itemType) == GetTypeMaskFromType(d.itemType)
    requires n * 4096 <= d.ID < n * 4096 + 4096 && n * 4096 <= e.ID < n * 4096 + 4096
    ensures HasKey(Delete(InsertRoot(InsertRoot(t, d, fits), e, fits), KeyOf(d)).0.dyn, KeyOf(d))
  {
    TwoInARowLeaveOne(t, d, e, fits);
  }
}
