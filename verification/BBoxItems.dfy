/** Items of the bounding-box tree (bbox_tree.h): types, deletion keys, hulls and visibility. */
module BBoxItems {
  import opened Geometry
  import opened Seqs

  const TYPES_COUNT: nat := 0x17
  const TYPE_DELETED: nat := 0xFF

  type ItemType = t: nat | t < TYPES_COUNT || t == TYPE_DELETED witness 0

  datatype BBoxItem = BBoxItem(bbox: Box, ID: nat, itemType: ItemType, textureId: nat, extra: bool)

  /** What identifies an item for a deletion: a type mask and an object number. */
  datatype Key = Key(mask: nat, id: nat)

  // ---------- types and keys ----------

  function Get3DType(blend: bool, ground: bool, alpha: bool, selfLit: bool): ItemType {
    0x02 + (if blend then 0 else 8) + (if ground then 0 else 4) + (if alpha then 0 else 2) + (if selfLit then 0 else 1)
  }

  function Get3DTypeMask(blend: bool, selfLit: bool): nat {
    0x02 + (if blend then 0 else 2) + (if selfLit then 0 else 1)
  }

  function Get2DType(alpha: bool): ItemType {
    if alpha then 0x01 else 0x00
  }

  function Get2DTypeMask(alpha: bool): nat {
    if alpha then 0x01 else 0x00
  }

  function GetWaterType(reflective: bool): ItemType {
    if reflective then 0x16 else 0x15
  }

  function GetWaterTypeMask(reflective: bool): nat {
    if reflective then 0x0A else 0x09
  }

  // the 3D types 0x02..0x11 alternate self-lit and not; blended ones come first
  function GetTypeMaskFromType(itemType: ItemType): nat {
    if itemType < 0x02 then 1 - itemType
    else if itemType < 0x0A then 0x02 + itemType % 2
    else if itemType < 0x12 then 0x04 + itemType % 2
    else if itemType < TYPES_COUNT then itemType - 12
    else 0
  }

  /** Insertion and deletion of one object agree on the mask, except for 2D objects: never there. */
  lemma DeleteMaskMatchesInsertedType(blend: bool, ground: bool, alpha: bool, selfLit: bool, reflective: bool)
    ensures GetTypeMaskFromType(Get3DType(blend, ground, alpha, selfLit)) == Get3DTypeMask(blend, selfLit)
    ensures GetTypeMaskFromType(GetWaterType(reflective)) == GetWaterTypeMask(reflective)
    ensures GetTypeMaskFromType(Get2DType(alpha)) != Get2DTypeMask(alpha)
  {
    if ground && alpha {
    } else if ground {
    } else if alpha {
    }
  }

  /** The 16 types of 3D objects differ, and no other object has one of them. */
  lemma TypesDiffer(blend: bool, ground: bool, alpha: bool, selfLit: bool,
                    blend': bool, ground': bool, alpha': bool, selfLit': bool, flag: bool)
    ensures Get3DType(blend, ground, alpha, selfLit) == Get3DType(blend', ground', alpha', selfLit') <==>
            blend == blend' && ground == ground' && alpha == alpha' && selfLit == selfLit'
    ensures 0x02 <= Get3DType(blend, ground, alpha, selfLit) <= 0x11
    ensures Get2DType(flag) == (if flag then 0x01 else 0x00) && GetWaterType(flag) == if flag then 0x16 else 0x15
  {
    if blend == blend' && ground == ground' {
    } else if blend == blend' {
    }
  }

  predicate Is3DMask(mask: nat) {
    2 <= mask <= 5
  }

  // what numbers a material of a 3D object
  function Get3DObjectId(index: nat, material: nat): nat
    requires material < 4096
  {
    index * 4096 + material
  }

  // get_3dobject_index drops the 12 material bits
  function KeyOf(e: BBoxItem): Key {
    var mask := GetTypeMaskFromType(e.itemType);
    Key(mask, if Is3DMask(mask) then e.ID / 4096 else e.ID)
  }

  /** An entry of a 3D object goes with its object, whatever the material; all others go by number and type. */
  lemma KeyOfAdded(e: BBoxItem, index: nat, material: nat, blend: bool, ground: bool, alpha: bool, selfLit: bool)
    requires material < 4096
    ensures e.ID == Get3DObjectId(index, material) && e.itemType == Get3DType(blend, ground, alpha, selfLit) ==>
              KeyOf(e) == Key(Get3DTypeMask(blend, selfLit), index)
    ensures !(0x02 <= e.itemType <= 0x11) ==> KeyOf(e).id == e.ID
    ensures 0x12 <= e.itemType < TYPES_COUNT ==> KeyOf(e).mask == e.itemType - 0x0C
    ensures e.itemType == Get2DType(alpha) ==> KeyOf(e).mask == Get2DTypeMask(!alpha)
  {
    DeleteMaskMatchesInsertedType(blend, ground, alpha, selfLit, false);
    if blend && selfLit {
    } else if blend {
    } else if selfLit {
    }
  }

  /** Entries of two 3D objects go together exactly if they are of one object, inserted with the same mask. */
  lemma OneKeyIff(e: BBoxItem, x: BBoxItem, index: nat, index': nat, material: nat, material': nat)
    requires material < 4096 && material' < 4096
    requires e.ID == Get3DObjectId(index, material) && x.ID == Get3DObjectId(index', material')
    requires 0x02 <= e.itemType <= 0x11 && 0x02 <= x.itemType <= 0x11
    ensures KeyOf(e) == KeyOf(x) <==>
            index == index' && GetTypeMaskFromType(e.itemType) == GetTypeMaskFromType(x.itemType)
  {
    assert e.ID / 4096 == index && x.ID / 4096 == index';
  }

  ghost predicate HasKey(s: seq<BBoxItem>, k: Key) {
    exists e :: e in s && KeyOf(e) == k
  }

  /** How many entries have a key. */
  function Count(s: seq<BBoxItem>, k: Key): nat {
    |Filter(s, (e: BBoxItem) => KeyOf(e) == k)|
  }

  lemma CountIsPositive(s: seq<BBoxItem>, k: Key)
    ensures 0 < Count(s, k) <==> HasKey(s, k)
  {
    FilterMembers(s, (e: BBoxItem) => KeyOf(e) == k);
    if 0 < Count(s, k) {
      assert Filter(s, (e: BBoxItem) => KeyOf(e) == k)[0] in s;
    }
  }

  lemma CountAppend(s: seq<BBoxItem>, e: BBoxItem, k: Key)
    ensures Count(s + [e], k) == Count(s, k) + if KeyOf(e) == k then 1 else 0
  {
    FilterAppend(s, e, (x: BBoxItem) => KeyOf(x) == k);
  }

  lemma CountRemoved(s: seq<BBoxItem>, i: nat, k: Key)
    requires i < |s|
    ensures Count(s[..i] + s[i + 1..], k) == Count(s, k) - if KeyOf(s[i]) == k then 1 else 0
  {
    FilterRemoved(s, i, (x: BBoxItem) => KeyOf(x) == k);
  }

  function OtherKey(k: Key): BBoxItem -> bool {
    (e: BBoxItem) => KeyOf(e) != k
  }

  function Without(s: seq<BBoxItem>, k: Key): seq<BBoxItem> {
    Filter(s, OtherKey(k))
  }

  lemma WithoutMembers(s: seq<BBoxItem>, k: Key)
    ensures forall e :: e in Without(s, k) <==> e in s && KeyOf(e) != k
  {
    FilterMembers(s, OtherKey(k));
  }

  lemma WithoutAbsent(s: seq<BBoxItem>, k: Key)
    requires !HasKey(s, k)
    ensures Without(s, k) == s
  {
    FilterAll(s, OtherKey(k));
  }

  /** Removing the one occurrence by its index is removing by key. */
  lemma WithoutAt(s: seq<BBoxItem>, i: nat)
    requires i < |s| && forall j :: 0 <= j < |s| && j != i ==> KeyOf(s[j]) != KeyOf(s[i])
    ensures Without(s, KeyOf(s[i])) == s[..i] + s[i + 1..]
  {
    assert s == s[..i] + [s[i]] + s[i + 1..];
    FilterOne(s[..i], s[i], s[i + 1..], OtherKey(KeyOf(s[i])));
  }

  // ---------- entries: items up to the bookkeeping flag ----------

  function Strip(e: BBoxItem): BBoxItem {
    e.(extra := false)
  }

  function Entries(s: seq<BBoxItem>): set<BBoxItem> {
    set e | e in s :: Strip(e)
  }

  lemma EntriesOfConcat(s: seq<BBoxItem>, t: seq<BBoxItem>)
    ensures Entries(s + t) == Entries(s) + Entries(t)
  {
  }

  lemma EntriesOfOne(e: BBoxItem)
    ensures Entries([e]) == {Strip(e)}
  {
    assert [e][0] == e;
  }

  lemma EntryHasItem(s: seq<BBoxItem>, x: BBoxItem) returns (e: BBoxItem)
    requires x in Entries(s)
    ensures e in s && Strip(e) == x
  {
    e :| e in s && Strip(e) == x;
  }

  // ---------- hulls ----------

  function HullOver(b: Box, s: seq<BBoxItem>): Box
    decreases |s|
  {
    if s == [] then b else HullOver(Join(b, s[0].bbox), s[1..])
  }

  ghost predicate AllWithin(s: seq<BBoxItem>, c: Box) {
    forall e :: e in s ==> Within(e.bbox, c)
  }

  /** The hull is the least box around its start and its items. */
  lemma {:induction false} HullIsLeast(b: Box, s: seq<BBoxItem>, c: Box)
    ensures Within(HullOver(b, s), c) <==> Within(b, c) && AllWithin(s, c)
    decreases |s|
  {
    if s != [] {
      HullIsLeast(Join(b, s[0].bbox), s[1..], c);
      assert s == [s[0]] + s[1..];
    }
  }

  /** Some coordinate on each axis that is no further off than 10^31. */
  predicate Reachable(b: Box) {
    var far := 10000000000000000000000000000000.0;
    && b.bbmin.x <= far && b.bbmin.y <= far && b.bbmin.z <= far
    && -far <= b.bbmax.x && -far <= b.bbmax.y && -far <= b.bbmax.z
  }

  /** Where hulls start does not matter, unless all boxes lie beyond +-10^31: the hull is the least box around all. */
  lemma HullOfItems(s: seq<BBoxItem>, c: Box)
    requires exists e :: e in s && Reachable(e.bbox)
    ensures Within(HullOver(EMPTY, s), c) <==> AllWithin(s, c)
  {
    HullIsLeast(EMPTY, s, c);
    var e :| e in s && Reachable(e.bbox);
  }

  lemma HullContains(b: Box, s: seq<BBoxItem>)
    ensures Within(b, HullOver(b, s)) && AllWithin(s, HullOver(b, s))
  {
    HullIsLeast(b, s, HullOver(b, s));
  }

  /** A hull depends only on which boxes it is over, never on their order or multiplicity. */
  lemma HullOfSameBoxes(b: Box, s: seq<BBoxItem>, t: seq<BBoxItem>)
    requires forall c: Box :: AllWithin(s, c) <==> AllWithin(t, c)
    ensures HullOver(b, s) == HullOver(b, t)
  {
    HullContains(b, s);
    HullContains(b, t);
    HullIsLeast(b, s, HullOver(b, t));
    HullIsLeast(b, t, HullOver(b, s));
    WithinBoth(HullOver(b, s), HullOver(b, t));
  }

  lemma HullOfPermutation(b: Box, s: seq<BBoxItem>, t: seq<BBoxItem>)
    requires multiset(s) == multiset(t)
    ensures HullOver(b, s) == HullOver(b, t)
  {
    forall e ensures e in s <==> e in t {
      assert e in s <==> e in multiset(s);
      assert e in t <==> e in multiset(t);
    }
    HullOfSameBoxes(b, s, t);
  }

  lemma HullAppend(b: Box, s: seq<BBoxItem>, e: BBoxItem)
    ensures HullOver(b, s + [e]) == Join(HullOver(b, s), e.bbox)
    decreases |s|
  {
    if s != [] {
      HullAppend(Join(b, s[0].bbox), s[1..], e);
      assert (s + [e])[1..] == s[1..] + [e];
    }
  }

  lemma {:induction false} HullOverConcat(b: Box, s: seq<BBoxItem>, t: seq<BBoxItem>)
    ensures HullOver(b, s + t) == HullOver(HullOver(b, s), t)
    decreases |s|
  {
    if s == [] {
      assert s + t == t;
    } else {
      assert (s + t)[1..] == s[1..] + t;
      HullOverConcat(Join(b, s[0].bbox), s[1..], t);
    }
  }

  lemma HullOfConcat(s: seq<BBoxItem>, t: seq<BBoxItem>)
    ensures HullOver(EMPTY, s + t) == Join(HullOver(EMPTY, s), HullOver(EMPTY, t))
  {
    var hs, ht, h := HullOver(EMPTY, s), HullOver(EMPTY, t), HullOver(EMPTY, s + t);
    HullContains(EMPTY, s);
    HullContains(EMPTY, t);
    HullContains(EMPTY, s + t);
    HullIsLeast(EMPTY, s, h);
    HullIsLeast(EMPTY, t, h);
    HullIsLeast(EMPTY, s + t, Join(hs, ht));
    WithinBoth(h, Join(hs, ht));
  }

  // ---------- visibility ----------

  type Frustum = seq<Plane>

  /** Plane masks are sets of indices into the frustum. */
  ghost predicate GoodView(f: Frustum, mask: set<nat>) {
    forall i :: i in mask ==> i < |f| && WellMasked(f[i])
  }

  predicate InRange(f: Frustum, mask: set<nat>) {
    forall i :: i in mask ==> i < |f|
  }

  datatype Verdict = Outside | Inside | Intersect(outMask: set<nat>)

  predicate Rejects(f: Frustum, mask: set<nat>, b: Box)
    requires InRange(f, mask)
  {
    exists i :: i in mask && FarDot(b, f[i]) < 0.0
  }

  /** The brute-force test: no plane of the mask has the whole box behind it. */
  predicate Passes(f: Frustum, mask: set<nat>, b: Box)
    requires InRange(f, mask)
  {
    forall i :: i in mask ==> 0.0 <= FarDot(b, f[i])
  }

  function Crossed(f: Frustum, mask: set<nat>, b: Box): set<nat>
    requires InRange(f, mask)
  {
    set i | i in mask && NearDot(b, f[i]) < 0.0
  }

  function Classify(f: Frustum, mask: set<nat>, b: Box): Verdict
    requires InRange(f, mask)
  {
    if Rejects(f, mask, b) then Outside
    else if Crossed(f, mask, b) == {} then Inside
    else Intersect(Crossed(f, mask, b))
  }

  /** Some of the box is not behind the plane. */
  ghost predicate Reaches(b: Box, p: Plane) {
    exists v :: Geometry.Inside(v, b) && !PointBehind(v, p)
  }

  /** Some of the box is behind the plane. */
  ghost predicate Pokes(b: Box, p: Plane) {
    exists v :: Geometry.Inside(v, b) && PointBehind(v, p)
  }

  /** For no plane of the mask is all of the box behind it. */
  ghost predicate InSight(f: Frustum, mask: set<nat>, b: Box)
    requires InRange(f, mask)
  {
    forall i :: i in mask ==> Reaches(b, f[i])
  }

  lemma PassesByPoints(f: Frustum, mask: set<nat>, b: Box)
    requires GoodView(f, mask) && Proper(b)
    ensures Passes(f, mask, b) <==> InSight(f, mask, b)
  {
    forall i | i in mask ensures 0.0 <= FarDot(b, f[i]) <==> Reaches(b, f[i]) {
      FarDotMeaning(b, f[i]);
    }
  }

  /** The verdict on a box, in terms of its points and the planes. */
  lemma ClassifyByPoints(f: Frustum, mask: set<nat>, b: Box)
    requires GoodView(f, mask) && Proper(b)
    ensures match Classify(f, mask, b)
            case Outside => exists i :: i in mask && forall v :: Geometry.Inside(v, b) ==> PointBehind(v, f[i])
            case Inside => forall i :: i in mask ==> !Pokes(b, f[i])
            case Intersect(out) =>
              && InSight(f, mask, b) && out != {}
              && forall i :: i in out <==> i in mask && Pokes(b, f[i])
  {
    PassesByPoints(f, mask, b);
    forall i | i in mask ensures NearDot(b, f[i]) < 0.0 <==> Pokes(b, f[i]) {
      NearDotMeaning(b, f[i]);
    }
    assert forall i :: i in mask && NearDot(b, f[i]) < 0.0 ==> i in Crossed(f, mask, b);
    if Rejects(f, mask, b) {
      var i :| i in mask && FarDot(b, f[i]) < 0.0;
      FarDotMeaning(b, f[i]);
    }
  }

  function Seen(f: Frustum, mask: set<nat>): BBoxItem -> bool
    requires InRange(f, mask)
  {
    (e: BBoxItem) => Passes(f, mask, e.bbox)
  }

  function Visible(f: Frustum, mask: set<nat>, s: seq<BBoxItem>): seq<BBoxItem>
    requires InRange(f, mask)
  {
    Filter(s, Seen(f, mask))
  }

  lemma VisibleMembers(f: Frustum, mask: set<nat>, s: seq<BBoxItem>)
    requires InRange(f, mask)
    ensures forall e :: e in Visible(f, mask, s) <==> e in s && Passes(f, mask, e.bbox)
  {
    FilterMembers(s, Seen(f, mask));
  }

  /** What the verdict on a box says about the boxes inside it. */
  lemma VerdictOnContents(f: Frustum, mask: set<nat>, outer: Box, b: Box)
    requires GoodView(f, mask) && Within(b, outer) && Proper(b)
    ensures match Classify(f, mask, outer)
            case Outside => !Passes(f, mask, b)
            case Inside => Passes(f, mask, b)
            case Intersect(out) => out <= mask && (Passes(f, out, b) <==> Passes(f, mask, b))
  {
    forall i | i in mask
      ensures NearDot(outer, f[i]) <= FarDot(b, f[i]) <= FarDot(outer, f[i])
    {
      DotsMonotone(b, outer, f[i]);
    }
    assert forall i :: i in mask && NearDot(outer, f[i]) < 0.0 ==> i in Crossed(f, mask, outer);
  }

  ghost predicate AllProper(s: seq<BBoxItem>) {
    forall e :: e in s ==> Proper(e.bbox)
  }

  lemma VerdictOnItems(f: Frustum, mask: set<nat>, outer: Box, s: seq<BBoxItem>)
    requires GoodView(f, mask) && AllWithin(s, outer) && AllProper(s)
    ensures match Classify(f, mask, outer)
            case Outside => Visible(f, mask, s) == []
            case Inside => Visible(f, mask, s) == s
            case Intersect(out) => GoodView(f, out) && Visible(f, out, s) == Visible(f, mask, s)
  {
    forall e | e in s
      ensures match Classify(f, mask, outer)
              case Outside => !Passes(f, mask, e.bbox)
              case Inside => Passes(f, mask, e.bbox)
              case Intersect(out) => Passes(f, out, e.bbox) <==> Passes(f, mask, e.bbox)
    {
      VerdictOnContents(f, mask, outer, e.bbox);
    }
    match Classify(f, mask, outer)
    case Outside => FilterNone(s, Seen(f, mask));
    case Inside => FilterAll(s, Seen(f, mask));
    case Intersect(out) => FilterSame(s, Seen(f, out), Seen(f, mask));
  }
}
