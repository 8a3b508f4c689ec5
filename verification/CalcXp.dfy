/** The experience table and the two operators on it: level to experience (L) and back (X). */
module CalcXp {

  const XPT_MAX: int := 179

  /**
   * exp_lev, of which XPT_MAX + 2 entries are ever read. unspecified stands for what the X operator
   * computes when no entry lies below its operand: it then reads the memory in front of the table.
   */
  datatype Table = Table(xp: seq<int>, unspecified: real -> real)

  predicate Complete(t: Table) {
    XPT_MAX + 2 <= |t.xp|
  }

  /** The levels in use ascend; nothing is said about the entries after them. */
  ghost predicate Ascending(t: Table) {
    && Complete(t)
    && (forall i :: 0 <= i <= XPT_MAX ==> 0 <= t.xp[i] < 0x1_0000_0000)
    && forall i, j :: 0 <= i < j <= XPT_MAX ==> t.xp[i] < t.xp[j]
  }

  /** The source subtracts in Uint32. */
  function Diff(t: Table, a: int, b: int): real
    requires Complete(t) && 0 <= a <= XPT_MAX + 1 && 0 <= b <= XPT_MAX + 1
  {
    ((t.xp[b] - t.xp[a]) % 0x1_0000_0000) as real
  }

  /** Straight from a to a + d as f goes from 0 to 1. */
  function Lerp(a: real, d: real, f: real): real {
    a + f * d
  }

  function Unlerp(a: real, d: real, v: real): real
    requires d != 0.0
  {
    (v - a) / d
  }

  predicate LDefined(v: real) {
    0.0 <= v <= XPT_MAX as real
  }

  /** Linear between consecutive levels. */
  function LValue(t: Table, v: real): real
    requires Complete(t) && LDefined(v)
  {
    var lvl := v.Floor;
    Lerp(t.xp[lvl] as real, Diff(t, lvl, lvl + 1), v - lvl as real)
  }

  predicate XDefined(t: Table, v: real)
    requires Complete(t)
  {
    0.0 <= v <= t.xp[XPT_MAX] as real
  }

  /** The least level, from i on, that has the experience. */
  function LeastLevel(t: Table, v: real, i: int): (r: int)
    requires Complete(t) && 0 <= i <= XPT_MAX && v <= t.xp[XPT_MAX] as real
    ensures i <= r <= XPT_MAX && v <= t.xp[r] as real && forall j :: i <= j < r ==> t.xp[j] as real < v
    decreases XPT_MAX - i
  {
    if v <= t.xp[i] as real then i else LeastLevel(t, v, i + 1)
  }

  /** Interpolates in the segment below the least level that suffices. */
  function XValue(t: Table, v: real): real
    requires Complete(t) && XDefined(t, v)
  {
    var i := LeastLevel(t, v, 0) - 1;
    if i < 0 || Diff(t, i, i + 1) == 0.0 then t.unspecified(v)
    else i as real + Unlerp(t.xp[i] as real, Diff(t, i, i + 1), v)
  }

  lemma SegmentDiff(t: Table, i: int)
    requires Ascending(t) && 0 <= i < XPT_MAX
    ensures Diff(t, i, i + 1) == t.xp[i + 1] as real - t.xp[i] as real > 0.0
  {
    assert t.xp[i] < t.xp[i + 1];
  }

  lemma LeastLevelIs(t: Table, v: real, i: int, from: int)
    requires Ascending(t) && 0 <= from <= i < XPT_MAX && t.xp[i] as real < v <= t.xp[i + 1] as real
    ensures v <= t.xp[XPT_MAX] as real && LeastLevel(t, v, from) == i + 1
    decreases i - from
  {
    assert t.xp[from] <= t.xp[i] && t.xp[i + 1] <= t.xp[XPT_MAX];
    if from < i {
      LeastLevelIs(t, v, i, from + 1);
    }
  }

  lemma LerpProperties(a: real, d: real, f: real)
    requires d > 0.0 && 0.0 < f <= 1.0
    ensures a < Lerp(a, d, f) <= a + d && Unlerp(a, d, Lerp(a, d, f)) == f
    ensures Lerp(a, d, 1.0) == a + d && Lerp(a + d, d, 0.0) == a + d
  {
  }

  lemma LerpAtStart(a: real, d: real)
    ensures Lerp(a, d, 0.0) == a
  {
  }

  lemma UnlerpProperties(a: real, d: real, v: real)
    requires d > 0.0 && a < v <= a + d
    ensures 0.0 < Unlerp(a, d, v) <= 1.0 && Lerp(a, d, Unlerp(a, d, v)) == v
  {
    var q := Unlerp(a, d, v);
    assert q * d == v - a && (q - 1.0) * d <= 0.0;
  }

  /** The point of segment i at fraction f, as L computes it: for f = 1 it is the next level's entry. */
  lemma LOnSegment(t: Table, i: int, f: real)
    requires Ascending(t) && 0 <= i < XPT_MAX && 0.0 < f <= 1.0
    ensures LDefined(i as real + f) && LValue(t, i as real + f) == Lerp(t.xp[i] as real, Diff(t, i, i + 1), f)
  {
    hide Lerp;
    SegmentDiff(t, i);
    var level := i as real + f;
    if f == 1.0 {
      assert level.Floor == i + 1 && level - (i + 1) as real == 0.0;
      LerpAtStart(t.xp[i + 1] as real, Diff(t, i + 1, i + 2));
      LerpProperties(t.xp[i] as real, Diff(t, i, i + 1), f);
    } else {
      assert level.Floor == i && level - i as real == f;
    }
  }

  lemma XOnSegment(t: Table, i: int, f: real)
    requires Ascending(t) && 0 <= i < XPT_MAX && 0.0 < f <= 1.0
    ensures var v := Lerp(t.xp[i] as real, Diff(t, i, i + 1), f);
            XDefined(t, v) && XValue(t, v) == i as real + f
  {
    hide Lerp, Unlerp;
    SegmentDiff(t, i);
    LerpProperties(t.xp[i] as real, Diff(t, i, i + 1), f);
    LeastLevelIs(t, Lerp(t.xp[i] as real, Diff(t, i, i + 1), f), i, 0);
  }

  /** X undoes L on every positive level, whole levels included. */
  lemma XUndoesL(t: Table, level: real)
    requires Ascending(t) && 0.0 < level <= XPT_MAX as real
    ensures LDefined(level) && XDefined(t, LValue(t, level)) && XValue(t, LValue(t, level)) == level
  {
    hide Lerp, Unlerp;
    var i := if level.Floor as real == level then level.Floor - 1 else level.Floor;
    LOnSegment(t, i, level - i as real);
    XOnSegment(t, i, level - i as real);
  }

  /** L undoes X on every experience above the first entry. */
  lemma LUndoesX(t: Table, v: real)
    requires Ascending(t) && t.xp[0] as real < v <= t.xp[XPT_MAX] as real
    ensures XDefined(t, v) && LDefined(XValue(t, v)) && LValue(t, XValue(t, v)) == v
  {
    hide Lerp, Unlerp;
    var i := LeastLevel(t, v, 0) - 1;
    assert 0 <= i && t.xp[i] as real < v <= t.xp[i + 1] as real;
    SegmentDiff(t, i);
    UnlerpProperties(t.xp[i] as real, Diff(t, i, i + 1), v);
    LOnSegment(t, i, Unlerp(t.xp[i] as real, Diff(t, i, i + 1), v));
  }
}
