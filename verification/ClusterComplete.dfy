/**
 * The converse: do connected cells always share a label? A join of two labels overwrites or skips a link that is
 * there already, so not always; but they do if no join loses such a link.
 */
module ClusterComplete {
  import opened ClusterSpec
  import opened ClusterPass

  /** Every label that meets at a cell either leads to itself or to the same root as the smallest already. */
  ghost predicate NothingLost(t: seq<int>, nb: seq<int>, c: int) {
    Links(t) && 0 <= c < |t| && forall i :: 0 <= i < |nb| && nb[i] != 0 ==> NotLost(t, nb[i], c)
  }

  ghost predicate NotLost(t: seq<int>, l: int, c: int)
    requires Links(t) && 0 <= c < |t|
  {
    0 < l < |t| && (t[l] == l || Root(t, l) == Root(t, c))
  }

  /** No join of the first pass loses a link. */
  ghost predicate Lossless(g: Grid)
    requires GridOk(g)
  {
    forall a :: g.nx <= a < |g.occupied| && Occupied(g, a) ==> JoinLossless(g, a)
  }

  ghost predicate JoinLossless(g: Grid, a: nat)
    requires GridOk(g) && a < |g.occupied|
  {
    var s := FirstPass(g, a);
    var nb := LinksBefore(g, s, a);
    Least(nb) != 0 ==> NothingLost(s.table, nb, Least(nb))
  }

  // ---------- roots after a change of one link ----------

  lemma {:induction false} RootBelow(t: seq<int>, u: seq<int>, l: nat, k: nat)
    requires Links(t) && Links(u) && k < l <= |t| && l <= |u| && forall i :: 0 <= i < l ==> t[i] == u[i]
    ensures Root(t, k) == Root(u, k)
    decreases k
  {
    if t[k] != k {
      RootBelow(t, u, l, t[k]);
    }
  }

  /** A link changed to a smaller label: what had the root of l has that of c. */
  lemma {:induction false} RootAfter(t: seq<int>, l: nat, c: nat, k: nat)
    requires Links(t) && 0 < c < l < |t| && k < |t| && (t[l] == l || Root(t, l) == Root(t, c))
    ensures Links(t[l := c])
    ensures Root(t[l := c], k) == if Root(t, k) == Root(t, l) then Root(t, c) else Root(t, k)
    decreases k
  {
    var u := t[l := c];
    assert forall i :: 1 <= i < |u| ==> 1 <= u[i] <= i;
    RootBelow(t, u, l, c);
    if k == l {
      assert Root(u, l) == Root(u, c);
    } else if t[k] != k {
      RootAfter(t, l, c, t[k]);
    }
  }

  /** Labels with the same root in t have the same root in u. */
  ghost predicate Coarser(t: seq<int>, u: seq<int>) {
    && |t| == |u| && Links(t) && Links(u)
    && forall k, m :: 0 <= k < |t| && 0 <= m < |t| && Root(t, k) == Root(t, m) ==> Root(u, k) == Root(u, m)
  }

  ghost predicate AllJoined(u: seq<int>, nb: seq<int>, c: int) {
    Links(u) && 0 <= c < |u| && forall i :: 0 <= i < |nb| && nb[i] != 0 ==> IsJoined(u, nb[i], c)
  }

  ghost predicate IsJoined(u: seq<int>, l: int, c: int)
    requires Links(u) && 0 <= c < |u|
  {
    0 < l < |u| && Root(u, l) == Root(u, c)
  }

  ghost predicate OnlyTo(t: seq<int>, u: seq<int>, c: int) {
    |t| == |u| && forall l :: 0 <= l < |t| ==> u[l] == t[l] || u[l] == c
  }

  lemma CoarserTwice(t: seq<int>, u: seq<int>, v: seq<int>)
    requires Coarser(t, u) && Coarser(u, v)
    ensures Coarser(t, v)
  {
  }

  lemma StaysJoined(u: seq<int>, v: seq<int>, nb: seq<int>, c: int)
    requires AllJoined(u, nb, c) && Coarser(u, v)
    ensures AllJoined(v, nb, c)
  {
    forall i | 0 <= i < |nb| && nb[i] != 0 ensures IsJoined(v, nb[i], c) {
      assert IsJoined(u, nb[i], c);
    }
  }

  lemma OneMoreJoined(u: seq<int>, nb: seq<int>, c: int, l: int)
    requires AllJoined(u, nb, c) && (l != 0 ==> IsJoined(u, l, c))
    ensures AllJoined(u, nb + [l], c)
  {
    forall i | 0 <= i < |nb + [l]| && (nb + [l])[i] != 0 ensures IsJoined(u, (nb + [l])[i], c) {
      assert i < |nb| ==> IsJoined(u, nb[i], c);
    }
  }

  /** Relinking the labels nb joins all of them with c, and separates nothing. */
  lemma {:induction false} RelinkJoins(t: seq<int>, nb: seq<int>, c: int)
    requires NothingLost(t, nb, c) && 0 < c && forall i :: 0 <= i < |nb| && nb[i] != 0 ==> c <= nb[i]
    ensures OnlyTo(t, Relink(t, nb, c), c) && Coarser(t, Relink(t, nb, c)) && AllJoined(Relink(t, nb, c), nb, c)
  {
    if nb != [] {
      var pre, l := nb[..|nb| - 1], nb[|nb| - 1];
      RelinkJoins(t, pre, c);
      var v, u := Relink(t, pre, c), Relink(t, nb, c);
      assert nb == pre + [l];
      if l != 0 {
        assert NotLost(t, l, c);
        hide Coarser, AllJoined, OnlyTo, NothingLost;
        OneMoreJoins(t, v, l, c);
        CoarserTwice(t, v, u);
        StaysJoined(v, u, pre, c);
      }
      OneMoreJoined(u, pre, c, l);
    }
  }

  lemma OneMoreJoins(t: seq<int>, v: seq<int>, l: nat, c: nat)
    requires Links(t) && 0 < c <= l < |t| && NotLost(t, l, c) && OnlyTo(t, v, c) && Coarser(t, v)
    ensures var u := if v[l] > c then v[l := c] else v;
            OnlyTo(t, u, c) && Coarser(v, u) && IsJoined(u, l, c)
  {
    var u := if v[l] > c then v[l := c] else v;
    if v[l] > c {
      assert v[l] == t[l];
      assert v[l] == l || Root(v, l) == Root(v, c);
      RootAfter(v, l, c, l);
      forall k, m | 0 <= k < |t| && 0 <= m < |t| && Root(v, k) == Root(v, m) ensures Root(u, k) == Root(u, m) {
        RootAfter(v, l, c, k);
        RootAfter(v, l, c, m);
      }
    } else if v[l] == c {
      assert Root(v, l) == Root(v, c);
    } else {
      assert t[l] == v[l] < c;
    }
  }

  // ---------- neighbours have the same root ----------

  ghost predicate SameRoot(s: Pass, a: nat, b: nat)
    requires Links(s.table) && a < |s.cells| && b < |s.cells|
  {
    && 0 <= s.cells[a] < |s.table| && 0 <= s.cells[b] < |s.table|
    && Root(s.table, s.cells[a]) == Root(s.table, s.cells[b])
  }

  /** Cells below n that touch have labels with the same root. */
  ghost predicate Joined(g: Grid, s: Pass, n: nat)
    requires 0 < g.nx && Links(s.table) && n <= |s.cells|
  {
    forall a, b :: 0 <= b < a < n && Occupied(g, a) && Occupied(g, b) && Adjacent(g.nx, a, b) ==> SameRoot(s, a, b)
  }

  /** The neighbours of a cell that come before it. */
  lemma EarlierNeighbour(nx: nat, a: nat, b: nat)
    requires 0 < nx && b < a && Adjacent(nx, a, b)
    ensures b == a - nx || (a % nx > 0 && (b == a - 1 || b == a - nx - 1)) || (a % nx < nx - 1 && b == a - nx + 1)
  {
    var x, y := RowOf(nx, a);
    var v, z := RowOf(nx, b);
    RowsApart(nx, y, z);
    assert z <= y;
    if z == y {
      assert z * nx == y * nx;
    } else {
      assert z == y - 1;
      assert z * nx == y * nx - nx;
    }
  }

  /** What one step of the pass has to keep: pairs of older cells, and pairs with the new one. */
  lemma StepJoins(g: Grid, s: Pass, r: Pass, a: nat)
    requires 0 < g.nx && Links(s.table) && Links(r.table) && a < |s.cells| == |r.cells| && Joined(g, s, a)
    requires forall p, q :: 0 <= q < p < a && SameRoot(s, p, q) ==> SameRoot(r, p, q)
    requires forall b :: 0 <= b < a && Occupied(g, a) && Occupied(g, b) && Adjacent(g.nx, a, b) ==> SameRoot(r, a, b)
    ensures Joined(g, r, a + 1)
  {
  }

  lemma LongerKeepsRoots(s: Pass, a: nat)
    requires Links(s.table) && a < |s.cells|
    ensures Links(NewLabel(s, a).table)
    ensures forall p, q :: 0 <= q < p < a && SameRoot(s, p, q) ==> SameRoot(NewLabel(s, a), p, q)
  {
    var r := NewLabel(s, a);
    forall p, q | 0 <= q < p < a && SameRoot(s, p, q) ensures SameRoot(r, p, q) {
      RootBelow(s.table, r.table, |s.table|, s.cells[p]);
      RootBelow(s.table, r.table, |s.table|, s.cells[q]);
    }
  }

  lemma EarlierInFirstRow(g: Grid, a: nat, b: nat)
    requires 0 < g.nx && b < a < g.nx && Adjacent(g.nx, a, b)
    ensures b == a - 1
  {
    EarlierNeighbour(g.nx, a, b);
    Coordinates(g.nx, a, 0);
  }

  lemma FirstRowKeepsJoined(g: Grid, s: Pass, a: nat)
    requires GridOk(g) && a < |g.occupied| == |s.cells| && Occupied(g, a) && a < g.nx
    requires Links(s.table) && Joined(g, s, a)
    requires forall i :: 0 <= i < |s.cells| ==> 0 <= s.cells[i] < |s.table|
    ensures Links(Step(g, s, a).table) && Joined(g, Step(g, s, a), a + 1)
  {
    var r := Step(g, s, a);
    LongerKeepsRoots(s, a);
    forall b | 0 <= b < a && Occupied(g, b) && Adjacent(g.nx, a, b) ensures SameRoot(r, a, b) {
      EarlierInFirstRow(g, a, b);
    }
    StepJoins(g, s, r, a);
  }

  /** A neighbour before the cell contributes its link. */
  lemma NeighbourContributes(g: Grid, s: Pass, a: nat, b: nat) returns (i: nat)
    requires 0 < g.nx && b < a && Adjacent(g.nx, a, b)
    ensures g.nx <= a ==> i < 4 && LinksBefore(g, s, a)[i] == LinkOf(s, b)
  {
    EarlierNeighbour(g.nx, a, b);
    var x := a % g.nx;
    i := if b == a - g.nx then 1 else if x > 0 && b == a - 1 then 3 else if x > 0 && b == a - g.nx - 1 then 0 else 2;
  }

  lemma NoNeighbourBefore(g: Grid, s: Pass, a: nat, b: nat)
    requires 0 < g.nx <= a && b < a && Adjacent(g.nx, a, b) && Least(LinksBefore(g, s, a)) == 0
    requires forall i :: 0 <= i < 4 ==> 0 <= LinksBefore(g, s, a)[i]
    ensures LinkOf(s, b) == 0
  {
    var i := NeighbourContributes(g, s, a, b);
    LeastIs(LinksBefore(g, s, a));
  }

  ghost predicate InRange(g: Grid, s: Pass, n: nat) {
    && Links(s.table) && |s.cells| == |g.occupied|
    && forall i :: 0 <= i < |s.cells| ==> 0 <= s.cells[i] < |s.table| && (s.cells[i] != 0 <==> i < n && Occupied(g, i))
  }

  lemma LinksAreInRange(g: Grid, s: Pass, n: nat, k: int)
    requires InRange(g, s, n)
    ensures 0 <= LinkOf(s, k) < |s.table| && (0 <= k < n && Occupied(g, k) ==> LinkOf(s, k) != 0)
    ensures 0 <= k < n && Occupied(g, k) ==> Root(s.table, s.cells[k]) == Root(s.table, LinkOf(s, k))
  {
  }

  lemma BeforeAreInRange(g: Grid, s: Pass, a: nat)
    requires 0 < g.nx && InRange(g, s, a)
    ensures var nb := LinksBefore(g, s, a);
            && (forall i :: 0 <= i < 4 ==> 0 <= nb[i] < |s.table|) && 0 <= Least(nb) < |s.table|
            && forall i :: 0 <= i < 4 && nb[i] != 0 ==> 0 < Least(nb) <= nb[i]
  {
    var nb := LinksBefore(g, s, a);
    LinksAreInRange(g, s, a, a - g.nx - 1);
    LinksAreInRange(g, s, a, a - g.nx);
    LinksAreInRange(g, s, a, a - g.nx + 1);
    LinksAreInRange(g, s, a, a - 1);
    hide LinkOf, Root, InRange;
    assert forall i :: 0 <= i < 4 ==> 0 <= nb[i] < |s.table|;
    LeastIs(nb);
  }

  lemma LaterNewKeepsJoined(g: Grid, s: Pass, a: nat)
    requires GridOk(g) && a < |g.occupied| && g.nx <= a && InRange(g, s, a) && Joined(g, s, a)
    requires Least(LinksBefore(g, s, a)) == 0
    ensures Links(NewLabel(s, a).table) && Joined(g, NewLabel(s, a), a + 1)
  {
    LongerKeepsRoots(s, a);
    BeforeAreInRange(g, s, a);
    forall b | 0 <= b < a && Adjacent(g.nx, a, b) ensures !Occupied(g, b) {
      NoNeighbourBefore(g, s, a, b);
      LinksAreInRange(g, s, a, b);
    }
    StepJoins(g, s, NewLabel(s, a), a);
  }

  lemma CoarserKeepsRoots(s: Pass, u: seq<int>, a: nat, c: nat)
    requires Links(s.table) && Coarser(s.table, u) && a < |s.cells|
    ensures forall p, q :: 0 <= q < p < a && SameRoot(s, p, q) ==> SameRoot(Pass(s.cells[a := c], u), p, q)
  {
  }

  lemma JoinKeepsJoined(g: Grid, s: Pass, a: nat)
    requires GridOk(g) && a < |g.occupied| && g.nx <= a && InRange(g, s, a) && Joined(g, s, a)
    requires var nb := LinksBefore(g, s, a); Least(nb) != 0 && NothingLost(s.table, nb, Least(nb))
    ensures var nb := LinksBefore(g, s, a);
            var r := Pass(s.cells[a := Least(nb)], Relink(s.table, nb, Least(nb)));
            Links(r.table) && Joined(g, r, a + 1)
  {
    var nb := LinksBefore(g, s, a);
    var c := Least(nb);
    var u := Relink(s.table, nb, c);
    BeforeAreInRange(g, s, a);
    RelinkJoins(s.table, nb, c);
    CoarserKeepsRoots(s, u, a, c);
    var r := Pass(s.cells[a := c], u);
    forall b | 0 <= b < a && Occupied(g, a) && Occupied(g, b) && Adjacent(g.nx, a, b) ensures SameRoot(r, a, b) {
      NeighbourIsJoined(g, s, u, a, b);
    }
    StepJoins(g, s, r, a);
  }

  lemma NeighbourIsJoined(g: Grid, s: Pass, u: seq<int>, a: nat, b: nat)
    requires GridOk(g) && a < |g.occupied| && g.nx <= a && InRange(g, s, a)
    requires b < a && Occupied(g, b) && Adjacent(g.nx, a, b)
    requires Coarser(s.table, u) && AllJoined(u, LinksBefore(g, s, a), Least(LinksBefore(g, s, a)))
    ensures SameRoot(Pass(s.cells[a := Least(LinksBefore(g, s, a))], u), a, b)
  {
    var nb := LinksBefore(g, s, a);
    var i := NeighbourContributes(g, s, a, b);
    LinksAreInRange(g, s, a, b);
    assert IsJoined(u, nb[i], Least(nb));
    assert Root(u, s.cells[b]) == Root(u, LinkOf(s, b));
  }

  /** If no join loses a link, cells that touch end up with labels of the same root. */
  lemma {:induction false} PassIsJoined(g: Grid, n: nat)
    requires GridOk(g) && n <= |g.occupied| && Lossless(g)
    ensures InRange(g, FirstPass(g, n), n) && Joined(g, FirstPass(g, n), n)
    decreases n
  {
    PassIsLabelled(g, n);
    if 0 < n {
      PassIsJoined(g, n - 1);
      StepKeepsJoined(g, FirstPass(g, n - 1), n - 1);
    }
  }

  lemma StepKeepsJoined(g: Grid, s: Pass, a: nat)
    requires GridOk(g) && a < |g.occupied| && InRange(g, s, a) && Joined(g, s, a)
    requires s == FirstPass(g, a) && InRange(g, Step(g, s, a), a + 1)
    requires g.nx <= a && Occupied(g, a) ==> JoinLossless(g, a)
    ensures Joined(g, Step(g, s, a), a + 1)
  {
    hide Joined, FirstPass, LinksBefore, NothingLost;
    if g.occupied[a] == 0 {
      UnoccupiedKeepsJoined(g, s, a);
    } else if a < g.nx {
      FirstRowKeepsJoined(g, s, a);
    } else {
      if Least(LinksBefore(g, s, a)) == 0 {
        LaterNewKeepsJoined(g, s, a);
      } else {
        JoinKeepsJoined(g, s, a);
      }
    }
  }

  lemma UnoccupiedKeepsJoined(g: Grid, s: Pass, a: nat)
    requires 0 < g.nx && Links(s.table) && a < |s.cells| && Joined(g, s, a) && !Occupied(g, a)
    ensures Joined(g, s, a + 1)
  {
  }

  // ---------- connected cells share a label ----------

  lemma {:induction false} RootAlongPath(g: Grid, s: Pass, p: seq<int>)
    requires GridOk(g) && InRange(g, s, |g.occupied|) && Joined(g, s, |g.occupied|) && IsPath(g, p)
    ensures 0 <= p[0] < |s.cells| && 0 <= p[|p| - 1] < |s.cells| && SameRoot(s, p[|p| - 1], p[0])
    decreases |p|
  {
    assert Occupied(g, p[0]) && Occupied(g, p[|p| - 1]);
    if 1 < |p| {
      var q := p[..|p| - 1];
      forall i | 0 < i < |q| ensures StepAt(g.nx, q, i) {
        assert StepAt(g.nx, p, i);
      }
      RootAlongPath(g, s, q);
      assert StepAt(g.nx, p, |p| - 1);
      AdjacentSameRoot(g, s, p[|p| - 2], p[|p| - 1]);
    }
  }

  lemma AdjacentSameRoot(g: Grid, s: Pass, a: nat, b: nat)
    requires GridOk(g) && InRange(g, s, |g.occupied|) && Joined(g, s, |g.occupied|)
    requires Occupied(g, a) && Occupied(g, b) && Adjacent(g.nx, a, b)
    ensures SameRoot(s, b, a)
  {
    assert Adjacent(g.nx, b, a);
  }

  /** Occupied cells share a label exactly if a path joins them. */
  ghost predicate Exact(g: Grid)
    requires GridOk(g)
  {
    forall i, j :: 0 <= i < |g.occupied| && 0 <= j < |g.occupied| && Occupied(g, i) && Occupied(g, j) ==>
      (Labels(g)[i] == Labels(g)[j] <==> Connected(g, i, j))
  }

  /** With no link lost the labels are exactly the connected components. */
  lemma LosslessIsExact(g: Grid)
    requires GridOk(g) && Lossless(g)
    ensures Exact(g)
  {
    LabelsAreClustered(g);
    PassIsLabelled(g, |g.occupied|);
    PassIsJoined(g, |g.occupied|);
    forall i, j | 0 <= i < |g.occupied| && 0 <= j < |g.occupied| && Occupied(g, i) && Occupied(g, j)
      ensures Labels(g)[i] == Labels(g)[j] <==> Connected(g, i, j)
    {
      SameLabelIff(g, i, j);
    }
  }

  lemma SameLabelIff(g: Grid, i: nat, j: nat)
    requires GridOk(g) && Lossless(g) && Occupied(g, i) && Occupied(g, j)
    ensures Labels(g)[i] == Labels(g)[j] <==> Connected(g, i, j)
  {
    LabelsAreClustered(g);
    PassIsLabelled(g, |g.occupied|);
    PassIsJoined(g, |g.occupied|);
    var s := FirstPass(g, |g.occupied|);
    if Connected(g, i, j) {
      var p :| IsPath(g, p) && p[0] == i && p[|p| - 1] == j;
      RootAlongPath(g, s, p);
      FinalIsRootNumber(s.table, s.cells[i]);
      FinalIsRootNumber(s.table, s.cells[j]);
    }
  }
}
