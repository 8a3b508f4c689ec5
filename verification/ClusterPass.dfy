/** The first pass of the labelling as a function, cell by cell, and what the links between labels mean. */
module ClusterPass {
  import opened ClusterSpec

  /** The labels of the cells and, for each label, the one it leads to. */
  datatype Pass = Pass(cells: seq<int>, table: seq<int>)

  /** What the table says about the label of a cell. */
  function LinkOf(s: Pass, k: int): int {
    if 0 <= k < |s.cells| && 0 <= s.cells[k] < |s.table| then s.table[s.cells[k]] else 0
  }

  /** The links of the neighbours before cell a. */
  function LinksBefore(g: Grid, s: Pass, a: nat): (r: seq<int>)
    requires 0 < g.nx
    ensures |r| == 4
  {
    var x := a % g.nx;
    [if x > 0 then LinkOf(s, a - g.nx - 1) else 0,
     LinkOf(s, a - g.nx),
     if x < g.nx - 1 then LinkOf(s, a - g.nx + 1) else 0,
     if x > 0 then LinkOf(s, a - 1) else 0]
  }

  /** The smallest label that is not 0, or 0. */
  function Least(nb: seq<int>): int {
    if nb == [] then 0 else
      var r, l := Least(nb[..|nb| - 1]), nb[|nb| - 1];
      if l != 0 && (r == 0 || l < r) then l else r
  }

  /** Larger links of the labels nb are replaced by c. */
  function Relink(table: seq<int>, nb: seq<int>, c: int): (r: seq<int>)
    ensures |r| == |table|
  {
    if nb == [] then table else
      var t, l := Relink(table, nb[..|nb| - 1], c), nb[|nb| - 1];
      if 0 < l < |t| && t[l] > c then t[l := c] else t
  }

  function NewLabel(s: Pass, a: nat): Pass
    requires a < |s.cells|
  {
    Pass(s.cells[a := |s.table|], s.table + [|s.table|])
  }

  function Step(g: Grid, s: Pass, a: nat): Pass
    requires 0 < g.nx && a < |s.cells| == |g.occupied|
  {
    if g.occupied[a] == 0 then s
    else if a < g.nx then
      if a > 0 && g.occupied[a - 1] != 0 then s.(cells := s.cells[a := s.cells[a - 1]]) else NewLabel(s, a)
    else
      var nb := LinksBefore(g, s, a);
      var c := Least(nb);
      if c == 0 then NewLabel(s, a) else Pass(s.cells[a := c], Relink(s.table, nb, c))
  }

  /** The first pass over the cells below n. */
  function FirstPass(g: Grid, n: nat): (s: Pass)
    requires 0 < g.nx && n <= |g.occupied|
    ensures |s.cells| == |g.occupied|
  {
    if n == 0 then Pass(seq(|g.occupied|, _ => 0), [0]) else Step(g, FirstPass(g, n - 1), n - 1)
  }

  /** The final labels. */
  ghost function Labels(g: Grid): (r: seq<int>)
    requires GridOk(g)
    ensures |r| == |g.occupied|
  {
    var s := FirstPass(g, |g.occupied|);
    PassIsLabelled(g, |g.occupied|);
    seq(|g.occupied|, i requires 0 <= i < |g.occupied| =>
          if 0 <= s.cells[i] < |s.table| then Final(s.table, s.cells[i]) else 0)
  }

  /** The largest final label. */
  ghost function LabelCount(g: Grid): nat
    requires GridOk(g)
  {
    var t := FirstPass(g, |g.occupied|).table;
    PassIsLabelled(g, |g.occupied|);
    Roots(t, |t| - 1)
  }

  // ---------- labels stand for connected cells ----------

  ghost predicate Witnessed(g: Grid, s: Pass, n: nat, w: seq<int>)
    requires GridOk(g)
  {
    |w| == |s.table| && Labelled(g, s.cells, s.table, n, w)
  }

  /** A label of 0, or one whose witness is connected to cell n. */
  ghost predicate Linked(g: Grid, n: nat, w: seq<int>, l: int)
    requires GridOk(g)
  {
    l == 0 || (1 <= l < |w| && Connected(g, n, w[l]))
  }

  /** The neighbour of a cell that lies dx columns and dy rows away, among those before it. */
  lemma NeighbourIsAdjacent(nx: nat, x: nat, y: nat, dx: int, dy: nat)
    requires x < nx && 0 <= x + dx < nx && -1 <= dx <= 1 && dy <= 1 && dy <= y
    ensures Adjacent(nx, y * nx + x, y * nx + x - dy * nx + dx)
  {
    Coordinates(nx, x, y);
    Coordinates(nx, x + dx, y - dy);
    assert (y - dy) * nx + (x + dx) == y * nx + x - dy * nx + dx;
  }

  lemma RowAbove(nx: nat, x: nat, y: nat, a: nat)
    requires x < nx && 1 <= y && a == y * nx + x
    ensures nx <= a && Adjacent(nx, a, a - nx)
    ensures x > 0 ==> nx < a && Adjacent(nx, a, a - nx - 1)
    ensures x < nx - 1 ==> Adjacent(nx, a, a - nx + 1)
  {
    RowsApart(nx, 0, y);
    NeighbourIsAdjacent(nx, x, y, 0, 1);
    if x > 0 {
      NeighbourIsAdjacent(nx, x, y, -1, 1);
    }
    if x < nx - 1 {
      NeighbourIsAdjacent(nx, x, y, 1, 1);
    }
  }

  lemma SameRow(nx: nat, x: nat, y: nat, a: nat)
    requires 0 < x < nx && a == y * nx + x
    ensures Adjacent(nx, a, a - 1)
  {
    NeighbourIsAdjacent(nx, x, y, -1, 0);
  }

  lemma RowOf(nx: nat, a: nat) returns (x: nat, y: nat)
    requires 0 < nx
    ensures x == a % nx < nx && y == a / nx && a == y * nx + x && (nx <= a <==> 1 <= y)
  {
    x, y := a % nx, a / nx;
    assert a == y * nx + x;
    RowsApart(nx, 0, y);
  }

  /** The neighbours before a cell, by index. */
  lemma NeighboursBefore(g: Grid, a: nat)
    requires 0 < g.nx
    ensures g.nx <= a ==> Adjacent(g.nx, a, a - g.nx)
    ensures g.nx <= a && a % g.nx > 0 ==> g.nx < a && Adjacent(g.nx, a, a - g.nx - 1)
    ensures g.nx <= a && a % g.nx < g.nx - 1 ==> Adjacent(g.nx, a, a - g.nx + 1)
    ensures a % g.nx > 0 ==> Adjacent(g.nx, a, a - 1)
  {
    var x, y := RowOf(g.nx, a);
    hide Adjacent;
    if x > 0 {
      SameRow(g.nx, x, y, a);
    }
    if g.nx <= a {
      RowAbove(g.nx, x, y, a);
    }
  }

  lemma LinkOfNeighbour(g: Grid, s: Pass, n: nat, w: seq<int>, k: nat)
    requires GridOk(g) && Witnessed(g, s, n, w) && n < |s.cells| && Occupied(g, n) && k < n && Adjacent(g.nx, n, k)
    ensures Linked(g, n, w, LinkOf(s, k)) && (LinkOf(s, k) == 0 <==> !Occupied(g, k))
    ensures Occupied(g, k) ==> 1 <= s.cells[k] < |s.table|
  {
    assert CellOk(g, s.cells, w, k);
    if Occupied(g, k) {
      NeighbourLinks(g, s.cells, s.table, n, w, k);
    }
  }

  lemma LinksBeforeAreLinked(g: Grid, s: Pass, n: nat, w: seq<int>)
    requires GridOk(g) && Witnessed(g, s, n, w) && n < |s.cells| && Occupied(g, n) && g.nx <= n
    ensures var nb := LinksBefore(g, s, n);
            && (forall i :: 0 <= i < 4 ==> Linked(g, n, w, nb[i]))
            && ((forall i :: 0 <= i < 4 ==> nb[i] == 0) <==> Begins(g, n))
  {
    NeighboursBefore(g, n);
    hide Witnessed, Adjacent, Linked, LinkOf;
    var nb, x := LinksBefore(g, s, n), n % g.nx;
    LinkedZero(g, n, w);
    LinkOfNeighbour(g, s, n, w, n - g.nx);
    if x > 0 {
      LinkOfNeighbour(g, s, n, w, n - g.nx - 1);
      LinkOfNeighbour(g, s, n, w, n - 1);
    }
    if x < g.nx - 1 {
      LinkOfNeighbour(g, s, n, w, n - g.nx + 1);
    }
    FourZeroes(nb);
  }

  lemma LinkedZero(g: Grid, n: nat, w: seq<int>)
    requires GridOk(g)
    ensures Linked(g, n, w, 0)
  {
  }

  lemma FourZeroes(nb: seq<int>)
    requires |nb| == 4
    ensures (forall i :: 0 <= i < 4 ==> nb[i] == 0) <==> nb[0] == 0 && nb[1] == 0 && nb[2] == 0 && nb[3] == 0
  {
  }

  lemma {:induction false} LeastIs(nb: seq<int>)
    requires forall i :: 0 <= i < |nb| ==> 0 <= nb[i]
    ensures Least(nb) == 0 <==> forall i :: 0 <= i < |nb| ==> nb[i] == 0
    ensures Least(nb) != 0 ==> Least(nb) in nb
    ensures forall i :: 0 <= i < |nb| && nb[i] != 0 ==> 0 < Least(nb) <= nb[i]
  {
    if nb != [] {
      LeastIs(nb[..|nb| - 1]);
    }
  }

  lemma {:induction false} RelinkKeepsWitnesses(g: Grid, cells: seq<int>, table: seq<int>, nb: seq<int>, c: int,
                                                n: nat, w: seq<int>)
    requires GridOk(g) && n < |g.occupied| && |w| == |table| && Labelled(g, cells, table, n + 1, w)
    requires forall i :: 0 <= i < |nb| ==> Linked(g, n, w, nb[i])
    requires c != 0 && Linked(g, n, w, c) && forall i :: 0 <= i < |nb| && nb[i] != 0 ==> c <= nb[i]
    ensures Labelled(g, cells, Relink(table, nb, c), n + 1, w)
  {
    if nb != [] {
      var l := nb[|nb| - 1];
      RelinkKeepsWitnesses(g, cells, table, nb[..|nb| - 1], c, n, w);
      var t := Relink(table, nb[..|nb| - 1], c);
      if 0 < l < |t| && t[l] > c {
        ConnectedSymmetric(g, n, w[l]);
        ConnectedTransitive(g, w[l], n, w[c]);
        Relinked(g, cells, t, n + 1, w, l, c);
      }
    }
  }

  lemma NewKeepsWitnesses(g: Grid, s: Pass, n: nat, w: seq<int>)
    requires GridOk(g) && Witnessed(g, s, n, w) && n < |s.cells| && Occupied(g, n)
    ensures Witnessed(g, NewLabel(s, n), n + 1, w + [n])
  {
    var t := s.table + [0];
    LabelledLonger(g, s.cells, s.table, n, w);
    LabelledNew(g, s.cells, t, n, w);
    assert t[|w| := |w|] == s.table + [|w|];
  }

  lemma LabelledLonger(g: Grid, cells: seq<int>, table: seq<int>, n: nat, w: seq<int>)
    requires GridOk(g) && Labelled(g, cells, table, n, w) && |w| == |table|
    ensures Labelled(g, cells, table + [0], n, w)
  {
    var t := table + [0];
    forall l | 1 <= l < |w| ensures LabelOk(g, cells, t, n, w, l) {
      assert LabelOk(g, cells, table, n, w, l);
    }
  }

  lemma TakesOver(g: Grid, s: Pass, n: nat, w: seq<int>)
    requires GridOk(g) && Witnessed(g, s, n, w) && 0 < n < g.nx && n < |s.cells| && Occupied(g, n) && Occupied(g, n - 1)
    ensures Witnessed(g, s.(cells := s.cells[n := s.cells[n - 1]]), n + 1, w)
  {
    NeighboursBefore(g, n);
    NeighbourLinks(g, s.cells, s.table, n, w, n - 1);
    LabelledOld(g, s.cells, s.table, n, w, s.cells[n - 1]);
  }

  lemma JoinKeepsWitnesses(g: Grid, s: Pass, n: nat, w: seq<int>, nb: seq<int>, c: int)
    requires GridOk(g) && Witnessed(g, s, n, w) && n < |s.cells| && Occupied(g, n)
    requires nb == LinksBefore(g, s, n) && c == Least(nb) != 0 && forall i :: 0 <= i < |nb| ==> Linked(g, n, w, nb[i])
    ensures Witnessed(g, Pass(s.cells[n := c], Relink(s.table, nb, c)), n + 1, w)
  {
    LeastIs(nb);
    LabelledOld(g, s.cells, s.table, n, w, c);
    RelinkKeepsWitnesses(g, s.cells[n := c], s.table, nb, c, n, w);
  }

  lemma FirstRowBegins(g: Grid, a: nat)
    requires 0 < g.nx && a < g.nx
    ensures Begins(g, a) <==> Occupied(g, a) && !(a > 0 && Occupied(g, a - 1))
  {
    Coordinates(g.nx, a, 0);
  }

  lemma StepKeepsWitnesses(g: Grid, s: Pass, n: nat, w: seq<int>) returns (v: seq<int>)
    requires GridOk(g) && Witnessed(g, s, n, w) && n < |s.cells| == |g.occupied|
    ensures Witnessed(g, Step(g, s, n), n + 1, v) && w <= v
    ensures |Step(g, s, n).table| == |s.table| + if Begins(g, n) then 1 else 0
  {
    v := w;
    hide Witnessed, Linked, LinksBefore, Least;
    if g.occupied[n] == 0 {
      UnoccupiedKeepsWitnesses(g, s, n, w);
    } else if n < g.nx {
      FirstRowBegins(g, n);
      if n > 0 && g.occupied[n - 1] != 0 {
        TakesOver(g, s, n, w);
      } else {
        NewKeepsWitnesses(g, s, n, w);
        v := w + [n];
      }
    } else {
      var nb := LinksBefore(g, s, n);
      LinksBeforeAreLinked(g, s, n, w);
      FourLinks(g, s, n, w);
      if Least(nb) == 0 {
        NewKeepsWitnesses(g, s, n, w);
        v := w + [n];
      } else {
        JoinKeepsWitnesses(g, s, n, w, nb, Least(nb));
      }
    }
  }

  lemma UnoccupiedKeepsWitnesses(g: Grid, s: Pass, n: nat, w: seq<int>)
    requires GridOk(g) && Witnessed(g, s, n, w) && n < |s.cells| && !Occupied(g, n)
    ensures Witnessed(g, s, n + 1, w) && !Begins(g, n)
  {
    LabelledNext(g, s.cells, s.table, n, w);
  }

  lemma FourLinks(g: Grid, s: Pass, n: nat, w: seq<int>)
    requires GridOk(g) && |LinksBefore(g, s, n)| == 4
    requires forall i :: 0 <= i < 4 ==> Linked(g, n, w, LinksBefore(g, s, n)[i])
    ensures var nb := LinksBefore(g, s, n);
            Least(nb) == 0 <==> forall i :: 0 <= i < 4 ==> nb[i] == 0
  {
    LeastIs(LinksBefore(g, s, n));
  }

  /** The invariant of the first pass. */
  lemma {:induction false} PassHasWitnesses(g: Grid, n: nat) returns (w: seq<int>)
    requires GridOk(g) && n <= |g.occupied|
    ensures Witnessed(g, FirstPass(g, n), n, w) && |FirstPass(g, n).table| == 1 + Beginnings(g, n)
  {
    if n == 0 {
      w := [0];
    } else {
      w := PassHasWitnesses(g, n - 1);
      w := StepKeepsWitnesses(g, FirstPass(g, n - 1), n - 1, w);
    }
  }

  /** Labels lie in the table, which leads from each label to one that is not larger. */
  lemma PassIsLabelled(g: Grid, n: nat)
    requires GridOk(g) && n <= |g.occupied|
    ensures var s := FirstPass(g, n);
            && Links(s.table) && |s.table| == 1 + Beginnings(g, n)
            && forall i :: 0 <= i < |s.cells| ==>
                 0 <= s.cells[i] < |s.table| && (s.cells[i] != 0 <==> i < n && Occupied(g, i))
  {
    var w := PassHasWitnesses(g, n);
    var s := FirstPass(g, n);
    LabelledIsInRange(g, s.cells, s.table, n, w);
  }

  lemma LabelledIsInRange(g: Grid, cells: seq<int>, t: seq<int>, n: nat, w: seq<int>)
    requires GridOk(g) && Labelled(g, cells, t, n, w) && |w| == |t|
    ensures Links(t)
    ensures forall i :: 0 <= i < |cells| ==> 0 <= cells[i] < |t| && (cells[i] != 0 <==> i < n && Occupied(g, i))
  {
    forall l | 1 <= l < |t| ensures 1 <= t[l] <= l {
      assert LabelOk(g, cells, t, n, w, l);
    }
    forall i | 0 <= i < |cells| ensures 0 <= cells[i] < |t| && (cells[i] != 0 <==> i < n && Occupied(g, i)) {
      assert i < n ==> CellOk(g, cells, w, i);
    }
  }

  /** The labels are 0 for unoccupied cells, 1..cnr for others, all in use, equal only where a path joins the cells. */
  lemma LabelsAreClustered(g: Grid)
    requires GridOk(g)
    ensures Clustered(g, Labels(g), LabelCount(g))
  {
    var w := PassHasWitnesses(g, |g.occupied|);
    var s := FirstPass(g, |g.occupied|);
    PassIsLabelled(g, |g.occupied|);
    hide FirstPass, Beginnings, Links, Labelled, Clustered, Final;
    LabelledIsClustered(g, s.cells, s.table, w, Labels(g));
  }
}
