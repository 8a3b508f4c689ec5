/** Occupied cells of a grid stored by rows, the paths between them, and the labels of a two-pass labelling. */
module ClusterSpec {

  datatype Grid = Grid(nx: nat, ny: nat, occupied: seq<int>)

  ghost predicate GridOk(g: Grid) {
    0 < g.nx && 0 < g.ny && |g.occupied| == g.nx * g.ny
  }

  predicate Occupied(g: Grid, a: int) {
    0 <= a < |g.occupied| && g.occupied[a] != 0
  }

  predicate Near(d: int) {
    -1 <= d <= 1
  }

  /** Cells that share a side or a corner. */
  predicate Adjacent(nx: nat, a: int, b: int)
    requires 0 < nx
  {
    Near(a % nx - b % nx) && Near(a / nx - b / nx)
  }

  ghost predicate IsPath(g: Grid, p: seq<int>)
    requires 0 < g.nx
  {
    && p != []
    && (forall i :: 0 <= i < |p| ==> Occupied(g, p[i]))
    && (forall i :: 0 < i < |p| ==> StepAt(g.nx, p, i))
  }

  ghost predicate StepAt(nx: nat, p: seq<int>, i: int)
    requires 0 < nx && 0 < i < |p|
  {
    Adjacent(nx, p[i - 1], p[i])
  }

  /** An 8-connected path of occupied cells joins the two. */
  ghost predicate Connected(g: Grid, a: int, b: int)
    requires 0 < g.nx
  {
    exists p :: IsPath(g, p) && p[0] == a && p[|p| - 1] == b
  }

  lemma ConnectedToItself(g: Grid, a: int)
    requires 0 < g.nx && Occupied(g, a)
    ensures Connected(g, a, a)
  {
    assert IsPath(g, [a]);
  }

  lemma ConnectedToNeighbour(g: Grid, a: int, b: int)
    requires 0 < g.nx && Occupied(g, a) && Occupied(g, b) && Adjacent(g.nx, a, b)
    ensures Connected(g, a, b)
  {
    assert IsPath(g, [a, b]);
  }

  lemma ConnectedTransitive(g: Grid, a: int, b: int, c: int)
    requires 0 < g.nx && Connected(g, a, b) && Connected(g, b, c)
    ensures Connected(g, a, c)
  {
    var p :| IsPath(g, p) && p[0] == a && p[|p| - 1] == b;
    var q :| IsPath(g, q) && q[0] == b && q[|q| - 1] == c;
    var r := p + q[1..];
    forall i | 0 < i < |r| ensures StepAt(g.nx, r, i) {
      if i < |p| {
        assert StepAt(g.nx, p, i);
      } else {
        assert StepAt(g.nx, q, i - |p| + 1) && r[i] == q[i - |p| + 1] && r[i - 1] == q[i - |p|];
      }
    }
    assert IsPath(g, r) && r[0] == a && r[|r| - 1] == c;
  }

  ghost function Reversed(p: seq<int>): (r: seq<int>)
    ensures |r| == |p| && forall i :: 0 <= i < |p| ==> r[i] == p[|p| - 1 - i]
  {
    seq(|p|, i requires 0 <= i < |p| => p[|p| - 1 - i])
  }

  lemma ConnectedSymmetric(g: Grid, a: int, b: int)
    requires 0 < g.nx && Connected(g, a, b)
    ensures Connected(g, b, a)
  {
    var p :| IsPath(g, p) && p[0] == a && p[|p| - 1] == b;
    var r := Reversed(p);
    forall i | 0 < i < |r| ensures StepAt(g.nx, r, i) {
      assert StepAt(g.nx, p, |p| - i);
    }
    assert IsPath(g, r);
  }

  /** The column and row of a cell. */
  lemma Coordinates(nx: nat, x: nat, y: nat)
    requires x < nx
    ensures (y * nx + x) % nx == x && (y * nx + x) / nx == y
  {
    var q, r := (y * nx + x) / nx, (y * nx + x) % nx;
    assert y * nx + x == q * nx + r && 0 <= r < nx;
    RowsApart(nx, q, y);
    RowsApart(nx, y, q);
  }

  lemma {:induction false} RowsApart(nx: nat, a: nat, b: nat)
    ensures a < b ==> a * nx + nx <= b * nx
    decreases b - a
  {
    if a < b {
      assert (a + 1) * nx == a * nx + nx;
      RowsApart(nx, a + 1, b);
    }
  }

  // ---------- cells that begin a new label ----------

  /** An occupied cell none of whose neighbours before it is occupied. */
  predicate Begins(g: Grid, a: nat)
    requires 0 < g.nx
  {
    var x := a % g.nx;
    && Occupied(g, a)
    && !(x > 0 && Occupied(g, a - 1)) && !Occupied(g, a - g.nx)
    && !(x > 0 && Occupied(g, a - g.nx - 1)) && !(x < g.nx - 1 && Occupied(g, a - g.nx + 1))
  }

  /** How many labels the first pass needs for the cells below n. */
  function Beginnings(g: Grid, n: nat): nat
    requires 0 < g.nx
  {
    if n == 0 then 0 else Beginnings(g, n - 1) + if Begins(g, n - 1) then 1 else 0
  }

  lemma BeginningsNext(g: Grid, n: nat)
    requires 0 < g.nx
    ensures Beginnings(g, 0) == 0 && Beginnings(g, n + 1) == Beginnings(g, n) + if Begins(g, n) then 1 else 0
  {
  }

  lemma {:induction false} BeginningsGrow(g: Grid, n: nat, m: nat)
    requires 0 < g.nx && n <= m
    ensures Beginnings(g, n) <= Beginnings(g, m)
    decreases m - n
  {
    if n < m {
      BeginningsGrow(g, n, m - 1);
    }
  }

  // ---------- the first pass ----------

  /**
   * The cells below n are labelled 1..nr, the others 0. Each label stands for the cell that witnesses it: its cells
   * are connected to that, and so is the witness of the label that the table leads to, which is never larger.
   */
  ghost predicate Labelled(g: Grid, cells: seq<int>, table: seq<int>, n: nat, w: seq<int>)
    requires GridOk(g)
  {
    && |cells| == |g.occupied| && n <= |cells| && 0 < |w| <= |table| && table[0] == 0
    && (forall i :: n <= i < |cells| ==> cells[i] == 0)
    && (forall i :: 0 <= i < n ==> CellOk(g, cells, w, i))
    && TableOk(g, cells, table, n, w)
  }

  ghost predicate CellOk(g: Grid, cells: seq<int>, w: seq<int>, i: nat)
    requires GridOk(g) && i < |cells|
  {
    if Occupied(g, i) then 1 <= cells[i] < |w| && Connected(g, i, w[cells[i]]) else cells[i] == 0
  }

  ghost predicate TableOk(g: Grid, cells: seq<int>, table: seq<int>, n: nat, w: seq<int>)
    requires GridOk(g) && n <= |cells| && |w| <= |table|
  {
    forall l :: 1 <= l < |w| ==> LabelOk(g, cells, table, n, w, l)
  }

  ghost predicate LabelOk(g: Grid, cells: seq<int>, table: seq<int>, n: nat, w: seq<int>, l: nat)
    requires GridOk(g) && n <= |cells| && |w| <= |table| && l < |w|
  {
    && 0 <= w[l] < n && cells[w[l]] == l
    && 1 <= table[l] <= l && Connected(g, w[l], w[table[l]])
  }

  /** An unoccupied cell stays 0. */
  lemma LabelledNext(g: Grid, cells: seq<int>, table: seq<int>, n: nat, w: seq<int>)
    requires GridOk(g) && Labelled(g, cells, table, n, w) && n < |cells| && !Occupied(g, n)
    ensures Labelled(g, cells, table, n + 1, w)
  {
    var m := n + 1;
    forall i | 0 <= i < m ensures CellOk(g, cells, w, i) {
      assert i < n ==> CellOk(g, cells, w, i);
    }
    forall l | 1 <= l < |w| ensures LabelOk(g, cells, table, m, w, l) {
      assert LabelOk(g, cells, table, n, w, l);
    }
  }

  /** A cell with a new label. */
  lemma LabelledNew(g: Grid, cells: seq<int>, table: seq<int>, n: nat, w: seq<int>)
    requires GridOk(g) && Labelled(g, cells, table, n, w) && n < |cells| && Occupied(g, n) && |w| < |table|
    ensures Labelled(g, cells[n := |w|], table[|w| := |w|], n + 1, w + [n])
  {
    ConnectedToItself(g, n);
    var v := w + [n];
    assert forall l :: 0 <= l < |w| ==> v[l] == w[l];
    var c, t, m := cells[n := |w|], table[|w| := |w|], n + 1;
    forall i | 0 <= i < m ensures CellOk(g, c, v, i) {
      assert i < n ==> CellOk(g, cells, w, i);
    }
    forall l | 1 <= l < |v| ensures LabelOk(g, c, t, m, v, l) {
      assert l < |w| ==> LabelOk(g, cells, table, n, w, l);
    }
  }

  /** A cell with a label in use, connected to its witness. */
  lemma LabelledOld(g: Grid, cells: seq<int>, table: seq<int>, n: nat, w: seq<int>, l: nat)
    requires GridOk(g) && Labelled(g, cells, table, n, w) && n < |cells| && Occupied(g, n)
    requires 1 <= l < |w| && Connected(g, n, w[l])
    ensures Labelled(g, cells[n := l], table, n + 1, w)
  {
    var c, m := cells[n := l], n + 1;
    forall i | 0 <= i < m ensures CellOk(g, c, w, i) {
      assert i < n ==> CellOk(g, cells, w, i);
    }
    forall k | 1 <= k < |w| ensures LabelOk(g, c, table, m, w, k) {
      assert LabelOk(g, cells, table, n, w, k);
    }
  }

  /** A link of the table changed to a smaller label whose witness is connected. */
  lemma Relinked(g: Grid, cells: seq<int>, table: seq<int>, n: nat, w: seq<int>, l: nat, m: nat)
    requires GridOk(g) && Labelled(g, cells, table, n, w)
    requires 1 <= m <= l < |w| && Connected(g, w[l], w[m])
    ensures Labelled(g, cells, table[l := m], n, w)
  {
    var t := table[l := m];
    forall k | 1 <= k < |w| ensures LabelOk(g, cells, t, n, w, k) {
      assert LabelOk(g, cells, table, n, w, k);
    }
  }

  /** What a neighbour contributes: the witness of its label's link is connected to the cell. */
  lemma NeighbourLinks(g: Grid, cells: seq<int>, table: seq<int>, n: nat, w: seq<int>, k: nat)
    requires GridOk(g) && Labelled(g, cells, table, n, w) && n < |cells| && Occupied(g, n)
    requires k < n && Occupied(g, k) && Adjacent(g.nx, n, k)
    ensures 1 <= cells[k] < |w|
    ensures var l := table[cells[k]]; 1 <= l < |w| && Connected(g, n, w[l]) && Connected(g, n, w[cells[k]])
  {
    assert CellOk(g, cells, w, k);
    var l := cells[k];
    assert LabelOk(g, cells, table, n, w, l);
    ConnectedToNeighbour(g, n, k);
    ConnectedTransitive(g, n, k, w[l]);
    ConnectedTransitive(g, n, w[l], w[table[l]]);
  }

  // ---------- the second pass ----------

  ghost predicate Links(t: seq<int>) {
    t != [] && t[0] == 0 && forall l :: 1 <= l < |t| ==> 1 <= t[l] <= l
  }

  /** The number of labels up to l that lead to themselves. */
  ghost function Roots(t: seq<int>, l: nat): nat
    requires l < |t|
  {
    if l == 0 then 0 else Roots(t, l - 1) + if t[l] == l then 1 else 0
  }

  ghost function Root(t: seq<int>, l: nat): (r: nat)
    requires Links(t) && l < |t|
    ensures r <= l && t[r] == r && (1 <= l ==> 1 <= r)
  {
    if t[l] == l then l else Root(t, t[l])
  }

  /** The final label: roots are numbered, the others take over the label they lead to. */
  ghost function Final(t: seq<int>, l: nat): nat
    requires Links(t) && l < |t|
  {
    if t[l] == l then Roots(t, l) else Final(t, t[l])
  }

  lemma {:induction false} RootsGrow(t: seq<int>, l: nat, m: nat)
    requires l <= m < |t|
    ensures Roots(t, l) <= Roots(t, m) && (l < m && t[m] == m ==> Roots(t, l) < Roots(t, m))
    decreases m
  {
    if l < m {
      RootsGrow(t, l, m - 1);
    }
  }

  lemma {:induction false} FinalIsRootNumber(t: seq<int>, l: nat)
    requires Links(t) && l < |t|
    ensures Final(t, l) == Roots(t, Root(t, l)) && (1 <= l ==> 1 <= Final(t, l)) && Final(t, l) <= Roots(t, |t| - 1)
  {
    if t[l] == l {
      RootsGrow(t, l, |t| - 1);
      if 1 <= l {
        RootsGrow(t, 0, l);
      }
    } else {
      FinalIsRootNumber(t, t[l]);
    }
  }

  /** Equal final labels come from the same root. */
  lemma SameFinalSameRoot(t: seq<int>, l: nat, m: nat)
    requires Links(t) && l < |t| && m < |t| && Final(t, l) == Final(t, m)
    ensures Root(t, l) == Root(t, m)
  {
    FinalIsRootNumber(t, l);
    FinalIsRootNumber(t, m);
    var r, s := Root(t, l), Root(t, m);
    if r < s {
      RootsGrow(t, r, s);
    } else if s < r {
      RootsGrow(t, s, r);
    }
  }

  /** Every number up to the number of roots is a final label. */
  lemma {:induction false} EveryNumberIsFinal(t: seq<int>, c: nat, n: nat) returns (l: nat)
    requires Links(t) && n < |t| && 1 <= c <= Roots(t, n)
    ensures 1 <= l <= n && t[l] == l && Final(t, l) == c
    decreases n
  {
    if t[n] == n && Roots(t, n) == c {
      l := n;
    } else {
      l := EveryNumberIsFinal(t, c, n - 1);
    }
  }

  lemma {:induction false} ConnectedToRoot(g: Grid, cells: seq<int>, t: seq<int>, n: nat, w: seq<int>, l: nat)
    requires GridOk(g) && |w| == |t| && Links(t) && Labelled(g, cells, t, n, w) && 1 <= l < |t|
    ensures Connected(g, w[l], w[Root(t, l)])
    decreases l
  {
    assert LabelOk(g, cells, t, n, w, l);
    if t[l] == l {
      assert CellOk(g, cells, w, w[l]);
      ConnectedToItself(g, w[l]);
    } else {
      ConnectedToRoot(g, cells, t, n, w, t[l]);
      ConnectedTransitive(g, w[l], w[t[l]], w[Root(t, l)]);
    }
  }

  ghost predicate Used(r: seq<int>, c: int) {
    exists i :: 0 <= i < |r| && r[i] == c
  }

  /** The result of the labelling. */
  ghost predicate Clustered(g: Grid, r: seq<int>, cnr: nat)
    requires 0 < g.nx
  {
    && |r| == |g.occupied|
    && (forall i :: 0 <= i < |r| ==> (r[i] == 0 <==> !Occupied(g, i)) && 0 <= r[i] <= cnr)
    && (forall c :: 1 <= c <= cnr ==> Used(r, c))
    && (forall i, j :: 0 <= i < |r| && 0 <= j < |r| && r[i] == r[j] != 0 ==> Connected(g, i, j))
  }

  ghost predicate Renumbered(cells: seq<int>, t: seq<int>, r: seq<int>)
    requires Links(t)
  {
    |r| == |cells| && forall i :: 0 <= i < |cells| ==> 0 <= cells[i] < |t| && r[i] == Final(t, cells[i])
  }

  /** Both passes together: labels 1..cnr are all used, and only connected cells share one. */
  lemma LabelledIsClustered(g: Grid, cells: seq<int>, t: seq<int>, w: seq<int>, r: seq<int>)
    requires GridOk(g) && Labelled(g, cells, t, |cells|, w) && |t| == |w| && Links(t) && Renumbered(cells, t, r)
    ensures Clustered(g, r, Roots(t, |t| - 1))
  {
    hide Final, Roots, TableOk, Links, Used, Connected, Labelled, Renumbered;
    LabelledSizes(g, cells, t, |cells|, w, r);
    ZeroesAreRight(g, cells, t, w, r);
    NumbersAreUsed(g, cells, t, w, r);
    SharedMeansConnected(g, cells, t, w, r);
  }

  lemma ZeroesAreRight(g: Grid, cells: seq<int>, t: seq<int>, w: seq<int>, r: seq<int>)
    requires GridOk(g) && Labelled(g, cells, t, |cells|, w) && |t| == |w| && Links(t) && Renumbered(cells, t, r)
    ensures forall i :: 0 <= i < |r| ==> (r[i] == 0 <==> !Occupied(g, i)) && 0 <= r[i] <= Roots(t, |t| - 1)
  {
    hide Final, Roots, TableOk, Links, Labelled;
    forall i | 0 <= i < |r| ensures (r[i] == 0 <==> !Occupied(g, i)) && 0 <= r[i] <= Roots(t, |t| - 1) {
      LabelIsZeroIff(g, cells, t, w, i);
      FinalIsZeroIff(t, cells[i]);
    }
  }

  lemma NumbersAreUsed(g: Grid, cells: seq<int>, t: seq<int>, w: seq<int>, r: seq<int>)
    requires GridOk(g) && Labelled(g, cells, t, |cells|, w) && |t| == |w| && Links(t) && Renumbered(cells, t, r)
    ensures forall c :: 1 <= c <= Roots(t, |t| - 1) ==> Used(r, c)
  {
    hide Final, Roots, TableOk, Labelled, Used;
    forall c | 1 <= c <= Roots(t, |t| - 1) ensures Used(r, c) {
      var l := EveryNumberIsFinal(t, c, |t| - 1);
      WitnessOf(g, cells, t, |cells|, w, l);
      UsedAt(r, w[l], c);
    }
  }

  lemma SharedMeansConnected(g: Grid, cells: seq<int>, t: seq<int>, w: seq<int>, r: seq<int>)
    requires GridOk(g) && Labelled(g, cells, t, |cells|, w) && |t| == |w| && Links(t) && Renumbered(cells, t, r)
    ensures forall i, j :: 0 <= i < |r| && 0 <= j < |r| && r[i] == r[j] != 0 ==> Connected(g, i, j)
  {
    hide Final, Roots, TableOk, Links, Labelled, Connected;
    forall i, j | 0 <= i < |r| && 0 <= j < |r| && r[i] == r[j] != 0 ensures Connected(g, i, j) {
      FinalIsZeroIff(t, cells[i]);
      FinalIsZeroIff(t, cells[j]);
      SameRootMeansConnected(g, cells, t, w, i, j);
    }
  }

  lemma SameRootMeansConnected(g: Grid, cells: seq<int>, t: seq<int>, w: seq<int>, i: nat, j: nat)
    requires GridOk(g) && Labelled(g, cells, t, |cells|, w) && |t| == |w| && Links(t)
    requires i < |cells| && j < |cells| && 1 <= cells[i] < |t| && 1 <= cells[j] < |t|
    requires Final(t, cells[i]) == Final(t, cells[j])
    ensures Connected(g, i, j)
  {
    LabelIsZeroIff(g, cells, t, w, i);
    LabelIsZeroIff(g, cells, t, w, j);
    ConnectedToRootOfLabel(g, cells, t, w, i);
    ConnectedToRootOfLabel(g, cells, t, w, j);
    SameFinalSameRoot(t, cells[i], cells[j]);
    ConnectedSymmetric(g, j, w[Root(t, cells[j])]);
    ConnectedTransitive(g, i, w[Root(t, cells[i])], j);
  }

  lemma UsedAt(r: seq<int>, i: nat, c: int)
    requires i < |r| && r[i] == c
    ensures Used(r, c)
  {
  }

  lemma LabelledSizes(g: Grid, cells: seq<int>, t: seq<int>, n: nat, w: seq<int>, r: seq<int>)
    requires GridOk(g) && Labelled(g, cells, t, n, w) && Links(t) && Renumbered(cells, t, r)
    ensures |r| == |g.occupied|
  {
    hide TableOk, Connected, Final;
  }

  lemma WitnessOf(g: Grid, cells: seq<int>, t: seq<int>, n: nat, w: seq<int>, l: nat)
    requires GridOk(g) && Labelled(g, cells, t, n, w) && 1 <= l < |w|
    ensures 0 <= w[l] < n && cells[w[l]] == l
  {
    assert LabelOk(g, cells, t, n, w, l);
  }

  lemma LabelIsZeroIff(g: Grid, cells: seq<int>, t: seq<int>, w: seq<int>, i: nat)
    requires GridOk(g) && Labelled(g, cells, t, |cells|, w) && i < |cells|
    ensures cells[i] == 0 <==> !Occupied(g, i)
  {
    hide TableOk;
    assert CellOk(g, cells, w, i);
  }

  lemma FinalIsZeroIff(t: seq<int>, l: nat)
    requires Links(t) && l < |t|
    ensures (Final(t, l) == 0 <==> l == 0) && Final(t, l) <= Roots(t, |t| - 1)
  {
    FinalIsRootNumber(t, l);
  }

  lemma ConnectedToRootOfLabel(g: Grid, cells: seq<int>, t: seq<int>, w: seq<int>, i: nat)
    requires GridOk(g) && Labelled(g, cells, t, |cells|, w) && |t| == |w| && Links(t)
    requires i < |cells| && Occupied(g, i)
    ensures 1 <= cells[i] < |t| && Connected(g, i, w[Root(t, cells[i])])
  {
    assert CellOk(g, cells, w, i);
    ConnectedToRoot(g, cells, t, |cells|, w, cells[i]);
    ConnectedTransitive(g, i, w[cells[i]], w[Root(t, cells[i])]);
  }
}
