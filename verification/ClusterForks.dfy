/**
 * Grids on which the labelling is exact, seen from the grid alone. Labels that were begun apart can meet only at
 * a fork: an occupied cell whose neighbours before it fall into two groups that do not touch. As long as no three
 * forks of a component join what was apart before, no link is lost.
 */
module ClusterForks {
  import opened ClusterSpec
  import opened ClusterPass
  import opened ClusterComplete

  function X(g: Grid, a: nat): nat
    requires 0 < g.nx
  {
    a % g.nx
  }

  predicate West(g: Grid, a: nat)
    requires 0 < g.nx
  {
    X(g, a) > 0 && Occupied(g, a - 1)
  }

  predicate NorthWest(g: Grid, a: nat)
    requires 0 < g.nx
  {
    X(g, a) > 0 && Occupied(g, a - g.nx - 1)
  }

  predicate North(g: Grid, a: nat)
    requires 0 < g.nx
  {
    Occupied(g, a - g.nx)
  }

  predicate NorthEast(g: Grid, a: nat)
    requires 0 < g.nx
  {
    X(g, a) < g.nx - 1 && Occupied(g, a - g.nx + 1)
  }

  /** An occupied cell of the later rows with an occupied neighbour on either side of a free one above. */
  predicate Fork(g: Grid, a: nat)
    requires 0 < g.nx
  {
    g.nx <= a && Occupied(g, a) && NorthEast(g, a) && !North(g, a) && (West(g, a) || NorthWest(g, a))
  }

  /** The grid without the cells from n on. */
  function Cut(g: Grid, n: nat): (r: Grid)
    ensures GridOk(g) ==> GridOk(r)
    ensures forall a :: Occupied(r, a) <==> Occupied(g, a) && a < n
  {
    g.(occupied := seq(|g.occupied|, i requires 0 <= i < |g.occupied| => if i < n then g.occupied[i] else 0))
  }

  /** Either side of a fork belongs together already: a path through cells before the fork joins them. */
  ghost predicate ForkSettled(g: Grid, a: nat)
    requires 0 < g.nx
  {
    Connected(Cut(g, a), LeftOf(g, a), a - g.nx + 1)
  }

  function LeftOf(g: Grid, a: nat): int
    requires 0 < g.nx
  {
    if West(g, a) then a - 1 else a - g.nx - 1
  }

  ghost predicate Unsettled(g: Grid, a: int)
    requires 0 < g.nx
  {
    0 <= a < |g.occupied| && Fork(g, a) && !ForkSettled(g, a)
  }

  /** No component has three forks that join what was apart before. */
  ghost predicate FewForks(g: Grid)
    requires 0 < g.nx
  {
    forall a, b, c :: Unsettled(g, a) && Unsettled(g, b) && Unsettled(g, c) && a != b && b != c && a != c ==>
      !(Connected(g, a, b) && Connected(g, b, c))
  }

  lemma AroundNorth(nx: nat, a: nat)
    requires 0 < nx <= a
    ensures a % nx > 0 ==> Adjacent(nx, a - nx, a - nx - 1) && Adjacent(nx, a - nx, a - 1)
    ensures a % nx > 0 ==> Adjacent(nx, a - 1, a - nx - 1)
    ensures a % nx < nx - 1 ==> Adjacent(nx, a - nx + 1, a - nx)
  {
    var x, y := RowOf(nx, a);
    Coordinates(nx, x, y - 1);
    assert (y - 1) * nx + x == a - nx;
    if x > 0 {
      Coordinates(nx, x - 1, y);
      Coordinates(nx, x - 1, y - 1);
    }
    if x < nx - 1 {
      Coordinates(nx, x + 1, y - 1);
    }
  }

  lemma CutIsJoined(g: Grid, s: Pass, n: nat)
    requires GridOk(g) && n <= |g.occupied| && InRange(g, s, n) && Joined(g, s, n)
    ensures InRange(Cut(g, n), s, |g.occupied|) && Joined(Cut(g, n), s, |g.occupied|)
  {
    var r := Cut(g, n);
    forall a, b | 0 <= b < a < |g.occupied| && Occupied(r, a) && Occupied(r, b) && Adjacent(r.nx, a, b)
      ensures SameRoot(s, a, b)
    {
    }
  }

  /** What is connected before cell a has the same root. */
  lemma ConnectedSameRoot(g: Grid, s: Pass, a: nat, b: nat, d: nat)
    requires GridOk(g) && a <= |g.occupied| && InRange(g, s, a) && Joined(g, s, a) && Connected(Cut(g, a), b, d)
    ensures b < |s.cells| && d < |s.cells| && SameRoot(s, d, b)
  {
    CutIsJoined(g, s, a);
    var p :| IsPath(Cut(g, a), p) && p[0] == b && p[|p| - 1] == d;
    RootAlongPath(Cut(g, a), s, p);
  }

  /** An occupied neighbour before cell a to which all others belong. */
  function Hub(g: Grid, a: nat): int
    requires 0 < g.nx
  {
    if North(g, a) then a - g.nx
    else if NorthEast(g, a) then a - g.nx + 1
    else if West(g, a) then a - 1
    else a - g.nx - 1
  }

  lemma TouchingSameRoot(g: Grid, s: Pass, a: nat, b: nat, d: nat)
    requires GridOk(g) && a <= |g.occupied| && InRange(g, s, a) && Joined(g, s, a)
    requires b < a && d < a && Occupied(g, b) && Occupied(g, d) && (b == d || Adjacent(g.nx, b, d))
    ensures SameRoot(s, b, d)
  {
    assert Adjacent(g.nx, b, d) ==> Adjacent(g.nx, d, b);
  }

  /** Where the neighbours are that come before a cell. */
  lemma BeforeIsSide(g: Grid, a: nat, b: nat)
    requires GridOk(g) && g.nx <= a && b < a && Occupied(g, b) && Adjacent(g.nx, a, b)
    ensures || (b == a - g.nx && North(g, a)) || (b == a - 1 && West(g, a))
            || (b == a - g.nx - 1 && NorthWest(g, a)) || (b == a - g.nx + 1 && NorthEast(g, a))
  {
    EarlierNeighbour(g.nx, a, b);
  }

  lemma SameRootAsHub(g: Grid, s: Pass, a: nat, b: nat)
    requires GridOk(g) && a < |g.occupied| && g.nx <= a && InRange(g, s, a) && Joined(g, s, a)
    requires Occupied(g, a) && !Unsettled(g, a)
    requires b < a && Occupied(g, b) && Adjacent(g.nx, a, b)
    ensures 0 <= Hub(g, a) < a && Occupied(g, Hub(g, a)) && SameRoot(s, b, Hub(g, a))
  {
    BeforeIsSide(g, a, b);
    if Fork(g, a) && b != Hub(g, a) {
      hide Adjacent, SameRoot, InRange, Joined, ForkSettled;
      SameRootAsLeft(g, s, a, b);
      ForkSidesSameRoot(g, s, a);
      SameRootTwice(s, b, LeftOf(g, a), Hub(g, a));
    } else {
      AroundNorth(g.nx, a);
      hide SameRoot, InRange, Joined, ForkSettled;
      assert Adjacent(g.nx, a - g.nx, b) ==> Adjacent(g.nx, b, a - g.nx);
      TouchingSameRoot(g, s, a, b, Hub(g, a));
    }
  }

  lemma SameRootAsLeft(g: Grid, s: Pass, a: nat, b: nat)
    requires GridOk(g) && a < |g.occupied| && g.nx <= a && InRange(g, s, a) && Joined(g, s, a)
    requires Fork(g, a) && b < a && Occupied(g, b) && Adjacent(g.nx, a, b) && b != Hub(g, a)
    ensures 0 <= LeftOf(g, a) < a && Occupied(g, LeftOf(g, a)) && SameRoot(s, b, LeftOf(g, a))
  {
    BeforeIsSide(g, a, b);
    WestTouches(g, a);
    hide Adjacent, SameRoot, InRange, Joined;
    TouchingSameRoot(g, s, a, b, LeftOf(g, a));
  }

  lemma WestTouches(g: Grid, a: nat)
    requires 0 < g.nx <= a
    ensures X(g, a) > 0 ==> g.nx < a && Adjacent(g.nx, a - 1, a - g.nx - 1) && Adjacent(g.nx, a - g.nx - 1, a - 1)
  {
    AroundNorth(g.nx, a);
    var x, y := RowOf(g.nx, a);
    assert a == g.nx ==> Adjacent(g.nx, 0, 0) && a % g.nx == 0;
  }

  lemma ForkSidesSameRoot(g: Grid, s: Pass, a: nat)
    requires GridOk(g) && a < |g.occupied| && InRange(g, s, a) && Joined(g, s, a) && Fork(g, a) && ForkSettled(g, a)
    ensures 0 <= LeftOf(g, a) < a && Hub(g, a) < |s.cells| && SameRoot(s, LeftOf(g, a), Hub(g, a))
  {
    WestTouches(g, a);
    ConnectedSameRoot(g, s, a, LeftOf(g, a), Hub(g, a));
  }

  lemma SameRootTwice(s: Pass, a: nat, b: nat, c: nat)
    requires Links(s.table) && a < |s.cells| && b < |s.cells| && c < |s.cells| && SameRoot(s, a, b) && SameRoot(s, b, c)
    ensures SameRoot(s, a, c)
  {
  }

  // ---------- the labels that meet ----------

  /** The neighbour that contributes a link. */
  lemma ContributedBy(g: Grid, s: Pass, a: nat, i: nat) returns (b: nat)
    requires GridOk(g) && a < |g.occupied| && g.nx <= a && InRange(g, s, a)
    requires i < 4 && LinksBefore(g, s, a)[i] != 0
    ensures b < a && Occupied(g, b) && Adjacent(g.nx, a, b) && LinksBefore(g, s, a)[i] == LinkOf(s, b)
    ensures 0 < s.cells[b] < |s.table| && LinkOf(s, b) == s.table[s.cells[b]]
  {
    NeighboursBefore(g, a);
    WestTouches(g, a);
    b := if i == 0 then a - g.nx - 1 else if i == 1 then a - g.nx else if i == 2 then a - g.nx + 1 else a - 1;
    hide Adjacent;
  }

  /** The labels that meet at a cell. */
  ghost predicate Meet(g: Grid, s: Pass, a: nat, nb: seq<int>)
    requires GridOk(g)
  {
    && g.nx <= a < |g.occupied| && Occupied(g, a) && InRange(g, s, a) && Joined(g, s, a)
    && nb == LinksBefore(g, s, a) && Least(nb) != 0
  }

  lemma MeetInRange(g: Grid, s: Pass, a: nat, nb: seq<int>)
    requires GridOk(g) && Meet(g, s, a, nb)
    ensures Links(s.table) && |nb| == 4 && 0 < Least(nb) < |s.table|
    ensures forall i :: 0 <= i < 4 ==> 0 <= nb[i] < |s.table| && (nb[i] != 0 ==> Least(nb) <= nb[i])
    ensures exists j :: 0 <= j < 4 && nb[j] == Least(nb)
  {
    BeforeAreInRange(g, s, a);
    LeastIs(nb);
  }

  /** At most two roots meet, and one only unless at an unsettled fork. */
  lemma RootsThatMeet(g: Grid, s: Pass, a: nat, nb: seq<int>) returns (r: nat, q: nat)
    requires GridOk(g) && Meet(g, s, a, nb)
    ensures Links(s.table) && |nb| == 4 && (!Unsettled(g, a) ==> r == q)
    ensures forall i :: 0 <= i < 4 && nb[i] != 0 ==> HasRoot(s.table, nb[i], r) || HasRoot(s.table, nb[i], q)
  {
    MeetInRange(g, s, a, nb);
    r := RootOfCell(s, Hub(g, a));
    q := if Unsettled(g, a) then RootOfCell(s, LeftOf(g, a)) else r;
    forall i | 0 <= i < 4 && nb[i] != 0 ensures HasRoot(s.table, nb[i], r) || HasRoot(s.table, nb[i], q) {
      LinkHasRoot(g, s, a, nb, i);
    }
  }

  ghost predicate HasRoot(t: seq<int>, l: int, r: int)
    requires Links(t)
  {
    0 < l < |t| && Root(t, l) == r
  }

  ghost function RootOfCell(s: Pass, b: int): nat
    requires Links(s.table)
  {
    if 0 <= b < |s.cells| && 0 <= s.cells[b] < |s.table| then Root(s.table, s.cells[b]) else 0
  }

  lemma LinkHasRoot(g: Grid, s: Pass, a: nat, nb: seq<int>, i: nat)
    requires GridOk(g) && Meet(g, s, a, nb) && i < 4 && nb[i] != 0 && Links(s.table)
    ensures || HasRoot(s.table, nb[i], RootOfCell(s, Hub(g, a)))
            || (Unsettled(g, a) && HasRoot(s.table, nb[i], RootOfCell(s, LeftOf(g, a))))
  {
    MeetInRange(g, s, a, nb);
    var b := ContributedBy(g, s, a, i);
    LinksAreInRange(g, s, a, b);
    hide LinksBefore, Joined, Fork, ForkSettled, Hub, LeftOf, Adjacent;
    if Unsettled(g, a) {
      if b != Hub(g, a) {
        SameRootAsLeft(g, s, a, b);
      }
    } else {
      SameRootAsHub(g, s, a, b);
    }
  }

  // ---------- the forks that made labels lead on ----------

  /** A label that leads on was made to at its own unsettled fork, in the component of its witness. */
  ghost predicate Made(g: Grid, t: seq<int>, n: nat, w: seq<int>, f: seq<int>, l: nat)
    requires 0 < g.nx && l < |t| == |w| == |f|
  {
    t[l] == l || (0 <= f[l] < n && Unsettled(g, f[l]) && Connected(g, f[l], w[l]))
  }

  ghost predicate MadeApart(t: seq<int>, f: seq<int>, l: nat, m: nat)
    requires l < |t| == |f| && m < |t|
  {
    l != m && t[l] != l && t[m] != m ==> f[l] != f[m]
  }

  ghost predicate Makers(g: Grid, t: seq<int>, n: nat, w: seq<int>, f: seq<int>)
    requires 0 < g.nx
  {
    && |t| == |w| == |f|
    && (forall l :: 0 <= l < |t| ==> Made(g, t, n, w, f, l))
    && (forall l, m :: 0 <= l < |t| && 0 <= m < |t| ==> MadeApart(t, f, l, m))
  }

  /** A third fork would be needed for a label that leads on to meet another root. */
  lemma FewForksLoseNothing(g: Grid, s: Pass, a: nat, nb: seq<int>, w: seq<int>, f: seq<int>)
    requires GridOk(g) && FewForks(g) && Meet(g, s, a, nb) && Witnessed(g, s, a, w) && Makers(g, s.table, a, w, f)
    ensures NothingLost(s.table, nb, Least(nb))
  {
    MeetInRange(g, s, a, nb);
    var r, q := RootsThatMeet(g, s, a, nb);
    var c, t := Least(nb), s.table;
    hide Meet, Least, Makers, Witnessed, FewForks;
    forall i | 0 <= i < |nb| && nb[i] != 0 ensures NotLost(t, nb[i], c) {
      if Unsettled(g, a) {
        MeetsRootOnly(g, s, a, nb, i, w, f);
      }
    }
  }

  lemma MeetsRootOnly(g: Grid, s: Pass, a: nat, nb: seq<int>, i: nat, w: seq<int>, f: seq<int>)
    requires GridOk(g) && FewForks(g) && Meet(g, s, a, nb) && Witnessed(g, s, a, w) && Makers(g, s.table, a, w, f)
    requires Unsettled(g, a) && i < 4 && nb[i] != 0
    ensures 0 < nb[i] < |s.table| && s.table[nb[i]] == nb[i]
  {
    MeetInRange(g, s, a, nb);
    LinksBeforeAreLinked(g, s, a, w);
    var l, t := nb[i], s.table;
    assert Linked(g, a, w, l);
    var b := ContributedBy(g, s, a, i);
    var p := s.cells[b];
    assert LabelOk(g, s.cells, t, a, w, p);
    hide LinksBefore, Joined, InRange, Connected, Unsettled, Meet, Witnessed;
    if t[l] != l {
      assert Made(g, t, a, w, f, l) && Made(g, t, a, w, f, p) && MadeApart(t, f, l, p);
      ConnectedSymmetric(g, w[p], w[l]);
      ConnectedSymmetric(g, f[p], w[p]);
      ConnectedSymmetric(g, f[l], w[l]);
      ConnectedTransitive(g, a, w[l], f[l]);
      ConnectedTransitive(g, f[l], w[l], w[p]);
      ConnectedTransitive(g, f[l], w[p], f[p]);
      assert false;
    }
  }

  lemma {:induction false} RelinkTouches(t: seq<int>, nb: seq<int>, c: int, l: nat)
    requires l < |t| && Relink(t, nb, c)[l] != t[l]
    ensures c == Relink(t, nb, c)[l] < t[l] && exists i :: 0 <= i < |nb| && nb[i] == l
  {
    if nb != [] {
      var pre, m := nb[..|nb| - 1], nb[|nb| - 1];
      if Relink(t, pre, c)[l] != t[l] {
        RelinkTouches(t, pre, c, l);
        var i :| 0 <= i < |pre| && pre[i] == l;
        assert nb[i] == l;
      } else {
        assert nb[|nb| - 1] == l;
      }
    }
  }

  /** A root that gets a link at a cell: there is one at most, and the cell is an unsettled fork. */
  ghost predicate Yields(t: seq<int>, u: seq<int>, l: nat)
    requires l < |t| == |u|
  {
    t[l] == l && u[l] != l
  }

  lemma OneYields(g: Grid, s: Pass, a: nat, nb: seq<int>, l: nat, m: nat)
    requires GridOk(g) && Meet(g, s, a, nb) && l < |s.table| && m < |s.table|
    requires Yields(s.table, Relink(s.table, nb, Least(nb)), l) && Yields(s.table, Relink(s.table, nb, Least(nb)), m)
    ensures l == m && Unsettled(g, a) && exists i :: 0 <= i < |nb| && nb[i] == l
  {
    MeetInRange(g, s, a, nb);
    var r, q := RootsThatMeet(g, s, a, nb);
    var c, t := Least(nb), s.table;
    RelinkTouches(t, nb, c, l);
    RelinkTouches(t, nb, c, m);
    hide Meet, Least, Relink, Unsettled;
    var j :| 0 <= j < 4 && nb[j] == c;
    assert Root(t, c) <= c;
    assert HasRoot(t, l, l) && HasRoot(t, m, m);
  }

  lemma NoneMade(g: Grid, t: seq<int>, u: seq<int>, n: nat, w: seq<int>, f: seq<int>)
    requires 0 < g.nx && Makers(g, t, n, w, f) && |u| == |t|
    requires forall l :: 0 <= l < |t| ==> (t[l] == l <==> u[l] == l)
    ensures Makers(g, u, n + 1, w, f)
  {
    var next := n + 1;
    forall l | 0 <= l < |u| ensures Made(g, u, next, w, f, l) {
      assert Made(g, t, n, w, f, l);
    }
    forall l, m | 0 <= l < |u| && 0 <= m < |u| ensures MadeApart(u, f, l, m) {
      assert MadeApart(t, f, l, m);
    }
  }

  lemma OneMade(g: Grid, t: seq<int>, u: seq<int>, n: nat, w: seq<int>, f: seq<int>, k: nat)
    requires 0 < g.nx && Makers(g, t, n, w, f) && |u| == |t|
    requires forall l :: 0 <= l < |t| && l != k ==> (t[l] == l <==> u[l] == l)
    requires k < |t| && Unsettled(g, n) && Connected(g, n, w[k])
    ensures Makers(g, u, n + 1, w, f[k := n])
  {
    hide Unsettled, Connected;
    var e, next := f[k := n], n + 1;
    forall l | 0 <= l < |u| ensures Made(g, u, next, w, e, l) {
      assert Made(g, t, n, w, f, l);
    }
    forall l, m | 0 <= l < |u| && 0 <= m < |u| ensures MadeApart(u, e, l, m) {
      assert Made(g, t, n, w, f, l) && Made(g, t, n, w, f, m) && MadeApart(t, f, l, m);
    }
  }

  lemma LeadsOnStill(g: Grid, s: Pass, a: nat, nb: seq<int>, l: nat)
    requires GridOk(g) && Meet(g, s, a, nb) && l < |s.table| && s.table[l] != l
    ensures Relink(s.table, nb, Least(nb))[l] != l
  {
    MeetInRange(g, s, a, nb);
    hide Meet, Relink, Least;
    if Relink(s.table, nb, Least(nb))[l] != s.table[l] {
      RelinkTouches(s.table, nb, Least(nb), l);
    }
  }

  lemma OnlyOneYields(g: Grid, s: Pass, a: nat, nb: seq<int>, k: nat, l: nat)
    requires GridOk(g) && Meet(g, s, a, nb) && k < |s.table| && l < |s.table|
    requires Yields(s.table, Relink(s.table, nb, Least(nb)), k)
    ensures l != k ==> (s.table[l] == l <==> Relink(s.table, nb, Least(nb))[l] == l)
  {
    hide Meet, Relink, Least, Unsettled;
    var u := Relink(s.table, nb, Least(nb));
    if s.table[l] != l {
      LeadsOnStill(g, s, a, nb, l);
    } else if u[l] != l {
      OneYields(g, s, a, nb, k, l);
    }
  }

  lemma YieldsAtFork(g: Grid, s: Pass, a: nat, nb: seq<int>, w: seq<int>, k: nat)
    requires GridOk(g) && Meet(g, s, a, nb) && Witnessed(g, s, a, w) && k < |s.table|
    requires Yields(s.table, Relink(s.table, nb, Least(nb)), k)
    ensures |w| == |s.table| && Unsettled(g, a) && Connected(g, a, w[k])
  {
    MeetLinked(g, s, a, nb, w);
    MeetInRange(g, s, a, nb);
    RelinkTouches(s.table, nb, Least(nb), k);
    OneYields(g, s, a, nb, k, k);
    WitnessPerLabel(g, s, a, w);
    hide Meet, Relink, Least, Unsettled, Witnessed;
    var i :| 0 <= i < |nb| && nb[i] == k;
    assert Linked(g, a, w, nb[i]);
  }

  lemma JoinKeepsMakers(g: Grid, s: Pass, a: nat, nb: seq<int>, w: seq<int>, f: seq<int>) returns (e: seq<int>)
    requires GridOk(g) && Meet(g, s, a, nb) && Witnessed(g, s, a, w) && Makers(g, s.table, a, w, f)
    ensures Makers(g, Relink(s.table, nb, Least(nb)), a + 1, w, e)
  {
    assert |f| == |s.table|;
    hide Meet, Witnessed, Relink, Least, Makers, Unsettled, Connected;
    var t, u := s.table, Relink(s.table, nb, Least(nb));
    if k :| 0 <= k < |t| && Yields(t, u, k) {
      YieldsAtFork(g, s, a, nb, w, k);
      forall l | 0 <= l < |t| && l != k ensures t[l] == l <==> u[l] == l {
        OnlyOneYields(g, s, a, nb, k, l);
      }
      e := f[k := a];
      OneMade(g, t, u, a, w, f, k);
    } else {
      e := f;
      forall l | 0 <= l < |t| ensures t[l] == l <==> u[l] == l {
        assert !Yields(t, u, l);
        if t[l] != l {
          LeadsOnStill(g, s, a, nb, l);
        }
      }
      NoneMade(g, t, u, a, w, f);
    }
  }

  lemma MeetLinked(g: Grid, s: Pass, a: nat, nb: seq<int>, w: seq<int>)
    requires GridOk(g) && Meet(g, s, a, nb) && Witnessed(g, s, a, w)
    ensures |nb| == 4 && forall i :: 0 <= i < 4 ==> Linked(g, a, w, nb[i])
  {
    LinksBeforeAreLinked(g, s, a, w);
  }

  // ---------- the whole pass ----------

  lemma LongerKeepsMakers(g: Grid, t: seq<int>, n: nat, w: seq<int>, f: seq<int>, v: seq<int>)
    requires 0 < g.nx && Makers(g, t, n, w, f) && w <= v && |v| == |t| + 1
    ensures Makers(g, t + [|t|], n + 1, v, f + [0])
  {
    var u, e, next := t + [|t|], f + [0], n + 1;
    forall l | 0 <= l < |u| ensures Made(g, u, next, v, e, l) {
      assert l < |t| ==> Made(g, t, n, w, f, l);
    }
    forall l, m | 0 <= l < |u| && 0 <= m < |u| ensures MadeApart(u, e, l, m) {
      assert l < |t| && m < |t| ==> MadeApart(t, f, l, m);
    }
  }

  lemma LaterKeepsMakers(g: Grid, t: seq<int>, n: nat, w: seq<int>, f: seq<int>)
    requires 0 < g.nx && Makers(g, t, n, w, f)
    ensures Makers(g, t, n + 1, w, f)
  {
    var next := n + 1;
    forall l | 0 <= l < |t| ensures Made(g, t, next, w, f, l) {
      assert Made(g, t, n, w, f, l);
    }
  }

  lemma WitnessPerLabel(g: Grid, s: Pass, n: nat, w: seq<int>)
    requires GridOk(g) && Witnessed(g, s, n, w)
    ensures |w| == |s.table|
  {
    hide Labelled;
  }

  predicate Joins(g: Grid, s: Pass, a: nat)
    requires 0 < g.nx
  {
    Occupied(g, a) && g.nx <= a && Least(LinksBefore(g, s, a)) != 0
  }

  lemma TableAfter(g: Grid, s: Pass, a: nat)
    requires 0 < g.nx && a < |g.occupied| == |s.cells|
    ensures var nb, t := LinksBefore(g, s, a), Step(g, s, a).table;
            if Joins(g, s, a) then t == Relink(s.table, nb, Least(nb)) else t == s.table || t == s.table + [|s.table|]
  {
    hide LinksBefore, Least, Relink;
  }

  lemma StepKeepsMakers(g: Grid, s: Pass, a: nat, w: seq<int>, v: seq<int>, f: seq<int>) returns (e: seq<int>)
    requires GridOk(g) && a < |g.occupied| == |s.cells| && InRange(g, s, a) && Joined(g, s, a)
    requires Witnessed(g, s, a, w) && Makers(g, s.table, a, w, f)
    requires Witnessed(g, Step(g, s, a), a + 1, v) && w <= v
    ensures Makers(g, Step(g, s, a).table, a + 1, v, e)
  {
    hide Witnessed, InRange, Joined, Makers, LinksBefore, Least, Step, Relink;
    var nb, t := LinksBefore(g, s, a), Step(g, s, a).table;
    WitnessPerLabel(g, s, a, w);
    WitnessPerLabel(g, Step(g, s, a), a + 1, v);
    TableAfter(g, s, a);
    assert |t| == |s.table| ==> v == w;
    if Joins(g, s, a) {
      e := JoinKeepsMakers(g, s, a, nb, w, f);
    } else if t == s.table {
      e := f;
      LaterKeepsMakers(g, t, a, w, f);
    } else {
      e := f + [0];
      LongerKeepsMakers(g, s.table, a, w, f, v);
    }
  }

  /** All that is known of the first pass over the cells below n. */
  ghost predicate Followed(g: Grid, n: nat, w: seq<int>, f: seq<int>)
    requires GridOk(g) && n <= |g.occupied|
  {
    var s := FirstPass(g, n);
    InRange(g, s, n) && Joined(g, s, n) && Witnessed(g, s, n, w) && Makers(g, s.table, n, w, f)
  }

  lemma JoinIsLossless(g: Grid, a: nat, w: seq<int>, f: seq<int>)
    requires GridOk(g) && a < |g.occupied| && FewForks(g) && Followed(g, a, w, f)
    ensures g.nx <= a && Occupied(g, a) ==> JoinLossless(g, a)
  {
    hide FirstPass, FewForks, InRange, Joined, Witnessed, Makers, LinksBefore, Least, NothingLost;
    var s := FirstPass(g, a);
    var nb := LinksBefore(g, s, a);
    if g.nx <= a && Occupied(g, a) && Least(nb) != 0 {
      FewForksLoseNothing(g, s, a, nb, w, f);
    }
  }

  lemma FollowStep(g: Grid, a: nat, w: seq<int>, f: seq<int>) returns (v: seq<int>, e: seq<int>)
    requires GridOk(g) && a < |g.occupied| && Followed(g, a, w, f)
    requires g.nx <= a && Occupied(g, a) ==> JoinLossless(g, a)
    ensures Followed(g, a + 1, v, e)
  {
    PassIsLabelled(g, a + 1);
    hide Joined, JoinLossless, Step, Witnessed, Makers;
    var s := FirstPass(g, a);
    StepKeepsJoined(g, s, a);
    v := StepKeepsWitnesses(g, s, a, w);
    e := StepKeepsMakers(g, s, a, w, v, f);
  }

  lemma FollowStart(g: Grid)
    requires GridOk(g)
    ensures Followed(g, 0, [0], [0])
  {
    PassIsLabelled(g, 0);
  }

  lemma {:induction false} FollowPass(g: Grid, n: nat) returns (w: seq<int>, f: seq<int>)
    requires GridOk(g) && n <= |g.occupied| && FewForks(g)
    ensures Followed(g, n, w, f)
    ensures forall a :: g.nx <= a < n && Occupied(g, a) ==> JoinLossless(g, a)
  {
    hide JoinLossless, FewForks, Followed;
    if n == 0 {
      w, f := [0], [0];
      FollowStart(g);
    } else {
      w, f := FollowPass(g, n - 1);
      JoinIsLossless(g, n - 1, w, f);
      w, f := FollowStep(g, n - 1, w, f);
    }
  }

  /**
   * As long as no component has three forks that join what was apart before, no link is lost, and the labels are
   * exactly the connected components. The condition is one on the grid alone.
   */
  lemma FewForksIsExact(g: Grid)
    requires GridOk(g) && FewForks(g)
    ensures Lossless(g) && Exact(g)
  {
    var w, f := FollowPass(g, |g.occupied|);
    LosslessIsExact(g);
  }
}
