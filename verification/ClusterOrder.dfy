/** The order of the numbers: clusters are numbered as the scan by rows meets them. */
module ClusterOrder {
  import opened ClusterSpec
  import opened ClusterPass
  import opened ClusterComplete

  ghost predicate UsedBelow(r: seq<int>, n: int, c: int) {
    exists j :: 0 <= j < n && j < |r| && r[j] == c
  }

  /** No number but 1 comes up before the one below it has. */
  ghost predicate InOrder(r: seq<int>, n: int) {
    forall i :: 0 <= i < n && i < |r| && 2 <= r[i] ==> UsedBelow(r, i, r[i] - 1)
  }

  ghost predicate AllUsed(s: Pass, n: int) {
    forall l :: 1 <= l < |s.table| ==> UsedBelow(s.cells, n, l)
  }

  lemma UsedStill(r: seq<int>, a: nat, c: int, n: int, l: int)
    requires a < |r| && n <= a && UsedBelow(r, n, l)
    ensures UsedBelow(r[a := c], n, l) && UsedBelow(r[a := c], a + 1, l)
  {
    var j :| 0 <= j < n && j < |r| && r[j] == l;
    assert r[a := c][j] == l;
  }

  lemma NextCameBefore(r: seq<int>, a: nat, c: int)
    requires InOrder(r, a) && 2 <= c && UsedBelow(r, a, c)
    ensures UsedBelow(r, a, c - 1)
  {
    var j :| 0 <= j < a && j < |r| && r[j] == c;
    assert UsedBelow(r, j, c - 1);
    var i :| 0 <= i < j && i < |r| && r[i] == c - 1;
  }

  /** One more cell: a label that has come up, or the next one. */
  lemma OneMoreInOrder(r: seq<int>, a: nat, c: int)
    requires a < |r| && InOrder(r, a) && (2 <= c ==> UsedBelow(r, a, c) || UsedBelow(r, a, c - 1))
    ensures InOrder(r[a := c], a + 1)
  {
    var q := r[a := c];
    if 2 <= c && UsedBelow(r, a, c) {
      NextCameBefore(r, a, c);
    }
    forall i | 0 <= i < a + 1 && 2 <= q[i] ensures UsedBelow(q, i, q[i] - 1) {
      if i < a {
        assert UsedBelow(r, i, r[i] - 1);
        UsedStill(r, a, c, i, r[i] - 1);
      } else {
        UsedStill(r, a, c, a, c - 1);
      }
    }
  }

  lemma StepInOrder(g: Grid, s: Pass, a: nat)
    requires GridOk(g) && a < |s.cells| == |g.occupied| && InRange(g, s, a) && InOrder(s.cells, a) && AllUsed(s, a)
    ensures var r := Step(g, s, a); InOrder(r.cells, a + 1) && AllUsed(r, a + 1)
  {
    var r := Step(g, s, a);
    var c := r.cells[a];
    CellIsLabelled(g, s, a);
    hide Step, LinksBefore, Least, Relink, InRange, UsedBelow;
    OneMoreInOrder(s.cells, a, c);
    var next := a + 1;
    forall l | 1 <= l < |r.table| ensures UsedBelow(r.cells, next, l) {
      if l < |s.table| {
        UsedStill(s.cells, a, c, a, l);
      } else {
        UsedHere(r.cells, a, c);
      }
    }
  }

  lemma UsedHere(r: seq<int>, a: nat, c: int)
    requires a < |r| && r[a] == c
    ensures UsedBelow(r, a + 1, c)
  {
  }

  /** The label a cell gets, and the length of the table. */
  lemma CellIsLabelled(g: Grid, s: Pass, a: nat)
    requires GridOk(g) && a < |s.cells| == |g.occupied| && InRange(g, s, a)
    ensures var r := Step(g, s, a);
            && r.cells == s.cells[a := r.cells[a]] && 0 <= r.cells[a] <= |s.table|
            && |r.table| == if r.cells[a] == |s.table| then |s.table| + 1 else |s.table|
  {
    BeforeAreInRange(g, s, a);
    hide LinksBefore, Least;
  }

  lemma PassInRange(g: Grid, n: nat)
    requires GridOk(g) && n <= |g.occupied|
    ensures InRange(g, FirstPass(g, n), n)
  {
    hide FirstPass, Links, Occupied, Beginnings;
    PassIsLabelled(g, n);
  }

  lemma PassNext(g: Grid, n: nat)
    requires GridOk(g) && n < |g.occupied|
    ensures FirstPass(g, n + 1) == Step(g, FirstPass(g, n), n)
  {
    hide Step;
  }

  /** After n cells. */
  ghost predicate OrderedPass(g: Grid, n: nat)
    requires GridOk(g) && n <= |g.occupied|
  {
    var s := FirstPass(g, n);
    InOrder(s.cells, n) && AllUsed(s, n)
  }

  lemma OrderedNext(g: Grid, n: nat)
    requires GridOk(g) && n < |g.occupied| && OrderedPass(g, n)
    ensures OrderedPass(g, n + 1)
  {
    PassInRange(g, n);
    PassNext(g, n);
    hide FirstPass, InOrder, AllUsed, InRange, Step;
    StepInOrder(g, FirstPass(g, n), n);
  }

  lemma {:induction false} PassInOrder(g: Grid, n: nat)
    requires GridOk(g) && n <= |g.occupied|
    ensures OrderedPass(g, n)
    decreases n
  {
    if 0 < n {
      PassInOrder(g, n - 1);
      hide OrderedPass;
      OrderedNext(g, n - 1);
    }
  }

  /** All smaller labels have come up before. */
  lemma {:induction false} SmallerCameBefore(r: seq<int>, n: nat, i: nat, l: int)
    requires InOrder(r, n) && i < n <= |r| && 1 <= l < r[i]
    ensures UsedBelow(r, i, l)
    decreases r[i] - l
  {
    assert UsedBelow(r, i, r[i] - 1);
    var j :| 0 <= j < i && j < |r| && r[j] == r[i] - 1;
    if l < r[j] {
      SmallerCameBefore(r, n, j, l);
    }
  }

  lemma RootBelowRoot(t: seq<int>, l: nat, m: nat)
    requires Links(t) && l < |t| && m < |t| && t[l] == l && Final(t, l) < Final(t, m)
    ensures l < m
  {
    FinalIsRootNumber(t, l);
    FinalIsRootNumber(t, m);
    var r := Root(t, m);
    if r <= l {
      RootsGrow(t, r, l);
    }
  }

  lemma {:induction false} FinalsInOrder(t: seq<int>, cells: seq<int>, i: nat)
    requires Links(t) && i < |cells| && InOrder(cells, |cells|) && 0 <= cells[i] < |t| && 2 <= Final(t, cells[i])
    ensures exists j :: 0 <= j < i && 0 <= cells[j] < |t| && Final(t, cells[j]) == Final(t, cells[i]) - 1
  {
    hide Final, InOrder;
    FinalIsRootNumber(t, cells[i]);
    var l := EveryNumberIsFinal(t, Final(t, cells[i]) - 1, |t| - 1);
    RootBelowRoot(t, l, cells[i]);
    SmallerCameBefore(cells, |cells|, i, l);
    var j :| 0 <= j < i && j < |cells| && cells[j] == l;
  }

  /** Going by rows, each number but 1 comes up after the number below it. */
  lemma LabelsInOrder(g: Grid)
    requires GridOk(g)
    ensures InOrder(Labels(g), |g.occupied|)
  {
    var s := FirstPass(g, |g.occupied|);
    PassInOrder(g, |g.occupied|);
    PassIsLabelled(g, |g.occupied|);
    var r := Labels(g);
    forall i | 0 <= i < |r| && 2 <= r[i] ensures UsedBelow(r, i, r[i] - 1) {
      FinalsInOrder(s.table, s.cells, i);
      hide Final, FirstPass;
      var j :| 0 <= j < i && 0 <= s.cells[j] < |s.table| && Final(s.table, s.cells[j]) == r[i] - 1;
      assert r[j] == r[i] - 1;
    }
  }
}
