/** cluster.c: compute_clusters, with the table of label links on the stack. */
module Clusters {
  import opened ClusterSpec
  import opened ClusterPass

  const MAX_LABELS: nat := 1024

  /** The arrays hold the first pass as far as cell n; nr labels are in use. */
  ghost predicate Holds(g: Grid, clusters: array<int>, table: array<int>, n: nat, nr: nat)
    requires GridOk(g) && n <= |g.occupied|
    reads clusters, table
  {
    && clusters.Length == |g.occupied| && table.Length == MAX_LABELS && nr < MAX_LABELS
    && clusters[..] == FirstPass(g, n).cells && table[..nr + 1] == FirstPass(g, n).table
  }

  /** cluster_idx[clusters[k]] for a cell that may lie outside the grid. */
  method LinkAt(g: Grid, clusters: array<int>, table: array<int>, n: nat, nr: nat, inGrid: bool, k: int)
    returns (l: int)
    requires GridOk(g) && n <= |g.occupied| && Holds(g, clusters, table, n, nr) && (inGrid ==> 0 <= k < clusters.Length)
    ensures l == if inGrid then LinkOf(FirstPass(g, n), k) else 0
  {
    PassIsLabelled(g, n);
    hide FirstPass, Links;
    ghost var s := FirstPass(g, n);
    if !inGrid {
      return 0;
    }
    assert clusters[k] == s.cells[k];
    l := table[clusters[k]];
    assert l == table[..nr + 1][s.cells[k]];
  }

  method LinksAt(g: Grid, clusters: array<int>, table: array<int>, n: nat, nr: nat) returns (nb: seq<int>)
    requires GridOk(g) && g.nx <= n < |g.occupied| && Holds(g, clusters, table, n, nr)
    ensures nb == LinksBefore(g, FirstPass(g, n), n)
  {
    NeighboursBefore(g, n);
    hide FirstPass, Holds, GridOk, LinkOf;
    var x, nx := n % g.nx, g.nx;
    var nb0 := LinkAt(g, clusters, table, n, nr, x > 0, n - nx - 1);
    var nb1 := LinkAt(g, clusters, table, n, nr, true, n - nx);
    var nb2 := LinkAt(g, clusters, table, n, nr, x < nx - 1, n - nx + 1);
    var nb3 := LinkAt(g, clusters, table, n, nr, x > 0, n - 1);
    nb := [nb0, nb1, nb2, nb3];
  }

  method Smallest(nb: seq<int>) returns (cidx: int)
    ensures cidx == Least(nb)
  {
    cidx := 0;
    for i := 0 to |nb|
      invariant cidx == Least(nb[..i])
    {
      assert nb[..i + 1][..i] == nb[..i];
      if nb[i] != 0 && (cidx == 0 || nb[i] < cidx) {
        cidx := nb[i];
      }
    }
    assert nb[..|nb|] == nb;
  }

  /** Points larger links at the smallest of the labels that meet at a cell. */
  method RelinkLabels(table: array<int>, nr: nat, nb: seq<int>, cidx: int)
    requires nr < table.Length && forall i :: 0 <= i < |nb| ==> 0 <= nb[i] <= nr
    modifies table
    ensures table[..nr + 1] == Relink(old(table[..nr + 1]), nb, cidx)
  {
    ghost var t := table[..nr + 1];
    for i := 0 to |nb|
      invariant table[..nr + 1] == Relink(t, nb[..i], cidx)
    {
      assert nb[..i + 1][..i] == nb[..i];
      ghost var u := Relink(t, nb[..i], cidx);
      assert table[nb[i]] == u[nb[i]];
      if nb[i] != 0 && table[nb[i]] > cidx {
        table[nb[i]] := cidx;
        assert table[..nr + 1] == u[nb[i] := cidx];
      }
    }
    assert nb[..|nb|] == nb;
  }

  method AddLabel(clusters: array<int>, table: array<int>, nrClusters: nat, idx: nat, ghost s: Pass) returns (nr: nat)
    requires clusters != table && idx < clusters.Length && nrClusters + 1 < table.Length
    requires clusters[..] == s.cells && table[..nrClusters + 1] == s.table
    modifies clusters, table
    ensures nr == nrClusters + 1 && clusters[..] == NewLabel(s, idx).cells && table[..nr + 1] == NewLabel(s, idx).table
  {
    nr := nrClusters + 1;
    table[nr] := nr;
    clusters[idx] := nr;
    assert table[..nr + 1] == s.table + [nr];
    assert clusters[..] == s.cells[idx := nr];
  }

  /** The first pass over one cell. In the first row the label to the left is taken over as it is. */
  method LabelCell(g: Grid, clusters: array<int>, table: array<int>, nrClusters: nat, idx: nat) returns (nr: nat)
    requires GridOk(g) && idx < |g.occupied| && clusters != table && Holds(g, clusters, table, idx, nrClusters)
    requires Begins(g, idx) ==> nrClusters + 1 < MAX_LABELS
    modifies clusters, table
    ensures Holds(g, clusters, table, idx + 1, nr)
  {
    nr := nrClusters;
    ghost var s := FirstPass(g, idx);
    StepIsNext(g, idx);
    PassIsLabelled(g, idx);
    if g.occupied[idx] == 0 {
      return;
    }
    if idx < g.nx {
      FirstRowBegins(g, idx);
      hide FirstPass, Begins, Links;
      if idx > 0 && g.occupied[idx - 1] != 0 {
        clusters[idx] := clusters[idx - 1];
        assert clusters[..] == s.cells[idx := s.cells[idx - 1]];
      } else {
        nr := AddLabel(clusters, table, nr, idx, s);
      }
    } else {
      LinksInRange(g, idx);
      hide FirstPass, Begins, Links, Least, LinksBefore;
      var nb := LinksAt(g, clusters, table, idx, nr);
      var cidx := Smallest(nb);
      if cidx == 0 {
        nr := AddLabel(clusters, table, nr, idx, s);
      } else {
        clusters[idx] := cidx;
        RelinkLabels(table, nr, nb, cidx);
        assert clusters[..] == s.cells[idx := cidx];
      }
    }
  }

  lemma StepIsNext(g: Grid, n: nat)
    requires GridOk(g) && n < |g.occupied|
    ensures FirstPass(g, n + 1) == Step(g, FirstPass(g, n), n)
  {
  }

  lemma LinksInRange(g: Grid, n: nat)
    requires GridOk(g) && g.nx <= n < |g.occupied| && Occupied(g, n)
    ensures var s := FirstPass(g, n);
            var nb := LinksBefore(g, s, n);
            && (forall i :: 0 <= i < 4 ==> 0 <= nb[i] < |s.table|) && (Least(nb) == 0 ==> Begins(g, n))
  {
    PassIsLabelled(g, n);
    var s := FirstPass(g, n);
    var nb := LinksBefore(g, s, n);
    var w := PassHasWitnesses(g, n);
    LinksBeforeAreLinked(g, s, n, w);
    hide FirstPass, Witnessed, Begins, LinksBefore;
    FourLinks(g, s, n, w);
    forall i | 0 <= i < 4 ensures 0 <= nb[i] < |s.table| {
      WitnessedSize(g, s, n, w);
      assert Linked(g, n, w, nb[i]);
    }
  }

  lemma WitnessedSize(g: Grid, s: Pass, n: nat, w: seq<int>)
    requires GridOk(g) && Witnessed(g, s, n, w)
    ensures |w| == |s.table| && 0 < |w|
  {
  }

  lemma StartIs(g: Grid, clusters: array<int>, table: array<int>)
    requires GridOk(g) && clusters.Length == |g.occupied| && table.Length == MAX_LABELS && table[0] == 0
    requires forall i :: 0 <= i < clusters.Length ==> clusters[i] == 0
    ensures Holds(g, clusters, table, 0, 0)
  {
    assert clusters[..] == FirstPass(g, 0).cells;
  }

  /** The labels in use are those begun. */
  lemma LabelsInUse(g: Grid, clusters: array<int>, table: array<int>, n: nat, nr: nat)
    requires GridOk(g) && n < |g.occupied| && Holds(g, clusters, table, n, nr)
    requires Beginnings(g, |g.occupied|) < MAX_LABELS
    ensures Begins(g, n) ==> nr + 1 < MAX_LABELS
  {
    PassIsLabelled(g, n);
    BeginningsNext(g, n);
    BeginningsGrow(g, n + 1, |g.occupied|);
    hide FirstPass, Begins, Beginnings;
    assert |table[..nr + 1]| == nr + 1;
  }

  /** The cells of a row. The table has room if fewer labels are begun than it holds. */
  method LabelRow(g: Grid, clusters: array<int>, table: array<int>, nrClusters: nat, start: nat) returns (nr: nat)
    requires GridOk(g) && start + g.nx <= |g.occupied|
    requires clusters != table && Holds(g, clusters, table, start, nrClusters)
    requires Beginnings(g, |g.occupied|) < MAX_LABELS
    modifies clusters, table
    ensures Holds(g, clusters, table, start + g.nx, nr)
  {
    nr := nrClusters;
    hide *;
    for x := 0 to g.nx
      invariant Holds(g, clusters, table, start + x, nr)
    {
      LabelsInUse(g, clusters, table, start + x, nr);
      nr := LabelCell(g, clusters, table, nr, start + x);
    }
  }

  lemma RowFits(g: Grid, y: nat)
    requires GridOk(g)
    ensures 0 < g.ny
    ensures y < g.ny ==> RowStart(g, y) + g.nx == RowStart(g, y + 1) <= |g.occupied|
    ensures RowStart(g, 0) == 0 && RowStart(g, g.ny) == |g.occupied|
  {
    RowsApart(g.nx, y, g.ny);
  }

  function RowStart(g: Grid, y: nat): nat {
    y * g.nx
  }

  /** The second pass over the table: roots are numbered, other labels get the number of the one they lead to. */
  method Renumber(table: array<int>, nr: nat, ghost t: seq<int>) returns (cnr: nat)
    requires nr < table.Length && t == table[..nr + 1] && Links(t)
    modifies table
    ensures cnr == Roots(t, nr) && forall l :: 0 <= l <= nr ==> table[l] == Final(t, l)
  {
    FinalStep(t, 0);
    NoneRenumbered(t);
    hide *;
    cnr := 0;
    for ic := 1 to nr + 1
      invariant cnr == Roots(t, ic - 1) && HalfRenumbered(t, table[..nr + 1], ic)
    {
      ghost var s := table[..nr + 1];
      FinalStep(t, ic);
      HalfRenumberedAt(t, s, ic);
      if table[ic] == ic {
        cnr := cnr + 1;
        table[ic] := cnr;
      } else {
        assert s[table[ic]] == table[table[ic]];
        table[ic] := table[table[ic]];
      }
      assert table[..nr + 1] == s[ic := table[ic]];
      OneMoreRenumbered(t, s, ic);
    }
    AllRenumbered(t, table[..nr + 1]);
  }

  /** The second pass has dealt with the labels below n. */
  ghost predicate HalfRenumbered(t: seq<int>, s: seq<int>, n: nat)
    requires Links(t)
  {
    && |s| == |t| && (forall l :: 0 <= l < n && l < |t| ==> s[l] == Final(t, l))
    && forall l :: n <= l < |t| ==> s[l] == t[l]
  }

  lemma NoneRenumbered(t: seq<int>)
    requires Links(t)
    ensures HalfRenumbered(t, t, 1)
  {
  }

  lemma HalfRenumberedAt(t: seq<int>, s: seq<int>, n: nat)
    requires Links(t) && HalfRenumbered(t, s, n) && n < |t|
    ensures |s| == |t| && s[n] == t[n] && 0 <= t[n] <= n && (t[n] < n ==> s[t[n]] == Final(t, t[n]))
  {
  }

  lemma OneMoreRenumbered(t: seq<int>, s: seq<int>, n: nat)
    requires Links(t) && HalfRenumbered(t, s, n) && n < |t| == |s|
    ensures HalfRenumbered(t, s[n := Final(t, n)], n + 1)
  {
    hide Final;
  }

  lemma AllRenumbered(t: seq<int>, s: seq<int>)
    requires Links(t) && HalfRenumbered(t, s, |t|)
    ensures |s| == |t| && forall l :: 0 <= l < |t| ==> s[l] == Final(t, l)
  {
  }

  lemma FinalStep(t: seq<int>, l: nat)
    requires Links(t) && l < |t|
    ensures 0 <= t[l] <= l && (1 <= l ==> 1 <= t[l])
    ensures Final(t, l) == if t[l] == l then Roots(t, l) else Final(t, t[l])
    ensures Roots(t, l) == if l == 0 then 0 else if t[l] == l then Roots(t, l - 1) + 1 else Roots(t, l - 1)
  {
  }

  /** compute_clusters; cnr is the largest label. */
  method ComputeClusters(g: Grid) returns (clusters: array<int>, cnr: nat)
    requires GridOk(g) && Beginnings(g, |g.occupied|) < MAX_LABELS
    ensures fresh(clusters) && clusters[..] == Labels(g) && cnr == LabelCount(g)
    ensures Clustered(g, clusters[..], cnr)
  {
    clusters := new int[|g.occupied|](_ => 0);
    var table := new int[MAX_LABELS];
    table[0] := 0;
    StartIs(g, clusters, table);
    LabelsAreClustered(g);
    RowFits(g, 0);
    var nr := LabelRows(g, clusters, table);
    cnr := Finish(g, clusters, table, nr);
  }

  method LabelRows(g: Grid, clusters: array<int>, table: array<int>) returns (nr: nat)
    requires GridOk(g) && Beginnings(g, |g.occupied|) < MAX_LABELS
    requires clusters != table && Holds(g, clusters, table, 0, 0)
    modifies clusters, table
    ensures Holds(g, clusters, table, |g.occupied|, nr)
  {
    nr := 0;
    RowFits(g, 0);
    hide *;
    for y := 0 to g.ny
      invariant RowStart(g, y) <= |g.occupied| && Holds(g, clusters, table, RowStart(g, y), nr)
    {
      RowFits(g, y);
      nr := LabelRow(g, clusters, table, nr, RowStart(g, y));
    }
    RowFits(g, g.ny);
  }

  /** The second pass. */
  method Finish(g: Grid, clusters: array<int>, table: array<int>, nr: nat) returns (cnr: nat)
    requires GridOk(g) && clusters != table && Holds(g, clusters, table, |g.occupied|, nr)
    modifies clusters, table
    ensures clusters[..] == Labels(g) && cnr == LabelCount(g)
  {
    ghost var s := FirstPass(g, |g.occupied|);
    PassIsLabelled(g, |g.occupied|);
    CountIs(g);
    HoldsAll(g, clusters, table, nr);
    hide *;
    cnr := Renumber(table, nr, s.table);
    Relabel(clusters, table, nr, s);
    LabelsAre(g, clusters[..]);
  }

  method Relabel(clusters: array<int>, table: array<int>, nr: nat, ghost s: Pass)
    requires clusters != table && nr < table.Length && clusters[..] == s.cells && |s.table| == nr + 1 && Links(s.table)
    requires forall l :: 0 <= l <= nr ==> table[l] == Final(s.table, l)
    requires forall i :: 0 <= i < |s.cells| ==> 0 <= s.cells[i] <= nr
    modifies clusters
    ensures forall i :: 0 <= i < |s.cells| ==> clusters[i] == Final(s.table, s.cells[i])
  {
    assert forall i :: 0 <= i < clusters.Length ==> clusters[i] == s.cells[i];
    hide Final, Links;
    for idx := 0 to clusters.Length
      invariant forall i :: 0 <= i < idx ==> clusters[i] == Final(s.table, s.cells[i])
      invariant forall i :: idx <= i < clusters.Length ==> clusters[i] == s.cells[i]
    {
      clusters[idx] := table[clusters[idx]];
    }
  }

  lemma HoldsAll(g: Grid, clusters: array<int>, table: array<int>, nr: nat)
    requires GridOk(g) && Holds(g, clusters, table, |g.occupied|, nr)
    ensures var s := FirstPass(g, |g.occupied|);
            && nr < table.Length && clusters[..] == s.cells && table[..nr + 1] == s.table && |s.table| == nr + 1
  {
    assert |table[..nr + 1]| == nr + 1;
  }

  lemma CountIs(g: Grid)
    requires GridOk(g)
    ensures var t := FirstPass(g, |g.occupied|).table; t != [] && LabelCount(g) == Roots(t, |t| - 1)
  {
    PassIsLabelled(g, |g.occupied|);
  }

  lemma LabelsAre(g: Grid, r: seq<int>)
    requires GridOk(g) && |r| == |g.occupied| && Links(FirstPass(g, |g.occupied|).table)
    requires var s := FirstPass(g, |g.occupied|);
             forall i :: 0 <= i < |r| ==> 0 <= s.cells[i] < |s.table| && r[i] == Final(s.table, s.cells[i])
    ensures r == Labels(g)
  {
    hide FirstPass, Final, Beginnings, Links;
  }
}
