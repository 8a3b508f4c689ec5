/** Joins that lose a link: one after which connected cells keep different labels, and one made good later. */
module ClusterLoss {
  import opened ClusterSpec
  import opened ClusterPass
  import opened ClusterComplete
  import opened ClusterForks

  /** The occupied cells of the example; the last one is there if the loss is to be made good. */
  predicate IsDrawn(i: nat, healed: bool) {
    || i == 6
    || i == 12 || i == 16 || i == 18
    || i == 24 || i == 26 || i == 27 || i == 29
    || i == 37 || (healed && i == 38)
  }

  /**
   *   . . . . . . # . . . . .
   *   # . . . # . # . . . . .
   *   # . # # . # . . . . . .
   *   . # ? . . . . . . . . .   and two empty rows
   * Cell 37 joins labels 2 and 4. Label 4 leads to 3, which leads to 1 by then; that 3 and 2 meet is not kept.
   */
  function LostLink(healed: bool): (g: Grid)
    ensures GridOk(g) && g.nx % 6 == 0 && g.ny % 6 == 0
  {
    Grid(12, 6, seq(72, i requires 0 <= i < 72 => if IsDrawn(i, healed) then 1 else 0))
  }

  lemma {:induction false} NothingBetween(g: Grid, n: nat, m: nat)
    requires 0 < g.nx && n <= m <= |g.occupied| && forall a :: n <= a < m ==> g.occupied[a] == 0
    ensures FirstPass(g, m) == FirstPass(g, n)
    decreases m - n
  {
    if n < m {
      NothingBetween(g, n, m - 1);
    }
  }

  /** One occupied cell, and the empty ones after it. */
  lemma OneCell(g: Grid, s: Pass, a: nat, r: Pass, next: nat)
    requires 0 < g.nx && a < next <= |g.occupied| && FirstPass(g, a) == s && Step(g, s, a) == r
    requires forall b :: a < b < next ==> g.occupied[b] == 0
    ensures FirstPass(g, next) == r
  {
    NothingBetween(g, a + 1, next);
  }

  /** One step of taking the least of two labels, 0 standing for none. */
  function Less(r: int, l: int): int {
    if l != 0 && (r == 0 || l < r) then l else r
  }

  lemma LeastAppended(nb: seq<int>, l: int)
    ensures Least(nb + [l]) == Less(Least(nb), l)
  {
    assert (nb + [l])[..|nb|] == nb;
  }

  lemma LeastOfFour(a: int, b: int, c: int, d: int)
    ensures Least([a, b, c, d]) == Less(Less(Less(Less(0, a), b), c), d)
  {
    LeastAppended([], a);
    LeastAppended([a], b);
    LeastAppended([a, b], c);
    LeastAppended([a, b, c], d);
    hide Less;
    assert [] + [a] == [a] && [a] + [b] == [a, b] && [a, b] + [c] == [a, b, c] && [a, b, c] + [d] == [a, b, c, d];
  }

  function RelinkOne(t: seq<int>, l: int, c: int): (r: seq<int>) {
    if 0 < l < |t| && t[l] > c then t[l := c] else t
  }

  lemma RelinkFour(t: seq<int>, a: int, b: int, c: int, d: int, e: int)
    ensures Relink(t, [a, b, c, d], e) == RelinkOne(RelinkOne(RelinkOne(RelinkOne(t, a, e), b, e), c, e), d, e)
  {
    RelinkAppended(t, [], a, e);
    RelinkAppended(t, [a], b, e);
    RelinkAppended(t, [a, b], c, e);
    RelinkAppended(t, [a, b, c], d, e);
    hide RelinkOne;
    assert [] + [a] == [a] && [a] + [b] == [a, b] && [a, b] + [c] == [a, b, c] && [a, b, c] + [d] == [a, b, c, d];
  }

  lemma RelinkAppended(t: seq<int>, nb: seq<int>, l: int, e: int)
    ensures Relink(t, nb + [l], e) == RelinkOne(Relink(t, nb, e), l, e)
  {
    assert (nb + [l])[..|nb|] == nb;
  }

  /** A cell of the later rows, from the links of the four neighbours before it. */
  lemma LaterCell(g: Grid, s: Pass, a: nat, nb: seq<int>, r: Pass, next: nat)
    requires 0 < g.nx <= a < next <= |g.occupied| && FirstPass(g, a) == s && Occupied(g, a) && |nb| == 4
    requires LinksBefore(g, s, a) == nb
    requires var c := Less(Less(Less(Less(0, nb[0]), nb[1]), nb[2]), nb[3]);
             var t := RelinkOne(RelinkOne(s.table, nb[0], c), nb[1], c);
             r == if c == 0 then NewLabel(s, a)
                  else Pass(s.cells[a := c], RelinkOne(RelinkOne(t, nb[2], c), nb[3], c))
    requires forall b :: a < b < next ==> g.occupied[b] == 0
    ensures FirstPass(g, next) == r
  {
    LeastOfFour(nb[0], nb[1], nb[2], nb[3]);
    RelinkFour(s.table, nb[0], nb[1], nb[2], nb[3], Least(nb));
    assert nb == [nb[0], nb[1], nb[2], nb[3]];
    OneCell(g, s, a, r, next);
  }

  lemma StartIsEmpty(g: Grid)
    requires 0 < g.nx
    ensures FirstPass(g, 0).table == [0] && forall i :: 0 <= i < |g.occupied| ==> FirstPass(g, 0).cells[i] == 0
  {
  }

  lemma FirstRow(h: bool) returns (c: seq<int>)
    ensures |c| == 72 && FirstPass(LostLink(h), 12) == Pass(c, [0, 1])
    ensures forall i :: 0 <= i < 72 ==> c[i] == if i == 6 then 1 else 0
  {
    var g := LostLink(h);
    var z := FirstPass(g, 0).cells;
    StartIsEmpty(g);
    hide FirstPass;
    c := z[6 := 1];
    NothingBetween(g, 0, 6);
    OneCell(g, Pass(z, [0]), 6, Pass(c, [0, 1]), 12);
  }

  lemma SecondRow(h: bool, c: seq<int>) returns (d: seq<int>)
    requires |c| == 72 && FirstPass(LostLink(h), 12) == Pass(c, [0, 1])
    requires forall i :: 0 <= i < 72 ==> c[i] == if i == 6 then 1 else 0
    ensures |d| == 72 && FirstPass(LostLink(h), 24) == Pass(d, [0, 1, 2, 3])
    ensures d[12] == 2 && d[16] == 3 && d[18] == 1
    ensures forall i :: 12 <= i < 72 && i != 12 && i != 16 && i != 18 ==> d[i] == 0
  {
    var g := LostLink(h);
    hide FirstPass;
    var s := Pass(c[12 := 2], [0, 1, 2]);
    LaterCell(g, Pass(c, [0, 1]), 12, [0, 0, 0, 0], s, 16);
    var t := Pass(s.cells[16 := 3], [0, 1, 2, 3]);
    LaterCell(g, s, 16, [0, 0, 0, 0], t, 18);
    d := t.cells[18 := 1];
    LaterCell(g, t, 18, [0, 1, 0, 0], Pass(d, [0, 1, 2, 3]), 24);
  }

  /** Label 4 comes to lead to 3, and 3 to 1. */
  lemma ThirdRow(h: bool, c: seq<int>) returns (d: seq<int>)
    requires |c| == 72 && FirstPass(LostLink(h), 24) == Pass(c, [0, 1, 2, 3])
    requires c[12] == 2 && c[16] == 3 && c[18] == 1
    requires forall i :: 12 <= i < 72 && i != 12 && i != 16 && i != 18 ==> c[i] == 0
    ensures |d| == 72 && FirstPass(LostLink(h), 37) == Pass(d, [0, 1, 2, 1, 3])
    ensures d[24] == 2 && d[25] == 0 && d[26] == 4 && d[27] == 3 && forall i :: 30 <= i < 72 ==> d[i] == 0
  {
    var g := LostLink(h);
    hide FirstPass;
    var s := Pass(c[24 := 2], [0, 1, 2, 3]);
    LaterCell(g, Pass(c, [0, 1, 2, 3]), 24, [0, 2, 0, 0], s, 26);
    var t := Pass(s.cells[26 := 4], [0, 1, 2, 3, 4]);
    LaterCell(g, s, 26, [0, 0, 0, 0], t, 27);
    var u := Pass(t.cells[27 := 3], [0, 1, 2, 3, 3]);
    LaterCell(g, t, 27, [0, 0, 3, 4], u, 29);
    d := u.cells[29 := 1];
    LaterCell(g, u, 29, [3, 0, 1, 0], Pass(d, [0, 1, 2, 1, 3]), 37);
  }

  lemma BeforeTheLoss(h: bool) returns (c: seq<int>)
    ensures |c| == 72 && FirstPass(LostLink(h), 37) == Pass(c, [0, 1, 2, 1, 3])
    ensures c[24] == 2 && c[25] == 0 && c[26] == 4 && c[27] == 3 && forall i :: 30 <= i < 72 ==> c[i] == 0
  {
    hide FirstPass;
    c := FirstRow(h);
    c := SecondRow(h, c);
    c := ThirdRow(h, c);
  }

  lemma LinksAtTheLoss(h: bool, c: seq<int>)
    requires |c| == 72 && c[24] == 2 && c[25] == 0 && c[26] == 4 && c[36] == 0
    ensures LinksBefore(LostLink(h), Pass(c, [0, 1, 2, 1, 3]), 37) == [2, 0, 3, 0]
  {
  }

  lemma RootsAtTheLoss(t: seq<int>)
    requires t == [0, 1, 2, 1, 3]
    ensures Links(t) && Root(t, 3) == 1 && Root(t, 2) == 2
  {
  }

  /** Labels 2 and 3 meet, but 3 leads to 1 and that 2 and 1 belong together is not kept. */
  lemma LinkIsLost(h: bool)
    ensures !Lossless(LostLink(h))
  {
    hide FirstPass, LinksBefore, Least;
    var c := BeforeTheLoss(h);
    var t := [0, 1, 2, 1, 3];
    LinksAtTheLoss(h, c);
    LeastOfFour(2, 0, 3, 0);
    RootsAtTheLoss(t);
    var nb := [2, 0, 3, 0];
    assert nb[2] == 3 && !NotLost(t, 3, 2);
    assert !NothingLost(t, nb, 2);
    assert Occupied(LostLink(h), 37) && !JoinLossless(LostLink(h), 37);
  }

  // ---------- the loss that stays ----------

  lemma LostState() returns (c: seq<int>)
    ensures FirstPass(LostLink(false), 72) == Pass(c, [0, 1, 2, 1, 3]) && |c| == 72 && c[24] == 2 && c[26] == 4
  {
    hide FirstPass;
    c := BeforeTheLoss(false);
    var s := Pass(c, [0, 1, 2, 1, 3]);
    c := c[37 := 2];
    LaterCell(LostLink(false), s, 37, [2, 0, 3, 0], Pass(c, [0, 1, 2, 1, 3]), 72);
  }

  lemma LostPath()
    ensures Connected(LostLink(false), 24, 26)
  {
    var p := [24, 37, 26];
    assert StepAt(12, p, 1) && StepAt(12, p, 2);
    assert IsPath(LostLink(false), p);
  }

  lemma FinalOfLost(t: seq<int>)
    requires t == [0, 1, 2, 1, 3]
    ensures Links(t) && Final(t, 2) == 2 && Final(t, 4) == 1
  {
    assert Roots(t, 0) == 0 && Roots(t, 1) == 1 && Roots(t, 2) == 2;
    assert Final(t, 4) == Final(t, 3) == Final(t, 1);
  }

  /** Three forks are too many. */
  lemma ForksOfLostLink(a: nat)
    ensures Fork(LostLink(false), a) <==> a == 27 || a == 29 || a == 37
  {
  }

  /** Two cells that a path joins, with different labels. */
  lemma ConnectedMayDiffer()
    ensures var g := LostLink(false); Connected(g, 24, 26) && Labels(g)[24] == 2 && Labels(g)[26] == 1 && !Exact(g)
  {
    var g := LostLink(false);
    LostPath();
    assert Occupied(g, 24) && Occupied(g, 26);
    hide FirstPass, Connected, Final, IsDrawn;
    var c := LostState();
    FinalOfLost([0, 1, 2, 1, 3]);
    PassIsLabelled(g, 72);
  }

  // ---------- the loss that is made good ----------

  lemma HealedState() returns (c: seq<int>)
    ensures |c| == 72 && FirstPass(LostLink(true), 72) == Pass(c, [0, 1, 1, 1, 3])
  {
    hide FirstPass;
    c := BeforeTheLoss(true);
    var s := Pass(c[37 := 2], [0, 1, 2, 1, 3]);
    LaterCell(LostLink(true), Pass(c, [0, 1, 2, 1, 3]), 37, [2, 0, 3, 0], s, 38);
    c := s.cells[38 := 1];
    LaterCell(LostLink(true), s, 38, [0, 3, 1, 2], Pass(c, [0, 1, 1, 1, 3]), 72);
  }

  lemma FinalOfHealed(t: seq<int>, l: nat)
    requires t == [0, 1, 1, 1, 3] && 1 <= l <= 4
    ensures Links(t) && Final(t, l) == 1
  {
    assert Roots(t, 0) == 0 && Roots(t, 1) == 1;
    assert Final(t, 4) == Final(t, 3) == Final(t, 1) == Final(t, 2);
  }

  lemma HealedIsExact()
    ensures Exact(LostLink(true))
  {
    var g := LostLink(true);
    hide FirstPass, Connected, Final, IsDrawn;
    var c := HealedState();
    PassIsLabelled(g, 72);
    LabelsAreClustered(g);
    forall i | 0 <= i < 72 && Occupied(g, i) ensures Labels(g)[i] == 1 {
      FinalOfHealed([0, 1, 1, 1, 3], c[i]);
    }
  }

  /**
   * That no link is lost is sufficient, and so is that forks are few, but neither is necessary: another join may
   * bring the labels together again.
   */
  lemma LossMayHeal()
    ensures !Lossless(LostLink(true)) && !FewForks(LostLink(true)) && Exact(LostLink(true))
  {
    hide IsDrawn, FewForks, Lossless, Exact;
    LinkIsLost(true);
    HealedIsExact();
    if FewForks(LostLink(true)) {
      FewForksIsExact(LostLink(true));
    }
  }
}
