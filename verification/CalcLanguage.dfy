/**
 * The language of #calc: how much room a sentence takes on the token stack, and that the calculator computes the
 * sentences for which there is room, and nothing else.
 */
module CalcLanguage {
  import opened CalcXp
  import opened CalcSpec
  import opened CalcParse

  // ---------- room on the stack ----------

  function Max(a: nat, b: nat): nat {
    if a < b then b else a
  }

  /** The most slots in use while a factor or a term is read, or an expression and the token after it. */
  function FactorPeak(f: Factor): nat {
    match f
    case Number(_) => 1
    case LOf(g) => 1 + FactorPeak(g)
    case XOf(g) => 1 + FactorPeak(g)
    case Paren(e) => 1 + ExprPeak(e)
  }

  function TermPeak(t: Term): nat {
    if t.OfFactor? then FactorPeak(t.f) else Max(TermPeak(t.t), 2 + FactorPeak(t.f))
  }

  function ExprPeak(e: Expr): nat {
    if e.OfTerm? then Max(TermPeak(e.t), 2) else Max(ExprPeak(e.e), Max(2 + TermPeak(e.t), 4))
  }

  /** The most slots in use while tokens are shifted, as long as the automaton goes on. */
  function Need(x: Table, c: Config, toks: seq<Tok>): nat
    requires Complete(x)
    decreases |toks|
  {
    if toks == [] || !Good(x, c) then 0 else Max(|StackOf(x, c)| + 1, Need(x, Delta(x, c, toks[0]), toks[1..]))
  }

  lemma {:induction false} WalkOff(x: Table, toks: seq<Tok>)
    requires Complete(x)
    ensures Walk(x, Off, toks) == Off
    decreases |toks|
  {
    if toks != [] {
      WalkOff(x, toks[1..]);
    }
  }

  ghost predicate Reached(x: Table, c: Config)
    requires Complete(x)
  {
    c.Fail? || c.Off? || Good(x, c)
  }

  lemma {:induction false} CloseIsReached(x: Table, c: FactorCtx, f: Factor)
    requires Complete(x) && FactorCtxOk(x, c) && EvalFactor(x, f).Ok?
    ensures Reached(x, Close(x, c, f))
    decreases c
  {
    hide Apply, ApplyPrefix;
    match c
    case FirstFactor(tc) =>
    case AfterMul(tc, t) => ProductHasValue(x, t, f);
    case AfterDiv(tc, t) =>
    case AfterMod(tc, t) =>
    case UnderL(fc) => if EvalFactor(x, LOf(f)).Ok? { CloseIsReached(x, fc, LOf(f)); }
    case UnderX(fc) => if EvalFactor(x, XOf(f)).Ok? { CloseIsReached(x, fc, XOf(f)); }
  }

  lemma ProductHasValue(x: Table, t: Term, f: Factor)
    requires Complete(x) && EvalTerm(x, t).Ok? && EvalFactor(x, f).Ok?
    ensures EvalTerm(x, Product(t, f)).Ok?
  {
  }

  lemma DeltaIsReached(x: Table, c: Config, tok: Tok)
    requires Complete(x) && Reached(x, c)
    ensures Reached(x, Delta(x, c, tok))
  {
    hide EvalTerm;
    if c.Expect? {
      if tok.Num? {
        CloseIsReached(x, c.fc, Number(tok.value));
      } else if tok.OPar? {
        OpenContext(x, c.fc);
      }
    } else if c.Have? {
      WholeHasValue(x, c.tc, c.t);
      if tok.CPar? && c.tc.ec.InParen? {
        assert ExprCtxOk(x, c.tc.ec);
        CloseIsReached(x, c.tc.ec.fc, Paren(Whole(c.tc, c.t)));
      } else if tok.Plus? || tok.Minus? {
        SumContext(x, c.tc.ec, Whole(c.tc, c.t), tok.Plus?);
      }
    }
  }

  lemma WholeHasValue(x: Table, tc: TermCtx, t: Term)
    requires Complete(x) && TermCtxOk(x, tc) && EvalTerm(x, t).Ok?
    ensures EvalExpr(x, Whole(tc, t)).Ok?
  {
  }

  lemma {:induction false} NeedConcat(x: Table, c: Config, a: seq<Tok>, b: seq<Tok>)
    requires Complete(x) && Reached(x, c)
    ensures Need(x, c, a + b) == Max(Need(x, c, a), Need(x, Walk(x, c, a), b))
    decreases |a|
  {
    hide Good, Delta, StackOf;
    if a == [] {
      assert a + b == b;
    } else {
      assert (a + b)[0] == a[0] && (a + b)[1..] == a[1..] + b;
      DeltaIsReached(x, c, a[0]);
      NeedConcat(x, Delta(x, c, a[0]), a[1..], b);
      if !Good(x, c) {
        NeedsNothing(x, c, a);
        NeedsNothing(x, c, a + b);
        NeedsNothing(x, Walk(x, c, a), b);
      }
    }
  }

  lemma NeedsNothing(x: Table, c: Config, toks: seq<Tok>)
    requires Complete(x) && Reached(x, c) && !Good(x, c)
    ensures Walk(x, c, toks) == c && Need(x, c, toks) == 0
  {
    if c.Fail? {
      WalkFail(x, c.e, toks);
    } else {
      WalkOff(x, toks);
    }
  }

  lemma NeedOfOne(x: Table, c: Config, tok: Tok)
    requires Complete(x)
    ensures Need(x, c, [tok]) == if Good(x, c) then |StackOf(x, c)| + 1 else 0
  {
    assert [tok][1..] == [];
  }

  /** The need above a context of a given size: the peak, or less if the evaluation fails on the way. */
  predicate Peaks(need: nat, base: nat, peak: nat, v: Value) {
    need <= base + peak && (v.Ok? ==> need == base + peak)
  }

  lemma NeedFirst(x: Table, c: Config, tok: Tok, toks: seq<Tok>)
    requires Complete(x)
    ensures Need(x, c, [tok] + toks) ==
            if Good(x, c) then Max(|StackOf(x, c)| + 1, Need(x, Delta(x, c, tok), toks)) else 0
  {
    assert ([tok] + toks)[1..] == toks;
  }

  /** Tokens, one more, and tokens again. */
  lemma NeedThen(x: Table, c: Config, a: seq<Tok>, tok: Tok, b: seq<Tok>)
    requires Complete(x) && Reached(x, c)
    ensures var c1 := Walk(x, c, a);
            Need(x, c, a + [tok] + b) ==
            Max(Need(x, c, a), if Good(x, c1) then Max(|StackOf(x, c1)| + 1, Need(x, Delta(x, c1, tok), b)) else 0)
  {
    hide Good, Delta, StackOf, Reached, Need, Max;
    assert a + [tok] + b == a + ([tok] + b);
    NeedConcat(x, c, a, [tok] + b);
    NeedFirst(x, Walk(x, c, a), tok, b);
  }

  lemma ExpectIsGood(x: Table, c: FactorCtx)
    requires Complete(x) && FactorCtxOk(x, c)
    ensures Good(x, Expect(c)) && Reached(x, Expect(c)) && StackOf(x, Expect(c)) == FactorStack(x, c)
  {
  }

  lemma FailIsBad(x: Table, e: Error)
    requires Complete(x)
    ensures !Good(x, Fail(e))
  {
  }

  lemma UnderPrefix(x: Table, c: FactorCtx)
    requires Complete(x) && FactorCtxOk(x, c)
    ensures FactorCtxOk(x, UnderL(c)) && |FactorStack(x, UnderL(c))| == |FactorStack(x, c)| + 1
    ensures FactorCtxOk(x, UnderX(c)) && |FactorStack(x, UnderX(c))| == |FactorStack(x, c)| + 1
  {
  }

  lemma FirstIsGood(x: Table, c: ExprCtx)
    requires Complete(x) && ExprCtxOk(x, c)
    ensures TermCtxOk(x, First(c)) && TermStack(x, First(c)) == ExprStack(x, c)
  {
  }

  lemma FirstFactorIsGood(x: Table, c: TermCtx)
    requires Complete(x) && TermCtxOk(x, c)
    ensures FactorCtxOk(x, FirstFactor(c)) && FactorStack(x, FirstFactor(c)) == TermStack(x, c)
  {
  }

  lemma {:induction false} NeedOfFactor(x: Table, c: FactorCtx, f: Factor)
    requires Complete(x) && FactorCtxOk(x, c)
    ensures Peaks(Need(x, Expect(c), FactorToks(f)), |FactorStack(x, c)|, FactorPeak(f), EvalFactor(x, f))
    decreases f
  {
    hide ApplyPrefix, Need, Good, StackOf, Reached, FactorCtxOk, FactorStack, ExprCtxOk, ExprStack, EvalExpr, Close;
    ExpectIsGood(x, c);
    if f.Number? {
      NeedOfOne(x, Expect(c), Num(f.v));
    } else if f.Paren? {
      assert FactorToks(f) == [OPar] + (ExprToks(f.e) + [CPar]);
      NeedFirst(x, Expect(c), OPar, ExprToks(f.e) + [CPar]);
      ParenContext(x, c);
      NeedOfExpr(x, InParen(c), f.e, CPar);
    } else {
      UnderPrefix(x, c);
      NeedFirst(x, Expect(c), if f.LOf? then LOp else XOp, FactorToks(f.f));
      NeedOfFactor(x, if f.LOf? then UnderL(c) else UnderX(c), f.f);
    }
  }

  lemma ParenContext(x: Table, c: FactorCtx)
    requires Complete(x) && FactorCtxOk(x, c)
    ensures ExprCtxOk(x, InParen(c)) && |ExprStack(x, InParen(c))| == |FactorStack(x, c)| + 1
  {
  }

  lemma TermThenOperator(x: Table, c: TermCtx, t: Term, op: Tok) returns (fc: FactorCtx)
    requires Complete(x) && TermCtxOk(x, c) && EvalTerm(x, t).Ok? && (op.Mul? || op.Div? || op.Mod?)
    ensures Good(x, Have(c, t)) && |StackOf(x, Have(c, t))| == |TermStack(x, c)| + 1
    ensures Delta(x, Have(c, t), op) == Expect(fc)
    ensures FactorCtxOk(x, fc) && |FactorStack(x, fc)| == |TermStack(x, c)| + 2
  {
    hide EvalTerm;
    fc := if op.Mul? then AfterMul(c, t) else if op.Div? then AfterDiv(c, t) else AfterMod(c, t);
  }

  lemma {:induction false} NeedOfTerm(x: Table, c: TermCtx, t: Term)
    requires Complete(x) && TermCtxOk(x, c)
    ensures Peaks(Need(x, Expect(FirstFactor(c)), TermToks(t)), |TermStack(x, c)|, TermPeak(t), EvalTerm(x, t))
    decreases t, 0
  {
    hide Apply, Need, Good, StackOf, Reached, FactorCtxOk, FactorStack, TermCtxOk, TermStack, EvalFactor, Delta, Walk;
    FirstFactorIsGood(x, c);
    if t.OfFactor? {
      NeedOfFactor(x, FirstFactor(c), t.f);
    } else {
      var op := if t.Product? then Mul else if t.Quotient? then Div else Mod;
      ExpectIsGood(x, FirstFactor(c));
      NeedThen(x, Expect(FirstFactor(c)), TermToks(t.t), op, FactorToks(t.f));
      NeedOfTerm(x, c, t.t);
      WalkTerm(x, c, t.t);
      if EvalTerm(x, t.t).Ok? {
        var fc := TermThenOperator(x, c, t.t, op);
        NeedOfFactor(x, fc, t.f);
      } else {
        FailIsBad(x, EvalTerm(x, t.t).e);
      }
    }
  }

  lemma SumThenTerm(x: Table, c: ExprCtx, e: Expr, op: Tok) returns (tc: TermCtx)
    requires Complete(x) && ExprCtxOk(x, c) && EvalExpr(x, e).Ok? && (op.Plus? || op.Minus?)
    ensures tc == (if op.Plus? then AfterPlus(c, e) else AfterMinus(c, e))
    ensures TermCtxOk(x, tc) && |TermStack(x, tc)| == |ExprStack(x, c)| + 2
  {
    hide EvalExpr;
    tc := if op.Plus? then AfterPlus(c, e) else AfterMinus(c, e);
  }

  lemma {:induction false} NeedOfExpr(x: Table, c: ExprCtx, e: Expr, tok: Tok)
    requires Complete(x) && ExprCtxOk(x, c)
    ensures var need := Need(x, Expect(FirstFactor(First(c))), ExprToks(e) + [tok]);
            Peaks(need, |ExprStack(x, c)|, ExprPeak(e), EvalExpr(x, e))
    decreases e
  {
    hide Apply, Need, Good, StackOf, Reached, FactorCtxOk, FactorStack, TermCtxOk, TermStack, ExprCtxOk, ExprStack,
         EvalTerm, Walk;
    var c0 := Expect(FirstFactor(First(c)));
    FirstIsGood(x, c);
    if e.OfTerm? {
      NeedOfTermAndOne(x, First(c), e.t, tok);
    } else {
      var op := if e.Sum? then Plus else Minus;
      FirstFactorIsGood(x, First(c));
      ExpectIsGood(x, FirstFactor(First(c)));
      assert ExprToks(e) + [tok] == (ExprToks(e.e) + [op]) + (TermToks(e.t) + [tok]);
      NeedConcat(x, c0, ExprToks(e.e) + [op], TermToks(e.t) + [tok]);
      NeedOfExpr(x, c, e.e, op);
      var tc1, t1 := WalkExpr(x, c, e.e);
      WalkConcat(x, c0, ExprToks(e.e), [op]);
      WalkOne(x, Walk(x, c0, ExprToks(e.e)), op);
      if EvalExpr(x, e.e).Ok? {
        var tc := SumThenTerm(x, c, e.e, op);
        NeedOfTermAndOne(x, tc, e.t, tok);
      } else {
        NeedOfFail(x, EvalExpr(x, e.e).e, TermToks(e.t) + [tok]);
      }
    }
  }

  lemma NeedOfFail(x: Table, e: Error, toks: seq<Tok>)
    requires Complete(x)
    ensures Need(x, Fail(e), toks) == 0
  {
  }

  lemma NeedOfTermAndOne(x: Table, c: TermCtx, t: Term, tok: Tok)
    requires Complete(x) && TermCtxOk(x, c)
    ensures var need := Need(x, Expect(FirstFactor(c)), TermToks(t) + [tok]);
            Peaks(need, |TermStack(x, c)|, Max(TermPeak(t), 2), EvalTerm(x, t))
    decreases t, 1
  {
    hide EvalTerm;
    var c0 := Expect(FirstFactor(c));
    NeedConcat(x, c0, TermToks(t), [tok]);
    NeedOfTerm(x, c, t);
    WalkTerm(x, c, t);
    NeedOfOne(x, Walk(x, c0, TermToks(t)), tok);
  }

  // ---------- runs with and without room ----------

  lemma {:induction false} ReduceAllShrinks(x: Table, s: seq<Tok>, e: Error)
    requires Complete(x)
    ensures |ReduceAll(x, s, e).0| <= |s| && (ReduceAll(x, s, e).1 != e ==> |ReduceAll(x, s, e).0| < |s|)
    decreases |s|
  {
    hide Rule;
    var r := Reduce(x, s);
    if r.Replace? {
      ReduceAllShrinks(x, Drop(s, r.n) + r.top, if r.error == NoError then e else r.error);
    }
  }

  /** With room for every token a whole run follows the automaton, and fails where that does. */
  lemma {:induction false} FeedAllInRoom(x: Table, c: Config, toks: seq<Tok>)
    requires Complete(x) && Good(x, c) && (forall tok :: tok in toks ==> Readable(tok))
    requires Need(x, c, toks) <= CALCSTACKMAX
    ensures var (s, e) := FeedAll(x, StackOf(x, c), toks);
            var c' := Walk(x, c, toks);
            && (Good(x, c') ==> e == NoError && s == StackOf(x, c'))
            && (c'.Fail? ==> e == c'.e != NoError && |s| < CALCSTACKMAX)
    decreases |toks|
  {
    GoodGoesOn(x, c);
    hide Reduce, ReduceAll, Delta, Good, Doomed, StackOf;
    if toks != [] {
      var s, c1 := StackOf(x, c), Delta(x, c, toks[0]);
      assert toks[0] in toks;
      FeedFollowsDelta(x, c, toks[0]);
      ReduceAllShrinks(x, s + [toks[0]], NoError);
      DeltaIsReached(x, c, toks[0]);
      if Good(x, c1) {
        FeedAllInRoom(x, c1, toks[1..]);
      } else {
        NeedsNothing(x, c1, toks[1..]);
      }
    }
  }

  lemma GoodGoesOn(x: Table, c: Config)
    requires Complete(x) && Good(x, c)
    ensures c.Expect? || c.Have?
  {
  }

  lemma GoodBefore(x: Table, c: Config, toks: seq<Tok>)
    requires Complete(x) && Reached(x, c) && Good(x, Walk(x, c, toks))
    ensures Good(x, c)
  {
    if !Good(x, c) {
      NeedsNothing(x, c, toks);
    }
  }

  lemma StackIsStuck(x: Table, c: Config, e: Error)
    requires Complete(x) && Good(x, c)
    ensures ReduceAll(x, StackOf(x, c), e) == (StackOf(x, c), e)
  {
    if c.Expect? {
      FactorContextStuck(x, c.fc, e);
    } else {
      ContextTops(x, c.tc);
      TermIsStuck(x, TermStack(x, c.tc), EvalTerm(x, c.t).v, e);
    }
  }

  /** Without room a run that would not fail otherwise reports that. */
  lemma {:induction false} FeedAllOverflows(x: Table, c: Config, toks: seq<Tok>)
    requires Complete(x) && Good(x, c) && (forall tok :: tok in toks ==> Readable(tok))
    requires CALCSTACKMAX < Need(x, c, toks) && Good(x, Walk(x, c, toks))
    ensures FeedAll(x, StackOf(x, c), toks).1 == Mem
    decreases |toks|
  {
    hide Reduce, ReduceAll, Delta, Good, Doomed, StackOf;
    var s, c1 := StackOf(x, c), Delta(x, c, toks[0]);
    assert toks[0] in toks;
    if CALCSTACKMAX < |s| + 1 {
      StackIsStuck(x, c, Mem);
    } else {
      FeedFollowsDelta(x, c, toks[0]);
      DeltaIsReached(x, c, toks[0]);
      GoodBefore(x, c1, toks[1..]);
      GoodGoesOn(x, c1);
      FeedAllOverflows(x, c1, toks[1..]);
    }
  }

  // ---------- the main results ----------

  const START: Config := Expect(FirstFactor(First(Bottom)))

  /** What the end mark does to a complete expression. */
  lemma EndOfSentence(x: Table, tc: TermCtx, t: Term)
    requires Complete(x) && Good(x, Have(tc, t)) && |StackOf(x, Have(tc, t))| < CALCSTACKMAX
    ensures var (s, e) := Feed(x, StackOf(x, Have(tc, t)), End);
            if tc.ec.Bottom? then Accept(s, e) == EvalExpr(x, Whole(tc, t)) else Accept(s, e) == Err(Syntax)
  {
    hide EvalTerm, LValue, XValue, Reduce, ReduceAll;
    AddUp(x, tc, t, End);
    ContextTops(x, tc);
    Finished(x, ExprStack(x, tc.ec), EvalExpr(x, Whole(tc, t)).v);
  }

  lemma StartIsGood(x: Table)
    requires Complete(x)
    ensures Good(x, START) && StackOf(x, START) == [] && ConfigToks(START) == []
  {
    assert ExprCtxOk(x, Bottom) && ExprStack(x, Bottom) == [];
    assert TermCtxOk(x, First(Bottom)) && TermStack(x, First(Bottom)) == [];
  }

  lemma FitsIsEvaluated(x: Table, e: Expr)
    requires Complete(x) && ExprPeak(e) <= CALCSTACKMAX
    ensures CalcExp(x, ExprToks(e)) == EvalExpr(x, e)
  {
    var toks := ExprToks(e);
    ExprReadable(e);
    var tc, t := WalkExpr(x, Bottom, e);
    StartIsGood(x);
    NeedOfExpr(x, Bottom, e, End);
    NeedConcat(x, START, toks, [End]);
    FeedAllInRoom(x, START, toks);
    if EvalExpr(x, e).Ok? {
      WholeIsGood(x, tc, t);
      NeedOfOne(x, Have(tc, t), End);
      EndOfSentence(x, tc, t);
    }
  }

  lemma OverflowIsReported(x: Table, e: Expr)
    requires Complete(x) && EvalExpr(x, e).Ok? && CALCSTACKMAX < ExprPeak(e)
    ensures CalcExp(x, ExprToks(e)) == Err(Mem)
  {
    var toks := ExprToks(e);
    ExprReadable(e);
    var tc, t := WalkExpr(x, Bottom, e);
    StartIsGood(x);
    NeedOfExpr(x, Bottom, e, End);
    NeedConcat(x, START, toks, [End]);
    WholeIsGood(x, tc, t);
    if CALCSTACKMAX < Need(x, START, toks) {
      FeedAllOverflows(x, START, toks);
    } else {
      FeedAllInRoom(x, START, toks);
      NeedOfOne(x, Have(tc, t), End);
    }
  }

  /**
   * Every sentence for which the stack has room is evaluated to its meaning, failures included, however long it is.
   * Of those with a value no others are: they are reported as too much for the stack.
   */
  lemma SentencesAreEvaluatedIff(x: Table, e: Expr)
    requires Complete(x)
    ensures ExprPeak(e) <= CALCSTACKMAX ==> CalcExp(x, ExprToks(e)) == EvalExpr(x, e)
    ensures CALCSTACKMAX < ExprPeak(e) && EvalExpr(x, e).Ok? ==> CalcExp(x, ExprToks(e)) == Err(Mem)
  {
    if ExprPeak(e) <= CALCSTACKMAX {
      FitsIsEvaluated(x, e);
    } else if EvalExpr(x, e).Ok? {
      OverflowIsReported(x, e);
    }
  }

  lemma WholeIsGood(x: Table, tc: TermCtx, t: Term)
    requires Complete(x) && ExprCtxOk(x, tc.ec) && EvalExpr(x, Whole(tc, t)).Ok?
    ensures Good(x, Have(tc, t))
  {
  }

  lemma ExprReadable(e: Expr)
    ensures forall tok :: tok in ExprToks(e) ==> Readable(tok)
    decreases e
  {
    TermReadable(e.t);
    if !e.OfTerm? {
      ExprReadable(e.e);
    }
  }

  lemma TermReadable(t: Term)
    ensures forall tok :: tok in TermToks(t) ==> Readable(tok)
    decreases t
  {
    FactorReadable(t.f);
    if !t.OfFactor? {
      TermReadable(t.t);
    }
  }

  lemma FactorReadable(f: Factor)
    ensures forall tok :: tok in FactorToks(f) ==> Readable(tok)
    decreases f
  {
    if f.Paren? {
      ExprReadable(f.e);
    } else if !f.Number? {
      FactorReadable(f.f);
    }
  }

  /** What is accepted without error is a sentence with that value, and there was room for it. */
  lemma AcceptedAreSentences(x: Table, toks: seq<Tok>) returns (e: Expr)
    requires Complete(x) && (forall tok :: tok in toks ==> Readable(tok)) && CalcExp(x, toks).Ok?
    ensures ExprToks(e) == toks && EvalExpr(x, e) == CalcExp(x, toks) && ExprPeak(e) <= CALCSTACKMAX
  {
    StartIsGood(x);
    FeedAllFollowsWalk(x, START, toks);
    var (s, err) := FeedAll(x, [], toks);
    var c := Walk(x, START, toks);
    assert err == NoError;
    if Doomed(s) {
      FeedDoomed(x, s, End);
      assert false;
    }
    assert [] + toks == toks;
    if c.Expect? {
      EndWhileExpecting(x, c.fc);
      assert false;
    }
    if CALCSTACKMAX <= |s| {
      ErrorsStick(x, s, Mem);
      assert false;
    }
    EndOfSentence(x, c.tc, c.t);
    WholeToks(c.tc, c.t);
    e := Whole(c.tc, c.t);
    SentencesAreEvaluatedIff(x, e);
  }

  lemma EndWhileExpecting(x: Table, fc: FactorCtx)
    requires Complete(x) && FactorCtxOk(x, fc)
    ensures var (s, e) := Feed(x, FactorStack(x, fc), End); Accept(s, e).Err?
  {
    var s := FactorStack(x, fc);
    if CALCSTACKMAX <= |s| {
      ErrorsStick(x, s, Mem);
    } else {
      ContextNoFactor(x, fc, End);
      ReduceAllKeepsMisplaced(x, s + [End], NoError);
    }
  }

  /**
   * The calculator computes the language: a token string has a result exactly if it is a sentence, the stack has
   * room for it, and the result is its value.
   */
  lemma CalcComputesTheLanguage(x: Table, toks: seq<Tok>, v: real)
    requires Complete(x) && forall tok :: tok in toks ==> Readable(tok)
    ensures CalcExp(x, toks) == Ok(v) <==>
            exists e :: ExprToks(e) == toks && EvalExpr(x, e) == Ok(v) && ExprPeak(e) <= CALCSTACKMAX
  {
    if CalcExp(x, toks) == Ok(v) {
      var e := AcceptedAreSentences(x, toks);
    }
    forall e | ExprToks(e) == toks && EvalExpr(x, e) == Ok(v) && ExprPeak(e) <= CALCSTACKMAX
      ensures CalcExp(x, toks) == Ok(v)
    {
      FitsIsEvaluated(x, e);
    }
  }
}
