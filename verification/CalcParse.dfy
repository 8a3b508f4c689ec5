/**
 * The token stack of #calc as a parser: each stack a sentence can lead to is described by the part
 * of the expression read so far.
 */
module CalcParse {
  import opened CalcXp
  import opened CalcSpec

  // ---------- what has been read ----------

  /** Where an expression, a term or a factor is expected next. */
  datatype ExprCtx = Bottom | InParen(fc: FactorCtx)

  datatype TermCtx = First(ec: ExprCtx) | AfterPlus(ec: ExprCtx, e: Expr) | AfterMinus(ec: ExprCtx, e: Expr)

  datatype FactorCtx =
    | FirstFactor(tc: TermCtx)
    | AfterMul(tc: TermCtx, t: Term) | AfterDiv(tc: TermCtx, t: Term) | AfterMod(tc: TermCtx, t: Term)
    | UnderL(fc: FactorCtx) | UnderX(fc: FactorCtx)

  /** Waiting for a factor, holding a term that may still grow, failed, or off the language. */
  datatype Config = Expect(fc: FactorCtx) | Have(tc: TermCtx, t: Term) | Fail(e: Error) | Off

  function ExprCtxToks(c: ExprCtx): seq<Tok> {
    if c.Bottom? then [] else FactorCtxToks(c.fc) + [OPar]
  }

  function TermCtxToks(c: TermCtx): seq<Tok> {
    match c
    case First(ec) => ExprCtxToks(ec)
    case AfterPlus(ec, e) => ExprCtxToks(ec) + ExprToks(e) + [Plus]
    case AfterMinus(ec, e) => ExprCtxToks(ec) + ExprToks(e) + [Minus]
  }

  function FactorCtxToks(c: FactorCtx): seq<Tok> {
    match c
    case FirstFactor(tc) => TermCtxToks(tc)
    case AfterMul(tc, t) => TermCtxToks(tc) + TermToks(t) + [Mul]
    case AfterDiv(tc, t) => TermCtxToks(tc) + TermToks(t) + [Div]
    case AfterMod(tc, t) => TermCtxToks(tc) + TermToks(t) + [Mod]
    case UnderL(fc) => FactorCtxToks(fc) + [LOp]
    case UnderX(fc) => FactorCtxToks(fc) + [XOp]
  }

  /** Everything read has a value. */
  predicate ExprCtxOk(x: Table, c: ExprCtx)
    requires Complete(x)
  {
    c.InParen? ==> FactorCtxOk(x, c.fc)
  }

  predicate TermCtxOk(x: Table, c: TermCtx)
    requires Complete(x)
  {
    ExprCtxOk(x, c.ec) && (!c.First? ==> EvalExpr(x, c.e).Ok?)
  }

  predicate FactorCtxOk(x: Table, c: FactorCtx)
    requires Complete(x)
  {
    if c.UnderL? || c.UnderX? then FactorCtxOk(x, c.fc)
    else TermCtxOk(x, c.tc) && (!c.FirstFactor? ==> EvalTerm(x, c.t).Ok?)
  }

  // the token stack of a context

  function ExprStack(x: Table, c: ExprCtx): seq<Tok>
    requires Complete(x) && ExprCtxOk(x, c)
  {
    if c.Bottom? then [] else FactorStack(x, c.fc) + [OPar]
  }

  function TermStack(x: Table, c: TermCtx): seq<Tok>
    requires Complete(x) && TermCtxOk(x, c)
  {
    match c
    case First(ec) => ExprStack(x, ec)
    case AfterPlus(ec, e) => ExprStack(x, ec) + [Num(EvalExpr(x, e).v), Plus]
    case AfterMinus(ec, e) => ExprStack(x, ec) + [Num(EvalExpr(x, e).v), Minus]
  }

  function FactorStack(x: Table, c: FactorCtx): seq<Tok>
    requires Complete(x) && FactorCtxOk(x, c)
  {
    match c
    case FirstFactor(tc) => TermStack(x, tc)
    case AfterMul(tc, t) => TermStack(x, tc) + [Num(EvalTerm(x, t).v), Mul]
    case AfterDiv(tc, t) => TermStack(x, tc) + [Num(EvalTerm(x, t).v), Div]
    case AfterMod(tc, t) => TermStack(x, tc) + [Num(EvalTerm(x, t).v), Mod]
    case UnderL(fc) => FactorStack(x, fc) + [LOp]
    case UnderX(fc) => FactorStack(x, fc) + [XOp]
  }

  // ---------- the automaton on what has been read ----------

  function Check(v: Value, c: Config): Config {
    if v.Ok? then c else Fail(v.e)
  }

  /** A factor is complete: prefix operators and multiplications are applied at once. */
  function Close(x: Table, c: FactorCtx, f: Factor): (r: Config)
    requires Complete(x)
    ensures r.Have? || r.Fail?
    decreases c
  {
    match c
    case FirstFactor(tc) => Have(tc, OfFactor(f))
    case AfterMul(tc, t) => Have(tc, Product(t, f))
    case AfterDiv(tc, t) => Check(EvalTerm(x, Quotient(t, f)), Have(tc, Quotient(t, f)))
    case AfterMod(tc, t) => Check(EvalTerm(x, Remainder(t, f)), Have(tc, Remainder(t, f)))
    case UnderL(fc) => if EvalFactor(x, LOf(f)).Ok? then Close(x, fc, LOf(f)) else Fail(EvalFactor(x, LOf(f)).e)
    case UnderX(fc) => if EvalFactor(x, XOf(f)).Ok? then Close(x, fc, XOf(f)) else Fail(EvalFactor(x, XOf(f)).e)
  }

  /** The expression that ends with the term held. */
  function Whole(c: TermCtx, t: Term): Expr {
    match c
    case First(_) => OfTerm(t)
    case AfterPlus(_, e) => Sum(e, t)
    case AfterMinus(_, e) => Difference(e, t)
  }

  function Delta(x: Table, c: Config, tok: Tok): Config
    requires Complete(x)
  {
    match c
    case Expect(fc) =>
      (match tok
       case Num(v) => Close(x, fc, Number(v))
       case LOp => Expect(UnderL(fc))
       case XOp => Expect(UnderX(fc))
       case OPar => Expect(FirstFactor(First(InParen(fc))))
       case _ => Off)
    case Have(tc, t) =>
      (match tok
       case Plus => Expect(FirstFactor(AfterPlus(tc.ec, Whole(tc, t))))
       case Minus => Expect(FirstFactor(AfterMinus(tc.ec, Whole(tc, t))))
       case Mul => Expect(AfterMul(tc, t))
       case Div => Expect(AfterDiv(tc, t))
       case Mod => Expect(AfterMod(tc, t))
       case CPar => if tc.ec.InParen? then Close(x, tc.ec.fc, Paren(Whole(tc, t))) else Off
       case _ => Off)
    case Fail(_) => c
    case Off => Off
  }

  function Walk(x: Table, c: Config, toks: seq<Tok>): Config
    requires Complete(x)
    decreases |toks|
  {
    if toks == [] then c else Walk(x, Delta(x, c, toks[0]), toks[1..])
  }

  lemma {:induction false} WalkConcat(x: Table, c: Config, a: seq<Tok>, b: seq<Tok>)
    requires Complete(x)
    ensures Walk(x, c, a + b) == Walk(x, Walk(x, c, a), b)
    decreases |a|
  {
    if a == [] {
      assert a + b == b;
    } else {
      WalkConcat(x, Delta(x, c, a[0]), a[1..], b);
      assert (a + b)[0] == a[0] && (a + b)[1..] == a[1..] + b;
    }
  }

  lemma WalkOne(x: Table, c: Config, tok: Tok)
    requires Complete(x)
    ensures Walk(x, c, [tok]) == Delta(x, c, tok)
  {
    assert [tok][1..] == [];
  }

  lemma {:induction false} WalkFail(x: Table, e: Error, toks: seq<Tok>)
    requires Complete(x)
    ensures Walk(x, Fail(e), toks) == Fail(e)
    decreases |toks|
  {
    if toks != [] {
      WalkFail(x, e, toks[1..]);
    }
  }

  // ---------- the automaton reads every sentence ----------

  lemma {:induction false} WalkFactor(x: Table, c: FactorCtx, f: Factor)
    requires Complete(x)
    ensures var v := EvalFactor(x, f);
            Walk(x, Expect(c), FactorToks(f)) == if v.Ok? then Close(x, c, f) else Fail(v.e)
    decreases f
  {
    match f
    case Number(v) => WalkOne(x, Expect(c), Num(v));
    case LOf(g) =>
      WalkConcat(x, Expect(c), [LOp], FactorToks(g));
      WalkOne(x, Expect(c), LOp);
      WalkFactor(x, UnderL(c), g);
    case XOf(g) =>
      WalkConcat(x, Expect(c), [XOp], FactorToks(g));
      WalkOne(x, Expect(c), XOp);
      WalkFactor(x, UnderX(c), g);
    case Paren(e) =>
      var inner := First(InParen(c));
      WalkConcat(x, Expect(c), [OPar] + ExprToks(e), [CPar]);
      WalkConcat(x, Expect(c), [OPar], ExprToks(e));
      WalkOne(x, Expect(c), OPar);
      var tc, t := WalkExpr(x, InParen(c), e);
      WalkOne(x, Walk(x, Expect(FirstFactor(inner)), ExprToks(e)), CPar);
  }

  lemma {:induction false} WalkTerm(x: Table, c: TermCtx, t: Term)
    requires Complete(x)
    ensures var v := EvalTerm(x, t);
            Walk(x, Expect(FirstFactor(c)), TermToks(t)) == if v.Ok? then Have(c, t) else Fail(v.e)
    decreases t
  {
    var c0 := Expect(FirstFactor(c));
    if t.OfFactor? {
      WalkFactor(x, FirstFactor(c), t.f);
    } else {
      var op := if t.Product? then Mul else if t.Quotient? then Div else Mod;
      assert TermToks(t) == TermToks(t.t) + [op] + FactorToks(t.f);
      WalkConcat(x, c0, TermToks(t.t) + [op], FactorToks(t.f));
      WalkConcat(x, c0, TermToks(t.t), [op]);
      WalkTerm(x, c, t.t);
      var c1 := Walk(x, c0, TermToks(t.t));
      WalkOne(x, c1, op);
      if c1.Fail? {
        WalkFail(x, c1.e, FactorToks(t.f));
      } else {
        WalkFactor(x, Delta(x, c1, op).fc, t.f);
      }
    }
  }

  lemma {:induction false} WalkExpr(x: Table, c: ExprCtx, e: Expr) returns (tc: TermCtx, t: Term)
    requires Complete(x)
    ensures var v := EvalExpr(x, e);
            Walk(x, Expect(FirstFactor(First(c))), ExprToks(e)) == if v.Ok? then Have(tc, t) else Fail(v.e)
    ensures tc.ec == c && Whole(tc, t) == e
    decreases e
  {
    var c0 := Expect(FirstFactor(First(c)));
    t := e.t;
    if e.OfTerm? {
      tc := First(c);
      WalkTerm(x, tc, t);
    } else {
      var op := if e.Sum? then Plus else Minus;
      tc := if e.Sum? then AfterPlus(c, e.e) else AfterMinus(c, e.e);
      assert ExprToks(e) == ExprToks(e.e) + [op] + TermToks(t);
      WalkConcat(x, c0, ExprToks(e.e) + [op], TermToks(t));
      WalkConcat(x, c0, ExprToks(e.e), [op]);
      var tc1, t1 := WalkExpr(x, c, e.e);
      var c1 := Walk(x, c0, ExprToks(e.e));
      WalkOne(x, c1, op);
      if c1.Fail? {
        WalkFail(x, c1.e, TermToks(t));
      } else {
        WalkTerm(x, tc, t);
      }
    }
  }

  // ---------- the automaton forgets no token ----------

  function ConfigToks(c: Config): seq<Tok>
    requires c.Expect? || c.Have?
  {
    if c.Expect? then FactorCtxToks(c.fc) else TermCtxToks(c.tc) + TermToks(c.t)
  }

  lemma {:induction false} CloseToks(x: Table, c: FactorCtx, f: Factor)
    requires Complete(x) && Close(x, c, f).Have?
    ensures ConfigToks(Close(x, c, f)) == FactorCtxToks(c) + FactorToks(f)
    decreases c
  {
    match c
    case FirstFactor(tc) =>
    case AfterMul(tc, t) =>
    case AfterDiv(tc, t) =>
    case AfterMod(tc, t) =>
    case UnderL(fc) => CloseToks(x, fc, LOf(f));
    case UnderX(fc) => CloseToks(x, fc, XOf(f));
  }

  lemma WholeToks(c: TermCtx, t: Term)
    ensures TermCtxToks(c) + TermToks(t) == ExprCtxToks(c.ec) + ExprToks(Whole(c, t))
  {
  }

  lemma DeltaToks(x: Table, c: Config, tok: Tok)
    requires Complete(x) && (c.Expect? || c.Have?)
    requires Delta(x, c, tok).Expect? || Delta(x, c, tok).Have?
    ensures ConfigToks(Delta(x, c, tok)) == ConfigToks(c) + [tok]
  {
    if c.Expect? && tok.Num? {
      CloseToks(x, c.fc, Number(tok.value));
    } else if c.Expect? && tok.OPar? {
      assert TermCtxToks(First(InParen(c.fc))) == FactorCtxToks(c.fc) + [OPar];
    } else if c.Have? {
      var e := Whole(c.tc, c.t);
      WholeToks(c.tc, c.t);
      if tok.CPar? {
        CloseToks(x, c.tc.ec.fc, Paren(e));
        assert FactorToks(Paren(e)) == [OPar] + ExprToks(e) + [CPar];
        assert ConfigToks(c) + [CPar] == FactorCtxToks(c.tc.ec.fc) + ([OPar] + ExprToks(e) + [CPar]);
      } else if tok.Plus? {
        assert FactorCtxToks(FirstFactor(AfterPlus(c.tc.ec, e))) == TermCtxToks(AfterPlus(c.tc.ec, e));
      } else if tok.Minus? {
        assert FactorCtxToks(FirstFactor(AfterMinus(c.tc.ec, e))) == TermCtxToks(AfterMinus(c.tc.ec, e));
      }
    }
  }

  // ---------- the stack follows the automaton ----------

  predicate Good(x: Table, c: Config)
    requires Complete(x)
  {
    match c
    case Expect(fc) => FactorCtxOk(x, fc)
    case Have(tc, t) => TermCtxOk(x, tc) && EvalTerm(x, t).Ok?
    case Fail(_) => false
    case Off => false
  }

  function StackOf(x: Table, c: Config): seq<Tok>
    requires Complete(x) && Good(x, c)
  {
    if c.Expect? then FactorStack(x, c.fc) else TermStack(x, c.tc) + [Num(EvalTerm(x, c.t).v)]
  }

  lemma ContextTops(x: Table, c: TermCtx)
    requires Complete(x) && TermCtxOk(x, c)
    ensures SumStart(ExprStack(x, c.ec)) && TermStart(TermStack(x, c))
  {
  }

  lemma OperatorIsStuck(x: Table, s: seq<Tok>, tok: Tok, e: Error)
    requires Complete(x) && (tok.OPar? || tok.Mul? || tok.Div? || tok.Mod? || tok.LOp? || tok.XOp?)
    ensures ReduceAll(x, s + [tok], e) == (s + [tok], e)
  {
    InspectTop(s, [tok]);
  }

  lemma SumContextStuck(x: Table, c: TermCtx, e: Error)
    requires Complete(x) && TermCtxOk(x, c)
    ensures ReduceAll(x, TermStack(x, c), e) == (TermStack(x, c), e)
  {
    hide EvalExpr, Reduce, ReduceAll;
    ContextTops(x, c);
    if c.First? {
      if c.ec.Bottom? {
        NothingIsStuck(x, e);
      } else {
        OperatorIsStuck(x, FactorStack(x, c.ec.fc), OPar, e);
      }
    } else {
      SumIsStuck(x, ExprStack(x, c.ec), EvalExpr(x, c.e).v, if c.AfterPlus? then Plus else Minus, e);
    }
  }

  lemma NothingIsStuck(x: Table, e: Error)
    requires Complete(x)
    ensures ReduceAll(x, [], e) == ([], e)
  {
  }

  lemma FactorContextStuck(x: Table, c: FactorCtx, e: Error)
    requires Complete(x) && FactorCtxOk(x, c)
    ensures ReduceAll(x, FactorStack(x, c), e) == (FactorStack(x, c), e)
  {
    hide EvalExpr, EvalTerm, Reduce, ReduceAll;
    if c.FirstFactor? {
      SumContextStuck(x, c.tc, e);
    } else if c.UnderL? || c.UnderX? {
      OperatorIsStuck(x, FactorStack(x, c.fc), if c.UnderL? then LOp else XOp, e);
    } else {
      var op := if c.AfterMul? then Mul else if c.AfterDiv? then Div else Mod;
      assert FactorStack(x, c) == TermStack(x, c.tc) + [Num(EvalTerm(x, c.t).v)] + [op];
      OperatorIsStuck(x, TermStack(x, c.tc) + [Num(EvalTerm(x, c.t).v)], op, e);
    }
  }

  /** Completing a factor on the stack. */
  lemma {:induction false} CloseOnStack(x: Table, c: FactorCtx, f: Factor)
    requires Complete(x) && FactorCtxOk(x, c) && EvalFactor(x, f).Ok?
    ensures var (s, e) := ReduceAll(x, FactorStack(x, c) + [Num(EvalFactor(x, f).v)], NoError);
            var r := Close(x, c, f);
            if r.Fail? then e == r.e != NoError else Good(x, r) && s == StackOf(x, r) && e == NoError
    decreases c
  {
    hide Apply, ApplyPrefix, Reduce, ReduceAll, LValue, XValue;
    var v := EvalFactor(x, f).v;
    if c.FirstFactor? {
      ContextTops(x, c.tc);
      TermIsStuck(x, TermStack(x, c.tc), v, NoError);
    } else if c.UnderL? || c.UnderX? {
      var op, g := if c.UnderL? then LOp else XOp, if c.UnderL? then LOf(f) else XOf(f);
      assert FactorStack(x, c) + [Num(v)] == FactorStack(x, c.fc) + [op, Num(v)];
      Prefixed(x, FactorStack(x, c.fc), op, v);
      PrefixErrors(x, op, v);
      if EvalFactor(x, g).Ok? {
        CloseOnStack(x, c.fc, g);
      } else {
        FactorContextStuck(x, c.fc, EvalFactor(x, g).e);
      }
    } else {
      Operate(x, c, f, c.tc, c.t, if c.AfterMul? then Mul else if c.AfterDiv? then Div else Mod);
    }
  }

  lemma PrefixErrors(x: Table, op: Tok, v: real)
    requires Complete(x) && (op.LOp? || op.XOp?)
    ensures ApplyPrefix(x, op, v) != Err(NoError)
  {
  }

  lemma Operate(x: Table, c: FactorCtx, f: Factor, tc: TermCtx, t: Term, op: Tok)
    requires Complete(x) && FactorCtxOk(x, c) && EvalFactor(x, f).Ok?
    requires (op.Mul? && c == AfterMul(tc, t)) || (op.Div? && c == AfterDiv(tc, t)) || (op.Mod? && c == AfterMod(tc, t))
    ensures var (s, e) := ReduceAll(x, FactorStack(x, c) + [Num(EvalFactor(x, f).v)], NoError);
            var r := Close(x, c, f);
            if r.Fail? then e == r.e != NoError else Good(x, r) && s == StackOf(x, r) && e == NoError
  {
    hide Reduce, ReduceAll, LValue, XValue, Fmod;
    var a, b := EvalTerm(x, t).v, EvalFactor(x, f).v;
    assert FactorStack(x, c) + [Num(b)] == TermStack(x, tc) + [Num(a), op, Num(b)];
    ContextTops(x, tc);
    Multiplied(x, TermStack(x, tc), a, op, b);
  }

  /** A sum is added up once the token after it is known. */
  lemma AddUp(x: Table, c: TermCtx, t: Term, tok: Tok)
    requires Complete(x) && TermCtxOk(x, c) && EvalTerm(x, t).Ok? && (tok.Plus? || tok.Minus? || tok.CPar? || tok.End?)
    ensures EvalExpr(x, Whole(c, t)).Ok?
    ensures ReduceAll(x, TermStack(x, c) + [Num(EvalTerm(x, t).v)] + [tok], NoError)
         == ReduceAll(x, ExprStack(x, c.ec) + [Num(EvalExpr(x, Whole(c, t)).v), tok], NoError)
  {
    hide Reduce, ReduceAll, EvalTerm;
    var s := TermStack(x, c) + [Num(EvalTerm(x, t).v)] + [tok];
    if c.First? {
      assert s == ExprStack(x, c.ec) + [Num(EvalExpr(x, Whole(c, t)).v), tok];
    } else {
      var op := if c.AfterPlus? then Plus else Minus;
      assert s == ExprStack(x, c.ec) + [Num(EvalExpr(x, c.e).v), op, Num(EvalTerm(x, t).v), tok];
      Added(x, ExprStack(x, c.ec), EvalExpr(x, c.e).v, op, EvalTerm(x, t).v, tok);
    }
  }

  // ---------- stacks no sentence leads to ----------

  predicate Starts(tok: Tok) {
    tok.Num? || tok.OPar? || tok.LOp? || tok.XOp?
  }

  /** b may stand above a. */
  predicate Follows(a: Tok, b: Tok) {
    if a.Num? then b.Plus? || b.Minus? || b.Mul? || b.Div? || b.Mod? || b.CPar? || b.End?
    else !a.CPar? && !a.End? && !a.Garbage? && Starts(b)
  }

  ghost predicate Misplaced(s: seq<Tok>) {
    || (s != [] && !Starts(s[0]))
    || exists i :: 0 <= i < |s| - 1 && !Follows(s[i], s[i + 1])
  }

  /** Out of reach of the rules: a misplaced token, or a closing parenthesis that found no partner. */
  ghost predicate Doomed(s: seq<Tok>) {
    Misplaced(s) || (s != [] && s[|s| - 1].CPar?)
  }

  /** Replacing a well-placed top part by another one with the same kind of start. */
  lemma MisplacedBelow(base: seq<Tok>, w: seq<Tok>, w': seq<Tok>)
    requires w != [] && w' != [] && Starts(w[0]) && Starts(w'[0]) && !Misplaced(w)
    requires Misplaced(base + w)
    ensures Misplaced(base + w')
  {
    var s, s' := base + w, base + w';
    if s[0] == w[0] || Starts(s[0]) {
      var i :| 0 <= i < |s| - 1 && !Follows(s[i], s[i + 1]);
      assert i < |base|;
      if i + 1 < |base| {
        assert s'[i] == s[i] && s'[i + 1] == s[i + 1];
      } else {
        assert s'[i] == s[i] && s[i + 1] == w[0] && s'[i + 1] == w'[0];
      }
    } else {
      assert base != [] && s'[0] == s[0];
    }
  }

  /** What a rule takes away and what it puts there. */
  lemma RuleShape(x: Table, s: seq<Tok>)
    requires Complete(x)
    ensures var r := Reduce(x, s);
            r.Replace? && r.error == NoError ==>
              && r.top != [] && Starts(r.top[0])
              && Starts(s[|s| - r.n]) && !Misplaced(s[|s| - r.n..])
  {
    hide LValue, XValue, LDefined, XDefined, Fmod, Times;
    var r := Reduce(x, s);
    if r.Replace? && r.error == NoError {
      var w := s[|s| - r.n..];
      assert forall k :: 0 <= k < r.n ==> w[r.n - 1 - k] == Inspect(s, k);
    }
  }

  lemma ReduceKeepsMisplaced(x: Table, s: seq<Tok>)
    requires Complete(x) && Misplaced(s)
    ensures var r := Reduce(x, s); r.Replace? && r.error == NoError ==> Misplaced(Drop(s, r.n) + r.top)
  {
    var r := Reduce(x, s);
    if r.Replace? && r.error == NoError {
      RuleShape(x, s);
      assert s == Drop(s, r.n) + s[|s| - r.n..];
      MisplacedBelow(Drop(s, r.n), s[|s| - r.n..], r.top);
    }
  }

  lemma {:induction false} ReduceAllKeepsMisplaced(x: Table, s: seq<Tok>, e: Error)
    requires Complete(x) && Misplaced(s)
    ensures var (s', e') := ReduceAll(x, s, e); e' != NoError || Misplaced(s')
    decreases |s|
  {
    match Reduce(x, s)
    case Stuck =>
    case Replace(n, top, e') =>
      if e' == NoError {
        ReduceKeepsMisplaced(x, s);
        ReduceAllKeepsMisplaced(x, Drop(s, n) + top, e);
      } else {
        ErrorsStick(x, Drop(s, n) + top, e');
      }
  }

  lemma {:induction false} ErrorsStick(x: Table, s: seq<Tok>, e: Error)
    requires Complete(x) && e != NoError
    ensures ReduceAll(x, s, e).1 != NoError
    decreases |s|
  {
    match Reduce(x, s)
    case Stuck =>
    case Replace(n, top, e') => ErrorsStick(x, Drop(s, n) + top, if e' == NoError then e else e');
  }

  lemma FeedDoomed(x: Table, s: seq<Tok>, tok: Tok)
    requires Complete(x) && Doomed(s)
    ensures var (s', e) := Feed(x, s, tok); e != NoError || Misplaced(s')
  {
    if CALCSTACKMAX < |s| + 1 {
      ErrorsStick(x, s, Mem);
    } else {
      if i :| 0 <= i < |s| - 1 && !Follows(s[i], s[i + 1]) {
        assert (s + [tok])[i] == s[i] && (s + [tok])[i + 1] == s[i + 1];
      } else if Starts(s[0]) {
        assert (s + [tok])[|s| - 1].CPar? && !Follows((s + [tok])[|s| - 1], (s + [tok])[|s| - 1 + 1]);
      }
      ReduceAllKeepsMisplaced(x, s + [tok], NoError);
    }
  }

  /** A token the input can hold: neither the end mark nor garbage. */
  predicate Readable(tok: Tok) {
    !tok.End? && !tok.Garbage?
  }

  lemma ContextNoFactor(x: Table, c: FactorCtx, tok: Tok)
    requires Complete(x) && FactorCtxOk(x, c) && !Starts(tok)
    ensures Misplaced(FactorStack(x, c) + [tok])
  {
    var s := FactorStack(x, c) + [tok];
    if |s| == 1 {
      assert s[0] == tok;
    } else {
      FactorStackTop(x, c);
      assert !Follows(s[|s| - 2], s[|s| - 2 + 1]);
    }
  }

  lemma FactorStackTop(x: Table, c: FactorCtx)
    requires Complete(x) && FactorCtxOk(x, c)
    ensures var s := FactorStack(x, c); s == [] || !s[|s| - 1].Num?
  {
    if c.FirstFactor? {
      ContextTops(x, c.tc);
    }
  }

  lemma OpenContext(x: Table, fc: FactorCtx)
    requires Complete(x) && FactorCtxOk(x, fc)
    ensures var c := FirstFactor(First(InParen(fc)));
            FactorCtxOk(x, c) && FactorStack(x, c) == FactorStack(x, fc) + [OPar]
  {
    assert ExprCtxOk(x, InParen(fc)) && ExprStack(x, InParen(fc)) == FactorStack(x, fc) + [OPar];
    assert TermCtxOk(x, First(InParen(fc)));
  }

  lemma SumContext(x: Table, ec: ExprCtx, e: Expr, plus: bool)
    requires Complete(x) && ExprCtxOk(x, ec) && EvalExpr(x, e).Ok?
    ensures var c := FirstFactor(if plus then AfterPlus(ec, e) else AfterMinus(ec, e));
            && FactorCtxOk(x, c)
            && FactorStack(x, c) == ExprStack(x, ec) + [Num(EvalExpr(x, e).v), if plus then Plus else Minus]
  {
    hide EvalExpr, EvalTerm;
    assert TermCtxOk(x, if plus then AfterPlus(ec, e) else AfterMinus(ec, e));
  }

  /** Shifting a token does to the stack what the automaton does to the part read. */
  lemma FeedFollowsDelta(x: Table, c: Config, tok: Tok)
    requires Complete(x) && Good(x, c) && Readable(tok) && |StackOf(x, c)| < CALCSTACKMAX
    ensures var (s, e) := Feed(x, StackOf(x, c), tok);
            var c' := Delta(x, c, tok);
            if c'.Fail? then e == c'.e != NoError
            else if c'.Off? then e != NoError || Doomed(s)
            else Good(x, c') && s == StackOf(x, c') && e == NoError
  {
    if c.Expect? {
      FeedWhileExpecting(x, c.fc, tok);
    } else {
      FeedWhileHaving(x, c.tc, c.t, tok);
    }
  }

  lemma FeedWhileExpecting(x: Table, fc: FactorCtx, tok: Tok)
    requires Complete(x) && FactorCtxOk(x, fc) && Readable(tok) && |FactorStack(x, fc)| < CALCSTACKMAX
    ensures var (s, e) := Feed(x, FactorStack(x, fc), tok);
            var c' := Delta(x, Expect(fc), tok);
            if c'.Fail? then e == c'.e != NoError
            else if c'.Off? then e != NoError || Doomed(s)
            else Good(x, c') && s == StackOf(x, c') && e == NoError
  {
    hide Reduce, ReduceAll, EvalTerm, EvalExpr, LValue, XValue;
    if tok.Num? {
      CloseOnStack(x, fc, Number(tok.value));
    } else if tok.LOp? {
      FactorContextStuck(x, UnderL(fc), NoError);
    } else if tok.XOp? {
      FactorContextStuck(x, UnderX(fc), NoError);
    } else if tok.OPar? {
      OpenContext(x, fc);
      FactorContextStuck(x, FirstFactor(First(InParen(fc))), NoError);
    } else {
      ContextNoFactor(x, fc, tok);
      ReduceAllKeepsMisplaced(x, FactorStack(x, fc) + [tok], NoError);
    }
  }

  lemma FeedWhileHaving(x: Table, tc: TermCtx, t: Term, tok: Tok)
    requires Complete(x) && Good(x, Have(tc, t)) && Readable(tok) && |StackOf(x, Have(tc, t))| < CALCSTACKMAX
    ensures var (s, e) := Feed(x, StackOf(x, Have(tc, t)), tok);
            var c' := Delta(x, Have(tc, t), tok);
            if c'.Fail? then e == c'.e != NoError
            else if c'.Off? then e != NoError || Doomed(s)
            else Good(x, c') && s == StackOf(x, c') && e == NoError
  {
    hide Reduce, ReduceAll, EvalTerm, LValue, XValue;
    var s := StackOf(x, Have(tc, t)) + [tok];
    var v := EvalTerm(x, t).v;
    if tok.Mul? || tok.Div? || tok.Mod? {
      var c' := if tok.Mul? then AfterMul(tc, t) else if tok.Div? then AfterDiv(tc, t) else AfterMod(tc, t);
      assert s == FactorStack(x, c');
      FactorContextStuck(x, c', NoError);
    } else if tok.Plus? || tok.Minus? {
      var e := Whole(tc, t);
      AddUp(x, tc, t, tok);
      ContextTops(x, tc);
      SumIsStuck(x, ExprStack(x, tc.ec), EvalExpr(x, e).v, tok, NoError);
      SumContext(x, tc.ec, e, tok.Plus?);
    } else if tok.CPar? {
      CloseParenthesis(x, tc, t);
    } else {
      assert s[|s| - 2] == Num(v) && !Follows(s[|s| - 2], s[|s| - 2 + 1]);
      ReduceAllKeepsMisplaced(x, s, NoError);
    }
  }

  lemma CloseParenthesis(x: Table, tc: TermCtx, t: Term)
    requires Complete(x) && Good(x, Have(tc, t))
    ensures var (s, e) := ReduceAll(x, StackOf(x, Have(tc, t)) + [CPar], NoError);
            var c' := Delta(x, Have(tc, t), CPar);
            if c'.Fail? then e == c'.e != NoError
            else if c'.Off? then e != NoError || Doomed(s)
            else Good(x, c') && s == StackOf(x, c') && e == NoError
  {
    hide EvalTerm, EvalExpr, LValue, XValue, Reduce, ReduceAll;
    AddUp(x, tc, t, CPar);
    var e := Whole(tc, t);
    var v := EvalExpr(x, e).v;
    if tc.ec.InParen? {
      assert ExprStack(x, tc.ec) + [Num(v), CPar] == FactorStack(x, tc.ec.fc) + [OPar, Num(v), CPar];
      Parenthesised(x, FactorStack(x, tc.ec.fc), v);
      assert EvalFactor(x, Paren(e)) == EvalExpr(x, e);
      CloseOnStack(x, tc.ec.fc, Paren(e));
    } else {
      assert ExprStack(x, tc.ec) + [Num(v), CPar] == [Num(v), CPar];
      Unpartnered(x, v);
    }
  }

  lemma {:induction false} FeedAllDoomed(x: Table, s: seq<Tok>, toks: seq<Tok>)
    requires Complete(x) && Doomed(s)
    ensures var (s', e) := FeedAll(x, s, toks); e != NoError || Doomed(s')
    decreases |toks|
  {
    if toks != [] {
      FeedDoomed(x, s, toks[0]);
      if Feed(x, s, toks[0]).1 == NoError {
        FeedAllDoomed(x, Feed(x, s, toks[0]).0, toks[1..]);
      }
    }
  }

  /** A whole run: as long as nothing fails, the stack is the automaton's, or doomed if that is off. */
  lemma {:induction false} FeedAllFollowsWalk(x: Table, c: Config, toks: seq<Tok>)
    requires Complete(x) && Good(x, c) && forall tok :: tok in toks ==> Readable(tok)
    ensures var (s, e) := FeedAll(x, StackOf(x, c), toks);
            var c' := Walk(x, c, toks);
            e == NoError && !Doomed(s) ==> Good(x, c') && s == StackOf(x, c') && ConfigToks(c') == ConfigToks(c) + toks
    decreases |toks|
  {
    hide Reduce, ReduceAll, Delta, Misplaced, EvalExpr, EvalTerm, EvalFactor, ConfigToks;
    if toks != [] {
      var s, c1 := StackOf(x, c), Delta(x, c, toks[0]);
      assert toks[0] in toks;
      if |s| < CALCSTACKMAX {
        FeedFollowsDelta(x, c, toks[0]);
        if c1.Off? {
          if Feed(x, s, toks[0]).1 == NoError {
            FeedAllDoomed(x, Feed(x, s, toks[0]).0, toks[1..]);
          }
        } else if !c1.Fail? {
          DeltaToks(x, c, toks[0]);
          FeedAllFollowsWalk(x, c1, toks[1..]);
          assert ConfigToks(c) + [toks[0]] + toks[1..] == ConfigToks(c) + toks;
        }
      } else {
        ErrorsStick(x, s, Mem);
      }
    } else {
      assert ConfigToks(c) + toks == ConfigToks(c);
    }
  }
}
