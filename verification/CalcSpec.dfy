/** The #calc language: tokens, the reductions of the token stack, and the grammar with its meaning. */
module CalcSpec {
  import opened CalcXp

  const CALCSTACKMAX: nat := 256

  /** Garbage is what stands on the stack after a division by zero. */
  datatype Tok = OPar | CPar | Plus | Minus | Mul | Div | Mod | Num(value: real) | End | XOp | LOp | Garbage

  datatype Error = NoError | Syntax | Divide | Mem | LOpSyntax | XOpSyntax

  datatype Value = Ok(v: real) | Err(e: Error)

  /** The C library's trunc: towards zero. */
  function Trunc(x: real): real {
    if 0.0 <= x then x.Floor as real else -((-x).Floor as real)
  }

  function Fmod(a: real, b: real): real
    requires b != 0.0
  {
    a - b * Trunc(a / b)
  }

  // the reductions multiply by name, so that no proof about stacks does arithmetic
  function Times(a: real, b: real): real {
    a * b
  }

  lemma TimesIsProduct(a: real, b: real)
    ensures Times(a, b) == b * a
  {
  }

  // ---------- reductions ----------

  /** One reduction: none applies, or the top n tokens are replaced, possibly with an error. */
  datatype Reduction = Stuck | Replace(n: nat, top: seq<Tok>, error: Error)

  function Inspect(s: seq<Tok>, k: nat): Tok {
    if k < |s| then s[|s| - 1 - k] else Garbage
  }

  function Drop(s: seq<Tok>, n: nat): seq<Tok>
    requires n <= |s|
  {
    s[..|s| - n]
  }

  /** The rules in the order the source tries them, on the four topmost tokens; pair says there are just two. */
  function Rule(t: Table, t1: Tok, t2: Tok, t3: Tok, t4: Tok, pair: bool): Reduction
    requires Complete(t)
  {
    if t1.Num? && t2.LOp? then
      if LDefined(t1.value) then Replace(2, [Num(LValue(t, t1.value))], NoError) else Replace(2, [], LOpSyntax)
    else if t1.Num? && t2.XOp? then
      if XDefined(t, t1.value) then Replace(2, [Num(XValue(t, t1.value))], NoError) else Replace(2, [], XOpSyntax)
    else if t1.Num? && t2.Mul? && t3.Num? then Replace(3, [Num(Times(t1.value, t3.value))], NoError)
    else if t1.Num? && t2.Div? && t3.Num? then
      if t1.value != 0.0 then Replace(3, [Num(t3.value / t1.value)], NoError) else Replace(3, [Garbage], Divide)
    else if (t1.Plus? || t1.Minus? || t1.End? || t1.CPar?) && t2.Num? && (t3.Plus? || t3.Minus?) && t4.Num? then
      Replace(4, [Num(if t3.Minus? then t4.value - t2.value else t4.value + t2.value), t1], NoError)
    else if t1.Num? && t2.Mod? && t3.Num? then
      if t1.value != 0.0 then Replace(3, [Num(Fmod(t3.value, t1.value))], NoError) else Replace(3, [Garbage], Divide)
    else if t1.CPar? && t2.Num? && t3.OPar? then Replace(3, [t2], NoError)
    else if t1.End? && t2.Num? && pair then Replace(2, [t2], NoError)
    else Stuck
  }

  function Reduce(t: Table, s: seq<Tok>): (r: Reduction)
    requires Complete(t)
    ensures r.Replace? ==> |r.top| < r.n <= |s|
  {
    Rule(t, Inspect(s, 0), Inspect(s, 1), Inspect(s, 2), Inspect(s, 3), |s| == 2)
  }

  lemma InspectTop(base: seq<Tok>, w: seq<Tok>)
    ensures forall k :: 0 <= k < |w| ==> Inspect(base + w, k) == w[|w| - 1 - k]
    ensures forall k :: |w| <= k ==> Inspect(base + w, k) == Inspect(base, k - |w|)
  {
  }

  /** Reduces until stuck; an error sticks, a later one replaces it. */
  function ReduceAll(t: Table, s: seq<Tok>, err: Error): (seq<Tok>, Error)
    requires Complete(t)
    decreases |s|
  {
    match Reduce(t, s)
    case Stuck => (s, err)
    case Replace(n, top, e) => ReduceAll(t, Drop(s, n) + top, if e == NoError then err else e)
  }

  /** The stack below a term: empty, or an open parenthesis or a sum operator on top. */
  predicate TermStart(s: seq<Tok>) {
    s == [] || s[|s| - 1].OPar? || s[|s| - 1].Plus? || s[|s| - 1].Minus?
  }

  predicate SumStart(s: seq<Tok>) {
    s == [] || s[|s| - 1].OPar?
  }

  lemma ReplaceTop(x: Table, base: seq<Tok>, w: seq<Tok>, top: seq<Tok>, e: Error, err: Error)
    requires Complete(x) && Reduce(x, base + w) == Replace(|w|, top, e)
    ensures ReduceAll(x, base + w, err) == ReduceAll(x, base + top, if e == NoError then err else e)
  {
    assert Drop(base + w, |w|) == base;
  }

  lemma TermIsStuck(x: Table, s: seq<Tok>, v: real, err: Error)
    requires Complete(x) && TermStart(s)
    ensures ReduceAll(x, s + [Num(v)], err) == (s + [Num(v)], err)
  {
    InspectTop(s, [Num(v)]);
  }

  lemma SumIsStuck(x: Table, s: seq<Tok>, v: real, tok: Tok, err: Error)
    requires Complete(x) && SumStart(s) && (tok.Plus? || tok.Minus?)
    ensures ReduceAll(x, s + [Num(v), tok], err) == (s + [Num(v), tok], err)
  {
    InspectTop(s, [Num(v), tok]);
  }

  lemma Multiplied(x: Table, s: seq<Tok>, a: real, op: Tok, b: real)
    requires Complete(x) && TermStart(s) && (op.Mul? || op.Div? || op.Mod?)
    ensures ReduceAll(x, s + [Num(a), op, Num(b)], NoError) ==
            var r := Apply(op, a, b);
            if r.Ok? then (s + [Num(r.v)], NoError) else (s + [Garbage], r.e)
  {
    hide Fmod, Times;
    var w := [Num(a), op, Num(b)];
    InspectTop(s, w);
    var r := Apply(op, a, b);
    TimesIsProduct(b, a);
    if r.Ok? {
      ReplaceTop(x, s, w, [Num(r.v)], NoError, NoError);
      TermIsStuck(x, s, r.v, NoError);
    } else {
      ReplaceTop(x, s, w, [Garbage], r.e, NoError);
      InspectTop(s, [Garbage]);
    }
  }

  lemma Added(x: Table, s: seq<Tok>, a: real, op: Tok, b: real, tok: Tok)
    requires Complete(x) && (op.Plus? || op.Minus?) && (tok.Plus? || tok.Minus? || tok.CPar? || tok.End?)
    ensures ReduceAll(x, s + [Num(a), op, Num(b), tok], NoError) ==
            ReduceAll(x, s + [Num(Apply(op, a, b).v), tok], NoError)
  {
    var w := [Num(a), op, Num(b), tok];
    InspectTop(s, w);
    ReplaceTop(x, s, w, [Num(Apply(op, a, b).v), tok], NoError, NoError);
  }

  lemma Parenthesised(x: Table, s: seq<Tok>, v: real)
    requires Complete(x)
    ensures ReduceAll(x, s + [OPar, Num(v), CPar], NoError) == ReduceAll(x, s + [Num(v)], NoError)
  {
    var w := [OPar, Num(v), CPar];
    InspectTop(s, w);
    ReplaceTop(x, s, w, [Num(v)], NoError, NoError);
  }

  /** Nothing reduces an unpartnered closing parenthesis. */
  lemma Unpartnered(x: Table, v: real)
    requires Complete(x)
    ensures ReduceAll(x, [Num(v), CPar], NoError) == ([Num(v), CPar], NoError)
  {
  }

  /** The end mark leaves a lone number and sticks to anything else. */
  lemma Finished(x: Table, s: seq<Tok>, v: real)
    requires Complete(x) && SumStart(s)
    ensures ReduceAll(x, s + [Num(v), End], NoError) == (if s == [] then [Num(v)] else s + [Num(v), End], NoError)
  {
    hide LValue, XValue, LDefined, XDefined, Fmod, Times;
    var w := [Num(v), End];
    InspectTop(s, w);
    if s == [] {
      ReplaceTop(x, s, w, [Num(v)], NoError, NoError);
      TermIsStuck(x, s, v, NoError);
      assert s + [Num(v)] == [Num(v)];
    } else {
      assert Reduce(x, s + w).Stuck?;
    }
  }

  lemma Prefixed(x: Table, s: seq<Tok>, op: Tok, v: real)
    requires Complete(x) && (op.LOp? || op.XOp?)
    ensures ReduceAll(x, s + [op, Num(v)], NoError) ==
            var r := ApplyPrefix(x, op, v);
            if r.Ok? then ReduceAll(x, s + [Num(r.v)], NoError) else ReduceAll(x, s, r.e)
  {
    hide LValue, XValue, XDefined, LDefined;
    var w := [op, Num(v)];
    InspectTop(s, w);
    var r := ApplyPrefix(x, op, v);
    if r.Ok? {
      ReplaceTop(x, s, w, [Num(r.v)], NoError, NoError);
    } else {
      ReplaceTop(x, s, w, [], r.e, NoError);
      assert s + [] == s;
    }
  }

  function Push(s: seq<Tok>, tok: Tok): (seq<Tok>, Error) {
    if CALCSTACKMAX < |s| + 1 then (s, Mem) else (s + [tok], NoError)
  }

  /** Shift one token and reduce. */
  function Feed(t: Table, s: seq<Tok>, tok: Tok): (seq<Tok>, Error)
    requires Complete(t)
  {
    var (s', e) := Push(s, tok);
    ReduceAll(t, s', e)
  }

  function FeedAll(t: Table, s: seq<Tok>, toks: seq<Tok>): (seq<Tok>, Error)
    requires Complete(t)
    decreases |toks|
  {
    if toks == [] then (s, NoError)
    else
      var (s', e) := Feed(t, s, toks[0]);
      if e != NoError then (s', e) else FeedAll(t, s', toks[1..])
  }

  function Accept(s: seq<Tok>, e: Error): Value {
    if e != NoError then Err(e) else if |s| == 1 && s[0].Num? then Ok(s[0].value) else Err(Syntax)
  }

  /** calc_exp on the tokens before the end of the input. */
  function CalcExp(t: Table, toks: seq<Tok>): Value
    requires Complete(t)
  {
    var (s, e) := FeedAll(t, [], toks);
    if CALCSTACKMAX <= |s| then Err(Mem)
    else if e != NoError then Err(e)
    else
      var (s', e') := Feed(t, s, End);
      Accept(s', e')
  }

  // ---------- grammar and meaning ----------

  datatype Expr = OfTerm(t: Term) | Sum(e: Expr, t: Term) | Difference(e: Expr, t: Term)

  datatype Term =
    OfFactor(f: Factor) | Product(t: Term, f: Factor) | Quotient(t: Term, f: Factor) | Remainder(t: Term, f: Factor)

  datatype Factor = Number(v: real) | LOf(f: Factor) | XOf(f: Factor) | Paren(e: Expr)

  function ExprToks(e: Expr): seq<Tok> {
    match e
    case OfTerm(t) => TermToks(t)
    case Sum(e, t) => ExprToks(e) + [Plus] + TermToks(t)
    case Difference(e, t) => ExprToks(e) + [Minus] + TermToks(t)
  }

  function TermToks(t: Term): seq<Tok> {
    match t
    case OfFactor(f) => FactorToks(f)
    case Product(t, f) => TermToks(t) + [Mul] + FactorToks(f)
    case Quotient(t, f) => TermToks(t) + [Div] + FactorToks(f)
    case Remainder(t, f) => TermToks(t) + [Mod] + FactorToks(f)
  }

  function FactorToks(f: Factor): seq<Tok> {
    match f
    case Number(v) => [Num(v)]
    case LOf(f) => [LOp] + FactorToks(f)
    case XOf(f) => [XOp] + FactorToks(f)
    case Paren(e) => [OPar] + ExprToks(e) + [CPar]
  }

  function Apply(op: Tok, a: real, b: real): Value
    requires op.Plus? || op.Minus? || op.Mul? || op.Div? || op.Mod?
  {
    match op
    case Plus => Ok(a + b)
    case Minus => Ok(a - b)
    case Mul => Ok(a * b)
    case Div => if b == 0.0 then Err(Divide) else Ok(a / b)
    case Mod => if b == 0.0 then Err(Divide) else Ok(Fmod(a, b))
  }

  function ApplyPrefix(x: Table, op: Tok, v: real): Value
    requires Complete(x) && (op.LOp? || op.XOp?)
  {
    if op.LOp? then if LDefined(v) then Ok(LValue(x, v)) else Err(LOpSyntax)
    else if XDefined(x, v) then Ok(XValue(x, v)) else Err(XOpSyntax)
  }

  /** Left operand first; the first failure is the result. */
  function Both(op: Tok, a: Value, b: Value): Value
    requires op.Plus? || op.Minus? || op.Mul? || op.Div? || op.Mod?
  {
    if a.Err? then a else if b.Err? then b else Apply(op, a.v, b.v)
  }

  function EvalExpr(x: Table, e: Expr): Value
    requires Complete(x)
  {
    match e
    case OfTerm(t) => EvalTerm(x, t)
    case Sum(e, t) => Both(Plus, EvalExpr(x, e), EvalTerm(x, t))
    case Difference(e, t) => Both(Minus, EvalExpr(x, e), EvalTerm(x, t))
  }

  function EvalTerm(x: Table, t: Term): Value
    requires Complete(x)
  {
    match t
    case OfFactor(f) => EvalFactor(x, f)
    case Product(t, f) => Both(Mul, EvalTerm(x, t), EvalFactor(x, f))
    case Quotient(t, f) => Both(Div, EvalTerm(x, t), EvalFactor(x, f))
    case Remainder(t, f) => Both(Mod, EvalTerm(x, t), EvalFactor(x, f))
  }

  function EvalFactor(x: Table, f: Factor): Value
    requires Complete(x)
  {
    match f
    case Number(v) => Ok(v)
    case LOf(f) => if EvalFactor(x, f).Err? then EvalFactor(x, f) else ApplyPrefix(x, LOp, EvalFactor(x, f).v)
    case XOf(f) => if EvalFactor(x, f).Err? then EvalFactor(x, f) else ApplyPrefix(x, XOp, EvalFactor(x, f).v)
    case Paren(e) => EvalExpr(x, e)
  }
}
