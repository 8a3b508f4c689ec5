/** What the results of #calc mean: ordinary arithmetic on the results of the parts, however long those are. */
module CalcResults {
  import opened CalcXp
  import opened CalcSpec
  import opened CalcLanguage

  // ---------- remainders ----------

  /** The remainder of C: what whole multiples of b leave of a, smaller than b and on the side of a. */
  ghost predicate IsRemainder(a: real, b: real, r: real) {
    && (exists q :: a == Multiple(q, b) + r)
    && Abs(r) < Abs(b)
    && (r == 0.0 || (0.0 < r <==> 0.0 < a))
  }

  function Multiple(q: int, b: real): real {
    q as real * b
  }

  function Abs(x: real): real {
    if x < 0.0 then -x else x
  }

  lemma AbsOfProduct(x: real, y: real)
    ensures Abs(Times(x, y)) == Times(Abs(x), Abs(y))
  {
    if x < 0.0 && y < 0.0 {
      assert x * y == -x * -y;
    } else if x < 0.0 {
      assert x * y == -(-x * y);
    } else if y < 0.0 {
      assert x * y == -(x * -y);
    }
  }

  lemma Scaled(x: real, y: real, b: real)
    requires 0.0 <= x && 0.0 < b
    ensures x < y ==> Times(x, b) < Times(y, b)
    ensures x <= y ==> Times(x, b) <= Times(y, b)
    ensures Times(1.0, b) == b
  {
    assert (y - x) * b == y * b - x * b;
  }

  lemma TruncatedPart(x: real) returns (q: int)
    ensures Trunc(x) == q as real
    ensures if 0.0 <= x then 0.0 <= x - Trunc(x) < 1.0 else -1.0 < x - Trunc(x) <= 0.0
  {
    q := if 0.0 <= x then x.Floor else -(-x).Floor;
  }

  lemma SignOfProduct(x: real, b: real)
    requires b != 0.0
    ensures Times(x, b) == 0.0 <==> x == 0.0
    ensures x != 0.0 ==> (0.0 < Times(x, b) <==> (0.0 < x <==> 0.0 < b))
  {
    if x < 0.0 && b < 0.0 {
      assert 0.0 < -x * -b;
    } else if x < 0.0 {
      assert 0.0 < -x * b;
    } else if b < 0.0 && x != 0.0 {
      assert 0.0 < x * -b;
    }
  }

  lemma Parts(x: real, q: int, b: real)
    ensures Times(x, b) == Multiple(q, b) + Times(x - q as real, b)
  {
  }

  /** What is left of x * b by q * b, if x is q and a fraction on the side of x. */
  lemma FractionRemains(x: real, q: int, b: real)
    requires b != 0.0 && (if 0.0 <= x then 0.0 <= x - q as real < 1.0 else -1.0 < x - q as real <= 0.0)
    ensures IsRemainder(Times(x, b), b, Times(x - q as real, b))
  {
    hide Multiple, Times;
    Parts(x, q, b);
    var f := x - q as real;
    AbsOfProduct(f, b);
    Scaled(Abs(f), 1.0, Abs(b));
    SignOfProduct(f, b);
    SignOfProduct(x, b);
  }

  lemma FmodByFraction(a: real, b: real, q: int)
    requires b != 0.0 && Trunc(a / b) == q as real
    ensures a == Times(a / b, b) && Fmod(a, b) == Times(a / b - q as real, b)
  {
    hide Trunc;
    var x := a / b;
    assert (x - q as real) * b == x * b - b * q as real;
  }

  lemma FmodIsRemainder(a: real, b: real)
    requires b != 0.0
    ensures IsRemainder(a, b, Fmod(a, b))
  {
    var q := TruncatedPart(a / b);
    hide Fmod, Trunc, IsRemainder, Times;
    FmodByFraction(a, b, q);
    FractionRemains(a / b, q, b);
  }

  lemma MultipleIsProduct(q: int, b: real)
    ensures Multiple(q, b) == Times(q as real, b)
  {
  }

  lemma WholeMultiple(q: int, b: real)
    requires b != 0.0 && q != 0
    ensures Abs(b) <= Abs(Multiple(q, b))
  {
    hide Times, Multiple;
    MultipleIsProduct(q, b);
    var m := q as real;
    AbsOfProduct(m, b);
    assert 1.0 <= Abs(m);
    Scaled(1.0, Abs(m), Abs(b));
  }

  lemma MultiplesDiffer(a: real, b: real, m: int, n: int, r: real, s: real)
    requires a == Multiple(m, b) + r && a == Multiple(n, b) + s
    ensures r - s == Multiple(n - m, b)
  {
  }

  /** There is just one. */
  lemma RemainderIsUnique(a: real, b: real, r: real, s: real)
    requires IsRemainder(a, b, r) && IsRemainder(a, b, s)
    ensures r == s
  {
    var m :| a == Multiple(m, b) + r;
    var n :| a == Multiple(n, b) + s;
    MultiplesDiffer(a, b, m, n, r, s);
    if m != n {
      WholeMultiple(n - m, b);
    } else {
      assert Multiple(0, b) == 0.0;
    }
  }

  // ---------- results of the parts and of the whole ----------

  function ResultOfExpr(x: Table, e: Expr): Value
    requires Complete(x)
  {
    CalcExp(x, ExprToks(e))
  }

  function ResultOfTerm(x: Table, t: Term): Value
    requires Complete(x)
  {
    CalcExp(x, TermToks(t))
  }

  function ResultOfFactor(x: Table, f: Factor): Value
    requires Complete(x)
  {
    CalcExp(x, FactorToks(f))
  }

  lemma TermFits(x: Table, t: Term)
    requires Complete(x) && TermPeak(t) <= CALCSTACKMAX
    ensures ResultOfTerm(x, t) == EvalTerm(x, t)
  {
    SentencesAreEvaluatedIff(x, OfTerm(t));
  }

  lemma FactorFits(x: Table, f: Factor)
    requires Complete(x) && FactorPeak(f) <= CALCSTACKMAX
    ensures ResultOfFactor(x, f) == EvalFactor(x, f)
  {
    TermFits(x, OfFactor(f));
  }

  /** The result for two sentences with a sign between them; the first error counts. */
  ghost predicate Combines(a: Value, b: Value, r: Value, ok: bool) {
    if a.Err? then r == a else if b.Err? then r == b else ok
  }

  /** Sums and differences. */
  lemma SumsAdd(x: Table, e: Expr, t: Term)
    requires Complete(x) && ExprPeak(Sum(e, t)) <= CALCSTACKMAX
    ensures var a, b, r := ResultOfExpr(x, e), ResultOfTerm(x, t), CalcExp(x, ExprToks(e) + [Plus] + TermToks(t));
            Combines(a, b, r, a.Ok? && b.Ok? && r == Ok(a.v + b.v))
    ensures var a, b, r := ResultOfExpr(x, e), ResultOfTerm(x, t), CalcExp(x, ExprToks(e) + [Minus] + TermToks(t));
            Combines(a, b, r, a.Ok? && b.Ok? && r == Ok(a.v - b.v))
  {
    SentencesAreEvaluatedIff(x, e);
    TermFits(x, t);
    SentencesAreEvaluatedIff(x, Sum(e, t));
    SentencesAreEvaluatedIff(x, Difference(e, t));
    hide CalcExp;
  }

  lemma TermParts(x: Table, t: Term)
    requires Complete(x) && !t.OfFactor? && TermPeak(t) <= CALCSTACKMAX
    ensures ResultOfTerm(x, t.t) == EvalTerm(x, t.t) && ResultOfFactor(x, t.f) == EvalFactor(x, t.f)
    ensures ResultOfTerm(x, t) == EvalTerm(x, t)
    ensures var op := if t.Product? then Mul else if t.Quotient? then Div else Mod;
            && EvalTerm(x, t) == Both(op, EvalTerm(x, t.t), EvalFactor(x, t.f))
            && TermToks(t) == TermToks(t.t) + [op] + FactorToks(t.f)
  {
    TermFits(x, t.t);
    FactorFits(x, t.f);
    TermFits(x, t);
  }

  predicate IsProduct(a: real, b: real, r: Value) {
    r == Ok(a * b)
  }

  lemma Multiplication(a: Value, b: Value)
    ensures var r := Both(Mul, a, b);
            Combines(a, b, r, a.Ok? && b.Ok? && IsProduct(a.v, b.v, r))
  {
  }

  /** Times b it is a; there is none for 0. */
  predicate IsQuotient(a: real, b: real, r: Value) {
    if b == 0.0 then r == Err(Divide) else r.Ok? && r.v * b == a
  }

  lemma Division(a: Value, b: Value)
    ensures var r := Both(Div, a, b);
            Combines(a, b, r, a.Ok? && b.Ok? && IsQuotient(a.v, b.v, r))
  {
  }

  /** Products. */
  lemma ProductsMultiply(x: Table, t: Term, f: Factor)
    requires Complete(x) && TermPeak(Product(t, f)) <= CALCSTACKMAX
    ensures var a, b, r := ResultOfTerm(x, t), ResultOfFactor(x, f), CalcExp(x, TermToks(t) + [Mul] + FactorToks(f));
            Combines(a, b, r, a.Ok? && b.Ok? && IsProduct(a.v, b.v, r))
  {
    TermParts(x, Product(t, f));
    Multiplication(EvalTerm(x, t), EvalFactor(x, f));
    hide CalcExp, EvalTerm, EvalFactor, TermToks, FactorToks, Both, Combines, IsQuotient;
  }

  /** Quotients. */
  lemma QuotientsDivide(x: Table, t: Term, f: Factor)
    requires Complete(x) && TermPeak(Quotient(t, f)) <= CALCSTACKMAX
    ensures var a, b, r := ResultOfTerm(x, t), ResultOfFactor(x, f), CalcExp(x, TermToks(t) + [Div] + FactorToks(f));
            Combines(a, b, r, a.Ok? && b.Ok? && IsQuotient(a.v, b.v, r))
  {
    TermParts(x, Quotient(t, f));
    Division(EvalTerm(x, t), EvalFactor(x, f));
    hide CalcExp, EvalTerm, EvalFactor, TermToks, FactorToks, Both, Combines, IsQuotient;
  }

  /** Remainders: those of C; there is none for the divisor 0. */
  lemma RemaindersRemain(x: Table, t: Term, f: Factor)
    requires Complete(x) && TermPeak(Remainder(t, f)) <= CALCSTACKMAX
    ensures var a, b, r := ResultOfTerm(x, t), ResultOfFactor(x, f), CalcExp(x, TermToks(t) + [Mod] + FactorToks(f));
            Combines(a, b, r,
                     a.Ok? && b.Ok? && if b.v == 0.0 then r == Err(Divide) else r.Ok? && IsRemainder(a.v, b.v, r.v))
  {
    TermParts(x, Remainder(t, f));
    var a, b := EvalTerm(x, t), EvalFactor(x, f);
    hide CalcExp, Fmod, IsRemainder;
    if a.Ok? && b.Ok? && b.v != 0.0 {
      FmodIsRemainder(a.v, b.v);
    }
  }

  /** A number is its own result, and parentheses change none. */
  lemma AtomsStand(x: Table, v: real, e: Expr)
    requires Complete(x)
    ensures CalcExp(x, [Num(v)]) == Ok(v)
    ensures ExprPeak(e) < CALCSTACKMAX ==> CalcExp(x, [OPar] + ExprToks(e) + [CPar]) == ResultOfExpr(x, e)
  {
    FactorFits(x, Number(v));
    SentencesAreEvaluatedIff(x, e);
    if ExprPeak(e) < CALCSTACKMAX {
      FactorFits(x, Paren(e));
    }
    hide CalcExp;
  }

  /** L of a whole level is its entry, and fails exactly outside the levels. */
  lemma LooksUp(x: Table, f: Factor, level: int)
    requires Complete(x) && FactorPeak(f) < CALCSTACKMAX
    ensures var a, r := ResultOfFactor(x, f), CalcExp(x, [LOp] + FactorToks(f));
            && (a.Err? ==> r == a)
            && (a.Ok? ==> if 0.0 <= a.v <= 179.0 then r.Ok? else r == Err(LOpSyntax))
            && (a == Ok(level as real) && 0 <= level <= 179 ==> r == Ok(x.xp[level] as real))
  {
    FactorFits(x, f);
    FactorFits(x, LOf(f));
    hide CalcExp, Lerp;
    if 0 <= level <= 179 {
      LerpAtStart(x.xp[level] as real, Diff(x, level, level + 1));
      assert (level as real).Floor == level;
    }
  }

  /** X fails exactly for what is no experience of a level. */
  lemma LooksBack(x: Table, f: Factor)
    requires Complete(x) && FactorPeak(f) < CALCSTACKMAX
    ensures var a, r := ResultOfFactor(x, f), CalcExp(x, [XOp] + FactorToks(f));
            && (a.Err? ==> r == a)
            && (a.Ok? ==> if 0.0 <= a.v <= x.xp[179] as real then r.Ok? else r == Err(XOpSyntax))
  {
    FactorFits(x, f);
    FactorFits(x, XOf(f));
    hide CalcExp, XValue;
  }

  lemma FactorOfPrefix(x: Table, f: Factor, v: real, op: Tok)
    requires Complete(x) && EvalFactor(x, f) == Ok(v) && (op.LOp? || op.XOp?)
    ensures EvalFactor(x, if op.LOp? then LOf(f) else XOf(f)) == ApplyPrefix(x, op, v)
  {
    hide ApplyPrefix;
  }

  lemma XOfL(x: Table, f: Factor, v: real)
    requires Ascending(x) && EvalFactor(x, f) == Ok(v) && 0.0 < v <= 179.0
    ensures EvalFactor(x, XOf(LOf(f))) == Ok(v)
  {
    XUndoesL(x, v);
    hide LValue, XValue, LDefined, XDefined, Ascending, EvalFactor;
    FactorOfPrefix(x, f, v, LOp);
    FactorOfPrefix(x, LOf(f), LValue(x, v), XOp);
  }

  lemma LOfX(x: Table, f: Factor, v: real)
    requires Ascending(x) && EvalFactor(x, f) == Ok(v) && x.xp[0] as real < v <= x.xp[179] as real
    ensures EvalFactor(x, LOf(XOf(f))) == Ok(v)
  {
    LUndoesX(x, v);
    hide LValue, XValue, LDefined, XDefined, Ascending, EvalFactor;
    FactorOfPrefix(x, f, v, XOp);
    FactorOfPrefix(x, XOf(f), XValue(x, v), LOp);
  }

  /** Before any factor with a result, X undoes L on the levels and L undoes X on their experience. */
  lemma LookUpsCancel(x: Table, f: Factor, v: real)
    requires Ascending(x) && FactorPeak(f) + 1 < CALCSTACKMAX && CalcExp(x, FactorToks(f)) == Ok(v)
    ensures 0.0 < v <= 179.0 ==> CalcExp(x, [XOp] + ([LOp] + FactorToks(f))) == Ok(v)
    ensures x.xp[0] as real < v <= x.xp[179] as real ==> CalcExp(x, [LOp] + ([XOp] + FactorToks(f))) == Ok(v)
  {
    FactorFits(x, f);
    FactorFits(x, XOf(LOf(f)));
    FactorFits(x, LOf(XOf(f)));
    hide CalcExp, EvalFactor;
    if 0.0 < v <= 179.0 {
      XOfL(x, f, v);
    }
    if x.xp[0] as real < v <= x.xp[179] as real {
      LOfX(x, f, v);
    }
  }
}
