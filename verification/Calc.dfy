/** calc.c: the #calc evaluator on its token stack. */
module Calc {
  import opened CalcXp
  import opened CalcSpec

  /** The X operator's search for the level. */
  method XOperator(t: Table, v: real) returns (r: real)
    requires Complete(t) && XDefined(t, v)
    ensures r == XValue(t, v)
  {
    var i := 0;
    while i <= XPT_MAX && t.xp[i] as real < v
      invariant 0 <= i <= XPT_MAX && LeastLevel(t, v, 0) == LeastLevel(t, v, i)
    {
      i := i + 1;
    }
    i := i - 1;
    if i < 0 || Diff(t, i, i + 1) == 0.0 {
      r := t.unspecified(v);
    } else {
      r := i as real + Unlerp(t.xp[i] as real, Diff(t, i, i + 1), v);
    }
  }

  class Calculator {
    var stack: array<Tok>
    var pos: nat
    var calcError: Error
    var lastRes: real

    ghost predicate Valid()
      reads this
    {
      stack.Length == CALCSTACKMAX && pos <= CALCSTACKMAX
    }

    ghost function Contents(): seq<Tok>
      reads this, stack
      requires Valid()
    {
      stack[..pos]
    }

    constructor ()
      ensures Valid() && fresh(stack) && calcError == NoError && lastRes == 0.0
    {
      stack := new Tok[CALCSTACKMAX](_ => Garbage);
      pos, calcError, lastRes := 0, NoError, 0.0;
    }

    method CalcPush(ct: Tok)
      requires Valid()
      modifies this`pos, this`calcError, stack
      ensures Valid() && Contents() == Push(old(Contents()), ct).0
      ensures calcError == if Push(old(Contents()), ct).1 == NoError then old(calcError) else Mem
    {
      if pos + 1 > CALCSTACKMAX {
        calcError := Mem;
        return;
      }
      stack[pos] := ct;
      pos := pos + 1;
    }

    method CalcPop()
      requires Valid()
      modifies this`pos, this`calcError
      ensures Valid()
      ensures Contents() == if old(Contents()) == [] then [] else Drop(old(Contents()), 1)
      ensures calcError == if old(Contents()) == [] then Mem else old(calcError)
    {
      if pos <= 0 {
        calcError := Mem;
        return;
      }
      pos := pos - 1;
    }

    /** Counts down from the top; below the bottom there is nothing to match. */
    method CalcInspect(p: int) returns (ct: Tok)
      requires Valid() && p <= 0
      ensures ct == Inspect(Contents(), -p)
    {
      if pos + p - 1 < 0 {
        return Garbage;
      }
      ct := stack[pos + p - 1];
    }

    /** Pops n tokens and pushes others, which always fit. */
    method Substitute(n: nat, top: seq<Tok>)
      requires Valid() && |top| <= n <= |Contents()|
      modifies this`pos, this`calcError, stack
      ensures Valid() && Contents() == Drop(old(Contents()), n) + top && calcError == old(calcError)
    {
      for i := 0 to n
        invariant Valid() && Contents() == Drop(old(Contents()), i) && calcError == old(calcError)
      {
        CalcPop();
      }
      for i := 0 to |top|
        invariant Valid() && Contents() == Drop(old(Contents()), n) + top[..i] && calcError == old(calcError)
      {
        assert top[..i + 1] == top[..i] + [top[i]];
        CalcPush(top[i]);
      }
      assert top[..|top|] == top;
    }

    /** One reduction, if any rule applies. */
    method ReduceStack(t: Table) returns (reduced: bool)
      requires Valid() && Complete(t)
      modifies this`pos, this`calcError, stack
      ensures Valid()
      ensures match Reduce(t, old(Contents()))
              case Stuck => !reduced && Contents() == old(Contents()) && calcError == old(calcError)
              case Replace(n, top, e) =>
                && reduced && Contents() == Drop(old(Contents()), n) + top
                && calcError == if e == NoError then old(calcError) else e
    {
      hide LValue, XValue, LDefined, XDefined, Fmod, Times;
      var t1 := CalcInspect(0);
      var t2 := CalcInspect(-1);
      var t3 := CalcInspect(-2);
      var t4 := CalcInspect(-3);
      var n, top, error := 0, [], NoError;
      if t1.Num? && t2.LOp? {
        n := 2;
        if LDefined(t1.value) {
          top := [Num(LValue(t, t1.value))];
        } else {
          error := LOpSyntax;
        }
      } else if t1.Num? && t2.XOp? {
        n := 2;
        if XDefined(t, t1.value) {
          var level := XOperator(t, t1.value);
          top := [Num(level)];
        } else {
          error := XOpSyntax;
        }
      } else if t1.Num? && t2.Mul? && t3.Num? {
        n, top := 3, [Num(Times(t1.value, t3.value))];
      } else if t1.Num? && t2.Div? && t3.Num? {
        if t1.value != 0.0 {
          n, top := 3, [Num(t3.value / t1.value)];
        } else {
          n, top, error := 3, [Garbage], Divide;
        }
      } else if (t1.Plus? || t1.Minus? || t1.End? || t1.CPar?) && t2.Num? && (t3.Plus? || t3.Minus?) && t4.Num? {
        n, top := 4, [Num(if t3.Minus? then t4.value - t2.value else t4.value + t2.value), t1];
      } else if t1.Num? && t2.Mod? && t3.Num? {
        if t1.value != 0.0 {
          n, top := 3, [Num(Fmod(t3.value, t1.value))];
        } else {
          n, top, error := 3, [Garbage], Divide;
        }
      } else if t1.CPar? && t2.Num? && t3.OPar? {
        n, top := 3, [t2];
      } else if t1.End? && t2.Num? && pos == 2 {
        n, top := 2, [t2];
      }
      reduced := n != 0;
      if reduced {
        Substitute(n, top);
        if error != NoError {
          calcError := error;
        }
      }
    }

    /** Reduces while some rule applies. */
    method ReduceFully(t: Table)
      requires Valid() && Complete(t)
      modifies this`pos, this`calcError, stack
      ensures Valid() && (Contents(), calcError) == ReduceAll(t, old(Contents()), old(calcError))
    {
      var more := true;
      while more
        invariant Valid()
        invariant if more then ReduceAll(t, Contents(), calcError) == ReduceAll(t, old(Contents()), old(calcError))
                  else (Contents(), calcError) == ReduceAll(t, old(Contents()), old(calcError))
        decreases more, |Contents()|
      {
        more := ReduceStack(t);
      }
    }

    /** Shifts and reduces until the tokens or the patience with them run out. */
    method FeedTokens(t: Table, toks: seq<Tok>)
      requires Valid() && Complete(t) && Contents() == [] && calcError == NoError
      modifies this`pos, this`calcError, stack
      ensures Valid() && (Contents(), calcError) == FeedAll(t, [], toks)
    {
      var i := 0;
      assert toks[0..] == toks;
      while i < |toks| && calcError == NoError
        invariant Valid() && 0 <= i <= |toks|
        invariant if calcError == NoError then FeedAll(t, [], toks) == FeedAll(t, Contents(), toks[i..])
                  else FeedAll(t, [], toks) == (Contents(), calcError)
      {
        CalcPush(toks[i]);
        ReduceFully(t);
        assert toks[i..][1..] == toks[i + 1..];
        i := i + 1;
      }
    }

    /** Evaluates the tokens in front of the end mark; result 0 and an error code if that fails. */
    method CalcExp(t: Table, toks: seq<Tok>) returns (res: real)
      requires Valid() && Complete(t)
      modifies this, stack
      ensures Valid()
      ensures match CalcSpec.CalcExp(t, toks)
              case Ok(v) => res == v && lastRes == v && calcError == NoError
              case Err(e) => res == 0.0 && lastRes == old(lastRes) && calcError == e != NoError
    {
      hide Reduce, ReduceAll, FeedAll;
      res, calcError := 0.0, NoError;
      stack := new Tok[CALCSTACKMAX](_ => Garbage);
      pos := 0;
      FeedTokens(t, toks);
      ghost var s := Contents();
      CalcPush(End);
      if calcError == NoError {
        EndNeverFails(t, s + [End]);
        ReduceFully(t);
        assert (Contents(), NoError) == Feed(t, s, End);
        var ct := CalcInspect(0);
        if pos != 1 {
          calcError := Syntax;
        } else if ct.Num? {
          res := ct.value;
          lastRes := res;
        } else {
          calcError := Syntax;
        }
      }
    }
  }

  /** Below an end mark only sums are left to reduce. */
  lemma {:induction false} EndNeverFails(t: Table, s: seq<Tok>)
    requires Complete(t) && s != [] && s[|s| - 1].End?
    ensures ReduceAll(t, s, NoError).1 == NoError
    decreases |s|
  {
    hide LValue, XValue, LDefined, XDefined, Fmod, Times;
    var r := Reduce(t, s);
    if r.Replace? {
      var s' := Drop(s, r.n) + r.top;
      if |s| == 2 {
        assert s' == [s[0]] && Reduce(t, s').Stuck?;
      } else {
        EndNeverFails(t, s');
      }
    }
  }
}
