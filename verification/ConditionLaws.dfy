/** What conditions evaluate to, operator by operator, for all operands and all variables. */
module ConditionLaws {
  import opened Conditions

  // ----- names, texts and constants

  /** `True`, `False` and `None` stand for themselves whatever the variables are; another name for its
      native variable, or where there is none for its own text. */
  lemma NameLaw(id: string, vars: Vars)
    ensures EvaluateCondition(Name("True"), vars) == Ok(VBool(true))
    ensures EvaluateCondition(Name("False"), vars) == Ok(VBool(false))
    ensures EvaluateCondition(Name("None"), vars) == Ok(VNone)
    ensures id != "True" && id != "False" && id != "None" ==>
              && (id !in vars ==> EvaluateCondition(Name(id), vars) == Ok(VStr(id)))
              && (id in vars && vars[id].Native? ==> EvaluateCondition(Name(id), vars) == Ok(vars[id].value))
  {
    assert "True" != "None" && "False" != "None" && "False" != "True" by {
      assert |"True"| == 4 && |"False"| == 5 && "True"[0] == 'T' && "None"[0] == 'N';
    }
  }

  /** A string variable that has a value has that of the condition it stands for. */
  lemma FormulaLaw(id: string, vars: Vars)
    requires id != "True" && id != "False" && id != "None" && id in vars && vars[id].Formula?
    requires EvaluateCondition(Name(id), vars).Ok?
    ensures EvaluateCondition(Name(id), vars) == EvaluateCondition(vars[id].ast, vars)
  {
    var ast, k := vars[id].ast, |vars.Keys - {id}|;
    assert Eval(ast, vars, {} + {id}, false) == EvaluateCondition(Name(id), vars) && {} + {id} == {id};
    ValueIsGrounded(ast, vars, {id}, false, k);
    EvalAnywhere(id, vars, k);
  }

  lemma EvalAnywhere(id: string, vars: Vars, k: nat)
    requires IsFormula(vars, id) && Grounded(vars[id].ast, vars, k) && Eval(vars[id].ast, vars, {id}, false).Ok?
    ensures Eval(vars[id].ast, vars, {id}, false) == Eval(vars[id].ast, vars, {}, false)
    decreases k
  {
    var ast := vars[id].ast;
    EvalIsExpanded(ast, vars, {}, false, k);
    if Grounded(Name(id), vars, k) {
      EvalAnywhere(id, vars, k - 1);
    } else {
      EvalIsExpanded(ast, vars, {id}, false, k);
    }
  }

  lemma LiteralLaw(s: string, value: Value, elts: seq<Expr>, vars: Vars)
    ensures EvaluateCondition(Str(s), vars) == Ok(VStr(s))
    ensures EvaluateCondition(Constant(VNone), vars) == Ok(VNone)
    ensures EvaluateCondition(Constant(VBool(true)), vars) == Ok(VBool(true))
    ensures EvaluateCondition(Constant(VBool(false)), vars) == Ok(VBool(false))
    ensures value.VInt? ==> EvaluateCondition(Constant(value), vars) == Err(UnexpectedNode)
    ensures EvaluateCondition(Tuple(elts), vars) == Err(UnexpectedNode)
    ensures EvaluateCondition(Other, vars) == Err(UnexpectedNode)
    ensures EvaluateCondition(Broken, vars) == Err(SyntaxError)
  {
  }

  // ----- `not`, `and`, `or`

  /** `not` negates a boolean, refuses any other value, and fails as its operand does. */
  lemma NotLaw(e: Expr, vars: Vars)
    ensures EvaluateCondition(e, vars) == Ok(VBool(true)) ==> EvaluateCondition(Not(e), vars) == Ok(VBool(false))
    ensures EvaluateCondition(e, vars) == Ok(VBool(false)) ==> EvaluateCondition(Not(e), vars) == Ok(VBool(true))
    ensures forall v :: EvaluateCondition(e, vars) == Ok(v) && !v.VBool? ==>
              EvaluateCondition(Not(e), vars) == Err(InvalidOperand)
    ensures forall error :: EvaluateCondition(e, vars) == Err(error) ==> EvaluateCondition(Not(e), vars) == Err(error)
  {
  }

  /** These operands have these boolean values. */
  ghost predicate AreBools(es: seq<Expr>, vars: Vars, bs: seq<bool>) {
    |es| == |bs| && forall i :: 0 <= i < |es| ==> EvaluateCondition(es[i], vars) == Ok(VBool(bs[i]))
  }

  function Bools(bs: seq<bool>): (vs: seq<Value>)
    ensures |vs| == |bs| && forall i :: 0 <= i < |bs| ==> vs[i] == VBool(bs[i])
  {
    seq(|bs|, i requires 0 <= i < |bs| => VBool(bs[i]))
  }

  lemma {:induction false} ListOfBools(es: seq<Expr>, vars: Vars, bs: seq<bool>)
    requires AreBools(es, vars, bs)
    ensures EvalList(es, vars, {}, true) == Ok(Bools(bs))
    decreases |es|
  {
    if es != [] {
      assert EvaluateCondition(es[0], vars) == Ok(VBool(bs[0]));
      ListOfBools(es[1..], vars, bs[1..]);
      assert [VBool(bs[0])] + Bools(bs[1..]) == Bools(bs);
    }
  }

  /** `or` of booleans is true exactly when one of them is, `and` exactly when all of them are. */
  lemma BoolOpLaw(es: seq<Expr>, vars: Vars, bs: seq<bool>)
    requires AreBools(es, vars, bs)
    ensures EvaluateCondition(Or(es), vars) == Ok(VBool(true in bs))
    ensures EvaluateCondition(And(es), vars) == Ok(VBool(false !in bs))
  {
    ListOfBools(es, vars, bs);
    var vs := Bools(bs);
    assert (exists i :: 0 <= i < |vs| && vs[i] == VBool(true)) <==> true in bs by {
      if true in bs {
        var i :| 0 <= i < |bs| && bs[i];
        assert vs[i] == VBool(true);
      }
    }
    assert (forall i :: 0 <= i < |vs| ==> vs[i] == VBool(true)) <==> false !in bs by {
      if false in bs {
        var i :| 0 <= i < |bs| && !bs[i];
        assert vs[i] != VBool(true);
      }
    }
  }

  /** The first operand that is no boolean decides: its error, or that it is not a boolean. */
  lemma {:induction false} ListFails(es: seq<Expr>, vars: Vars, bs: seq<bool>, n: nat)
    requires n < |es| && AreBools(es[..n], vars, bs)
    requires EvaluateCondition(es[n], vars).Err? || !EvaluateCondition(es[n], vars).value.VBool?
    ensures var r := EvaluateCondition(es[n], vars);
      EvalList(es, vars, {}, true) == Err(if r.Err? then r.error else InvalidOperand)
    decreases n
  {
    if n > 0 {
      assert es[..n][0] == es[0] && EvaluateCondition(es[0], vars) == Ok(VBool(bs[0]));
      assert es[1..][..n - 1] == es[..n][1..] && es[1..][n - 1] == es[n];
      ListFails(es[1..], vars, bs[1..], n - 1);
    }
  }

  lemma BoolOpFails(es: seq<Expr>, vars: Vars, bs: seq<bool>, n: nat)
    requires n < |es| && AreBools(es[..n], vars, bs)
    requires EvaluateCondition(es[n], vars).Err? || !EvaluateCondition(es[n], vars).value.VBool?
    ensures var r := EvaluateCondition(es[n], vars);
      var error := if r.Err? then r.error else InvalidOperand;
      EvaluateCondition(Or(es), vars) == Err(error) && EvaluateCondition(And(es), vars) == Err(error)
  {
    ListFails(es, vars, bs, n);
  }

  // ----- comparisons

  /** Both sides have these values. */
  ghost predicate HaveValues(x: Expr, a: Value, y: Expr, b: Value, vars: Vars) {
    EvaluateCondition(x, vars) == Ok(a) && EvaluateCondition(y, vars) == Ok(b)
  }

  /** What `==` says of two values, by their kinds: `True` is 1, and things of different kinds differ. */
  lemma EqualLaw(x: Expr, a: Value, y: Expr, b: Value, vars: Vars)
    requires HaveValues(x, a, y, b, vars)
    ensures var r := EvaluateCondition(Compare(x, [Eq], [y]), vars);
      && (a.VStr? && b.VStr? ==> r == Ok(VBool(a.s == b.s)))
      && (a.VBool? && b.VBool? ==> r == Ok(VBool(a.b == b.b)))
      && (a.VInt? && b.VInt? ==> r == Ok(VBool(a.i == b.i)))
      && (a.VBool? && b.VInt? ==> r == Ok(VBool(b.i == if a.b then 1 else 0)))
      && (a.VNone? && b.VNone? ==> r == Ok(VBool(true)))
      && (a.VStr? != b.VStr? || a.VNone? != b.VNone? || a.VTuple? != b.VTuple? ==> r == Ok(VBool(false)))
  {
  }

  /** `!=` is the opposite of `==`. */
  lemma NotEqualLaw(x: Expr, a: Value, y: Expr, b: Value, vars: Vars)
    requires HaveValues(x, a, y, b, vars)
    ensures var same, differ := EvaluateCondition(Compare(x, [Eq], [y]), vars), EvaluateCondition(Compare(x, [NotEq], [y]), vars);
      || (same == Ok(VBool(true)) && differ == Ok(VBool(false)))
      || (same == Ok(VBool(false)) && differ == Ok(VBool(true)))
  {
  }

  lemma ContainsIff(s: string, t: string)
    ensures Contains(s, t) <==> exists before: string, after: string :: s == before + t + after
  {
    if i :| 0 <= i <= |s| && t <= s[i..] {
      var after := s[i..][|t|..];
      assert s == s[..i] + s[i..] && s[i..] == t + after;
      assert s == s[..i] + t + after;
    }
    if before: string, after: string :| s == before + t + after {
      assert s[|before|..] == t + after;
      assert t <= s[|before|..];
    }
  }

  /** A string is in another if it is a part of it. */
  lemma InStringLaw(x: Expr, a: string, y: Expr, b: string, vars: Vars)
    requires HaveValues(x, VStr(a), y, VStr(b), vars)
    ensures EvaluateCondition(Compare(x, [In], [y]), vars) ==
              Ok(VBool(exists before: string, after: string :: b == before + a + after))
  {
    ContainsIff(b, a);
    AllowTupleOnlyMatters(y, vars, {}, true);
  }

  /** These elements have these strings as values. */
  ghost predicate AreStrings(es: seq<Expr>, vars: Vars, ss: seq<string>) {
    |es| == |ss| && forall i :: 0 <= i < |es| ==> EvaluateCondition(es[i], vars) == Ok(VStr(ss[i]))
  }

  function Texts(ss: seq<string>): (vs: seq<Value>)
    ensures |vs| == |ss| && forall i :: 0 <= i < |ss| ==> vs[i] == VStr(ss[i])
  {
    seq(|ss|, i requires 0 <= i < |ss| => VStr(ss[i]))
  }

  lemma {:induction false} ListOfStrings(es: seq<Expr>, vars: Vars, ss: seq<string>)
    requires AreStrings(es, vars, ss)
    ensures EvalList(es, vars, {}, false) == Ok(Texts(ss))
    decreases |es|
  {
    if es != [] {
      assert EvaluateCondition(es[0], vars) == Ok(VStr(ss[0]));
      ListOfStrings(es[1..], vars, ss[1..]);
      assert [VStr(ss[0])] + Texts(ss[1..]) == Texts(ss);
    }
  }

  /** A string is in a tuple of strings if it is one of them, as a whole; the tuple may be written out,
      or be a native variable. */
  lemma InTupleLaw(x: Expr, a: string, es: seq<Expr>, id: string, ss: seq<string>, vars: Vars)
    requires EvaluateCondition(x, vars) == Ok(VStr(a))
    ensures AreStrings(es, vars, ss) ==> EvaluateCondition(Compare(x, [In], [Tuple(es)]), vars) == Ok(VBool(a in ss))
    ensures EvaluateCondition(Name(id), vars) == Ok(VTuple(Texts(ss))) ==>
              EvaluateCondition(Compare(x, [In], [Name(id)]), vars) == Ok(VBool(a in ss))
  {
    var tuple := VTuple(Texts(ss));
    assert Membership(VStr(a), tuple) == Ok(VBool(a in ss)) by {
      if a in ss {
        var i :| 0 <= i < |ss| && ss[i] == a;
        assert PyEq(VStr(a), tuple.elts[i]);
      }
    }
    if AreStrings(es, vars, ss) {
      ListOfStrings(es, vars, ss);
      assert Eval(Tuple(es), vars, {}, true) == Ok(tuple);
    }
    AllowTupleOnlyMatters(Name(id), vars, {}, true);
  }

  /** Nothing is in what is neither a string nor a tuple, and nothing but a string is in a string. */
  lemma InNothingLaw(x: Expr, a: Value, y: Expr, b: Value, vars: Vars)
    requires HaveValues(x, a, y, b, vars) && !b.VTuple? && !(a.VStr? && b.VStr?)
    ensures EvaluateCondition(Compare(x, [In], [y]), vars) == Err(NotAContainer)
  {
    AllowTupleOnlyMatters(y, vars, {}, true);
  }

  /** One operator and one comparator; the left side is evaluated first, and errors are passed on. */
  lemma CompareFails(x: Expr, op: Op, y: Expr, ops: seq<Op>, ys: seq<Expr>, vars: Vars)
    ensures |ops| != 1 || |ys| != 1 ==> EvaluateCondition(Compare(x, ops, ys), vars) == Err(InvalidCompare)
    ensures forall error :: EvaluateCondition(x, vars) == Err(error) ==>
              EvaluateCondition(Compare(x, [op], [y]), vars) == Err(error)
    ensures forall error :: EvaluateCondition(x, vars).Ok? && EvaluateCondition(y, vars) == Err(error) && !y.Tuple? ==>
              EvaluateCondition(Compare(x, [op], [y]), vars) == Err(error)
    ensures forall a, b :: HaveValues(x, a, y, b, vars) ==>
              EvaluateCondition(Compare(x, [OtherOp], [y]), vars) == Err(UnexpectedOperator)
  {
    if !y.Tuple? { AllowTupleOnlyMatters(y, vars, {}, op.In?); }
  }
}
