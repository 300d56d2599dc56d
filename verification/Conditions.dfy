/** `EvaluateCondition`: the DEPS condition language, over its syntax tree. */
module Conditions {

  datatype Value = VNone | VBool(b: bool) | VInt(i: int) | VStr(s: string) | VTuple(elts: seq<Value>)

  datatype Op = Eq | NotEq | In | OtherOp

  /** What `ast.parse` makes of a condition; `Broken` is text that does not parse.  Of the constants
      that are no strings only `None`, `True` and `False` are evaluated. */
  datatype Expr =
    | Str(s: string)
    | Name(id: string)
    | Constant(value: Value)
    | Or(values: seq<Expr>)
    | And(values: seq<Expr>)
    | Not(operand: Expr)
    | Compare(left: Expr, ops: seq<Op>, comparators: seq<Expr>)
    | Tuple(elts: seq<Expr>)
    | Other
    | Broken

  datatype Error =
    | Cycle(id: string)
    | InvalidOperand
    | InvalidCompare
    | UnexpectedOperator
    | UnexpectedNode
    | NotAContainer
    | SyntaxError

  datatype Result<T> = Ok(value: T) | Err(error: Error)

  /** A variable is a string, which is a condition again, or a native value. */
  datatype Binding = Formula(ast: Expr) | Native(value: Value)

  type Vars = map<string, Binding>

  predicate AllowedName(id: string) {
    id == "None" || id == "True" || id == "False"
  }

  function AllowedValue(id: string): Value
    requires AllowedName(id)
  {
    if id == "None" then VNone else VBool(id == "True")
  }

  // ----- Python's operators

  function Number(v: Value): int
    requires v.VBool? || v.VInt?
  {
    if v.VInt? then v.i else if v.b then 1 else 0
  }

  predicate PyEq(x: Value, y: Value) {
    if (x.VBool? || x.VInt?) && (y.VBool? || y.VInt?) then Number(x) == Number(y)
    else if x.VTuple? && y.VTuple? then
      |x.elts| == |y.elts| && forall i :: 0 <= i < |x.elts| ==> PyEq(x.elts[i], y.elts[i])
    else x == y
  }

  predicate Contains(s: string, t: string) {
    exists i :: 0 <= i <= |s| && t <= s[i..]
  }

  function Membership(x: Value, y: Value): Result<Value> {
    if y.VTuple? then Ok(VBool(exists i :: 0 <= i < |y.elts| && PyEq(x, y.elts[i])))
    else if y.VStr? && x.VStr? then Ok(VBool(Contains(y.s, x.s)))
    else Err(NotAContainer)
  }

  function Operate(op: Op, x: Value, y: Value): Result<Value> {
    match op
    case Eq => Ok(VBool(PyEq(x, y)))
    case NotEq => Ok(VBool(!PyEq(x, y)))
    case In => Membership(x, y)
    case OtherOp => Err(UnexpectedOperator)
  }

  // ----- the evaluator

  lemma OneFewer(vars: Vars, refs: set<string>, id: string)
    requires id in vars && id !in refs
    ensures |vars.Keys - (refs + {id})| == |vars.Keys - refs| - 1
  {
    assert vars.Keys - refs == (vars.Keys - (refs + {id})) + {id};
  }

  /** `_convert`, with the variables whose formulas are being evaluated in `refs`.  It ends on
      every condition and every map: first the unreferenced variables, then the tree get smaller. */
  function Eval(e: Expr, vars: Vars, refs: set<string>, allowTuple: bool): Result<Value>
    decreases |vars.Keys - refs|, e, 0
  {
    match e
    case Str(s) => Ok(VStr(s))
    case Tuple(elts) =>
      if !allowTuple then Err(UnexpectedNode)
      else
        var vs := EvalList(elts, vars, refs, false);
        if vs.Err? then Err(vs.error) else Ok(VTuple(vs.value))
    case Name(id) =>
      if id in refs then Err(Cycle(id))
      else if AllowedName(id) then Ok(AllowedValue(id))
      else if id in vars then
        match vars[id]
        case Native(value) => Ok(value)
        case Formula(ast) =>
          OneFewer(vars, refs, id);
          Eval(ast, vars, refs + {id}, false)
      else Ok(VStr(id))
    case Constant(value) => if value.VNone? || value.VBool? then Ok(value) else Err(UnexpectedNode)
    case Or(values) =>
      var vs := EvalList(values, vars, refs, true);
      if vs.Err? then Err(vs.error)
      else Ok(VBool(exists i :: 0 <= i < |vs.value| && vs.value[i] == VBool(true)))
    case And(values) =>
      var vs := EvalList(values, vars, refs, true);
      if vs.Err? then Err(vs.error)
      else Ok(VBool(forall i :: 0 <= i < |vs.value| ==> vs.value[i] == VBool(true)))
    case Not(operand) =>
      var v := Eval(operand, vars, refs, false);
      if v.Err? then v
      else if v.value.VBool? then Ok(VBool(!v.value.b)) else Err(InvalidOperand)
    case Compare(left, ops, comparators) =>
      if |ops| != 1 || |comparators| != 1 then Err(InvalidCompare)
      else
        var x := Eval(left, vars, refs, false);
        if x.Err? then x
        else
          var y := Eval(comparators[0], vars, refs, ops[0].In?);
          if y.Err? then y else Operate(ops[0], x.value, y.value)
    case Other => Err(UnexpectedNode)
    case Broken => Err(SyntaxError)
  }

  /** Evaluates every operand, left to right, none skipped; those of `and` and `or` must be boolean. */
  function EvalList(es: seq<Expr>, vars: Vars, refs: set<string>, bools: bool): (r: Result<seq<Value>>)
    ensures r.Ok? ==> |r.value| == |es|
    ensures r.Ok? && bools ==> forall i :: 0 <= i < |es| ==> r.value[i].VBool?
    decreases |vars.Keys - refs|, es, 0
  {
    if es == [] then Ok([])
    else
      var v := Eval(es[0], vars, refs, false);
      if v.Err? then Err(v.error)
      else if bools && !v.value.VBool? then Err(InvalidOperand)
      else
        var rest := EvalList(es[1..], vars, refs, bools);
        if rest.Err? then rest else Ok([v.value] + rest.value)
  }

  function EvaluateCondition(e: Expr, vars: Vars): Result<Value> {
    Eval(e, vars, {}, false)
  }

  // ----- expansion

  predicate IsFormula(vars: Vars, id: string) {
    !AllowedName(id) && id in vars && vars[id].Formula?
  }

  function Children(e: Expr): (children: seq<Expr>)
    ensures forall i :: 0 <= i < |children| ==> children[i] < e
  {
    match e
    case Or(values) => values
    case And(values) => values
    case Not(operand) => [operand]
    case Compare(left, _, comparators) => [left] + comparators
    case Tuple(elts) => elts
    case _ => []
  }

  /** Every variable in `e` can be expanded away in at most `k` rounds. */
  predicate Grounded(e: Expr, vars: Vars, k: nat)
    decreases k, e, 1
  {
    && (e.Name? && IsFormula(vars, e.id) ==> k > 0 && Grounded(vars[e.id].ast, vars, k - 1))
    && forall i :: 0 <= i < |Children(e)| ==> Grounded(Children(e)[i], vars, k)
  }

  ghost predicate AllGrounded(es: seq<Expr>, vars: Vars, k: nat) {
    forall i :: 0 <= i < |es| ==> Grounded(es[i], vars, k)
  }

  /** String variables replaced by the conditions they stand for, `k` rounds deep. */
  function Expand(e: Expr, vars: Vars, k: nat): Expr
    decreases k, e, 0
  {
    match e
    case Name(id) => if IsFormula(vars, id) && k > 0 then Expand(vars[id].ast, vars, k - 1) else e
    case Or(values) => Or(ExpandAll(values, vars, k))
    case And(values) => And(ExpandAll(values, vars, k))
    case Not(operand) => Not(Expand(operand, vars, k))
    case Compare(left, ops, comparators) =>
      Compare(Expand(left, vars, k), ops, ExpandAll(comparators, vars, k))
    case Tuple(elts) => Tuple(ExpandAll(elts, vars, k))
    case _ => e
  }

  function ExpandAll(es: seq<Expr>, vars: Vars, k: nat): (r: seq<Expr>)
    ensures |r| == |es|
    ensures forall i :: 0 <= i < |es| ==> r[i] == Expand(es[i], vars, k)
    decreases k, es, 0
  {
    if es == [] then [] else [Expand(es[0], vars, k)] + ExpandAll(es[1..], vars, k)
  }

  /** The native variables: what is left to look up once formulas are expanded. */
  function Natives(vars: Vars): Vars {
    map id | id in vars && vars[id].Native? :: vars[id]
  }

  lemma {:induction false} GroundedMore(e: Expr, vars: Vars, k: nat)
    requires Grounded(e, vars, k)
    ensures Grounded(e, vars, k + 1) && Expand(e, vars, k + 1) == Expand(e, vars, k)
    decreases k, e, 0
  {
    if e.Name? && IsFormula(vars, e.id) {
      GroundedMore(vars[e.id].ast, vars, k - 1);
    } else {
      var children := Children(e);
      forall i | 0 <= i < |children|
        ensures Grounded(children[i], vars, k + 1) && Expand(children[i], vars, k + 1) == Expand(children[i], vars, k)
      {
        GroundedMore(children[i], vars, k);
      }
      assert ExpandAll(children, vars, k + 1) == ExpandAll(children, vars, k);
      if e.Compare? { assert children[0] == e.left && children[1..] == e.comparators; }
      if e.Not? { assert children[0] == e.operand; }
    }
  }

  /** The variables in `refs` stand for formulas that are deeper than `k`: they enclose whatever
      is being evaluated. */
  ghost predicate Enclosing(vars: Vars, refs: set<string>, k: nat) {
    forall r :: r in refs ==> IsFormula(vars, r) && !Grounded(Name(r), vars, k)
  }

  lemma EnclosingLess(vars: Vars, refs: set<string>, k: nat)
    requires Enclosing(vars, refs, k) && k > 0
    ensures Enclosing(vars, refs, k - 1)
  {
    forall r | r in refs ensures !Grounded(Name(r), vars, k - 1) {
      if Grounded(Name(r), vars, k - 1) { GroundedMore(Name(r), vars, k - 1); }
    }
  }

  /** A variable that stands for a tuple, directly or through other variables. */
  predicate NamesTuple(e: Expr, vars: Vars, k: nat) {
    e.Name? && Expand(e, vars, k).Tuple?
  }

  predicate IsIn(e: Expr) {
    e.Compare? && |e.ops| == 1 && |e.comparators| == 1 && e.ops[0].In?
  }

  /** Nowhere in `e`, or in what its variables stand for, does a variable for a tuple follow `in`: a
      tuple written out may, a variable that stands for one may not. */
  predicate TupleFree(e: Expr, vars: Vars, k: nat)
    decreases k, e, 1
  {
    && (IsIn(e) ==> !NamesTuple(e.comparators[0], vars, k))
    && (e.Name? && IsFormula(vars, e.id) && k > 0 ==> TupleFree(vars[e.id].ast, vars, k - 1))
    && forall i :: 0 <= i < |Children(e)| ==> TupleFree(Children(e)[i], vars, k)
  }

  ghost predicate AllTupleFree(es: seq<Expr>, vars: Vars, k: nat) {
    forall i :: 0 <= i < |es| ==> TupleFree(es[i], vars, k)
  }

  lemma AllowTupleOnlyMatters(e: Expr, vars: Vars, refs: set<string>, allowTuple: bool)
    requires !e.Tuple?
    ensures Eval(e, vars, refs, allowTuple) == Eval(e, vars, refs, false)
  {
  }

  /** The value of the expanded condition. */
  function Expanded(e: Expr, vars: Vars, k: nat, allowTuple: bool): Result<Value> {
    Eval(Expand(e, vars, k), Natives(vars), {}, allowTuple)
  }

  /** Going through the operands from left to right, as far as their values allow, one comes in `e` or in
      what its variables stand for to a variable for a tuple where a tuple is allowed: after `in`. */
  predicate MeetsTuple(e: Expr, vars: Vars, k: nat, allowTuple: bool)
    decreases k, e, 1
  {
    match e
    case Name(id) =>
      IsFormula(vars, id) && k > 0 &&
      ((allowTuple && NamesTuple(e, vars, k)) || MeetsTuple(vars[id].ast, vars, k - 1, false))
    case Or(values) => ListMeetsTuple(values, vars, k, true)
    case And(values) => ListMeetsTuple(values, vars, k, true)
    case Not(operand) => MeetsTuple(operand, vars, k, false)
    case Compare(left, ops, comparators) =>
      |ops| == 1 && |comparators| == 1 &&
      ( || MeetsTuple(left, vars, k, false)
        || (Expanded(left, vars, k, false).Ok? && MeetsTuple(comparators[0], vars, k, ops[0].In?)))
    case Tuple(elts) => allowTuple && ListMeetsTuple(elts, vars, k, false)
    case _ => false
  }

  predicate ListMeetsTuple(es: seq<Expr>, vars: Vars, k: nat, bools: bool)
    decreases k, es, 0
  {
    es != [] &&
    ( || MeetsTuple(es[0], vars, k, false)
      || (var v := Expanded(es[0], vars, k, false);
          v.Ok? && (bools ==> v.value.VBool?) && ListMeetsTuple(es[1..], vars, k, bools)))
  }

  lemma {:induction false} MeetsMore(e: Expr, vars: Vars, k: nat, allowTuple: bool)
    requires Grounded(e, vars, k)
    ensures MeetsTuple(e, vars, k + 1, allowTuple) == MeetsTuple(e, vars, k, allowTuple)
    decreases k, e, 1
  {
    var children := Children(e);
    assert AllGrounded(children, vars, k);
    match e
    case Name(id) =>
      if IsFormula(vars, id) {
        GroundedMore(e, vars, k);
        MeetsMore(vars[id].ast, vars, k - 1, false);
      }
    case Or(values) => ListMeetsMore(values, vars, k, true);
    case And(values) => ListMeetsMore(values, vars, k, true);
    case Not(operand) =>
      assert children[0] == operand;
      MeetsMore(operand, vars, k, false);
    case Compare(left, ops, comparators) =>
      if |ops| == 1 && |comparators| == 1 {
        assert children[0] == left && children[1] == comparators[0];
        GroundedMore(left, vars, k);
        MeetsMore(left, vars, k, false);
        MeetsMore(comparators[0], vars, k, ops[0].In?);
      }
    case Tuple(elts) => ListMeetsMore(elts, vars, k, false);
    case _ =>
  }

  lemma {:induction false} ListMeetsMore(es: seq<Expr>, vars: Vars, k: nat, bools: bool)
    requires AllGrounded(es, vars, k)
    ensures ListMeetsTuple(es, vars, k + 1, bools) == ListMeetsTuple(es, vars, k, bools)
    decreases k, es, 0
  {
    if es != [] {
      GroundedMore(es[0], vars, k);
      MeetsMore(es[0], vars, k, false);
      ListMeetsMore(es[1..], vars, k, bools);
    }
  }

  /** The value of the expanded condition, or the error about an unexpected node. */
  function UnlessMet<T>(meets: bool, expanded: Result<T>): Result<T> {
    if meets then Err(UnexpectedNode) else expanded
  }

  lemma {:induction false} EvalIsExpanded(e: Expr, vars: Vars, refs: set<string>, allowTuple: bool, k: nat)
    requires Grounded(e, vars, k) && Enclosing(vars, refs, k)
    ensures Eval(e, vars, refs, allowTuple) ==
              UnlessMet(MeetsTuple(e, vars, k, allowTuple), Expanded(e, vars, k, allowTuple))
    decreases k, e, 2
  {
    match e
    case Name(id) => if IsFormula(vars, id) { NameIsExpanded(id, vars, refs, allowTuple, k); }
    case Or(_) => OperandsAreExpanded(e, vars, refs, allowTuple, k);
    case And(_) => OperandsAreExpanded(e, vars, refs, allowTuple, k);
    case Tuple(_) => OperandsAreExpanded(e, vars, refs, allowTuple, k);
    case Not(operand) =>
      assert Children(e)[0] == operand;
      EvalIsExpanded(operand, vars, refs, false, k);
    case Compare(_, _, _) => CompareIsExpanded(e, vars, refs, allowTuple, k);
    case _ =>
  }

  lemma {:induction false} OperandsAreExpanded(e: Expr, vars: Vars, refs: set<string>, allowTuple: bool, k: nat)
    requires (e.Or? || e.And? || e.Tuple?) && Grounded(e, vars, k) && Enclosing(vars, refs, k)
    ensures Eval(e, vars, refs, allowTuple) ==
              UnlessMet(MeetsTuple(e, vars, k, allowTuple), Expanded(e, vars, k, allowTuple))
    decreases k, e, 1
  {
    assert AllGrounded(Children(e), vars, k);
    match e
    case Or(values) => ListIsExpanded(values, vars, refs, true, k);
    case And(values) => ListIsExpanded(values, vars, refs, true, k);
    case Tuple(elts) => ListIsExpanded(elts, vars, refs, false, k);
  }

  lemma {:induction false} CompareIsExpanded(e: Expr, vars: Vars, refs: set<string>, allowTuple: bool, k: nat)
    requires e.Compare? && Grounded(e, vars, k) && Enclosing(vars, refs, k)
    ensures Eval(e, vars, refs, allowTuple) ==
              UnlessMet(MeetsTuple(e, vars, k, allowTuple), Expanded(e, vars, k, allowTuple))
    decreases k, e, 1
  {
    if |e.ops| == 1 && |e.comparators| == 1 {
      var children := Children(e);
      assert children[0] == e.left && children[1] == e.comparators[0];
      EvalIsExpanded(e.left, vars, refs, false, k);
      EvalIsExpanded(e.comparators[0], vars, refs, e.ops[0].In?, k);
    }
  }

  lemma {:induction false} NameIsExpanded(id: string, vars: Vars, refs: set<string>, allowTuple: bool, k: nat)
    requires IsFormula(vars, id) && Grounded(Name(id), vars, k) && Enclosing(vars, refs, k)
    ensures Eval(Name(id), vars, refs, allowTuple) ==
              UnlessMet(MeetsTuple(Name(id), vars, k, allowTuple), Expanded(Name(id), vars, k, allowTuple))
    decreases k, Name(id), 1
  {
    EnclosingLess(vars, refs, k);
    if Grounded(Name(id), vars, k - 1) {
      NameIsExpanded(id, vars, refs, allowTuple, k - 1);
      GroundedMore(Name(id), vars, k - 1);
      MeetsMore(Name(id), vars, k - 1, allowTuple);
    } else {
      var ast := vars[id].ast;
      EvalIsExpanded(ast, vars, refs + {id}, false, k - 1);
      var expanded := Expand(ast, vars, k - 1);
      if !expanded.Tuple? { AllowTupleOnlyMatters(expanded, Natives(vars), {}, allowTuple); }
    }
  }

  lemma {:induction false} ListIsExpanded(es: seq<Expr>, vars: Vars, refs: set<string>, bools: bool, k: nat)
    requires AllGrounded(es, vars, k) && Enclosing(vars, refs, k)
    ensures EvalList(es, vars, refs, bools) ==
              UnlessMet(ListMeetsTuple(es, vars, k, bools), EvalList(ExpandAll(es, vars, k), Natives(vars), {}, bools))
    decreases k, es, 0
  {
    if es != [] {
      EvalIsExpanded(es[0], vars, refs, false, k);
      ListIsExpanded(es[1..], vars, refs, bools, k);
      assert ExpandAll(es, vars, k)[1..] == ExpandAll(es[1..], vars, k);
    }
  }

  /** Where no such variable is in sight, none is met. */
  lemma {:induction false} TupleFreeMeetsNone(e: Expr, vars: Vars, k: nat, allowTuple: bool)
    requires TupleFree(e, vars, k) && (allowTuple ==> !NamesTuple(e, vars, k))
    ensures !MeetsTuple(e, vars, k, allowTuple)
    decreases k, e, 1
  {
    var children := Children(e);
    assert AllTupleFree(children, vars, k);
    match e
    case Name(id) => if IsFormula(vars, id) && k > 0 { TupleFreeMeetsNone(vars[id].ast, vars, k - 1, false); }
    case Or(values) => ListTupleFree(values, vars, k, true);
    case And(values) => ListTupleFree(values, vars, k, true);
    case Not(operand) =>
      assert children[0] == operand;
      TupleFreeMeetsNone(operand, vars, k, false);
    case Compare(left, ops, comparators) =>
      if |ops| == 1 && |comparators| == 1 {
        assert children[0] == left && children[1] == comparators[0];
        TupleFreeMeetsNone(left, vars, k, false);
        TupleFreeMeetsNone(comparators[0], vars, k, ops[0].In?);
      }
    case Tuple(elts) => ListTupleFree(elts, vars, k, false);
    case _ =>
  }

  lemma {:induction false} ListTupleFree(es: seq<Expr>, vars: Vars, k: nat, bools: bool)
    requires AllTupleFree(es, vars, k)
    ensures !ListMeetsTuple(es, vars, k, bools)
    decreases k, es, 0
  {
    if es != [] {
      TupleFreeMeetsNone(es[0], vars, k, false);
      ListTupleFree(es[1..], vars, k, bools);
    }
  }

  // ----- values only come from acyclic conditions

  lemma {:induction false} ValueIsGrounded(e: Expr, vars: Vars, refs: set<string>, allowTuple: bool, k: nat)
    requires Eval(e, vars, refs, allowTuple).Ok? && k == |vars.Keys - refs|
    ensures Grounded(e, vars, k)
    decreases k, e, 1
  {
    if e.Name? {
      if IsFormula(vars, e.id) {
        OneFewer(vars, refs, e.id);
        ValueIsGrounded(vars[e.id].ast, vars, refs + {e.id}, false, k - 1);
      }
    } else {
      ChildrenAreGrounded(e, vars, refs, allowTuple, k);
    }
  }

  lemma {:induction false} ChildrenAreGrounded(e: Expr, vars: Vars, refs: set<string>, allowTuple: bool, k: nat)
    requires Eval(e, vars, refs, allowTuple).Ok? && k == |vars.Keys - refs| && !e.Name?
    ensures AllGrounded(Children(e), vars, k)
    decreases k, e, 0
  {
    match e
    case Or(values) => ListIsGrounded(values, vars, refs, true, k);
    case And(values) => ListIsGrounded(values, vars, refs, true, k);
    case Not(operand) => ValueIsGrounded(operand, vars, refs, false, k);
    case Compare(left, ops, comparators) =>
      ValueIsGrounded(left, vars, refs, false, k);
      ValueIsGrounded(comparators[0], vars, refs, ops[0].In?, k);
      assert Children(e) == [left, comparators[0]];
    case Tuple(elts) => ListIsGrounded(elts, vars, refs, false, k);
    case _ =>
  }

  lemma {:induction false} ListIsGrounded(es: seq<Expr>, vars: Vars, refs: set<string>, bools: bool, k: nat)
    requires EvalList(es, vars, refs, bools).Ok? && k == |vars.Keys - refs|
    ensures AllGrounded(es, vars, k)
    decreases k, es, 0
  {
    if es != [] {
      ValueIsGrounded(es[0], vars, refs, false, k);
      ListIsGrounded(es[1..], vars, refs, bools, k);
    }
  }

  // ----- cycles

  /** `e` refers to the string variable `x`. */
  predicate Mentions(e: Expr, vars: Vars, x: string) {
    || (e == Name(x) && IsFormula(vars, x))
    || exists i :: 0 <= i < |Children(e)| && Mentions(Children(e)[i], vars, x)
  }

  lemma {:induction false} GroundedMention(e: Expr, vars: Vars, k: nat, x: string)
    requires Grounded(e, vars, k) && Mentions(e, vars, x)
    ensures IsFormula(vars, x) && k > 0 && Grounded(vars[x].ast, vars, k - 1)
    decreases e
  {
    if e != Name(x) {
      var i :| 0 <= i < |Children(e)| && Mentions(Children(e)[i], vars, x);
      GroundedMention(Children(e)[i], vars, k, x);
    }
  }

  /** A chain of references that starts in `e`. */
  ghost predicate Chain(e: Expr, vars: Vars, path: seq<string>)
    decreases |path|
  {
    path == [] ||
    ( && Mentions(e, vars, path[0])
      && IsFormula(vars, path[0])
      && Chain(vars[path[0]].ast, vars, path[1..]))
  }

  /** A real cycle: a chain that comes back to a variable it has been at. */
  ghost predicate ReachesCycle(e: Expr, vars: Vars, path: seq<string>) {
    && Chain(e, vars, path)
    && exists i, j :: 0 <= i < j < |path| && path[i] == path[j]
  }

  /** Where `Eval` reports a cycle, the references lead to a variable that encloses `e` or that
      was passed before. */
  lemma {:induction false} CycleIsReal(e: Expr, vars: Vars, refs: set<string>, allowTuple: bool, x: string)
    returns (path: seq<string>)
    requires Eval(e, vars, refs, allowTuple) == Err(Cycle(x))
    requires forall r :: r in refs ==> IsFormula(vars, r)
    ensures Chain(e, vars, path) && path != [] && path[|path| - 1] == x
    ensures x in refs || x in path[..|path| - 1]
    decreases |vars.Keys - refs|, e, 0
  {
    match e
    case Name(id) =>
      if id in refs {
        path := [id];
        assert path[1..] == [];
      } else {
        OneFewer(vars, refs, id);
        var rest := CycleIsReal(vars[id].ast, vars, refs + {id}, false, x);
        path := [id] + rest;
        assert path[1..] == rest;
        if x in rest[..|rest| - 1] {
          var i :| 0 <= i < |rest| - 1 && rest[i] == x;
          assert path[..|path| - 1][i + 1] == x;
        }
        if x == id { assert path[..|path| - 1][0] == x; }
      }
    case Or(values) => path := CycleInList(e, values, vars, refs, true, x, 0);
    case And(values) => path := CycleInList(e, values, vars, refs, true, x, 0);
    case Not(operand) =>
      path := CycleIsReal(operand, vars, refs, false, x);
      ChainFromChild(e, 0, vars, path);
    case Compare(left, ops, comparators) =>
      if Eval(left, vars, refs, false).Err? {
        path := CycleIsReal(left, vars, refs, false, x);
        ChainFromChild(e, 0, vars, path);
      } else {
        path := CycleIsReal(comparators[0], vars, refs, ops[0].In?, x);
        ChainFromChild(e, 1, vars, path);
      }
    case Tuple(elts) => path := CycleInList(e, elts, vars, refs, false, x, 0);
  }

  lemma ChainFromChild(e: Expr, i: nat, vars: Vars, path: seq<string>)
    requires i < |Children(e)| && Chain(Children(e)[i], vars, path)
    ensures Chain(e, vars, path)
  {
  }

  lemma {:induction false} CycleInList(e: Expr, es: seq<Expr>, vars: Vars, refs: set<string>, bools: bool, x: string, n: nat)
    returns (path: seq<string>)
    requires n <= |Children(e)| && es == Children(e)[n..]
    requires EvalList(es, vars, refs, bools) == Err(Cycle(x))
    requires forall r :: r in refs ==> IsFormula(vars, r)
    ensures Chain(e, vars, path) && path != [] && path[|path| - 1] == x
    ensures x in refs || x in path[..|path| - 1]
    decreases |vars.Keys - refs|, es, 0
  {
    if Eval(es[0], vars, refs, false).Err? {
      path := CycleIsReal(es[0], vars, refs, false, x);
      ChainFromChild(e, n, vars, path);
    } else {
      path := CycleInList(e, es[1..], vars, refs, bools, x, n + 1);
    }
  }

  lemma {:induction false} GroundedAlong(e: Expr, vars: Vars, path: seq<string>, k: nat, i: nat)
    requires Grounded(e, vars, k) && Chain(e, vars, path) && i < |path|
    ensures IsFormula(vars, path[i]) && k > i && Grounded(vars[path[i]].ast, vars, k - 1 - i)
    decreases i
  {
    GroundedMention(e, vars, k, path[0]);
    if i > 0 { GroundedAlong(vars[path[0]].ast, vars, path[1..], k - 1, i - 1); }
  }

  lemma {:induction false} ChainPart(e: Expr, vars: Vars, path: seq<string>, i: nat, j: nat)
    requires Chain(e, vars, path) && i < j < |path|
    ensures IsFormula(vars, path[i]) && Chain(vars[path[i]].ast, vars, path[i + 1..j + 1])
    decreases i, j
  {
    var ast, rest := vars[path[0]].ast, path[1..];
    if i > 0 {
      ChainPart(ast, vars, rest, i - 1, j - 1);
      assert rest[i..j] == path[i + 1..j + 1];
    } else {
      ChainPrefix(ast, vars, rest, j);
      assert rest[..j] == path[1..j + 1];
    }
  }

  lemma {:induction false} ChainPrefix(e: Expr, vars: Vars, path: seq<string>, n: nat)
    requires Chain(e, vars, path) && n <= |path|
    ensures Chain(e, vars, path[..n])
    decreases n
  {
    if n > 0 {
      ChainPrefix(vars[path[0]].ast, vars, path[1..], n - 1);
      assert path[..n][1..] == path[1..][..n - 1];
    }
  }

  lemma {:induction false} LoopIsNotGrounded(x: string, vars: Vars, loop: seq<string>, k: nat)
    requires IsFormula(vars, x) && Chain(vars[x].ast, vars, loop) && loop != [] && loop[|loop| - 1] == x
    ensures !Grounded(vars[x].ast, vars, k)
    decreases k
  {
    if Grounded(vars[x].ast, vars, k) {
      GroundedAlong(vars[x].ast, vars, loop, k, |loop| - 1);
      LoopIsNotGrounded(x, vars, loop, k - |loop|);
    }
  }

  lemma CycleIsNotGrounded(e: Expr, vars: Vars, path: seq<string>, k: nat)
    requires ReachesCycle(e, vars, path)
    ensures !Grounded(e, vars, k)
  {
    if Grounded(e, vars, k) {
      var i, j :| 0 <= i < j < |path| && path[i] == path[j];
      ChainPart(e, vars, path, i, j);
      GroundedAlong(e, vars, path, k, i);
      LoopIsNotGrounded(path[i], vars, path[i + 1..j + 1], k - 1 - i);
    }
  }

  // ----- the main results

  /** Whatever value comes back is the value of the condition with every string variable
      expanded; the expansion never takes more rounds than there are variables. */
  lemma ValueIsValueOfExpansion(e: Expr, vars: Vars)
    requires EvaluateCondition(e, vars).Ok?
    ensures Grounded(e, vars, |vars|)
    ensures EvaluateCondition(e, vars) == EvaluateCondition(Expand(e, vars, |vars|), Natives(vars))
  {
    assert vars.Keys - {} == vars.Keys;
    ValueIsGrounded(e, vars, {}, false, |vars|);
    EvalIsExpanded(e, vars, {}, false, |vars|);
  }

  /** A cycle is reported only when a real one can be reached. */
  lemma ReportedCycleIsReal(e: Expr, vars: Vars, x: string) returns (path: seq<string>)
    requires EvaluateCondition(e, vars) == Err(Cycle(x))
    ensures ReachesCycle(e, vars, path) && path[|path| - 1] == x
  {
    path := CycleIsReal(e, vars, {}, false, x);
    var i :| 0 <= i < |path| - 1 && path[..|path| - 1][i] == x;
    assert path[i] == path[|path| - 1];
  }

  /** And when one can be reached, no value comes back. */
  lemma RealCycleHasNoValue(e: Expr, vars: Vars, path: seq<string>)
    requires ReachesCycle(e, vars, path)
    ensures EvaluateCondition(e, vars).Err?
  {
    if EvaluateCondition(e, vars).Ok? {
      ValueIsValueOfExpansion(e, vars);
      CycleIsNotGrounded(e, vars, path, |vars|);
    }
  }

  lemma GroundedReportsNoCycle(e: Expr, vars: Vars, k: nat)
    requires Grounded(e, vars, k)
    ensures forall x :: EvaluateCondition(e, vars) != Err(Cycle(x))
  {
    var r := EvaluateCondition(e, vars);
    if r.Err? && r.error.Cycle? {
      var path := ReportedCycleIsReal(e, vars, r.error.id);
      CycleIsNotGrounded(e, vars, path, k);
    }
  }

  /** The exact condition.  Without cycles the outcome is that of the expanded condition, errors
      included, if and only if evaluation comes to no variable for a tuple after `in`, or the expanded
      condition fails with the very error that this causes. */
  lemma ExactIffNoTupleMet(e: Expr, vars: Vars, k: nat)
    requires Grounded(e, vars, k)
    ensures EvaluateCondition(e, vars) == EvaluateCondition(Expand(e, vars, k), Natives(vars)) <==>
              || !MeetsTuple(e, vars, k, false)
              || EvaluateCondition(Expand(e, vars, k), Natives(vars)) == Err(UnexpectedNode)
    ensures MeetsTuple(e, vars, k, false) ==> EvaluateCondition(e, vars) == Err(UnexpectedNode)
  {
    EvalIsExpanded(e, vars, {}, false, k);
  }

  /** So it is exact where no variable for a tuple follows `in` anywhere. */
  lemma AcyclicIsExact(e: Expr, vars: Vars, k: nat)
    requires Grounded(e, vars, k) && TupleFree(e, vars, k)
    ensures EvaluateCondition(e, vars) == EvaluateCondition(Expand(e, vars, k), Natives(vars))
    ensures forall x :: EvaluateCondition(e, vars) != Err(Cycle(x))
  {
    ExactIffNoTupleMet(e, vars, k);
    TupleFreeMeetsNone(e, vars, k, false);
    GroundedReportsNoCycle(e, vars, k);
  }

  /** A variable that stands for a tuple never has a value. */
  lemma {:induction false} TupleNameFails(e: Expr, vars: Vars, refs: set<string>, k: nat)
    requires Grounded(e, vars, k) && Enclosing(vars, refs, k) && Expand(e, vars, k).Tuple?
    ensures Eval(e, vars, refs, false) == Err(UnexpectedNode)
    decreases k
  {
    if e.Name? {
      EnclosingLess(vars, refs, k);
      if Grounded(e, vars, k - 1) {
        GroundedMore(e, vars, k - 1);
        TupleNameFails(e, vars, refs, k - 1);
      } else {
        TupleNameFails(vars[e.id].ast, vars, refs + {e.id}, k - 1);
      }
    }
  }

  lemma InTupleName(x: Value, left: Expr, name: Expr, vars: Vars, k: nat)
    requires name.Name? && Grounded(name, vars, k) && Expand(name, vars, k).Tuple?
    requires Eval(left, vars, {}, false) == Ok(x)
    ensures EvaluateCondition(Compare(left, [In], [name]), vars) == Err(UnexpectedNode)
  {
    TupleNameFails(name, vars, {}, k);
    AllowTupleOnlyMatters(name, vars, {}, true);
  }

  lemma InTuple(x: Value, left: Expr, elts: seq<Expr>, vars: Vars)
    requires Eval(left, vars, {}, false) == Ok(x)
    ensures var r := EvaluateCondition(Compare(left, [In], [Tuple(elts)]), vars);
      var vs := EvalList(elts, vars, {}, false);
      if vs.Err? then r == Err(vs.error) else r.Ok?
  {
    var vs := EvalList(elts, vars, {}, false);
    assert Eval(Tuple(elts), vars, {}, true) == if vs.Err? then Err(vs.error) else Ok(VTuple(vs.value));
  }

  /** For one comparison whose left side has a value, the exact condition.  Where the name after `in`
      stands for a tuple, the outcomes differ unless evaluating the elements of that tuple fails with the
      very same error; where it stands for anything else, they differ exactly when those of the name by
      itself do. */
  lemma InDiffersIffTuple(left: Expr, id: string, vars: Vars, k: nat)
    requires Grounded(Compare(left, [In], [Name(id)]), vars, k)
    requires EvaluateCondition(left, vars).Ok?
    ensures var e, right := Compare(left, [In], [Name(id)]), Expand(Name(id), vars, k);
      EvaluateCondition(e, vars) != EvaluateCondition(Expand(e, vars, k), Natives(vars)) <==>
        if right.Tuple? then EvalList(right.elts, Natives(vars), {}, false) != Err(UnexpectedNode)
        else EvaluateCondition(Name(id), vars) != EvaluateCondition(right, Natives(vars))
  {
    var e, name := Compare(left, [In], [Name(id)]), Name(id);
    var x := Eval(left, vars, {}, false).value;
    assert Children(e) == [left, name];
    assert Grounded(Children(e)[0], vars, k) && Grounded(Children(e)[1], vars, k);
    EvalIsExpanded(left, vars, {}, false, k);
    assert ExpandAll([name], vars, k) == [Expand(name, vars, k)];
    assert Expand(e, vars, k) == Compare(Expand(left, vars, k), [In], [Expand(name, vars, k)]);
    if Expand(name, vars, k).Tuple? {
      InTupleName(x, left, name, vars, k);
      InTuple(x, Expand(left, vars, k), Expand(name, vars, k).elts, Natives(vars));
    } else {
      EvalIsExpanded(name, vars, {}, false, k);
      AllowTupleOnlyMatters(name, vars, {}, true);
      AllowTupleOnlyMatters(Expand(name, vars, k), Natives(vars), {}, true);
    }
  }

  lemma SingletonList(s: string, vars: Vars)
    ensures EvalList([Str(s)], vars, {}, false) == Ok([VStr(s)])
  {
    var one := [Str(s)];
    assert one[1..] == [];
    assert EvalList(one[1..], vars, {}, false) == Ok([]);
    assert Eval(one[0], vars, {}, false) == Ok(VStr(s));
    assert [VStr(s)] + [] == [VStr(s)];
  }

  /** A variable that stands for a tuple is the exception: `x in t` fails although the condition
      with the tuple written out is true. */
  lemma TupleVariableDiffers()
    ensures var vars := map["t" := Formula(Tuple([Str("x")]))];
      var e := Compare(Str("x"), [In], [Name("t")]);
      && Grounded(e, vars, 1) && !TupleFree(e, vars, 1)
      && EvaluateCondition(e, vars) == Err(UnexpectedNode)
      && EvaluateCondition(Expand(e, vars, 1), Natives(vars)) == Ok(VBool(true))
  {
    var vars := map["t" := Formula(Tuple([Str("x")]))];
    var e := Compare(Str("x"), [In], [Name("t")]);
    var t := Tuple([Str("x")]);
    assert !AllowedName("t") by { assert |"t"| == 1 && |"None"| == 4 && |"True"| == 4 && |"False"| == 5; }
    assert IsFormula(vars, "t");
    assert Children(e) == [Str("x"), Name("t")];
    assert Expand(Name("t"), vars, 1) == Tuple(ExpandAll([Str("x")], vars, 0));
    assert ExpandAll([Str("x")], vars, 0) == [Str("x")];
    assert ExpandAll([Name("t")], vars, 1) == [t];
    var none := Natives(vars);
    SingletonList("x", none);
    assert PyEq(VStr("x"), [VStr("x")][0]);
    assert Eval(t, none, {}, true) == Ok(VTuple([VStr("x")]));
    assert EvaluateCondition(Compare(Str("x"), [In], [t]), none) == Membership(VStr("x"), VTuple([VStr("x")]));
  }
}
