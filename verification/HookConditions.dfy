/** The hooks of a DEPS file: `hooks_os` in `Parse`, and whether a hook runs. */
module HookConditions {
  import opened Conditions
  import opened DepsConditions

  /** Unlike `deps_os`, `hooks_os` takes the name of the system as it is. */
  function HookCheckout(os: string): Cond {
    Text(Name("checkout_" + os))
  }

  /** The hooks listed for one system; a hook is an entry that has no url. */
  datatype HookSection = HookSection(os: string, hooks: seq<DepInfo>)

  function AllHooks(sections: seq<HookSection>): seq<DepInfo> {
    if sections == [] then []
    else var n := |sections| - 1; AllHooks(sections[..n]) + sections[n].hooks
  }

  /** For every hook of `AllHooks` the system it is listed for. */
  function Systems(sections: seq<HookSection>): (systems: seq<string>)
    ensures |systems| == |AllHooks(sections)|
  {
    if sections == [] then []
    else var n := |sections| - 1; Systems(sections[..n]) + seq(|sections[n].hooks|, _ => sections[n].os)
  }

  ghost predicate AllSeparate(hooks: seq<DepInfo>) {
    forall i, j :: 0 <= i < j < |hooks| ==> hooks[i] != hooks[j]
  }

  ghost function Stored(hooks: seq<DepInfo>): (conds: seq<Cond>)
    reads hooks
    ensures |conds| == |hooks| && forall k :: 0 <= k < |hooks| ==> conds[k] == hooks[k].condition
  {
    seq(|hooks|, k requires 0 <= k < |hooks| reads hooks => hooks[k].condition)
  }

  /** The conditions from `from` to before `to`, each with that of its system added. */
  function WithSystems(conds: seq<Cond>, systems: seq<string>, from: nat, to: nat): (r: seq<Cond>)
    requires |conds| == |systems|
    ensures |r| == |conds|
  {
    seq(|conds|, k requires 0 <= k < |conds| =>
      if from <= k < to then Updated(conds[k], AndJoin, HookCheckout(systems[k])) else conds[k])
  }

  lemma WithNone(conds: seq<Cond>, systems: seq<string>)
    requires |conds| == |systems|
    ensures WithSystems(conds, systems, 0, 0) == conds
  {
  }

  lemma WithMore(conds: seq<Cond>, systems: seq<string>, from: nat, to: nat)
    requires |conds| == |systems| && from <= to
    ensures WithSystems(WithSystems(conds, systems, 0, from), systems, from, to) == WithSystems(conds, systems, 0, to)
  {
  }

  /** Adds the condition of its system to each of `hooks`, where it is; they are those of `all` from
      `from` to `to`. */
  method UpdateHooks(hooks: seq<DepInfo>, os: string, ghost all: seq<DepInfo>, ghost systems: seq<string>,
                     ghost from: nat, ghost to: nat)
    requires AllSeparate(all) && |systems| == |all| && to == from + |hooks| <= |all| && all[from..to] == hooks
    requires forall k :: from <= k < to ==> systems[k] == os
    modifies all
    ensures Stored(all) == WithSystems(old(Stored(all)), systems, from, to)
  {
    for i := 0 to |hooks|
      invariant Stored(all) == WithSystems(old(Stored(all)), systems, from, from + i)
    {
      ghost var at := from + i;
      assert hooks[i] == all[at] && Stored(all)[at] == hooks[i].condition;
      hooks[i].UpdateCondition(AndJoin, HookCheckout(os));
      assert systems[at] == os;
    }
  }

  /** The hooks of section `n` stand behind those of the sections before it. */
  lemma {:induction false} HooksOf(sections: seq<HookSection>, n: nat)
    requires n < |sections|
    ensures var before, hooks := AllHooks(sections[..n]), sections[n].hooks;
      && AllHooks(sections[..n + 1]) == before + hooks
      && before + hooks <= AllHooks(sections)
      && forall k :: |before| <= k < |before| + |hooks| ==> Systems(sections)[k] == sections[n].os
    decreases |sections|
  {
    assert sections[..n + 1][..n] == sections[..n];
    var last := |sections| - 1;
    if n < last {
      HooksOf(sections[..last], n);
      assert sections[..last][..n] == sections[..n] && sections[..last][..n + 1] == sections[..n + 1];
    } else {
      assert sections[..n + 1] == sections;
    }
  }

  lemma Regroup<T>(a: seq<T>, b: seq<T>, c: seq<T>)
    ensures (a + b) + c == a + (b + c)
  {
  }

  /** One round of the outer loop; `base` are the hooks that were there at first. */
  method MergeSection(known: seq<DepInfo>, sections: seq<HookSection>, n: nat,
                      ghost base: seq<DepInfo>, ghost was: seq<Cond>)
    returns (merged: seq<DepInfo>)
    requires AllSeparate(AllHooks(sections)) && n < |sections| && |was| == |AllHooks(sections)|
    requires known == base + AllHooks(sections[..n])
    requires Stored(AllHooks(sections)) == WithSystems(was, Systems(sections), 0, |AllHooks(sections[..n])|)
    modifies AllHooks(sections)
    ensures merged == base + AllHooks(sections[..n + 1])
    ensures Stored(AllHooks(sections)) == WithSystems(was, Systems(sections), 0, |AllHooks(sections[..n + 1])|)
  {
    HooksOf(sections, n);
    ghost var from, to := |AllHooks(sections[..n])|, |AllHooks(sections[..n + 1])|;
    UpdateHooks(sections[n].hooks, sections[n].os, AllHooks(sections), Systems(sections), from, to);
    WithMore(was, Systems(sections), from, to);
    merged := known + sections[n].hooks;
    Regroup(base, AllHooks(sections[..n]), sections[n].hooks);
  }

  /** The loops over `hooks_os`: every listed hook is appended, with the condition of its system added;
      the hooks that were there are not written to. */
  method MergeHooksOs(hooks: seq<DepInfo>, sections: seq<HookSection>) returns (merged: seq<DepInfo>)
    requires AllSeparate(AllHooks(sections))
    modifies AllHooks(sections)
    ensures merged == hooks + AllHooks(sections)
    ensures Stored(AllHooks(sections)) ==
              WithSystems(old(Stored(AllHooks(sections))), Systems(sections), 0, |AllHooks(sections)|)
  {
    ghost var was := Stored(AllHooks(sections));
    merged := hooks;
    assert sections[..0] == [];
    WithNone(was, Systems(sections));
    for n := 0 to |sections|
      invariant merged == hooks + AllHooks(sections[..n])
      invariant Stored(AllHooks(sections)) == WithSystems(was, Systems(sections), 0, |AllHooks(sections[..n])|)
    {
      merged := MergeSection(merged, sections, n, hooks, was);
    }
    assert sections[..|sections|] == sections;
  }

  // ----- which hooks run

  datatype Decision = Runs | Skipped | Raises(error: Error)

  predicate Truthy(v: Value) {
    match v
    case VNone => false
    case VBool(b) => b
    case VInt(i) => i != 0
    case VStr(s) => s != ""
    case VTuple(elts) => elts != []
  }

  /** The start of `Hook.run`. */
  function Decide(c: Cond, vars: Vars): Decision {
    if !c.Text? then Runs
    else
      match EvaluateCondition(c.e, vars)
      case Err(error) => Raises(error)
      case Ok(value) => if Truthy(value) then Runs else Skipped
  }

  /** What listing a hook for a system is for. */
  ghost predicate DecidedBySystem(own: Cond, os: string, vars: Vars) {
    Decide(Updated(own, AndJoin, HookCheckout(os)), vars) ==
      if Holds(own, vars) && Holds(HookCheckout(os), vars) then Runs else Skipped
  }

  /** A listed hook runs exactly when its own condition and its system ask for it if and only if
      `checkout_<os>` is boolean, or is not and counts as false while the hook has no condition. */
  lemma DecidedIffBool(own: Cond, os: string, vars: Vars)
    requires IsBool(own, vars)
    ensures DecidedBySystem(own, os, vars) <==>
              || IsBool(HookCheckout(os), vars)
              || (!own.Text? && exists v :: EvaluateCondition(HookCheckout(os).e, vars) == Ok(v) && !Truthy(v))
  {
    var system := HookCheckout(os);
    if own.Text? {
      CombineMeaning(AndJoin, own.e, system.e, vars);
      CombinedIsNoText(own.e, system.e, vars);
    }
  }

  /** `and` never has a value that is not boolean. */
  lemma CombinedIsNoText(x: Expr, y: Expr, vars: Vars)
    ensures var r := EvaluateCondition(Combine(AndJoin, x, y), vars); r.Ok? ==> r.value.VBool?
  {
  }

  /** No variable is called `checkout_unix`, so a hook listed for `unix` runs on every system if it has no
      condition, and is an error if it has a boolean one. */
  lemma UnixHooks(own: Cond, vars: Vars)
    requires IsBool(own, vars) && "checkout_unix" !in vars
    ensures Decide(Updated(own, AndJoin, HookCheckout("unix")), vars) ==
              if own.Text? then Raises(InvalidOperand) else Runs
  {
    var name := "checkout_" + "unix";
    assert name == "checkout_unix" && |name| == 13;
    assert !AllowedName(name);
    assert EvaluateCondition(Name(name), vars) == Ok(VStr(name));
    if own.Text? {
      var both := [own.e, Name(name)];
      assert both[1..] == [Name(name)] && both[0] == own.e;
      assert EvalList([Name(name)], vars, {}, true) == Err(InvalidOperand);
      assert EvalList(both, vars, {}, true) == Err(InvalidOperand);
      assert Updated(own, AndJoin, HookCheckout("unix")) == Text(And(both));
    }
  }
}
