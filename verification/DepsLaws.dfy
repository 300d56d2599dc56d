/** What becomes of one entry of `deps_os`, of `hooks_os` and of `deps`, with its condition evaluated. */
module DepsLaws {
  import opened Conditions
  import opened ConditionLaws
  import opened DepsConditions
  import HookConditions
  import Strings

  /** A stored condition has this boolean value; one that is absent or empty counts as true. */
  ghost predicate Says(c: Cond, b: bool, vars: Vars) {
    match c
    case Absent => b
    case Empty => b
    case Text(e) => EvaluateCondition(e, vars) == Ok(VBool(b))
  }

  /** The native variable is this boolean. */
  predicate IsSet(id: string, b: bool, vars: Vars) {
    id in vars && vars[id] == Native(VBool(b))
  }

  /** The value of `x and y` and of `x or y`. */
  lemma PairLaw(x: Expr, a: bool, y: Expr, b: bool, vars: Vars)
    requires EvaluateCondition(x, vars) == Ok(VBool(a)) && EvaluateCondition(y, vars) == Ok(VBool(b))
    ensures EvaluateCondition(And([x, y]), vars) == Ok(VBool(a && b))
    ensures EvaluateCondition(Or([x, y]), vars) == Ok(VBool(a || b))
  {
    var bs := [a, b];
    assert AreBools([x, y], vars, bs);
    BoolOpLaw([x, y], vars, bs);
    assert bs[0] == a && bs[1] == b;
  }

  /** `and` is conjunction; `or` is disjunction while both conditions are there, and otherwise leaves no
      condition. */
  lemma UpdatedLaw(curr: Cond, a: bool, new_: Cond, b: bool, vars: Vars)
    requires Says(curr, a, vars) && Says(new_, b, vars)
    ensures Says(Updated(curr, AndJoin, new_), a && b, vars)
    ensures Says(Updated(curr, OrJoin, new_), a || b, vars)
    ensures !curr.Text? || !new_.Text? ==> !Updated(curr, OrJoin, new_).Text?
  {
    if curr.Text? && new_.Text? { PairLaw(curr.e, a, new_.e, b, vars); }
  }

  /** The variable of a system: `checkout_linux` for `unix`, `checkout_<system>` for the others. */
  lemma SystemLaw(os: string, b: bool, vars: Vars)
    ensures os == "unix" && IsSet("checkout_linux", b, vars) ==> Says(CheckoutOf(os), b, vars)
    ensures os != "unix" && IsSet("checkout_" + os, b, vars) ==> Says(CheckoutOf(os), b, vars)
    ensures IsSet("checkout_" + os, b, vars) ==> Says(HookConditions.HookCheckout(os), b, vars)
  {
    assert "checkout_" + "linux" == "checkout_linux";
    assert |"checkout_" + os| >= 9;
    NameLaw("checkout_linux", vars);
    NameLaw("checkout_" + os, vars);
  }

  /** An entry of `deps_os` with a url: it is stored under its name, and its condition is that of the
      system and its own, or that of the entry it meets there. */
  lemma ListedLaw(deps: map<string, Dep>, name: string, url: string, own: Cond, mine: bool, os: string, system: bool,
                  was: bool, vars: Vars)
    requires Says(own, mine, vars) && IsSet(if os == "unix" then "checkout_linux" else "checkout_" + os, system, vars)
    requires name in deps ==> deps[name].url == Git(url) && Says(deps[name].cond, was, vars)
    ensures var r := MergeEntry(deps, Entry(name, Dep(Git(url), own)), os);
      && r.Success? && name in r.value && r.value == deps[name := r.value[name]] && r.value[name].url == Git(url)
      && Says(r.value[name].cond, if name in deps then (mine && system) || was else mine && system, vars)
  {
    SystemLaw(os, system, vars);
    var cond := Updated(own, AndJoin, CheckoutOf(os));
    UpdatedLaw(own, mine, CheckoutOf(os), system, vars);
    if name in deps { UpdatedLaw(cond, mine && system, deps[name].cond, was, vars); }
  }

  /** An entry without a url is passed over; another url, or no `url` key, is an error. */
  lemma UnlistedLaw(deps: map<string, Dep>, name: string, url: string, other: string, own: Cond, os: string)
    ensures MergeEntry(deps, Entry(name, Dep(Null, own)), os) == Success(deps)
    ensures MergeEntry(deps, Entry(name, Dep(NoUrl, own)), os) == Failed(KeyError)
    ensures name in deps && deps[name].url == Git(other) && other != url ==>
              MergeEntry(deps, Entry(name, Dep(Git(url), own)), os) == Failed(Conflict)
    ensures name in deps && deps[name].url == Null ==> MergeEntry(deps, Entry(name, Dep(Git(url), own)), os) == Failed(Conflict)
  {
  }

  /** A hook listed for a system runs exactly when its own condition holds and the system is checked out. */
  lemma ListedHookLaw(own: Cond, mine: bool, os: string, system: bool, vars: Vars)
    requires Says(own, mine, vars) && IsSet("checkout_" + os, system, vars)
    ensures HookConditions.Decide(Updated(own, AndJoin, HookConditions.HookCheckout(os)), vars) ==
              if mine && system then HookConditions.Runs else HookConditions.Skipped
  {
    SystemLaw(os, system, vars);
    UpdatedLaw(own, mine, HookConditions.HookCheckout(os), system, vars);
  }

  /** A hook runs unless it has a condition whose value counts as false: `None`, `False`, `0`, the empty
      string or the empty tuple; an error of its condition is raised. */
  lemma HookLaw(e: Expr, v: Value, error: Error, vars: Vars)
    ensures HookConditions.Decide(Absent, vars) == HookConditions.Runs
    ensures HookConditions.Decide(Empty, vars) == HookConditions.Runs
    ensures EvaluateCondition(e, vars) == Err(error) ==> HookConditions.Decide(Text(e), vars) == HookConditions.Raises(error)
    ensures EvaluateCondition(e, vars) == Ok(v) ==>
              HookConditions.Decide(Text(e), vars) ==
                if v in [VNone, VBool(false), VInt(0), VStr(""), VTuple([])] then HookConditions.Skipped else HookConditions.Runs
  {
  }

  /** An entry of a dependency file is taken when the file is synced, or when a custom dependency gives it
      a url that does not end in `@unmanaged`; it keeps its own url if it has one, and its condition is
      its own and that of the dependency. */
  lemma TakenLaw(deps: map<string, Dep>, custom: map<string, CustomDep>, shouldSync: bool, parent: Cond, above: bool,
                 name: string, mine: bool, vars: Vars)
    requires Says(parent, above, vars) && (if name in deps then Says(deps[name].cond, mine, vars) else mine)
    ensures var r := Processed(deps, custom, shouldSync, parent);
      && (name in r <==>
            || (shouldSync && name in deps)
            || exists url :: url != "" && name in custom && custom[name] == Custom(url)
                             && forall front: string :: url != front + "@unmanaged")
      && (name in r ==>
            && Says(r[name].cond, mine && above, vars)
            && (if name in deps then r[name].url == deps[name].url
                else exists url :: custom[name] == Custom(url) && r[name].url == Git(url)))
  {
    var r := Processed(deps, custom, shouldSync, parent);
    if name in custom && custom[name].Custom? { UnmanagedIff(custom[name].url); }
    if name in r {
      var taken := Chosen(deps, custom, shouldSync)[name];
      assert Says(taken.cond, mine, vars);
      UpdatedLaw(taken.cond, mine, parent, above, vars);
    }
  }

  /** The condition stored one level further down: that of the level above and its own. */
  lemma StoredLaw(root: Cond, path: seq<Level>, l: Level, above: bool, mine: bool, vars: Vars)
    requires IsPath(path + [l]) && IsPath(path) && Says(Stored(root, path), above, vars)
    requires if l.name in l.deps then Says(l.deps[l.name].cond, mine, vars) else mine
    ensures Stored(root, []) == root && Says(Stored(root, path + [l]), mine && above, vars)
  {
    var longer := path + [l];
    assert longer[..|longer| - 1] == path && longer[|path|] == l;
    StoredStep(root, longer);
    UpdatedLaw(Declared(l), mine, Stored(root, path), above, vars);
  }

  lemma UnmanagedIff(url: string)
    ensures Strings.EndsWith(url, "@unmanaged") <==> exists front: string :: url == front + "@unmanaged"
  {
    var suffix := "@unmanaged";
    if Strings.EndsWith(url, suffix) { assert url == url[..|url| - |suffix|] + suffix; }
    if front: string :| url == front + suffix { assert url[|front|..] == suffix; }
  }
}
