/** Bodies that add dependencies at the same time.

    `verify_validity` and `add_dependency` lock the tree one after the other, so another body can add
    the same name in between.  Names stay distinct exactly when no two bodies have verified the same
    name at the same time. */
module AddingRaces {
  import opened DependencyRuns
  import opened Requirements

  /** `verified` is what a body has verified and not added yet. */
  datatype State = State(tree: seq<Dep>, verified: map<nat, Dep>)

  datatype Action = Verify(body: nat, dep: Dep) | Add(body: nat)

  /** `verify_validity` neither raises nor refuses: no other dependency of the same parent has the name,
      and no processed one anywhere, or for one that is not processed none at all. */
  predicate Accepts(tree: seq<Dep>, dep: Dep) {
    && (forall i :: 0 < i < |tree| && tree[i].parent == dep.parent ==> tree[i].name != dep.name)
    && forall i :: 0 < i < |tree| && (tree[i].process || !dep.process) ==> tree[i].name != dep.name
  }

  /** Every dependency is made with a name, by the body of a processed one. */
  predicate MadeIn(tree: seq<Dep>, dep: Dep) {
    dep.name != "" && 0 < dep.parent < |tree| && tree[dep.parent].process
  }

  predicate Enabled(s: State, a: Action) {
    match a
    case Verify(body, dep) => body !in s.verified && MadeIn(s.tree, dep)
    case Add(body) => body in s.verified
  }

  function Apply(s: State, a: Action): State
    requires Enabled(s, a)
  {
    match a
    case Verify(body, dep) => if Accepts(s.tree, dep) then s.(verified := s.verified[body := dep]) else s
    case Add(body) => State(s.tree + [s.verified[body]], s.verified - {body})
  }

  ghost predicate IsRun(s: State, actions: seq<Action>)
    decreases |actions|
  {
    actions == [] || (Enabled(s, actions[0]) && IsRun(Apply(s, actions[0]), actions[1..]))
  }

  ghost function Exec(s: State, actions: seq<Action>): State
    requires IsRun(s, actions)
    decreases |actions|
  {
    if actions == [] then s else Exec(Apply(s, actions[0]), actions[1..])
  }

  /** Two bodies have both verified a processed dependency of the same name. */
  ghost predicate Race(s: State) {
    exists b, c :: Racing(s, b, c)
  }

  ghost predicate Racing(s: State, b: nat, c: nat) {
    && b != c && b in s.verified && c in s.verified
    && s.verified[b].process && s.verified[c].process && s.verified[b].name == s.verified[c].name
  }

  ghost predicate RaceOnRun(s: State, actions: seq<Action>)
    requires IsRun(s, actions)
    decreases |actions|
  {
    Race(s) || (actions != [] && RaceOnRun(Apply(s, actions[0]), actions[1..]))
  }

  /** What verifying decides, case by case: a name that is not there is accepted, one that the parent or a
      processed dependency has is not; where only others that are not processed have it, a processed one is
      accepted and another is not. */
  lemma VerifyLaw(s: State, body: nat, dep: Dep, i: nat)
    requires Enabled(s, Verify(body, dep))
    ensures var t := Apply(s, Verify(body, dep));
      && t.tree == s.tree
      && ((forall j :: 0 < j < |s.tree| ==> s.tree[j].name != dep.name) ==> t.verified == s.verified[body := dep])
      && (0 < i < |s.tree| && s.tree[i].name == dep.name ==>
            && (s.tree[i].parent == dep.parent || s.tree[i].process || !dep.process ==> t == s)
            && ((forall j :: 0 < j < |s.tree| && s.tree[j].name == dep.name ==>
                   s.tree[j].parent != dep.parent && !s.tree[j].process) && dep.process ==>
                  t.verified == s.verified[body := dep]))
  {
  }

  // ----- without a race

  /** What was verified can still be added. */
  ghost predicate StillClear(s: State) {
    forall b :: b in s.verified ==>
      && MadeIn(s.tree, s.verified[b])
      && (s.verified[b].process ==> NoneProcessed(s.tree, s.verified[b].name))
  }

  ghost predicate NoneProcessed(tree: seq<Dep>, name: string) {
    forall i :: 0 < i < |tree| && tree[i].process ==> tree[i].name != name
  }

  lemma AddKeepsValid(tree: seq<Dep>, dep: Dep, grown: seq<Dep>)
    requires ValidTree(tree) && MadeIn(tree, dep) && grown == tree + [dep]
    requires dep.process ==> NoneProcessed(tree, dep.name)
    ensures ValidTree(grown)
  {
    forall i | 0 < i < |grown| ensures ValidDep(grown, i) {
      if i < |tree| {
        assert ValidDep(tree, i) && grown[i] == tree[i] && grown[tree[i].parent] == tree[tree[i].parent];
      }
    }
  }

  lemma ClearStep(s: State, a: Action)
    requires Enabled(s, a) && ValidTree(s.tree) && StillClear(s) && !Race(s)
    ensures ValidTree(Apply(s, a).tree) && StillClear(Apply(s, a))
  {
    var t := Apply(s, a);
    if a.Add? {
      var dep := s.verified[a.body];
      AddKeepsValid(s.tree, dep, t.tree);
      forall b | b in t.verified
        ensures MadeIn(t.tree, t.verified[b])
        ensures t.verified[b].process ==> NoneProcessed(t.tree, t.verified[b].name)
      {
        assert b in s.verified && !Racing(s, b, a.body);
      }
    }
  }

  /** Without a race an addition is the single step that runs over a tree take. */
  lemma AdditionIsOneStep(s: State, body: nat)
    requires ValidTree(s.tree) && StillClear(s) && body in s.verified
    ensures var dep := s.verified[body]; Adds(s.tree, s.tree[dep.parent].name, Apply(s, Add(body)).tree)
  {
    var dep := s.verified[body];
    AddKeepsValid(s.tree, dep, s.tree + [dep]);
  }

  lemma {:induction false} NoRaceKeepsValid(s: State, actions: seq<Action>)
    requires IsRun(s, actions) && ValidTree(s.tree) && StillClear(s) && !RaceOnRun(s, actions)
    ensures ValidTree(Exec(s, actions).tree)
    decreases |actions|
  {
    if actions != [] {
      ClearStep(s, actions[0]);
      NoRaceKeepsValid(Apply(s, actions[0]), actions[1..]);
    }
  }

  // ----- with a race

  /** Where a processed dependency is: in the tree, or verified by a body. */
  datatype Slot = InTree(i: nat) | Waiting(body: nat)

  predicate Named(s: State, slot: Slot, name: string) {
    match slot
    case InTree(i) => 0 < i < |s.tree| && s.tree[i].process && s.tree[i].name == name
    case Waiting(body) => body in s.verified && s.verified[body].process && s.verified[body].name == name
  }

  ghost predicate Twice(s: State, name: string) {
    exists x, y :: x != y && Named(s, x, name) && Named(s, y, name)
  }

  function Moved(s: State, a: Action, slot: Slot): Slot {
    if a.Add? && slot == Waiting(a.body) then InTree(|s.tree|) else slot
  }

  lemma NamedStep(s: State, a: Action, slot: Slot, name: string)
    requires Enabled(s, a) && s.tree != [] && Named(s, slot, name)
    ensures Named(Apply(s, a), Moved(s, a, slot), name)
  {
  }

  lemma TwiceStep(s: State, a: Action, name: string)
    requires Enabled(s, a) && s.tree != [] && Twice(s, name)
    ensures Twice(Apply(s, a), name)
  {
    var x, y :| x != y && Named(s, x, name) && Named(s, y, name);
    NamedStep(s, a, x, name);
    NamedStep(s, a, y, name);
    assert Moved(s, a, x) != Moved(s, a, y);
  }

  lemma {:induction false} TwiceForever(s: State, actions: seq<Action>, name: string)
    requires IsRun(s, actions) && s.tree != [] && Twice(s, name)
    ensures Twice(Exec(s, actions), name)
    decreases |actions|
  {
    if actions != [] {
      TwiceStep(s, actions[0], name);
      TwiceForever(Apply(s, actions[0]), actions[1..], name);
    }
  }

  lemma {:induction false} RaceRepeatsName(s: State, actions: seq<Action>)
    requires IsRun(s, actions) && s.tree != [] && RaceOnRun(s, actions)
    ensures exists name :: Twice(Exec(s, actions), name)
    decreases |actions|
  {
    if Race(s) {
      var b, c :| Racing(s, b, c);
      var name := s.verified[b].name;
      assert Waiting(b) != Waiting(c) && Named(s, Waiting(b), name) && Named(s, Waiting(c), name);
      TwiceForever(s, actions, name);
    } else {
      var t := Apply(s, actions[0]);
      RaceRepeatsName(t, actions[1..]);
      var name :| Twice(Exec(t, actions[1..]), name);
      assert Twice(Exec(s, actions), name);
    }
  }

  lemma TwiceIsNotValid(s: State, name: string)
    requires s.verified == map[] && Twice(s, name)
    ensures !ValidTree(s.tree)
  {
    var x, y :| x != y && Named(s, x, name) && Named(s, y, name);
    assert x.InTree? && y.InTree?;
    var i, j := if x.i < y.i then x.i else y.i, if x.i < y.i then y.i else x.i;
    assert i < j && s.tree[i].name == s.tree[j].name;
  }

  /** The exact condition: once everything verified has been added, the tree is one with distinct names
      if and only if at no point two bodies had verified the same name. */
  lemma ValidIffNoRace(s: State, actions: seq<Action>)
    requires IsRun(s, actions) && ValidTree(s.tree) && s.verified == map[] && Exec(s, actions).verified == map[]
    ensures ValidTree(Exec(s, actions).tree) <==> !RaceOnRun(s, actions)
  {
    if RaceOnRun(s, actions) {
      RaceRepeatsName(s, actions);
      var name :| Twice(Exec(s, actions), name);
      TwiceIsNotValid(Exec(s, actions), name);
    } else {
      NoRaceKeepsValid(s, actions);
    }
  }

  /** The race is real: two bodies can verify one dependency before either adds it, and then it is there twice. */
  lemma RaceHappens(s: State, dep: Dep, b: nat, c: nat)
    requires s.verified == map[] && ValidTree(s.tree) && MadeIn(s.tree, dep) && dep.process && b != c
    requires forall i :: 0 < i < |s.tree| ==> s.tree[i].name != dep.name
    ensures var race := [Verify(b, dep), Verify(c, dep), Add(b), Add(c)];
      && IsRun(s, race) && Exec(s, race) == State(s.tree + [dep] + [dep], map[]) && !ValidTree(Exec(s, race).tree)
  {
    var one := s.(verified := map[b := dep]);
    var two := s.(verified := map[b := dep, c := dep]);
    var three := State(s.tree + [dep], map[c := dep]);
    var four := State(s.tree + [dep] + [dep], map[]);
    assert Apply(s, Verify(b, dep)) == one && Apply(one, Verify(c, dep)) == two;
    assert Apply(two, Add(b)) == three && Apply(three, Add(c)) == four;
    RunFour(s, Verify(b, dep), one, Verify(c, dep), two, Add(b), three, Add(c), four);
    var n := |s.tree|;
    assert four.tree[n] == dep && four.tree[n + 1] == dep;
  }

  lemma RunFour(s: State, a: Action, t: State, b: Action, u: State, c: Action, v: State, d: Action, w: State)
    requires Enabled(s, a) && Apply(s, a) == t && Enabled(t, b) && Apply(t, b) == u
    requires Enabled(u, c) && Apply(u, c) == v && Enabled(v, d) && Apply(v, d) == w
    ensures IsRun(s, [a, b, c, d]) && Exec(s, [a, b, c, d]) == w
  {
    assert [a, b, c, d][1..] == [b, c, d] && [b, c, d][1..] == [c, d] && [c, d][1..] == [d] && [d][1..] == [];
    assert IsRun(v, [d]) && Exec(v, [d]) == w;
    assert IsRun(u, [c, d]) && Exec(u, [c, d]) == w;
    assert IsRun(t, [b, c, d]) && Exec(t, [b, c, d]) == w;
  }
}
