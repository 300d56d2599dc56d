/** Runs of the queue over a growing dependency tree, and exactly which of them end.

    `RunOnDeps` enqueues the solutions and calls `flush`.  The body of a dependency first adds to the
    tree what its DEPS file lists, and then enqueues what is to be processed of that, each once. */
module DependencyRuns {
  import opened Graphs
  import opened Requirements
  import opened Scheduler
  import opened SchedulerLiveness
  import opened SchedulerSafety

  // ----- how a body changes the tree and the queue

  function WorkerName(s: State, w: nat): string {
    if w < |s.running| then s.running[w].item.name else ""
  }

  function InlineName(s: State): string {
    if s.main.Inline? || s.main.InlineFailed? then s.main.item.name else ""
  }

  /** The item whose body takes this step. */
  function Actor(s: State, a: Action): string {
    match a
    case Enqueue(w, _) => WorkerName(s, w)
    case Touch(w, _) => WorkerName(s, w)
    case BodyOk(w) => WorkerName(s, w)
    case BodyRaise(w) => WorkerName(s, w)
    case InlineEnqueue(_) => InlineName(s)
    case InlineTouch(_) => InlineName(s)
    case InlineOk => InlineName(s)
    case InlineRaise => InlineName(s)
    case _ => ""
  }

  /** `j` is a processed dependency of the one with this name. */
  ghost predicate IsChild(tree: seq<Dep>, j: nat, name: string) {
    0 < j < |tree| && tree[j].process && IsNode(tree, tree[j].parent, name)
  }

  predicate Known(s: State, name: string) {
    name in Names(s.enqueued)
  }

  /** `verify_validity` and `add_dependency`, by the dependency of this name. */
  ghost predicate Adds(tree: seq<Dep>, name: string, grown: seq<Dep>) {
    && ValidTree(grown)
    && |grown| == |tree| + 1
    && grown[..|tree|] == tree
    && IsNode(tree, grown[|tree|].parent, name)
  }

  ghost predicate AddsAtMost(tree: seq<Dep>, name: string, grown: seq<Dep>) {
    grown == tree || Adds(tree, name, grown)
  }

  ghost predicate Offers(s: State, tree: seq<Dep>, name: string, item: Item) {
    && !Known(s, item.name)
    && exists j: nat :: IsNode(tree, j, item.name) && IsChild(tree, j, name)
  }

  ghost predicate OfferedAll(s: State, tree: seq<Dep>, name: string) {
    forall j: nat :: IsChild(tree, j, name) ==> Known(s, tree[j].name)
  }

  ghost predicate TreeStep(s: State, tree: seq<Dep>, a: Action, t: State, grown: seq<Dep>) {
    if a.Touch? || a.InlineTouch? then
      AddsAtMost(tree, Actor(s, a), grown) && IsTree(grown) && Reads(t.reqs, grown)
    else
      && grown == tree
      && (a.Enqueue? || a.InlineEnqueue? ==> Offers(s, tree, Actor(s, a), a.item))
      && (a.BodyOk? || a.InlineOk? ==> OfferedAll(s, tree, Actor(s, a)))
  }

  /** Before `flush`: only solutions, all of them enqueued in their order. */
  ghost predicate TreeInit(s: State, tree: seq<Dep>) {
    && ValidTree(tree)
    && Reads(s.reqs, tree)
    && |s.enqueued| == |tree| - 1
    && forall i :: 0 < i < |tree| ==> tree[i].parent == 0 && s.enqueued[i - 1].name == tree[i].name
  }

  ghost predicate TreeStepAt(run: nat -> State, act: nat -> Action, trees: nat -> seq<Dep>, k: nat) {
    !Terminal(run(k)) ==> TreeStep(run(k), trees(k), act(k), run(k + 1), trees(k + 1))
  }

  ghost predicate TreeRun(c: Config, run: nat -> State, act: nat -> Action, trees: nat -> seq<Dep>) {
    Run(c, run, act) && TreeInit(run(0), trees(0)) && forall k: nat :: TreeStepAt(run, act, trees, k)
  }

  // ----- what has begun, and what is still in its body

  predicate Listed(running: seq<Worker>, name: string) {
    exists w :: 0 <= w < |running| && running[w].item.name == name
  }

  predicate IsInline(s: State, name: string) {
    (s.main.Inline? || s.main.InlineFailed?) && s.main.item.name == name
  }

  predicate Begun(s: State, name: string) {
    name in s.ran || Listed(s.running, name) || IsInline(s, name)
  }

  predicate ListedInBody(running: seq<Worker>, name: string) {
    exists w :: 0 <= w < |running| && running[w].item.name == name && running[w].phase == Body
  }

  predicate InBody(s: State, name: string) {
    ListedInBody(s.running, name) || (s.main.Inline? && s.main.item.name == name)
  }

  /** This step starts the item with this name. */
  predicate StartOf(c: Config, s: State, name: string) {
    s.main.Scanning? && s.main.i < |s.queued| && s.queued[s.main.i].name == name
    && RequirementsRan(c, s, s.queued[s.main.i])
  }

  lemma ListedWithout(running: seq<Worker>, i: nat, rest: seq<Worker>, name: string)
    requires i < |running| && rest == Remove(running, i)
    ensures Listed(running, name) <==> Listed(rest, name) || running[i].item.name == name
  {
    RemoveAt(running, i);
    if w :| 0 <= w < |running| && running[w].item.name == name {
      if w != i { assert rest[if w < i then w else w - 1].item.name == name; }
    }
    if w :| 0 <= w < |rest| && rest[w].item.name == name {
      assert running[if w < i then w else w + 1].item.name == name;
    }
  }

  lemma InBodyWithout(running: seq<Worker>, i: nat, rest: seq<Worker>, name: string)
    requires i < |running| && rest == Remove(running, i) && running[i].phase != Body && ListedInBody(running, name)
    ensures ListedInBody(rest, name)
  {
    RemoveAt(running, i);
    var w :| 0 <= w < |running| && running[w].item.name == name && running[w].phase == Body;
    assert rest[if w < i then w else w - 1] == running[w];
  }

  lemma ListedWith(running: seq<Worker>, worker: Worker, more: seq<Worker>, name: string)
    requires more == running + [worker]
    ensures Listed(more, name) <==> Listed(running, name) || worker.item.name == name
    ensures ListedInBody(running, name) ==> ListedInBody(more, name)
  {
    if w :| 0 <= w < |running| && running[w].item.name == name { assert more[w].item.name == name; }
    if w :| 0 <= w < |running| && running[w].item.name == name && running[w].phase == Body { assert more[w] == running[w]; }
    assert more[|running|] == worker;
  }

  lemma ListedSame(v: seq<Worker>, w: seq<Worker>, name: string)
    requires SameWorkers(v, w)
    ensures Listed(v, name) <==> Listed(w, name)
  {
  }

  /** What a step does to what has begun: nothing, but that a start begins its item. */
  ghost predicate BegunKept(c: Config, s: State, t: State, name: string) {
    && (Begun(s, name) ==> Begun(t, name))
    && (Begun(t, name) && !Begun(s, name) ==> StartOf(c, s, name))
  }

  lemma BegunByReap(c: Config, s: State, i: nat, name: string, t: State)
    requires s.main.Reaping? && i < |s.running| && t == Reap(s, i) && !t.main.Confused?
    ensures BegunKept(c, s, t, name)
  {
    ListedWithout(s.running, i, t.running, name);
  }

  lemma BegunByStart(c: Config, s: State, name: string, t: State)
    requires s.main.Scanning? && s.main.i < |s.queued| && RequirementsRan(c, s, s.queued[s.main.i])
    requires t == StartItem(c, s, s.main.i)
    ensures BegunKept(c, s, t, name)
  {
    if c.jobs > 1 { ListedWith(s.running, t.running[|s.running|], t.running, name); }
  }

  lemma BegunByMain(c: Config, s: State, name: string, t: State)
    requires Enabled(s, MainStep) && t == MainNext(c, s) && !t.main.Confused?
    ensures BegunKept(c, s, t, name)
  {
    if s.main.Reaping? && s.main.i < |s.running| && s.running[s.main.i].phase == Dead {
      BegunByReap(c, s, s.main.i, name, t);
    } else if s.main.Scanning? && s.main.i < |s.queued| && Startable(c, s, s.queued[s.main.i]) {
      BegunByStart(c, s, name, t);
    }
  }

  lemma BegunStep(c: Config, s: State, a: Action, name: string, t: State)
    requires Enabled(s, a) && t == Apply(c, s, a) && !t.main.Confused?
    ensures BegunKept(c, s, t, name)
    ensures s.ran <= t.ran && s.raised <= t.raised
  {
    if a.MainStep? {
      BegunByMain(c, s, name, t);
    } else {
      OtherSteps(c, s, a);
      ListedSame(t.running, s.running, name);
    }
  }

  /** A body goes on, raises, or ends here. */
  ghost predicate BodyKept(s: State, a: Action, t: State, name: string) {
    InBody(s, name) ==>
      InBody(t, name) || name in t.raised || ((a.BodyOk? || a.InlineOk?) && Actor(s, a) == name)
  }

  lemma InBodyByMain(c: Config, s: State, name: string, t: State)
    requires Enabled(s, MainStep) && t == MainNext(c, s) && !t.main.Confused? && InBody(s, name)
    ensures InBody(t, name)
  {
    if s.main.Reaping? && s.main.i < |s.running| && s.running[s.main.i].phase == Dead {
      InBodyWithout(s.running, s.main.i, t.running, name);
    } else if s.main.Scanning? && s.main.i < |s.queued| && Startable(c, s, s.queued[s.main.i]) && c.jobs > 1 {
      ListedWith(s.running, t.running[|s.running|], t.running, name);
    }
  }

  lemma InBodyStep(c: Config, s: State, a: Action, name: string, t: State)
    requires Enabled(s, a) && t == Apply(c, s, a) && !t.main.Confused? && InBody(s, name)
    ensures BodyKept(s, a, t, name)
  {
    if a.MainStep? {
      InBodyByMain(c, s, name, t);
    } else if w :| 0 <= w < |s.running| && s.running[w].item.name == name && s.running[w].phase == Body {
      OtherSteps(c, s, a);
      assert t.running[w].item.name == name;
      assert name in t.raised || t.running[w].phase == Body || (a.BodyOk? && a.w == w);
    } else {
      assert a.InlineRaise? ==> t.raised[|s.raised|] == name;
    }
  }

  // ----- the invariant of tree runs

  /** Names are enqueued once, and they are those of processed dependencies. */
  ghost predicate EnqueuedNodes(s: State, tree: seq<Dep>) {
    && Distinct(Names(s.enqueued))
    && forall k :: 0 <= k < |s.enqueued| ==> HasNode(tree, s.enqueued[k].name)
  }

  ghost predicate HasNode(tree: seq<Dep>, name: string) {
    exists j: nat :: IsNode(tree, j, name)
  }

  /** It was enqueued, or the body that is to do so goes on or has raised. */
  ghost predicate Awaited(s: State, tree: seq<Dep>, j: nat)
    requires IsTree(tree) && 0 < j < |tree|
  {
    || Known(s, tree[j].name)
    || (tree[j].parent != 0 && (InBody(s, tree[tree[j].parent].name) || tree[tree[j].parent].name in s.raised))
  }

  ghost predicate AllAwaited(s: State, tree: seq<Dep>)
    requires IsTree(tree)
  {
    forall j :: j in Nodes(tree) ==> Awaited(s, tree, j)
  }

  ghost predicate ParentBegun(s: State, tree: seq<Dep>, j: nat)
    requires IsTree(tree) && 0 < j < |tree|
  {
    tree[j].parent != 0 ==> Begun(s, tree[tree[j].parent].name)
  }

  /** A dependency is in the tree only after its parent has begun. */
  ghost predicate ParentsBegun(s: State, tree: seq<Dep>)
    requires IsTree(tree)
  {
    forall j :: j in Nodes(tree) ==> ParentBegun(s, tree, j)
  }

  ghost predicate SolutionsRan(s: State, tree: seq<Dep>) {
    forall i :: i in Nodes(tree) && tree[i].parent == 0 ==> tree[i].name in s.ran
  }

  /** Once a dependency of a solution has begun, every solution has run. */
  ghost predicate SolutionsFirst(c: Config, s: State, tree: seq<Dep>) {
    !c.ignoreRequirements ==>
      forall j :: j in Nodes(tree) && tree[j].parent != 0 && Begun(s, tree[j].name) ==> SolutionsRan(s, tree)
  }

  /** What is checked out above a solution that has begun has run, if it is a solution itself. */
  ghost predicate SolutionsInOrder(c: Config, s: State, tree: seq<Dep>) {
    !c.ignoreRequirements ==>
      forall i: nat, p: nat :: IsSolution(tree, i) && IsSolution(tree, p) && Above(tree, i, p) && Begun(s, tree[p].name) ==>
        tree[i].name in s.ran
  }

  ghost predicate IsSolution(tree: seq<Dep>, i: nat) {
    i in Nodes(tree) && tree[i].parent == 0
  }

  ghost predicate TreeInv(c: Config, s: State, tree: seq<Dep>) {
    && ValidTree(tree)
    && Reads(s.reqs, tree)
    && EnqueuedNodes(s, tree)
    && AllAwaited(s, tree)
    && ParentsBegun(s, tree)
    && SolutionsFirst(c, s, tree)
    && SolutionsInOrder(c, s, tree)
    && !s.main.Confused?
  }

  lemma EnqueuedInit(s: State, tree: seq<Dep>)
    requires TreeInit(s, tree)
    ensures EnqueuedNodes(s, tree) && AllAwaited(s, tree)
  {
    forall k | 0 <= k < |s.enqueued| ensures HasNode(tree, s.enqueued[k].name) {
      var j := k + 1;
      assert ValidDep(tree, j) && tree[j].parent == 0;
      assert IsNode(tree, j, s.enqueued[k].name);
    }
    forall k, l | 0 <= k < l < |s.enqueued| ensures s.enqueued[k].name != s.enqueued[l].name {
      var i, j := k + 1, l + 1;
      assert ValidDep(tree, i) && ValidDep(tree, j);
      assert tree[i].name != tree[j].name;
    }
    forall j | j in Nodes(tree) ensures Known(s, tree[j].name) {
      assert Names(s.enqueued)[j - 1] == tree[j].name;
    }
  }

  lemma TreeInvInit(c: Config, s: State, tree: seq<Dep>)
    requires Init(c, s) && TreeInit(s, tree)
    ensures TreeInv(c, s, tree)
  {
    EnqueuedInit(s, tree);
    assert forall name :: !Begun(s, name);
    assert forall j :: j in Nodes(tree) ==> tree[j].parent == 0;
  }

  lemma NodeOf(s: State, tree: seq<Dep>, name: string) returns (j: nat)
    requires EnqueuedNodes(s, tree) && Known(s, name)
    ensures IsNode(tree, j, name)
  {
    var k :| 0 <= k < |s.enqueued| && Names(s.enqueued)[k] == name;
    assert HasNode(tree, s.enqueued[k].name);
    j :| IsNode(tree, j, name);
  }

  lemma BegunIsKnown(s: State, name: string)
    requires Conserved(s) && !s.main.Confused? && Begun(s, name)
    ensures Known(s, name)
  {
    if w :| 0 <= w < |s.running| && s.running[w].item.name == name {
      assert WorkerNames(s.running)[w] == name;
    }
    assert name in multiset(Names(s.enqueued));
  }

  lemma ActorIsInBody(c: Config, s: State, a: Action)
    requires Enabled(s, a) && (a.Touch? || a.InlineTouch?)
    ensures InBody(s, Actor(s, a)) && Begun(s, Actor(s, a))
    ensures InBody(Apply(c, s, a), Actor(s, a)) && Begun(Apply(c, s, a), Actor(s, a))
    ensures Apply(c, s, a).ran == s.ran && Apply(c, s, a).enqueued == s.enqueued
  {
    assert a.Touch? ==> s.running[a.w].phase == Body;
  }

  lemma KnownStep(c: Config, s: State, a: Action, name: string, t: State)
    requires Enabled(s, a) && t == Apply(c, s, a)
    ensures Known(s, name) ==> Known(t, name)
  {
    if Known(s, name) {
      var k :| 0 <= k < |s.enqueued| && Names(s.enqueued)[k] == name;
      assert Names(t.enqueued)[k] == name;
    }
  }

  lemma EnqueuedNodesStep(c: Config, s: State, tree: seq<Dep>, a: Action, t: State, grown: seq<Dep>)
    requires Enabled(s, a) && t == Apply(c, s, a) && EnqueuedNodes(s, tree) && TreeStep(s, tree, a, t, grown)
    ensures EnqueuedNodes(t, grown)
  {
    forall k | 0 <= k < |t.enqueued| ensures HasNode(grown, t.enqueued[k].name) {
      var name := t.enqueued[k].name;
      if k < |s.enqueued| {
        assert HasNode(tree, s.enqueued[k].name);
        var j :| IsNode(tree, j, name);
        assert IsNode(grown, j, name);
      }
    }
    if a.Enqueue? || a.InlineEnqueue? {
      assert Names(t.enqueued) == Names(s.enqueued) + [a.item.name];
    }
  }

  /** What the invariant needs to know of a step. */
  ghost predicate Moves(c: Config, s: State, a: Action, t: State) {
    && s.ran <= t.ran && s.raised <= t.raised
    && (forall name :: BegunKept(c, s, t, name))
    && (forall name :: BodyKept(s, a, t, name))
    && (forall name :: Known(s, name) ==> Known(t, name))
    && (a.Touch? || a.InlineTouch? ==> InBody(t, Actor(s, a)) && Begun(t, Actor(s, a)))
  }

  lemma StepMoves(c: Config, s: State, a: Action, t: State)
    requires Enabled(s, a) && t == Apply(c, s, a) && !t.main.Confused?
    ensures Moves(c, s, a, t)
  {
    BegunStep(c, s, a, "", t);
    forall name ensures BegunKept(c, s, t, name) { BegunStep(c, s, a, name, t); }
    forall name ensures BodyKept(s, a, t, name) {
      if InBody(s, name) { InBodyStep(c, s, a, name, t); }
    }
    forall name ensures Known(s, name) ==> Known(t, name) { KnownStep(c, s, a, name, t); }
    if a.Touch? || a.InlineTouch? { ActorIsInBody(c, s, a); }
  }

  lemma AwaitedStep(c: Config, s: State, tree: seq<Dep>, a: Action, t: State, j: nat)
    requires Moves(c, s, a, t) && ValidTree(tree) && j in Nodes(tree)
    requires a.BodyOk? || a.InlineOk? ==> OfferedAll(s, tree, Actor(s, a))
    requires Awaited(s, tree, j)
    ensures Awaited(t, tree, j)
  {
    assert ValidDep(tree, j);
    if !Known(s, tree[j].name) {
      var name := tree[tree[j].parent].name;
      assert BodyKept(s, a, t, name);
      assert IsChild(tree, j, name);
    }
  }

  lemma AllAwaitedStep(c: Config, s: State, tree: seq<Dep>, a: Action, t: State, grown: seq<Dep>)
    requires Moves(c, s, a, t) && ValidTree(tree) && AllAwaited(s, tree) && TreeStep(s, tree, a, t, grown)
    requires IsTree(grown)
    ensures AllAwaited(t, grown)
  {
    forall j | j in Nodes(grown) ensures Awaited(t, grown, j) {
      if j < |tree| {
        assert j in Nodes(tree) && grown[j] == tree[j] && grown[tree[j].parent] == tree[tree[j].parent];
        AwaitedStep(c, s, tree, a, t, j);
      }
    }
  }

  lemma ParentsBegunStep(c: Config, s: State, tree: seq<Dep>, a: Action, t: State, grown: seq<Dep>)
    requires Moves(c, s, a, t) && IsTree(tree) && ParentsBegun(s, tree) && TreeStep(s, tree, a, t, grown)
    requires IsTree(grown)
    ensures ParentsBegun(t, grown)
  {
    forall j | j in Nodes(grown) ensures ParentBegun(t, grown, j) {
      if j < |tree| {
        assert j in Nodes(tree) && grown[j] == tree[j] && grown[tree[j].parent] == tree[tree[j].parent];
        assert ParentBegun(s, tree, j);
        assert BegunKept(c, s, t, tree[tree[j].parent].name);
      }
    }
  }

  lemma SolutionsRanKept(s: State, tree: seq<Dep>, t: State, grown: seq<Dep>)
    requires SolutionsRan(s, tree) && s.ran <= t.ran
    requires |tree| <= |grown| && grown[..|tree|] == tree && forall i :: |tree| <= i < |grown| ==> grown[i].parent != 0
    ensures SolutionsRan(t, grown)
  {
    forall i | i in Nodes(grown) && grown[i].parent == 0 ensures grown[i].name in t.ran {
      assert tree[i] == grown[i] && i in Nodes(tree);
    }
  }

  /** A dependency of a solution requires every solution; any deeper one comes after its parent. */
  lemma StartNeedsSolutions(c: Config, s: State, tree: seq<Dep>, j: nat)
    requires TreeInv(c, s, tree) && !c.ignoreRequirements && j in Nodes(tree) && tree[j].parent != 0
    requires StartOf(c, s, tree[j].name)
    ensures SolutionsRan(s, tree)
  {
    var p := tree[j].parent;
    if tree[p].parent != 0 {
      assert ValidDep(tree, j) && ParentBegun(s, tree, j);
    } else {
      Levels(tree, j);
      assert ReadsNode(s.reqs, tree, j);
      forall i | i in Nodes(tree) && tree[i].parent == 0 ensures tree[i].name in s.ran {
        Levels(tree, i);
        RequiresWhat(tree, j, i);
      }
    }
  }

  lemma NewNodeHasNotBegun(s: State, tree: seq<Dep>, grown: seq<Dep>)
    requires Conserved(s) && !s.main.Confused? && EnqueuedNodes(s, tree)
    requires ValidTree(grown) && |grown| == |tree| + 1 && grown[..|tree|] == tree && grown[|tree|].process && tree != []
    ensures !Begun(s, grown[|tree|].name)
  {
    var name := grown[|tree|].name;
    if Begun(s, name) {
      BegunIsKnown(s, name);
      var i := NodeOf(s, tree, name);
    }
  }

  lemma SolutionsFirstOld(c: Config, s: State, tree: seq<Dep>, a: Action, t: State, j: nat)
    requires Moves(c, s, a, t) && TreeInv(c, s, tree) && !c.ignoreRequirements
    requires j in Nodes(tree) && tree[j].parent != 0 && Begun(t, tree[j].name)
    ensures SolutionsRan(s, tree)
  {
    assert BegunKept(c, s, t, tree[j].name);
    if !Begun(s, tree[j].name) { StartNeedsSolutions(c, s, tree, j); }
  }

  lemma SolutionsFirstSame(c: Config, s: State, tree: seq<Dep>, a: Action, t: State)
    requires Moves(c, s, a, t) && TreeInv(c, s, tree)
    ensures SolutionsFirst(c, t, tree)
  {
    forall j | j in Nodes(tree) && tree[j].parent != 0 && Begun(t, tree[j].name) && !c.ignoreRequirements
      ensures SolutionsRan(t, tree)
    {
      SolutionsFirstOld(c, s, tree, a, t, j);
      SolutionsRanKept(s, tree, t, tree);
    }
  }

  lemma SolutionsFirstGrown(c: Config, s: State, tree: seq<Dep>, a: Action, t: State, grown: seq<Dep>)
    requires Moves(c, s, a, t) && TreeInv(c, s, tree) && Conserved(s) && Adds(tree, Actor(s, a), grown)
    requires a.Touch? || a.InlineTouch?
    requires forall name :: Begun(t, name) ==> Begun(s, name)
    ensures SolutionsFirst(c, t, grown)
  {
    forall j | j in Nodes(grown) && grown[j].parent != 0 && Begun(t, grown[j].name) && !c.ignoreRequirements
      ensures SolutionsRan(t, grown)
    {
      if j < |tree| {
        assert j in Nodes(tree) && grown[j] == tree[j];
        SolutionsFirstOld(c, s, tree, a, t, j);
        SolutionsRanKept(s, tree, t, grown);
      } else {
        NewNodeHasNotBegun(s, tree, grown);
        assert false;
      }
    }
  }

  lemma TouchBeginsNothing(c: Config, s: State, a: Action, t: State)
    requires Enabled(s, a) && t == Apply(c, s, a) && (a.Touch? || a.InlineTouch?)
    ensures forall name :: Begun(t, name) ==> Begun(s, name)
  {
  }

  lemma StartNeedsAbove(c: Config, s: State, tree: seq<Dep>, i: nat, j: nat)
    requires ValidTree(tree) && Reads(s.reqs, tree) && !c.ignoreRequirements
    requires i in Nodes(tree) && j in Nodes(tree) && Above(tree, j, i) && StartOf(c, s, tree[i].name)
    ensures tree[j].name in s.ran
  {
    RequiresWhat(tree, i, j);
    assert ReadsNode(s.reqs, tree, i);
  }

  lemma SolutionsInOrderStep(c: Config, s: State, tree: seq<Dep>, a: Action, t: State, grown: seq<Dep>)
    requires Moves(c, s, a, t) && ValidTree(tree) && Reads(s.reqs, tree) && SolutionsInOrder(c, s, tree)
    requires AddsAtMost(tree, Actor(s, a), grown)
    ensures SolutionsInOrder(c, t, grown)
  {
    forall i: nat, p: nat | IsSolution(grown, i) && IsSolution(grown, p) && Above(grown, i, p) && Begun(t, grown[p].name)
        && !c.ignoreRequirements
      ensures grown[i].name in t.ran
    {
      assert i < |tree| && p < |tree| && grown[i] == tree[i] && grown[p] == tree[p];
      assert IsSolution(tree, i) && IsSolution(tree, p) && Above(tree, i, p);
      assert BegunKept(c, s, t, tree[p].name);
      if !Begun(s, tree[p].name) { StartNeedsAbove(c, s, tree, p, i); }
    }
  }

  lemma ReadsStep(c: Config, s: State, tree: seq<Dep>, a: Action, t: State, grown: seq<Dep>)
    requires Enabled(s, a) && t == Apply(c, s, a) && TreeStep(s, tree, a, t, grown)
    requires ValidTree(tree) && Reads(s.reqs, tree)
    ensures ValidTree(grown) && Reads(t.reqs, grown)
  {
    if !a.Touch? && !a.InlineTouch? { assert t.reqs == s.reqs; }
  }

  lemma TreeInvStep(c: Config, s: State, tree: seq<Dep>, a: Action, t: State, grown: seq<Dep>)
    requires Enabled(s, a) && t == Apply(c, s, a) && Inv(c, s) && TreeInv(c, s, tree) && TreeStep(s, tree, a, t, grown)
    ensures TreeInv(c, t, grown)
  {
    StepIsNotConfused(c, s, a);
    StepMoves(c, s, a, t);
    ReadsStep(c, s, tree, a, t, grown);
    EnqueuedNodesStep(c, s, tree, a, t, grown);
    AllAwaitedStep(c, s, tree, a, t, grown);
    ParentsBegunStep(c, s, tree, a, t, grown);
    SolutionsInOrderStep(c, s, tree, a, t, grown);
    if grown == tree {
      SolutionsFirstSame(c, s, tree, a, t);
    } else {
      TouchBeginsNothing(c, s, a, t);
      SolutionsFirstGrown(c, s, tree, a, t, grown);
    }
  }

  lemma {:induction false} TreeInvOnRun(c: Config, run: nat -> State, act: nat -> Action, trees: nat -> seq<Dep>, k: nat)
    requires TreeRun(c, run, act, trees) && Live(run, k)
    ensures Inv(c, run(k)) && TreeInv(c, run(k), trees(k))
  {
    InvBefore(c, run, act, k);
    if k == 0 {
      TreeInvInit(c, run(0), trees(0));
    } else {
      var i := k - 1;
      assert StepAt(c, run, act, i) && TreeStepAt(run, act, trees, i);
      TreeInvOnRun(c, run, act, trees, i);
      TreeInvStep(c, run(i), trees(i), act(i), run(k), trees(k));
    }
  }

  // ----- what a scan can leave over

  /** A solution that has not begun, and checked out above it a dependency that is no solution. */
  ghost predicate Held(s: State, tree: seq<Dep>, i: nat, j: nat) {
    && i in Nodes(tree) && j in Nodes(tree)
    && tree[i].parent == 0 && tree[j].parent != 0
    && Above(tree, j, i)
    && !Begun(s, tree[i].name)
  }

  ghost predicate HoldsBack(s: State, tree: seq<Dep>) {
    exists i: nat, j: nat :: Held(s, tree, i, j)
  }

  lemma SomethingIn(names: seq<string>)
    requires names != []
    ensures exists name :: name in names
  {
    assert names[0] in names;
  }

  lemma NothingPending(c: Config, s: State)
    requires Inv(c, s) && !NotStranded(s)
    ensures s.raised == [] && s.dropped == [] && s.exceptions == [] && !c.ignoreRequirements
  {
    assert s.tainted == {} && s.dropped == [];
    if s.raised != [] { SomethingIn(s.raised); }
    if c.ignoreRequirements { assert RequirementsRan(c, s, s.queued[0]); }
  }

  /** Then every processed dependency either waits or has run. */
  lemma QueuedOrRan(c: Config, s: State, tree: seq<Dep>, j: nat)
    requires Inv(c, s) && TreeInv(c, s, tree) && !NotStranded(s) && j in Nodes(tree)
    ensures Known(s, tree[j].name)
    ensures tree[j].name in Names(s.queued) <==> !Begun(s, tree[j].name)
  {
    var name := tree[j].name;
    NothingPending(c, s);
    assert Awaited(s, tree, j);
    assert Known(s, name);
    assert Begun(s, name) <==> name in s.ran;
    OnceWaitsOrRan(s, name);
  }

  lemma OnceWaitsOrRan(s: State, name: string)
    requires Conserved(s) && s.main.Deciding? && s.running == [] && s.dropped == []
    requires Distinct(Names(s.enqueued)) && Known(s, name)
    ensures name in Names(s.queued) <==> name !in s.ran
  {
    DistinctOnce(Names(s.enqueued), name);
    assert WorkerNames(s.running) == [] && Names(s.dropped) == [];
    assert name in multiset(Names(s.enqueued));
  }

  /** What waits then waits for something that also waits. */
  lemma WaitsForWaiting(c: Config, s: State, tree: seq<Dep>, j: nat) returns (m: nat)
    requires Inv(c, s) && TreeInv(c, s, tree) && !NotStranded(s)
    requires j in Nodes(tree) && tree[j].name in Names(s.queued)
    ensures m in Nodes(tree) && Requires(tree, j, m) && !Begun(s, tree[m].name)
  {
    NothingPending(c, s);
    var k :| 0 <= k < |s.queued| && Names(s.queued)[k] == tree[j].name;
    assert ReadsNode(s.reqs, tree, j);
    assert !RequirementsRan(c, s, s.queued[k]);
    var r :| r in RequirementsOf(tree, j) && r !in s.ran;
    m := RequirementIsNode(tree, j, r);
    QueuedOrRan(c, s, tree, m);
  }

  ghost predicate Waits(s: State, tree: seq<Dep>, i: nat) {
    i in Nodes(tree) && tree[i].name in Names(s.queued)
  }

  lemma {:induction false} Shortest(tree: seq<Dep>, some: set<nat>) returns (i: nat)
    requires some != {} && forall k :: k in some ==> k < |tree|
    ensures i in some && forall k :: k in some ==> |tree[i].name| <= |tree[k].name|
    decreases |some|
  {
    var one :| one in some;
    i := one;
    if some - {one} != {} {
      var m := Shortest(tree, some - {one});
      if |tree[m].name| < |tree[one].name| { i := m; }
    }
    forall k | k in some ensures |tree[i].name| <= |tree[k].name| {
      if k != one { assert k in some - {one}; }
    }
  }

  /** If anything waits, a solution does: the rest waits only for solutions and for shorter paths. */
  lemma SolutionWaits(c: Config, s: State, tree: seq<Dep>)
    requires Inv(c, s) && TreeInv(c, s, tree) && !NotStranded(s)
    ensures exists i: nat :: Waits(s, tree, i) && tree[i].parent == 0
  {
    var waiting := set i: nat | i in Nodes(tree) && Waits(s, tree, i);
    assert Known(s, s.queued[0].name) by { QueuedIsKnown(s); }
    var q := NodeOf(s, tree, s.queued[0].name);
    assert Names(s.queued)[0] == tree[q].name;
    assert q in waiting;
    var i := Shortest(tree, waiting);
    if tree[i].parent != 0 {
      var m := WaitsForWaiting(c, s, tree, i);
      QueuedOrRan(c, s, tree, m);
      assert m in waiting;
      RequiresWhat(tree, i, m);
      Levels(tree, m);
      assert ParentBegun(s, tree, i);
      if Above(tree, m, i) { AboveIsShorter(tree, m, i); }
    }
  }

  lemma QueuedIsKnown(s: State)
    requires Conserved(s) && !s.main.Confused? && s.queued != []
    ensures Known(s, s.queued[0].name)
  {
    assert Names(s.queued)[0] == s.queued[0].name;
    assert s.queued[0].name in multiset(Names(s.queued));
    assert s.queued[0].name in multiset(Names(s.enqueued));
  }

  /** A scan that leaves something over with nothing running leaves over a solution below the path of
      a dependency of another level. */
  lemma StrandedIsHeld(c: Config, s: State, tree: seq<Dep>)
    requires Inv(c, s) && TreeInv(c, s, tree) && !NotStranded(s)
    ensures !c.ignoreRequirements && HoldsBack(s, tree)
  {
    NothingPending(c, s);
    SolutionWaits(c, s, tree);
    var solutions := set i: nat | i in Nodes(tree) && Waits(s, tree, i) && tree[i].parent == 0;
    var any: nat :| Waits(s, tree, any) && tree[any].parent == 0;
    assert any in solutions;
    var i := Shortest(tree, solutions);
    var m := WaitsForWaiting(c, s, tree, i);
    QueuedOrRan(c, s, tree, i);
    QueuedOrRan(c, s, tree, m);
    RequiresWhat(tree, i, m);
    Levels(tree, i);
    AboveIsShorter(tree, m, i);
    assert m !in solutions;
    assert Held(s, tree, i, m);
  }

  // ----- which runs end

  /** A solution that is held back stays so: to start it the other must have run, and before that
      every solution. */
  lemma HeldCannotStart(c: Config, s: State, tree: seq<Dep>, i: nat, j: nat)
    requires TreeInv(c, s, tree) && !c.ignoreRequirements && Held(s, tree, i, j)
    ensures !StartOf(c, s, tree[i].name)
  {
    if StartOf(c, s, tree[i].name) { StartNeedsAbove(c, s, tree, i, j); }
  }

  lemma HeldStep(c: Config, s: State, tree: seq<Dep>, a: Action, t: State, grown: seq<Dep>, i: nat, j: nat)
    requires Moves(c, s, a, t) && TreeInv(c, s, tree) && TreeStep(s, tree, a, t, grown)
    requires !c.ignoreRequirements && Held(s, tree, i, j)
    ensures Held(t, grown, i, j)
  {
    HeldCannotStart(c, s, tree, i, j);
    assert grown[i] == tree[i] && grown[j] == tree[j];
    assert BegunKept(c, s, t, tree[i].name);
  }

  lemma HeldNext(c: Config, run: nat -> State, act: nat -> Action, trees: nat -> seq<Dep>, m: nat, n: nat, i: nat, j: nat)
    requires TreeRun(c, run, act, trees) && !c.ignoreRequirements && n == m + 1 && Live(run, n)
    requires Held(run(m), trees(m), i, j)
    ensures Held(run(n), trees(n), i, j)
  {
    TreeInvOnRun(c, run, act, trees, m);
    TreeInvOnRun(c, run, act, trees, n);
    MovesAt(c, run, act, m, n);
    assert TreeStepAt(run, act, trees, m);
    HeldStep(c, run(m), trees(m), act(m), run(n), trees(n), i, j);
  }

  lemma MovesAt(c: Config, run: nat -> State, act: nat -> Action, m: nat, n: nat)
    requires StepAt(c, run, act, m) && n == m + 1 && !Terminal(run(m)) && !run(n).main.Confused?
    ensures Moves(c, run(m), act(m), run(n))
  {
    StepMoves(c, run(m), act(m), run(n));
  }

  lemma {:induction false} HeldForever(
      c: Config, run: nat -> State, act: nat -> Action, trees: nat -> seq<Dep>, k: nat, n: nat, i: nat, j: nat)
    requires TreeRun(c, run, act, trees) && !c.ignoreRequirements && k <= n && Live(run, n)
    requires Held(run(k), trees(k), i, j)
    ensures Held(run(n), trees(n), i, j)
    decreases n
  {
    if k < n {
      HeldForever(c, run, act, trees, k, n - 1, i, j);
      HeldNext(c, run, act, trees, n - 1, n, i, j);
    }
  }

  /** Every processed dependency of the tree has run, exactly once, and nothing else has. */
  ghost predicate RanTree(s: State, tree: seq<Dep>) {
    && s.main == Finished(false)
    && Distinct(s.ran)
    && forall name :: name in s.ran <==> HasNode(tree, name)
  }

  lemma CountedTwice(a: seq<string>, i: nat, j: nat)
    requires i < j < |a|
    ensures a[i] == a[j] ==> multiset(a)[a[i]] >= 2
  {
    assert a == a[..j] + [a[j]] + a[j + 1..];
    assert a[i] in a[..j];
  }

  lemma DistinctPermutation(a: seq<string>, b: seq<string>)
    requires Distinct(b) && multiset(a) == multiset(b)
    ensures Distinct(a)
  {
    forall i, j | 0 <= i < j < |a| ensures a[i] != a[j] {
      DistinctOnce(b, a[i]);
      CountedTwice(a, i, j);
    }
  }

  lemma RanEverythingIsRanTree(c: Config, s: State, tree: seq<Dep>)
    requires Inv(c, s) && TreeInv(c, s, tree) && RanEverything(s)
    ensures RanTree(s, tree)
  {
    OutcomeOfInv(c, s);
    DistinctPermutation(s.ran, Names(s.enqueued));
    forall name ensures name in s.ran <==> HasNode(tree, name) {
      assert name in multiset(s.ran) <==> name in multiset(Names(s.enqueued));
      if Known(s, name) { var j := NodeOf(s, tree, name); }
      if j: nat :| IsNode(tree, j, name) { assert Awaited(s, tree, j); }
    }
  }

  lemma RanTreeHoldsNothingBack(s: State, tree: seq<Dep>)
    requires RanTree(s, tree)
    ensures !HoldsBack(s, tree)
  {
    if i: nat, j: nat :| Held(s, tree, i, j) { assert IsNode(tree, i, tree[i].name); }
  }

  /** Finitely many dependencies are ever found. */
  ghost predicate BoundedTrees(run: nat -> State, trees: nat -> seq<Dep>, bound: nat) {
    forall k: nat {:trigger Live(run, k)} :: Live(run, k) ==> |Nodes(trees(k))| <= bound
  }

  ghost function NodeAt(s: State, tree: seq<Dep>, k: nat): (j: nat)
    requires EnqueuedNodes(s, tree) && k < |s.enqueued|
    ensures IsNode(tree, j, s.enqueued[k].name)
  {
    assert HasNode(tree, s.enqueued[k].name);
    var j: nat :| IsNode(tree, j, s.enqueued[k].name);
    j
  }

  lemma FewEnqueued(s: State, tree: seq<Dep>)
    requires EnqueuedNodes(s, tree)
    ensures |s.enqueued| <= |Nodes(tree)|
  {
    var nodes := seq(|s.enqueued|, k requires 0 <= k < |s.enqueued| => NodeAt(s, tree, k));
    forall k, l | 0 <= k < l < |nodes| ensures nodes[k] != nodes[l] {
      assert Names(s.enqueued)[k] != Names(s.enqueued)[l];
    }
    if |nodes| > |Nodes(tree)| {
      var k, l := Pigeonhole(Nodes(tree), nodes);
    }
  }

  lemma TreesBoundRun(c: Config, run: nat -> State, act: nat -> Action, trees: nat -> seq<Dep>, bound: nat)
    requires TreeRun(c, run, act, trees) && BoundedTrees(run, trees, bound)
    ensures Bounded(run, bound)
  {
    forall k: nat | Live(run, k) ensures |run(k).enqueued| <= bound {
      TreeInvOnRun(c, run, act, trees, k);
      FewEnqueued(run(k), trees(k));
    }
  }

  ghost predicate NeverHoldsBack(run: nat -> State, trees: nat -> seq<Dep>) {
    forall k: nat {:trigger Live(run, k)} :: Live(run, k) ==> !HoldsBack(run(k), trees(k))
  }

  /** Whatever bodies do, raising included: `flush` ends unless a solution is held back. */
  lemma EndsUnlessHeld(c: Config, run: nat -> State, act: nat -> Action, trees: nat -> seq<Dep>, bound: nat)
    requires TreeRun(c, run, act, trees) && Fair(run, act) && BoundedTrees(run, trees, bound)
    requires c.ignoreRequirements || NeverHoldsBack(run, trees)
    ensures Ends(run)
  {
    TreesBoundRun(c, run, act, trees, bound);
    forall k: nat | Live(run, k) ensures NotStranded(run(k)) {
      TreeInvOnRun(c, run, act, trees, k);
      if !NotStranded(run(k)) { StrandedIsHeld(c, run(k), trees(k)); }
    }
    NotStrandedTerminates(c, run, act, bound);
  }

  /** No body raises and nothing interrupts the wait. */
  ghost predicate Calm(run: nat -> State) {
    forall k: nat {:trigger Live(run, k)} :: Live(run, k) ==> run(k).raised == [] && !run(k).main.Interrupted?
  }

  lemma CalmIsUndisturbed(c: Config, run: nat -> State, act: nat -> Action, trees: nat -> seq<Dep>)
    requires TreeRun(c, run, act, trees) && Calm(run)
    ensures Undisturbed(run)
  {
    forall k: nat | Live(run, k) ensures Distinct(Names(run(k).enqueued)) {
      TreeInvOnRun(c, run, act, trees, k);
    }
  }

  lemma CalmEnd(c: Config, run: nat -> State, act: nat -> Action, trees: nat -> seq<Dep>) returns (n: nat)
    requires TreeRun(c, run, act, trees) && Calm(run) && Ends(run)
    ensures Live(run, n) && Terminal(run(n)) && RanTree(run(n), trees(n))
  {
    CalmIsUndisturbed(c, run, act, trees);
    EndsHavingRunEverything(c, run, act);
    n :| Live(run, n) && RanEverything(run(n));
    TreeInvOnRun(c, run, act, trees, n);
    RanEverythingIsRanTree(c, run(n), trees(n));
  }

  lemma HeldNeverEnds(c: Config, run: nat -> State, act: nat -> Action, trees: nat -> seq<Dep>, k: nat)
    requires TreeRun(c, run, act, trees) && Calm(run) && !c.ignoreRequirements
    requires Live(run, k) && HoldsBack(run(k), trees(k))
    ensures !Ends(run)
  {
    if Ends(run) {
      var n := CalmEnd(c, run, act, trees);
      var i: nat, j: nat :| Held(run(k), trees(k), i, j);
      assert k <= n;
      HeldForever(c, run, act, trees, k, n, i, j);
      RanTreeHoldsNothingBack(run(n), trees(n));
    }
  }

  /** The exact condition.  A fair run in which nothing raises or interrupts ends if and only if at no
      point a dependency that is no solution is in the tree above a solution that has not begun. */
  lemma EndsIffNeverHeld(c: Config, run: nat -> State, act: nat -> Action, trees: nat -> seq<Dep>, bound: nat)
    requires TreeRun(c, run, act, trees) && Fair(run, act) && BoundedTrees(run, trees, bound)
    requires Calm(run) && !c.ignoreRequirements
    ensures Ends(run) <==> NeverHoldsBack(run, trees)
  {
    if NeverHoldsBack(run, trees) { EndsUnlessHeld(c, run, act, trees, bound); }
    if k: nat :| Live(run, k) && HoldsBack(run(k), trees(k)) { HeldNeverEnds(c, run, act, trees, k); }
  }

  /** And then every processed dependency found in the end has run, exactly once. */
  lemma DepsRunEverything(c: Config, run: nat -> State, act: nat -> Action, trees: nat -> seq<Dep>, bound: nat)
    requires TreeRun(c, run, act, trees) && Fair(run, act) && BoundedTrees(run, trees, bound)
    requires Calm(run) && (c.ignoreRequirements || NeverHoldsBack(run, trees))
    ensures exists n: nat :: Live(run, n) && RanTree(run(n), trees(n))
  {
    EndsUnlessHeld(c, run, act, trees, bound);
    var n := CalmEnd(c, run, act, trees);
  }

  // ----- which trees end, whatever the schedule

  /** A dependency of the solution `p` is checked out above the solution `i`. */
  ghost predicate ChildAbove(tree: seq<Dep>, p: nat, j: nat, i: nat) {
    && IsSolution(tree, p) && IsSolution(tree, i) && j in Nodes(tree)
    && tree[j].parent == p && Above(tree, j, i)
  }

  /** Only a dependency of a solution can hold a solution back, and neither one of that solution itself,
      nor one whose own solution comes after. */
  lemma HeldByChild(c: Config, s: State, tree: seq<Dep>, i: nat, j: nat)
    requires TreeInv(c, s, tree) && !c.ignoreRequirements && Held(s, tree, i, j)
    ensures var p := tree[j].parent; ChildAbove(tree, p, j, i) && i != p && !Above(tree, i, p)
  {
    var p := tree[j].parent;
    assert ValidDep(tree, j) && ParentBegun(s, tree, j);
    assert p in Nodes(tree) && IsSolution(tree, i);
    assert tree[i].name !in s.ran;
    assert tree[p].parent != 0 ==> SolutionsRan(s, tree);
  }

  /** Dependencies of a solution are above no other solutions than those above that solution. */
  ghost predicate Harmless(tree: seq<Dep>) {
    forall p: nat, j: nat, i: nat :: ChildAbove(tree, p, j, i) ==> i == p || Above(tree, i, p)
  }

  lemma HarmlessHoldsNothingBack(c: Config, s: State, tree: seq<Dep>)
    requires TreeInv(c, s, tree) && !c.ignoreRequirements && Harmless(tree)
    ensures !HoldsBack(s, tree)
  {
    if i: nat, j: nat :| Held(s, tree, i, j) { HeldByChild(c, s, tree, i, j); }
  }

  ghost predicate AlwaysHarmless(run: nat -> State, trees: nat -> seq<Dep>) {
    forall k: nat {:trigger Live(run, k)} :: Live(run, k) ==> Harmless(trees(k))
  }

  /** Then every schedule ends, raising included. */
  lemma HarmlessEnds(c: Config, run: nat -> State, act: nat -> Action, trees: nat -> seq<Dep>, bound: nat)
    requires TreeRun(c, run, act, trees) && Fair(run, act) && BoundedTrees(run, trees, bound)
    requires AlwaysHarmless(run, trees)
    ensures Ends(run)
  {
    if !c.ignoreRequirements {
      forall k: nat | Live(run, k) ensures !HoldsBack(run(k), trees(k)) {
        TreeInvOnRun(c, run, act, trees, k);
        HarmlessHoldsNothingBack(c, run(k), trees(k));
      }
    }
    EndsUnlessHeld(c, run, act, trees, bound);
  }

  lemma NoDeepNoChildAbove(tree: seq<Dep>)
    requires IsTree(tree) && NoDeepAboveFirst(tree)
    ensures forall p: nat, j: nat, i: nat :: !ChildAbove(tree, p, j, i)
  {
    forall p: nat, j: nat, i: nat ensures !ChildAbove(tree, p, j, i) {
      if i in Nodes(tree) && j in Nodes(tree) {
        Levels(tree, i);
        Levels(tree, j);
      }
    }
  }

  /** In particular where only solutions are ever checked out above solutions. */
  lemma NoDeepAboveFirstEnds(c: Config, run: nat -> State, act: nat -> Action, trees: nat -> seq<Dep>, bound: nat)
    requires TreeRun(c, run, act, trees) && Fair(run, act) && BoundedTrees(run, trees, bound)
    requires forall k: nat {:trigger Live(run, k)} :: Live(run, k) ==> IsTree(trees(k)) && NoDeepAboveFirst(trees(k))
    ensures Ends(run)
  {
    forall k: nat | Live(run, k) ensures Harmless(trees(k)) { NoDeepNoChildAbove(trees(k)); }
    HarmlessEnds(c, run, act, trees, bound);
  }

  lemma InBodyHasNotRun(s: State, name: string)
    requires Conserved(s) && !s.main.Confused? && Distinct(Names(s.enqueued)) && InBody(s, name)
    ensures name !in s.ran
  {
    DistinctOnce(Names(s.enqueued), name);
    if w :| 0 <= w < |s.running| && s.running[w].item.name == name && s.running[w].phase == Body {
      assert WorkerNames(s.running)[w] == name;
      assert name in multiset(WorkerNames(s.running));
    }
  }

  lemma NewIsHeld(c: Config, s: State, tree: seq<Dep>, a: Action, t: State, grown: seq<Dep>, p: nat, j: nat, i: nat)
    requires Enabled(s, a) && t == Apply(c, s, a) && (a.Touch? || a.InlineTouch?) && Inv(c, s) && TreeInv(c, s, tree)
    requires !c.ignoreRequirements && Adds(tree, Actor(s, a), grown) && j == |tree|
    requires ChildAbove(grown, p, j, i) && Above(grown, p, i)
    ensures Held(t, grown, i, j)
  {
    assert grown[i] == tree[i] && grown[p] == tree[p];
    assert IsSolution(tree, i) && IsSolution(tree, p) && Above(tree, p, i);
    ActorIsInBody(c, s, a);
    InBodyHasNotRun(s, tree[p].name);
    TouchBeginsNothing(c, s, a, t);
  }

  lemma OldChildAbove(tree: seq<Dep>, name: string, grown: seq<Dep>, p: nat, j: nat, i: nat)
    requires AddsAtMost(tree, name, grown) && j < |tree| && ChildAbove(grown, p, j, i) && Above(grown, p, i)
    ensures ChildAbove(tree, p, j, i) && Above(tree, p, i)
  {
    assert i < |tree| && p < |tree| && grown[i] == tree[i] && grown[p] == tree[p] && grown[j] == tree[j];
  }

  lemma HeldAtNext(
      c: Config, run: nat -> State, act: nat -> Action, trees: nat -> seq<Dep>, n: nat, k: nat, p: nat, j: nat, i: nat)
    requires TreeRun(c, run, act, trees) && !c.ignoreRequirements && k == n + 1 && Live(run, k)
    requires ChildAbove(trees(k), p, j, i) && Above(trees(k), p, i) && |trees(n)| <= j
    ensures Held(run(k), trees(k), i, j)
  {
    TreeInvOnRun(c, run, act, trees, n);
    assert StepAt(c, run, act, n) && TreeStepAt(run, act, trees, n);
    NewIsHeld(c, run(n), trees(n), act(n), run(k), trees(k), p, j, i);
  }

  lemma GrowsAt(c: Config, run: nat -> State, act: nat -> Action, trees: nat -> seq<Dep>, n: nat, k: nat)
    requires TreeRun(c, run, act, trees) && k == n + 1 && Live(run, k)
    ensures AddsAtMost(trees(n), Actor(run(n), act(n)), trees(k))
  {
    assert TreeStepAt(run, act, trees, n);
  }

  lemma NoChildAtFirst(s: State, tree: seq<Dep>, p: nat, j: nat, i: nat)
    requires TreeInit(s, tree)
    ensures !ChildAbove(tree, p, j, i)
  {
  }

  /** A solution `i` below both its solution `p` and a dependency `j` of `p` has not begun: when `j` was
      added `p` was still in its body, and `i` requires `p`. */
  lemma {:induction false} HeldByParent(
      c: Config, run: nat -> State, act: nat -> Action, trees: nat -> seq<Dep>, k: nat, p: nat, j: nat, i: nat)
    requires TreeRun(c, run, act, trees) && !c.ignoreRequirements && Live(run, k)
    requires ChildAbove(trees(k), p, j, i) && Above(trees(k), p, i)
    ensures Held(run(k), trees(k), i, j)
    decreases k
  {
    if k == 0 {
      NoChildAtFirst(run(0), trees(0), p, j, i);
    } else if j < |trees(k - 1)| {
      var n := k - 1;
      GrowsAt(c, run, act, trees, n, k);
      OldChildAbove(trees(n), Actor(run(n), act(n)), trees(k), p, j, i);
      HeldByParent(c, run, act, trees, n, p, j, i);
      HeldNext(c, run, act, trees, n, k, i, j);
    } else {
      HeldAtNext(c, run, act, trees, k - 1, k, p, j, i);
    }
  }

  /** And no run in which nothing raises ends that ever has a dependency of a solution above another that
      this solution is above as well. */
  lemma ParentAboveNeverEnds(
      c: Config, run: nat -> State, act: nat -> Action, trees: nat -> seq<Dep>, k: nat, p: nat, j: nat, i: nat)
    requires TreeRun(c, run, act, trees) && Calm(run) && !c.ignoreRequirements && Live(run, k)
    requires ChildAbove(trees(k), p, j, i) && Above(trees(k), p, i)
    ensures !Ends(run)
  {
    HeldByParent(c, run, act, trees, k, p, j, i);
    HeldNeverEnds(c, run, act, trees, k);
  }

  /** Wherever a dependency of a solution is above another solution, one of the two solutions is above
      the other, or they are the same. */
  ghost predicate Comparable(tree: seq<Dep>) {
    forall p: nat, j: nat, i: nat :: ChildAbove(tree, p, j, i) ==> i == p || Above(tree, i, p) || Above(tree, p, i)
  }

  /** So for comparable solutions the trees alone decide, whatever the schedule. */
  lemma EndsIffHarmless(c: Config, run: nat -> State, act: nat -> Action, trees: nat -> seq<Dep>, bound: nat)
    requires TreeRun(c, run, act, trees) && Fair(run, act) && BoundedTrees(run, trees, bound)
    requires Calm(run) && !c.ignoreRequirements
    requires forall k: nat {:trigger Live(run, k)} :: Live(run, k) ==> Comparable(trees(k))
    ensures Ends(run) <==> AlwaysHarmless(run, trees)
  {
    if AlwaysHarmless(run, trees) {
      HarmlessEnds(c, run, act, trees, bound);
    } else {
      var k: nat :| Live(run, k) && !Harmless(trees(k));
      var p: nat, j: nat, i: nat :| ChildAbove(trees(k), p, j, i) && !(i == p || Above(trees(k), i, p));
      ParentAboveNeverEnds(c, run, act, trees, k, p, j, i);
    }
  }

  // ----- ranked trees

  ghost function NameRank(tree: seq<Dep>, rank: map<nat, nat>): string -> nat {
    (name: string) =>
      if HasNode(tree, name) then
        (var j: nat :| IsNode(tree, j, name); if j in rank then rank[j] else 0)
      else 0
  }

  lemma NameRankOf(tree: seq<Dep>, rank: map<nat, nat>, j: nat)
    requires ValidTree(tree) && j in Nodes(tree) && j in rank
    ensures NameRank(tree, rank)(tree[j].name) == rank[j]
  {
    assert IsNode(tree, j, tree[j].name);
    assert forall i: nat :: IsNode(tree, i, tree[j].name) ==> i == j;
  }

  /** A tree whose requirements can be ranked gives the scheduler its assumption: by the time a scan
      has ended with nothing running, whatever is required was enqueued. */
  lemma TreeIsRanked(c: Config, s: State, tree: seq<Dep>)
    requires Inv(c, s) && TreeInv(c, s, tree) && Rankable(tree)
    ensures IsRanked(c, s)
  {
    var ranks :| Ranks(Edges(tree), Nodes(tree), ranks);
    var rank := NameRank(tree, ranks);
    forall q, r | q in s.queued && r in Reqs(s, q) && s.main.Deciding? && s.running == []
      ensures r in Names(s.enqueued) && rank(r) < rank(q.name)
    {
      var k :| 0 <= k < |s.queued| && s.queued[k] == q;
      RequirementRanked(c, s, tree, ranks, k, r);
    }
    assert Ranked(c, s, rank);
  }

  lemma RequirementRanked(c: Config, s: State, tree: seq<Dep>, ranks: map<nat, nat>, k: nat, r: string)
    requires Inv(c, s) && TreeInv(c, s, tree) && !NotStranded(s) && Ranks(Edges(tree), Nodes(tree), ranks)
    requires k < |s.queued| && r in Reqs(s, s.queued[k])
    ensures Known(s, r) && NameRank(tree, ranks)(r) < NameRank(tree, ranks)(s.queued[k].name)
  {
    var name := s.queued[k].name;
    assert Names(s.queued)[k] == name;
    assert name in multiset(Names(s.queued));
    assert name in multiset(Names(s.enqueued));
    var j := NodeOf(s, tree, name);
    assert ReadsNode(s.reqs, tree, j);
    var m := RequirementIsNode(tree, j, r);
    QueuedOrRan(c, s, tree, m);
    RankFallsTo(tree, ranks, j, m);
    NameRankOf(tree, ranks, j);
    NameRankOf(tree, ranks, m);
  }

  /** So a run ends whose trees can be ranked. */
  lemma RankableTreesEnd(c: Config, run: nat -> State, act: nat -> Action, trees: nat -> seq<Dep>, bound: nat)
    requires TreeRun(c, run, act, trees) && Fair(run, act) && BoundedTrees(run, trees, bound)
    requires forall k: nat {:trigger Live(run, k)} :: Live(run, k) ==> IsTree(trees(k)) && Rankable(trees(k))
    ensures Ends(run)
  {
    TreesBoundRun(c, run, act, trees, bound);
    forall k: nat | Live(run, k) ensures IsRanked(c, run(k)) {
      TreeInvOnRun(c, run, act, trees, k);
      TreeIsRanked(c, run(k), trees(k));
    }
    FlushTerminates(c, run, act, bound);
  }
}
