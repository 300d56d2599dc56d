/** Deadlocks of the queue: where a scan has left something over with nothing running, `flush` polls
    for ever; and an example that gets there in a few steps. */
module Deadlocks {
  import opened DependencyRuns
  import opened Requirements
  import opened Scheduler
  import opened SchedulerLiveness
  import opened SchedulerSafety

  /** Nothing runs, nothing can start, and no exception will empty the queue. */
  ghost predicate Deadlocked(c: Config, s: State) {
    && s.running == [] && s.exceptions == [] && s.queued != [] && c.jobs >= 1
    && (s.main.Interrupted? || s.main.Checking? || s.main == Reaping(0) || s.main.Testing?
        || s.main.Scanning? || s.main.Deciding? || s.main.Waiting?)
    && forall k :: 0 <= k < |s.queued| ==> !RequirementsRan(c, s, s.queued[k])
  }

  /** From a deadlock `flush` only polls, for ever or until it is interrupted. */
  lemma {:induction false} DeadlockIsForever(c: Config, s: State, actions: seq<Action>)
    requires Deadlocked(c, s) && IsRun(c, s, actions)
    ensures Deadlocked(c, Exec(c, s, actions))
    decreases |actions|
  {
    if actions != [] {
      var t := Apply(c, s, actions[0]);
      assert Deadlocked(c, t);
      DeadlockIsForever(c, t, actions[1..]);
    }
  }

  /** A scan that leaves items over with nothing running is such a deadlock. */
  lemma StrandedIsDeadlocked(c: Config, s: State)
    requires Inv(c, s) && !NotStranded(s)
    ensures Deadlocked(c, s)
  {
    NothingPending(c, s);
  }

  /** So a run that does not end although it is fair is one of these from some point on. */
  lemma EndsOrDeadlocks(c: Config, run: nat -> State, act: nat -> Action, bound: nat)
    requires Run(c, run, act) && Fair(run, act) && Bounded(run, bound)
    ensures Ends(run) || exists k: nat :: Live(run, k) && Deadlocked(c, run(k))
  {
    if k: nat :| Live(run, k) && !NotStranded(run(k)) {
      InvBefore(c, run, act, k);
      StrandedIsDeadlocked(c, run(k));
    } else {
      NotStrandedTerminates(c, run, act, bound);
    }
  }

  // ----- an example

  const ROOT := Dep("", 0, true)
  const P := Dep("p", 0, true)
  const ABC := Dep("a/b/c", 0, true)
  const AB := Dep("a/b", 1, true)

  /** Two solutions, `p` and `a/b/c`. */
  const BEFORE := [ROOT, P, ABC]
  /** Running `p` adds the dependency `a/b`, one level deeper but above `a/b/c`. */
  const AFTER := [ROOT, P, ABC, AB]

  lemma SolutionIsFree()
    ensures ValidTree(BEFORE) && RequirementsOf(BEFORE, 1) == {}
  {
    assert BEFORE[1].name[0] == 'p' && BEFORE[2].name[0] == 'a';
    forall d | 0 <= d < 3 ensures !Above(BEFORE, d, 1) {
      assert BEFORE[d].name == "" || BEFORE[d].name == "p" || BEFORE[d].name == "a/b/c";
    }
  }

  lemma RequireEachOther()
    ensures ValidTree(AFTER) && !NoDeepAboveFirst(AFTER) && !NoDeeperAbove(AFTER)
    ensures "a/b" in RequirementsOf(AFTER, 2) && "a/b/c" in RequirementsOf(AFTER, 3) && Above(AFTER, 3, 2)
  {
    assert AFTER[1].name[0] == 'p' && AFTER[2].name[0] == 'a' && AFTER[3].name[0] == 'a';
    assert |AFTER[2].name| == 5 && |AFTER[3].name| == 3;
    assert AsDirectory("a/b") == "a/b/";
    assert Above(AFTER, 3, 2);
    Levels(AFTER, 2);
    Levels(AFTER, 3);
    RequiresWhat(AFTER, 2, 3);
    RequiresWhat(AFTER, 3, 2);
  }

  /** With nothing running and nothing raised, three steps of the main thread start the scan. */
  lemma StartsScanning(c: Config, s: State) returns (t: State)
    requires Reachable(c, s) && s.main.Checking? && s.exceptions == [] && s.running == [] && s.queued != []
    requires c.jobs != 0
    ensures t == s.(main := Scanning(0)) && Reachable(c, t)
  {
    t := Take(c, s, MainStep);
    t := Take(c, t, MainStep);
    t := Take(c, t, MainStep);
  }

  lemma Take(c: Config, s: State, a: Action) returns (t: State)
    requires Reachable(c, s) && Enabled(s, a)
    ensures t == Apply(c, s, a) && Reachable(c, t)
  {
    ReachableStep(c, s, a);
    t := Apply(c, s, a);
  }

  /** Item `q` runs alone in the main thread, replaces the requirements and enqueues `d`. */
  lemma RunsInline(c: Config, s: State, reqs: map<string, set<string>>, d: Item) returns (t: State)
    requires Reachable(c, s) && s.main == Scanning(0) && c.jobs == 1 && s.running == []
    requires s.queued != [] && Startable(c, s, s.queued[0])
    ensures Reachable(c, t) && t.main.Checking? && t.reqs == reqs && t.running == []
    ensures t.queued == s.queued[1..] + [d] && t.ran == s.ran + [s.queued[0].name]
    ensures t.enqueued == s.enqueued + [d] && t.exceptions == s.exceptions
  {
    t := Take(c, s, MainStep);
    assert t.main.Inline?;
    t := Take(c, t, InlineTouch(reqs));
    t := Take(c, t, InlineEnqueue(d));
    t := Take(c, t, InlineOk);
  }

  /** One item runs and enqueues another; that one and the one left over require each other. */
  lemma RunsIntoDeadlock(x: Item, y: Item, z: Item, reqs: map<string, set<string>>, newReqs: map<string, set<string>>)
    returns (c: Config, s: State)
    requires x.name in reqs && reqs[x.name] == {}
    requires y.name in newReqs && z.name in newReqs[y.name] && z.name in newReqs && y.name in newReqs[z.name]
    requires x.name != y.name && x.name != z.name && y.name != z.name
    ensures c == Config(1, false) && Reachable(c, s) && Deadlocked(c, s)
    ensures s.reqs == newReqs && s.enqueued == [x, y, z]
    ensures !Begun(s, y.name)
  {
    c := Config(1, false);
    s := State(Checking, [x, y], [], [], [], reqs, [x, y], [], [], [], [], {});
    assert IsRun(c, s, []) && Exec(c, s, []) == s;
    s := StartsScanning(c, s);
    s := RunsInline(c, s, newReqs, z);
    assert s.queued == [y, z] && s.ran == [x.name];
    assert z.name in Reqs(s, y) && z.name !in s.ran;
    assert y.name in Reqs(s, z) && y.name !in s.ran;
  }

  lemma ReadsAll(tree: seq<Dep>, reqs: map<string, set<string>>)
    requires ValidTree(tree) && |tree| == 4 && tree[1].process && tree[2].process && tree[3].process
    requires reqs == map[tree[1].name := RequirementsOf(tree, 1), tree[2].name := RequirementsOf(tree, 2),
                         tree[3].name := RequirementsOf(tree, 3)]
    ensures Reads(reqs, tree)
  {
    assert ReadsNode(reqs, tree, 1) && ReadsNode(reqs, tree, 2) && ReadsNode(reqs, tree, 3);
  }

  lemma DeadlockOf(before: seq<Dep>, after: seq<Dep>) returns (c: Config, s: State)
    requires ValidTree(before) && |before| == 3 && ValidTree(after) && |after| == 4
    requires after[1].process && after[2].process && after[3].process
    requires before == after[..3] && RequirementsOf(before, 1) == {}
    requires after[3].name in RequirementsOf(after, 2) && after[2].name in RequirementsOf(after, 3)
    ensures c == Config(1, false) && Reachable(c, s) && Deadlocked(c, s)
    ensures Reads(s.reqs, after)
    ensures s.enqueued == [Item(after[1].name, {}), Item(after[2].name, {}), Item(after[3].name, {})]
    ensures !Begun(s, after[2].name)
  {
    var x, y, z := after[1].name, after[2].name, after[3].name;
    var reqs := map[x := RequirementsOf(before, 1), y := RequirementsOf(before, 2)];
    var rx, ry, rz := RequirementsOf(after, 1), RequirementsOf(after, 2), RequirementsOf(after, 3);
    var newReqs := map[x := rx, y := ry, z := rz];
    c, s := RunsIntoDeadlock(Item(x, {}), Item(y, {}), Item(z, {}), reqs, newReqs);
    ReadsAll(after, newReqs);
  }

  lemma HeldInExample(s: State)
    requires Above(AFTER, 3, 2) && !Begun(s, "a/b/c")
    ensures HoldsBack(s, AFTER)
  {
    assert Held(s, AFTER, 2, 3);
  }

  /** With one job, the queue of this tree reaches a deadlock: `p` runs first and adds `a/b`,
      and from then on `a/b/c` and `a/b` wait for each other. */
  lemma DeeperAboveDeadlocks() returns (c: Config, s: State)
    ensures ValidTree(AFTER) && !NoDeepAboveFirst(AFTER) && !NoDeeperAbove(AFTER)
    ensures c == Config(1, false) && Reachable(c, s) && Deadlocked(c, s)
    ensures Reads(s.reqs, AFTER)
    ensures s.enqueued == [Item(P.name, {}), Item(ABC.name, {}), Item(AB.name, {})]
    ensures HoldsBack(s, AFTER)
  {
    SolutionIsFree();
    RequireEachOther();
    c, s := DeadlockOf(BEFORE, AFTER);
    HeldInExample(s);
  }
}
