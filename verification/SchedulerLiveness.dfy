/** `flush` terminates: on every strongly fair run, whatever bodies do, as long as finitely many
    items are ever enqueued and no scan with nothing running leaves items over.  That is so where the
    requirements of what is left over are enqueued and ranked. */
module SchedulerLiveness {
  import opened Scheduler
  import opened SchedulerSafety

  // ----- the assumption on requirements

  /** Whenever a scan has ended with nothing running, what queued items require was enqueued and is
      ranked below them.  Nothing is asked of the states inside a body. */
  ghost predicate Ranked(c: Config, s: State, rank: string -> nat) {
    s.main.Deciding? && s.running == [] && !c.ignoreRequirements ==>
      forall q, r :: q in s.queued && r in Reqs(s, q) ==>
        r in Names(s.enqueued) && rank(r) < rank(q.name)
  }

  ghost predicate IsRanked(c: Config, s: State) {
    exists rank: string -> nat :: Ranked(c, s, rank)
  }

  /** The scan leaves no item over while nothing runs. */
  ghost predicate NotStranded(s: State) {
    s.main.Deciding? && s.running == [] ==> s.queued == []
  }

  lemma {:induction false} LowestRanked(queued: seq<Item>, rank: string -> nat) returns (q: Item)
    requires queued != []
    ensures q in queued && forall p :: p in queued ==> rank(q.name) <= rank(p.name)
    decreases |queued|
  {
    q := queued[0];
    if |queued| > 1 {
      var q' := LowestRanked(queued[1..], rank);
      if rank(q'.name) < rank(q.name) { q := q'; }
      assert queued == [queued[0]] + queued[1..];
    }
  }

  /** `flush` never decides to wait with nothing running: that would be a deadlock. */
  lemma NeverWaitsForNothing(c: Config, s: State)
    requires Inv(c, s) && IsRanked(c, s)
    ensures NotStranded(s)
  {
    var rank: string -> nat :| Ranked(c, s, rank);
    if s.main.Deciding? && s.running == [] && s.queued != [] {
      assert !RequirementsRan(c, s, s.queued[0]);
      var q := LowestRanked(s.queued, rank);
      assert Names(s.dropped) == [] && WorkerNames(s.running) == [];
      forall r | r in Reqs(s, q) ensures r in s.ran {
        assert r in Names(s.enqueued);
        assert r in multiset(Names(s.enqueued));
        assert r !in Names(s.queued);
      }
      assert RequirementsRan(c, s, q);
    }
  }

  // ----- the weight of the work that is left

  function PhaseWeight(phase: Phase): nat {
    match phase
    case Body => 6
    case Raising => 5
    case Notifying => 3
    case Exiting => 2
    case Dead => 1
  }

  function RunningWeight(running: seq<Worker>): nat {
    if running == [] then 0
    else PhaseWeight(running[0].phase) + RunningWeight(running[1..])
  }

  lemma {:induction false} RunningWeightConcat(v: seq<Worker>, w: seq<Worker>)
    ensures RunningWeight(v + w) == RunningWeight(v) + RunningWeight(w)
    decreases |v|
  {
    if v == [] {
      assert v + w == w;
    } else {
      assert (v + w)[1..] == v[1..] + w;
      RunningWeightConcat(v[1..], w);
    }
  }

  lemma RunningWeightOne(worker: Worker)
    ensures RunningWeight([worker]) == PhaseWeight(worker.phase)
  {
    assert [worker][1..] == [];
  }

  lemma RunningWeightAround(before: seq<Worker>, worker: Worker, after: seq<Worker>)
    ensures RunningWeight((before + [worker]) + after) ==
              RunningWeight(before) + PhaseWeight(worker.phase) + RunningWeight(after)
    ensures RunningWeight(before + after) == RunningWeight(before) + RunningWeight(after)
  {
    RunningWeightOne(worker);
    RunningWeightConcat(before + [worker], after);
    RunningWeightConcat(before, [worker]);
    RunningWeightConcat(before, after);
  }

  lemma RunningWeightAt(v: seq<Worker>, k: nat)
    requires k < |v|
    ensures RunningWeight(v) == RunningWeight(v[..k]) + PhaseWeight(v[k].phase) + RunningWeight(v[k + 1..])
    ensures RunningWeight(Remove(v, k)) == RunningWeight(v[..k]) + RunningWeight(v[k + 1..])
  {
    assert v == (v[..k] + [v[k]]) + v[k + 1..];
    RunningWeightAround(v[..k], v[k], v[k + 1..]);
  }

  lemma RunningWeightUpdate(v: seq<Worker>, k: nat, x: Worker)
    requires k < |v|
    ensures RunningWeight(v[k := x]) + PhaseWeight(v[k].phase) == RunningWeight(v) + PhaseWeight(x.phase)
  {
    RunningWeightAt(v, k);
    var w := v[k := x];
    RunningWeightAt(w, k);
    assert w[..k] == v[..k] && w[k + 1..] == v[k + 1..];
  }

  /** With at most `bound` items ever enqueued, how much work can still happen. */
  ghost function Weight(s: State, bound: nat): int {
    8 * (bound - |s.enqueued|) + 7 * |s.queued| + RunningWeight(s.running)
    + (if s.main.Inline? then 6 else 0)
  }

  /** A step that does not get closer to the end: polling by `flush`, or a body touching the
      dependency tree. */
  predicate Idle(s: State, t: State) {
    && t.queued == s.queued && t.running == s.running && t.ran == s.ran
    && t.main.Inline? == s.main.Inline?
  }

  predicate WorkerProgress(s: State, a: Action, index: nat) {
    && (a.Enqueue? || a.BodyOk? || a.BodyRaise? || a.PutException? || a.Notify? || a.Die?)
    && a.w < |s.running|
    && s.running[a.w].index == index
  }

  predicate MainAction(s: State, a: Action) {
    if s.main.Inline? then a.InlineEnqueue? || a.InlineOk? || a.InlineRaise?
    else a.MainStep? || a.Interrupt?
  }

  lemma WeightOfReap(s: State, i: nat, bound: nat)
    requires s.main.Reaping? && i < |s.running| && s.running[i].phase == Dead && s.running[i].item.name !in s.ran
    ensures Weight(Reap(s, i), bound) == Weight(s, bound) - 1
  {
    RunningWeightAt(s.running, i);
  }

  lemma WeightOfStart(c: Config, s: State, i: nat, bound: nat)
    requires s.main.Scanning? && i < |s.queued|
    ensures Weight(StartItem(c, s, i), bound) == Weight(s, bound) - 1
  {
    var worker := Worker(s.queued[i], |s.ran| + |s.running| + 1, Body, false);
    RunningWeightConcat(s.running, [worker]);
    assert RunningWeight([worker]) == 6;
  }

  lemma WeightOfMainStep(c: Config, s: State, bound: nat)
    requires Enabled(s, MainStep)
    ensures var t := MainNext(c, s);
      !Terminal(t) ==> Weight(t, bound) < Weight(s, bound) || (Weight(t, bound) == Weight(s, bound) && Idle(s, t))
  {
    match s.main
    case Reaping(i) =>
      if i < |s.running| && s.running[i].phase == Dead && s.running[i].item.name !in s.ran {
        WeightOfReap(s, i, bound);
      }
    case Scanning(i) =>
      if i < |s.queued| && Startable(c, s, s.queued[i]) { WeightOfStart(c, s, i, bound); }
    case _ =>
  }

  /** Every step lowers the weight or is idle; a step of a worker or an inline body that is not
      a mere touch always lowers it. */
  lemma WeightOfStep(c: Config, s: State, a: Action, bound: nat)
    requires Enabled(s, a)
    ensures var t := Apply(c, s, a);
      !Terminal(t) ==>
        && (Weight(t, bound) < Weight(s, bound) || (Weight(t, bound) == Weight(s, bound) && Idle(s, t)))
        && (!a.MainStep? && !a.Touch? && !a.InlineTouch? ==> Weight(t, bound) < Weight(s, bound))
  {
    if a.MainStep? {
      WeightOfMainStep(c, s, bound);
    } else {
      var t := Apply(c, s, a);
      if a.BodyOk? || a.BodyRaise? || a.PutException? || a.Notify? || a.Die? {
        RunningWeightUpdate(s.running, a.w, t.running[a.w]);
        assert t.running == s.running[a.w := t.running[a.w]];
      }
    }
  }

  // ----- fair runs

  ghost predicate StepAt(c: Config, run: nat -> State, act: nat -> Action, i: nat) {
    !Terminal(run(i)) ==> Enabled(run(i), act(i)) && run(i + 1) == Apply(c, run(i), act(i))
  }

  /** A run that goes on for ever or until a terminal state. */
  ghost predicate Run(c: Config, run: nat -> State, act: nat -> Action) {
    Init(c, run(0)) && forall i: nat :: StepAt(c, run, act, i)
  }

  ghost predicate Ends(run: nat -> State) {
    exists i: nat :: Terminal(run(i))
  }

  ghost predicate MainActsAfter(run: nat -> State, act: nat -> Action, i: nat) {
    exists j: nat :: j >= i && MainAction(run(j), act(j))
  }

  /** The main thread keeps taking steps (an inline body of jobs = 1 ends or enqueues). */
  ghost predicate MainFair(run: nat -> State, act: nat -> Action) {
    forall i: nat :: MainActsAfter(run, act, i)
  }

  predicate CanProgress(worker: Worker, main: Main) {
    match worker.phase
    case Dead => false
    case Notifying => main.Waiting?
    case _ => true
  }

  ghost predicate WorkerReady(s: State, index: nat) {
    exists w :: 0 <= w < |s.running| && s.running[w].index == index && CanProgress(s.running[w], s.main)
  }

  ghost predicate ReadyAfter(run: nat -> State, index: nat, i: nat) {
    exists j: nat :: j >= i && WorkerReady(run(j), index)
  }

  ghost predicate ProgressAfter(run: nat -> State, act: nat -> Action, index: nat, i: nat) {
    exists j: nat :: j >= i && WorkerProgress(run(j), act(j), index)
  }

  /** A worker that can progress again and again eventually does: its body ends or enqueues,
      and it is not shut out of a lock that is free again and again. */
  ghost predicate WorkersFair(run: nat -> State, act: nat -> Action) {
    forall index: nat, i: nat :: (forall k: nat :: ReadyAfter(run, index, k)) ==> ProgressAfter(run, act, index, i)
  }

  lemma {:induction false} InvOnRun(c: Config, run: nat -> State, act: nat -> Action, i: nat)
    requires Run(c, run, act) && !Ends(run)
    ensures Inv(c, run(i)) && Enabled(run(i), act(i)) && run(i + 1) == Apply(c, run(i), act(i))
    ensures !Terminal(run(i)) && !Terminal(run(i + 1))
  {
    assert StepAt(c, run, act, i);
    if i > 0 {
      InvOnRun(c, run, act, i - 1);
      InvStep(c, run(i - 1), act(i - 1));
    } else {
      InvInit(c, run(0));
    }
  }

  /** From `i` on nothing gets closer to the end. */
  ghost predicate Stuck(run: nat -> State, i: nat, bound: nat) {
    forall j: nat :: j >= i ==> Weight(run(j), bound) == Weight(run(i), bound)
  }

  predicate IdleAction(a: Action) {
    a.MainStep? || a.Touch? || a.InlineTouch?
  }

  lemma IdleStep(c: Config, s: State, a: Action, t: State, bound: nat)
    requires Enabled(s, a) && t == Apply(c, s, a) && !Terminal(t) && Weight(t, bound) == Weight(s, bound)
    ensures Idle(s, t) && IdleAction(a) && (a != MainStep ==> t.main == s.main)
  {
    WeightOfStep(c, s, a, bound);
  }

  lemma StuckStep(c: Config, run: nat -> State, act: nat -> Action, i: nat, j: nat, bound: nat)
    requires Run(c, run, act) && !Ends(run) && Stuck(run, i, bound) && i <= j
    ensures Idle(run(j), run(j + 1)) && IdleAction(act(j))
    ensures act(j) != MainStep ==> run(j + 1).main == run(j).main
  {
    InvOnRun(c, run, act, j);
    assert Weight(run(j + 1), bound) == Weight(run(j), bound);
    IdleStep(c, run(j), act(j), run(j + 1), bound);
  }

  lemma {:induction false} StuckIsIdle(c: Config, run: nat -> State, act: nat -> Action, i: nat, j: nat, bound: nat)
    requires Run(c, run, act) && !Ends(run) && Stuck(run, i, bound) && i <= j
    ensures Idle(run(i), run(j))
    decreases j
  {
    if i < j {
      StuckIsIdle(c, run, act, i, j - 1, bound);
      StuckStep(c, run, act, i, j - 1, bound);
    }
  }

  /** The next step of the main thread finds it where it is now. */
  lemma {:induction false} NextMainStepBy(c: Config, run: nat -> State, act: nat -> Action, i: nat, j: nat, k: nat, bound: nat)
    returns (n: nat)
    requires Run(c, run, act) && !Ends(run) && Stuck(run, i, bound) && i <= j <= k
    requires MainAction(run(k), act(k))
    ensures j <= n && act(n) == MainStep && run(n).main == run(j).main
    decreases k - j
  {
    StuckStep(c, run, act, i, j, bound);
    if act(j) == MainStep {
      n := j;
    } else {
      n := NextMainStepBy(c, run, act, i, j + 1, k, bound);
    }
  }

  lemma NextMainStep(c: Config, run: nat -> State, act: nat -> Action, i: nat, j: nat, bound: nat)
    returns (n: nat)
    requires Run(c, run, act) && !Ends(run) && MainFair(run, act) && Stuck(run, i, bound) && i <= j
    ensures j <= n && act(n) == MainStep && run(n).main == run(j).main
    ensures !run(n).main.Inline? && run(n + 1) == MainNext(c, run(n)) && Idle(run(n), run(n + 1))
    ensures Idle(run(i), run(n)) && Enabled(run(n), MainStep) && !Terminal(run(n + 1))
  {
    assert MainActsAfter(run, act, j);
    var k: nat :| k >= j && MainAction(run(k), act(k));
    n := NextMainStepBy(c, run, act, i, j, k, bound);
    StuckStep(c, run, act, i, n, bound);
    StuckIsIdle(c, run, act, i, n, bound);
    InvOnRun(c, run, act, n);
  }

  /** How many idle steps the main thread can take before it waits. */
  function ToWaiting(s: State): nat {
    match s.main
    case Checking => |s.running| + |s.queued| + 5
    case Reaping(i) => (if i <= |s.running| then |s.running| - i else 0) + |s.queued| + 4
    case Testing => |s.queued| + 3
    case Scanning(i) => (if i <= |s.queued| then |s.queued| - i else 0) + 2
    case Deciding => 1
    case _ => 0
  }

  lemma ToWaitingDrops(c: Config, s: State)
    requires Enabled(s, MainStep) && Idle(s, MainNext(c, s)) && !Terminal(MainNext(c, s)) && !s.main.Waiting?
    ensures ToWaiting(MainNext(c, s)) < ToWaiting(s)
  {
  }

  lemma {:induction false} ReachesWaiting(c: Config, run: nat -> State, act: nat -> Action, i: nat, j: nat, bound: nat)
    returns (n: nat)
    requires Run(c, run, act) && !Ends(run) && MainFair(run, act) && Stuck(run, i, bound) && i <= j
    ensures j <= n && run(n).main.Waiting? && Idle(run(i), run(n))
    decreases ToWaiting(run(j))
  {
    n := NextMainStep(c, run, act, i, j, bound);
    if !run(n).main.Waiting? {
      assert ToWaiting(run(n)) == ToWaiting(run(j)) by {
        StuckIsIdle(c, run, act, i, j, bound);
      }
      ToWaitingDrops(c, run(n));
      n := ReachesWaiting(c, run, act, i, n + 1, bound);
    }
  }

  /** `flush` only waits while something is running. */
  ghost predicate WaitsForSomething(s: State) {
    s.main.Waiting? ==> s.running != []
  }

  lemma EntersWaiting(c: Config, s: State, a: Action)
    requires Enabled(s, a)
    ensures var t := Apply(c, s, a);
      t.main.Waiting? ==>
        || (s.main.Waiting? && |t.running| == |s.running|)
        || (s.main.Deciding? && t.running == s.running && (s.running == [] ==> s.queued != []))
  {
  }

  lemma WaitingStep(c: Config, run: nat -> State, act: nat -> Action, i: nat, j: nat)
    requires StepAt(c, run, act, i) && j == i + 1 && !Terminal(run(i))
    requires NotStranded(run(i)) && WaitsForSomething(run(i))
    ensures WaitsForSomething(run(j))
  {
    EntersWaiting(c, run(i), act(i));
  }

  lemma {:induction false} WaitingOnRun(c: Config, run: nat -> State, act: nat -> Action, i: nat)
    requires Run(c, run, act) && !Ends(run)
    requires forall k: nat :: NotStranded(run(k))
    ensures WaitsForSomething(run(i))
  {
    if i > 0 {
      WaitingOnRun(c, run, act, i - 1);
      WaitingStep(c, run, act, i - 1, i);
    }
  }

  lemma FirstDeadIsReaped(c: Config, s: State)
    requires Enabled(s, MainStep) && s.main == Reaping(0) && s.running != [] && s.running[0].phase == Dead
    ensures |MainNext(c, s).running| < |s.running|
  {
  }

  /** Polling with a dead worker listed first would reap it, which is progress. */
  lemma StuckReapsDead(c: Config, run: nat -> State, act: nat -> Action, i: nat, n: nat, bound: nat)
    requires Run(c, run, act) && !Ends(run) && Stuck(run, i, bound) && MainFair(run, act)
    requires i <= n && run(n).main.Waiting? && Idle(run(i), run(n)) && run(n).running != []
    ensures run(n).running[0].phase != Dead
  {
    var n1 := NextMainStep(c, run, act, i, n, bound);
    var n2 := NextMainStep(c, run, act, i, n1 + 1, bound);
    var n3 := NextMainStep(c, run, act, i, n2 + 1, bound);
    assert run(n2).main == Checking && run(n3).main == Reaping(0);
    if run(n3).running[0].phase == Dead { FirstDeadIsReaped(c, run(n3)); }
  }

  /** A run that is stuck would starve its first worker. */
  lemma FairIsNotStuck(c: Config, run: nat -> State, act: nat -> Action, i: nat, bound: nat)
    requires Run(c, run, act) && !Ends(run) && MainFair(run, act) && WorkersFair(run, act)
    requires forall k: nat :: NotStranded(run(k))
    ensures !Stuck(run, i, bound)
  {
    if Stuck(run, i, bound) {
      var n := ReachesWaiting(c, run, act, i, i, bound);
      WaitingOnRun(c, run, act, n);
      StuckReapsDead(c, run, act, i, n, bound);
      var first := run(n).running[0];
      forall k: nat ensures ReadyAfter(run, first.index, k) {
        var m := ReachesWaiting(c, run, act, i, if k >= i then k else i, bound);
        assert CanProgress(run(m).running[0], run(m).main);
        assert WorkerReady(run(m), first.index);
      }
      assert ProgressAfter(run, act, first.index, i);
      var j: nat :| j >= i && WorkerProgress(run(j), act(j), first.index);
      StuckStep(c, run, act, i, j, bound);
    }
  }

  /** A weight that never rises and does not stay the same for ever gets lower. */
  lemma Descends(c: Config, run: nat -> State, act: nat -> Action, i: nat, j: nat, bound: nat)
    requires Run(c, run, act) && !Ends(run) && i <= j
    ensures Weight(run(j), bound) <= Weight(run(i), bound)
    decreases j
  {
    if i < j {
      Descends(c, run, act, i, j - 1, bound);
      InvOnRun(c, run, act, j - 1);
      WeightOfStep(c, run(j - 1), act(j - 1), bound);
    }
  }

  /** State `k` is reached: the run has not ended before. */
  ghost predicate Live(run: nat -> State, k: nat) {
    forall i: nat :: i < k ==> !Terminal(run(i))
  }

  ghost predicate Fair(run: nat -> State, act: nat -> Action) {
    !Ends(run) ==> MainFair(run, act) && WorkersFair(run, act)
  }

  ghost predicate Bounded(run: nat -> State, bound: nat) {
    forall k: nat {:trigger Live(run, k)} :: Live(run, k) ==> |run(k).enqueued| <= bound
  }

  lemma {:induction false} InvBefore(c: Config, run: nat -> State, act: nat -> Action, n: nat)
    requires Run(c, run, act) && Live(run, n)
    ensures Inv(c, run(n))
  {
    if n == 0 {
      InvInit(c, run(0));
    } else {
      InvBefore(c, run, act, n - 1);
      assert StepAt(c, run, act, n - 1);
      InvStep(c, run(n - 1), act(n - 1));
    }
  }

  lemma {:induction false} TerminatesFrom(c: Config, run: nat -> State, act: nat -> Action, i: nat, bound: nat)
    requires Run(c, run, act) && Fair(run, act)
    requires forall k: nat :: NotStranded(run(k))
    requires forall k: nat :: |run(k).enqueued| <= bound
    ensures Ends(run)
    decreases Weight(run(i), bound)
  {
    if !Ends(run) {
      FairIsNotStuck(c, run, act, i, bound);
      var j: nat :| j >= i && Weight(run(j), bound) != Weight(run(i), bound);
      Descends(c, run, act, i, j, bound);
      TerminatesFrom(c, run, act, j, bound);
    }
  }

  /** Liveness: every fair run with finitely many enqueued items whose scans leave nothing over ends. */
  lemma NotStrandedTerminates(c: Config, run: nat -> State, act: nat -> Action, bound: nat)
    requires Run(c, run, act) && Fair(run, act) && Bounded(run, bound)
    requires forall k: nat {:trigger Live(run, k)} :: Live(run, k) ==> NotStranded(run(k))
    ensures Ends(run)
  {
    if !Ends(run) {
      forall k: nat ensures NotStranded(run(k)) && |run(k).enqueued| <= bound { assert Live(run, k); }
      TerminatesFrom(c, run, act, 0, bound);
    }
  }

  /** So every fair run with ranked requirements ends. */
  lemma FlushTerminates(c: Config, run: nat -> State, act: nat -> Action, bound: nat)
    requires Run(c, run, act) && Fair(run, act) && Bounded(run, bound)
    requires forall k: nat {:trigger Live(run, k)} :: Live(run, k) ==> IsRanked(c, run(k))
    ensures Ends(run)
  {
    forall k: nat | Live(run, k) ensures NotStranded(run(k)) {
      InvBefore(c, run, act, k);
      NeverWaitsForNothing(c, run(k));
    }
    NotStrandedTerminates(c, run, act, bound);
  }

  lemma {:induction false} FirstTerminal(run: nat -> State, n: nat) returns (m: nat)
    requires Terminal(run(n))
    ensures m <= n && Terminal(run(m)) && Live(run, m)
  {
    if k: nat :| k < n && Terminal(run(k)) {
      m := FirstTerminal(run, k);
    } else {
      m := n;
    }
  }

  /** Nothing raises, interrupts or repeats a name. */
  ghost predicate Undisturbed(run: nat -> State) {
    forall k: nat {:trigger Live(run, k)} :: Live(run, k) ==>
      run(k).raised == [] && !run(k).main.Interrupted? && Distinct(Names(run(k).enqueued))
  }

  lemma UndisturbedRun(c: Config, run: nat -> State, act: nat -> Action, n: nat)
    requires Run(c, run, act) && Undisturbed(run) && Live(run, n)
    ensures Inv(c, run(n)) && !run(n).main.Confused? && !run(n).main.Interrupted? && run(n).raised == []
  {
    InvBefore(c, run, act, n);
    if n > 0 {
      assert StepAt(c, run, act, n - 1) && Live(run, n - 1);
      InvBefore(c, run, act, n - 1);
      StepIsNotConfused(c, run(n - 1), act(n - 1));
    }
  }

  lemma UndisturbedEnd(c: Config, run: nat -> State, act: nat -> Action, n: nat)
    requires Run(c, run, act) && Undisturbed(run) && Live(run, n) && Terminal(run(n))
    ensures run(n).main == Finished(false)
    ensures multiset(run(n).ran) == multiset(Names(run(n).enqueued))
  {
    UndisturbedRun(c, run, act, n);
    assert !run(n).main.InlineFailed?;
    OutcomeOfInv(c, run(n));
  }

  /** `flush` has returned normally and `ran` is a permutation of everything that was ever enqueued. */
  ghost predicate RanEverything(s: State) {
    s.main == Finished(false) && multiset(s.ran) == multiset(Names(s.enqueued))
  }

  lemma EndsHavingRunEverything(c: Config, run: nat -> State, act: nat -> Action)
    requires Run(c, run, act) && Ends(run) && Undisturbed(run)
    ensures exists n: nat :: Live(run, n) && RanEverything(run(n))
  {
    var m: nat :| Terminal(run(m));
    var n := FirstTerminal(run, m);
    UndisturbedEnd(c, run, act, n);
  }

  /** When moreover no body raises, nothing interrupts the wait and names are unique, `flush`
      has run everything in the end. */
  lemma FlushRunsEverything(c: Config, run: nat -> State, act: nat -> Action, bound: nat)
    requires Run(c, run, act) && Fair(run, act) && Bounded(run, bound) && Undisturbed(run)
    requires forall k: nat {:trigger Live(run, k)} :: Live(run, k) ==> IsRanked(c, run(k))
    ensures exists n: nat :: Live(run, n) && RanEverything(run(n))
  {
    FlushTerminates(c, run, act, bound);
    EndsHavingRunEverything(c, run, act);
  }
}
