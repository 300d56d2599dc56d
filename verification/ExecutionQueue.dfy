/** The code of `ExecutionQueue`, proved to take only steps of the `Scheduler` protocol, so that
    every result about reachable states holds of what it does.

    Worker threads act between any two statements of the main thread: `Interfere` runs an
    arbitrary number of their steps.  `budget` is the number of `enqueue` calls that bodies will
    still make; nothing is assumed about it beyond its being finite. */
module ExecutionQueues {
  import opened Scheduler
  import opened SchedulerSafety

  datatype Verdict = Returned | Reraised | Waits | Raised | Stopped

  predicate WorkerEnabled(running: seq<Worker>, lockFree: bool, a: Action) {
    match a
    case Enqueue(w, _) => lockFree && w < |running| && running[w].phase == Body
    case Touch(w, _) => w < |running| && running[w].phase == Body
    case BodyOk(w) => w < |running| && running[w].phase == Body
    case BodyRaise(w) => w < |running| && running[w].phase == Body
    case PutException(w) => w < |running| && running[w].phase == Raising
    case Notify(w) => lockFree && w < |running| && running[w].phase == Notifying
    case Die(w) => w < |running| && running[w].phase == Exiting
    case _ => false
  }

  /** The same threads, and those that were dead still are. */
  ghost predicate StillDead(v: seq<Worker>, w: seq<Worker>) {
    SameWorkers(v, w) && forall k :: 0 <= k < |v| && v[k].phase == Dead ==> w[k].phase == Dead
  }

  lemma StillDeadTrans(u: seq<Worker>, v: seq<Worker>, w: seq<Worker>)
    requires StillDead(u, v) && StillDead(v, w)
    ensures StillDead(u, w)
  {
  }

  /** Every thread of `was` is still listed, under its own index, or what it ran is in `ran`. */
  ghost predicate NoneLost(was: seq<Worker>, running: seq<Worker>, ran: seq<string>) {
    forall k :: 0 <= k < |was| ==> was[k].item.name in ran || HasIndex(running, was[k].index)
  }

  ghost predicate HasIndex(running: seq<Worker>, index: nat) {
    exists j :: 0 <= j < |running| && running[j].index == index
  }

  /** No thread that was dead is listed, and what it ran is in `ran`. */
  ghost predicate DeadReaped(was: seq<Worker>, running: seq<Worker>, ran: seq<string>) {
    forall k :: 0 <= k < |was| && was[k].phase == Dead ==>
      was[k].item.name in ran && !HasIndex(running, was[k].index)
  }

  /** While reaping is at position `i`: `from` says where in `was` each listed thread is, and whoever is
      not listed has run. */
  ghost predicate Reaped(was: seq<Worker>, running: seq<Worker>, ran: seq<string>, from: seq<nat>, i: nat) {
    && |from| == |running| && i <= |running|
    && (forall j :: 0 <= j < |running| ==> from[j] < |was| && SameThread(was[from[j]], running[j]))
    && (forall j :: 0 <= j < i ==> was[from[j]].phase != Dead)
    && forall k :: 0 <= k < |was| ==> k in from || was[k].item.name in ran
  }

  ghost predicate SameThread(v: Worker, w: Worker) {
    v.item == w.item && v.index == w.index && (v.phase == Dead ==> w.phase == Dead)
  }

  lemma ReapedLater(was: seq<Worker>, before: seq<Worker>, running: seq<Worker>, ran: seq<string>, from: seq<nat>, i: nat)
    requires Reaped(was, before, ran, from, i) && StillDead(before, running)
    ensures Reaped(was, running, ran, from, i)
  {
    forall j | 0 <= j < |running| ensures SameThread(was[from[j]], running[j]) {
      assert SameThread(was[from[j]], before[j]);
    }
  }

  lemma ReapedMore(was: seq<Worker>, running: seq<Worker>, ran: seq<string>, from: seq<nat>, i: nat)
    requires Reaped(was, running, ran, from, i) && i < |running|
    ensures Reaped(was, Remove(running, i), ran + [running[i].item.name], Remove(from, i), i)
  {
    RemoveAt(running, i);
    RemoveAt(from, i);
    forall k | 0 <= k < |was| && k in from ensures k in Remove(from, i) || was[k].item.name == running[i].item.name {
      var j :| 0 <= j < |from| && from[j] == k;
      if j == i {
        assert SameThread(was[from[i]], running[i]);
      } else {
        assert Remove(from, i)[if j < i then j else j - 1] == k;
      }
    }
  }

  ghost predicate OwnIndices(workers: seq<Worker>) {
    forall k, l :: 0 <= k < l < |workers| ==> workers[k].index != workers[l].index
  }

  lemma AllReaped(was: seq<Worker>, running: seq<Worker>, ran: seq<string>, from: seq<nat>)
    requires Reaped(was, running, ran, from, |running|) && OwnIndices(was)
    ensures NoneLost(was, running, ran) && DeadReaped(was, running, ran)
  {
    forall k | 0 <= k < |was| ensures was[k].item.name in ran || HasIndex(running, was[k].index) {
      if k in from {
        var j :| 0 <= j < |from| && from[j] == k;
        assert running[j].index == was[k].index;
      }
    }
    forall k, j | 0 <= k < |was| && was[k].phase == Dead && 0 <= j < |running| ensures running[j].index != was[k].index {
      assert from[j] != k;
      assert SameThread(was[from[j]], running[j]);
    }
  }

  lemma ConflictSame(v: seq<Worker>, w: seq<Worker>, item: Item)
    requires SameWorkers(v, w)
    ensures Conflict(v, item) <==> Conflict(w, item)
  {
    if k :| 0 <= k < |v| && !(v[k].item.resources !! item.resources) { assert w[k].item == v[k].item; }
  }

  lemma StillConflicts(config: Config, v: seq<Worker>, w: seq<Worker>, queued: seq<Item>, i: nat)
    requires SameWorkers(v, w) && i <= |queued|
    ensures config.ignoreRequirements && (forall k :: 0 <= k < i ==> Conflict(v, queued[k])) ==>
              forall k :: 0 <= k < i ==> Conflict(w, queued[k])
  {
    forall k | 0 <= k < i ensures Conflict(v, queued[k]) <==> Conflict(w, queued[k]) { ConflictSame(v, w, queued[k]); }
  }

  /** The log has one more start, and that one found its requirements in what had run. */
  ghost predicate Started(config: Config, log: seq<Start>, more: seq<Start>, item: Item, ran: seq<string>) {
    && |more| == |log| + 1 && more[..|log|] == log
    && more[|log|].item == item && more[|log|].before == ran
    && (config.ignoreRequirements || forall r :: r in more[|log|].reqs ==> r in ran)
  }

  function NewWorker(item: Item, ran: seq<string>, running: seq<Worker>): Worker {
    Worker(item, |ran| + |running| + 1, Body, false)
  }

  /** At state `n` of the run the scan came to item `k` of the queue, with the same items queued and running
      and the same names in `ran` as now, and found a requirement that had not run or a resource in use. */
  ghost predicate PassedOverAt(config: Config, start: State, steps: seq<Action>, n: nat,
                               queued: seq<Item>, running: seq<Worker>, ran: seq<string>, k: nat)
    requires k < |queued|
  {
    n <= |steps| && IsRun(config, start, steps[..n]) &&
    var scan := Exec(config, start, steps[..n]);
    && scan.main == Scanning(k) && scan.queued == queued && scan.ran == ran && SameWorkers(scan.running, running)
    && ( || (!config.ignoreRequirements &&
             exists r :: queued[k].name in scan.reqs && r in scan.reqs[queued[k].name] && r !in ran)
         || exists w, x :: 0 <= w < |running| && x in running[w].item.resources && x in queued[k].resources)
  }

  /** Every queued item before `upTo` was passed over. */
  ghost predicate AllPassedOver(config: Config, start: State, steps: seq<Action>,
                                queued: seq<Item>, running: seq<Worker>, ran: seq<string>, upTo: nat)
    requires upTo <= |queued|
  {
    forall k :: 0 <= k < upTo ==> PassedOver(config, start, steps, queued, running, ran, k)
  }

  ghost predicate PassedOver(config: Config, start: State, steps: seq<Action>,
                             queued: seq<Item>, running: seq<Worker>, ran: seq<string>, k: nat)
    requires k < |queued|
  {
    exists n: nat :: PassedOverAt(config, start, steps, n, queued, running, ran, k)
  }

  lemma StillPassedOver(config: Config, start: State, steps: seq<Action>, more: seq<Action>,
                        queued: seq<Item>, running: seq<Worker>, later: seq<Worker>, ran: seq<string>, upTo: nat)
    requires upTo <= |queued| && steps <= more && SameWorkers(running, later)
    requires AllPassedOver(config, start, steps, queued, running, ran, upTo)
    ensures AllPassedOver(config, start, more, queued, later, ran, upTo)
  {
    forall k | 0 <= k < upTo ensures PassedOver(config, start, more, queued, later, ran, k) {
      assert PassedOver(config, start, steps, queued, running, ran, k);
      var n: nat :| PassedOverAt(config, start, steps, n, queued, running, ran, k);
      assert more[..n] == steps[..n];
      if w, x :| 0 <= w < |running| && x in running[w].item.resources && x in queued[k].resources {
        assert x in later[w].item.resources;
      }
      assert PassedOverAt(config, start, more, n, queued, later, ran, k);
    }
  }

  /** What the scan has just not started was passed over here. */
  lemma PassedOverHere(config: Config, start: State, steps: seq<Action>, s: State, k: nat)
    requires IsRun(config, start, steps) && Exec(config, start, steps) == s && s.main == Scanning(k) && k < |s.queued|
    requires !Startable(config, s, s.queued[k])
    ensures PassedOver(config, start, steps, s.queued, s.running, s.ran, k)
  {
    assert steps[..|steps|] == steps;
    if RequirementsRan(config, s, s.queued[k]) {
      var w :| 0 <= w < |s.running| && !(s.running[w].item.resources !! s.queued[k].resources);
      var x :| x in s.running[w].item.resources && x in s.queued[k].resources;
    } else {
      var r :| r in Reqs(s, s.queued[k]) && r !in s.ran;
    }
    assert PassedOverAt(config, start, steps, |steps|, s.queued, s.running, s.ran, k);
  }

  lemma OneMorePassedOver(config: Config, start: State, steps: seq<Action>,
                          queued: seq<Item>, running: seq<Worker>, ran: seq<string>, k: nat)
    requires k < |queued| && AllPassedOver(config, start, steps, queued, running, ran, k)
    requires PassedOver(config, start, steps, queued, running, ran, k)
    ensures AllPassedOver(config, start, steps, queued, running, ran, k + 1)
  {
  }

  class ExecutionQueue {
    const config: Config
    var queued: seq<Item>
    var ran: seq<string>
    var running: seq<Worker>
    var exceptions: seq<string>
    var reqs: map<string, set<string>>
    var budget: nat

    ghost var start: State
    ghost var steps: seq<Action>
    ghost var model: State

    /** The steps taken so far are a run of the protocol that ends in `model`. */
    ghost predicate Tracked()
      reads this
    {
      Init(config, start) && IsRun(config, start, steps) && Exec(config, start, steps) == model
    }

    /** The fields hold what the protocol says they hold. */
    ghost predicate Valid()
      reads this
    {
      && Tracked()
      && queued == model.queued && running == model.running && ran == model.ran
      && exceptions == model.exceptions && reqs == model.reqs
    }

    constructor (jobs: int, ignoreRequirements: bool, reqs: map<string, set<string>>, budget: nat)
      requires jobs >= 1
      ensures Valid() && steps == [] && model.enqueued == []
      ensures config == Config(jobs, ignoreRequirements)
    {
      config := Config(jobs, ignoreRequirements);
      queued, ran, running, exceptions := [], [], [], [];
      this.reqs := reqs;
      this.budget := budget;
      start := State(Checking, [], [], [], [], reqs, [], [], [], [], [], {});
      model := State(Checking, [], [], [], [], reqs, [], [], [], [], [], {});
      steps := [];
    }

    /** Enqueueing before `flush` has begun. */
    method Enqueue(d: Item)
      requires Valid() && steps == []
      modifies this
      ensures Valid() && steps == []
      ensures queued == old(queued) + [d] && model.enqueued == old(model.enqueued) + [d]
    {
      queued := queued + [d];
      start := start.(queued := queued, enqueued := start.enqueued + [d]);
      model := start;
    }

    /** Records one protocol step. */
    ghost method Do(a: Action)
      requires Tracked() && Enabled(model, a)
      modifies this`steps, this`model
      ensures Tracked() && model == Apply(config, old(model), a)
      ensures steps == old(steps) + [a]
    {
      RunAppend(config, start, steps, a);
      steps := steps + [a];
      model := Apply(config, model, a);
    }

    /** One step of a worker thread: a piece of its item's body or of `_Worker.run`. */
    method WorkerStep(lockFree: bool, a: Action)
      requires Valid() && (lockFree <==> model.main.Waiting?) && !Terminal(model)
      requires WorkerEnabled(running, lockFree, a)
      requires a.Enqueue? ==> budget > 0
      modifies this
      ensures Valid() && model == Apply(config, old(model), a)
      ensures budget + |queued| == old(budget + |queued|)
      ensures start == old(start)
      ensures SameWorkers(running, old(running)) && StillDead(old(running), running)
      ensures model.log == old(model.log) && old(exceptions) <= exceptions && steps == old(steps) + [a]
      ensures queued == if a.Enqueue? then old(queued) + [a.item] else old(queued)
      ensures exceptions == if a.PutException? then old(exceptions) + [old(running)[a.w].item.name] else old(exceptions)
    {
      OtherSteps(config, model, a);
      match a {
        case Enqueue(_, item) => queued, budget := queued + [item], budget - 1;
        case Touch(_, newReqs) => reqs := newReqs;
        case BodyOk(w) => running := running[w := running[w].(phase := Notifying)];
        case BodyRaise(w) => running := running[w := running[w].(phase := Raising, raised := true)];
        case PutException(w) =>
          exceptions := exceptions + [running[w].item.name];
          running := running[w := running[w].(phase := Notifying)];
        case Notify(w) => running := running[w := running[w].(phase := Exiting)];
        case Die(w) => running := running[w := running[w].(phase := Dead)];
      }
      Do(a);
    }

    /** Any number of worker steps, in any order. */
    method Interfere(lockFree: bool)
      requires Valid() && (lockFree <==> model.main.Waiting?) && !Terminal(model)
      modifies this
      ensures Valid() && start == old(start)
      ensures model.main == old(model.main) && ran == old(ran) && StillDead(old(running), running)
      ensures model.log == old(model.log) && old(exceptions) <= exceptions && old(steps) <= steps
      ensures !lockFree ==> queued == old(queued)
      ensures budget + |queued| == old(budget + |queued|)
    {
      var n: nat := *;
      while n > 0
        invariant Valid() && start == old(start)
        invariant model.main == old(model.main) && ran == old(ran) && StillDead(old(running), running)
        invariant model.log == old(model.log) && old(exceptions) <= exceptions && old(steps) <= steps
        invariant !lockFree ==> queued == old(queued)
        invariant budget + |queued| == old(budget + |queued|)
      {
        var a: Action := *;
        if WorkerEnabled(running, lockFree, a) && (a.Enqueue? ==> budget > 0) {
          ghost var before := running;
          WorkerStep(lockFree, a);
          StillDeadTrans(old(running), before, running);
        }
        n := n - 1;
      }
    }

    method IsConflict(job: Item) returns (conflict: bool)
      ensures conflict <==> Conflict(running, job)
    {
      var k := 0;
      while k < |running|
        invariant 0 <= k <= |running|
        invariant forall j :: 0 <= j < k ==> running[j].item.resources !! job.resources
      {
        var unchecked := running[k].item.resources;
        while unchecked != {}
          invariant unchecked <= running[k].item.resources
          invariant (running[k].item.resources - unchecked) !! job.resources
          decreases unchecked
        {
          var used :| used in unchecked;
          if used in job.resources { return true; }
          unchecked := unchecked - {used};
        }
        k := k + 1;
      }
      return false;
    }

    lemma IndicesAreOwn()
      requires Valid()
      ensures OwnIndices(running)
    {
      assert Reachable(config, model);
      InvReachable(config, model);
    }

    /** Takes a dead thread out. */
    method Retire(i: nat, ghost was: seq<Worker>, ghost from: seq<nat>) returns (ghost rest: seq<nat>)
      requires Valid() && model.main == Reaping(i) && i < |running| && Reaped(was, running, ran, from, i)
      requires running[i].phase == Dead && running[i].item.name !in ran
      modifies this
      ensures Valid() && start == old(start) && old(steps) <= steps && model.main == Reaping(i)
      ensures queued == old(queued) && budget == old(budget) && model.log == old(model.log)
      ensures ran == old(ran) + [old(running)[i].item.name] && exceptions == old(exceptions)
      ensures running == Remove(old(running), i) && Reaped(was, running, ran, rest, i)
    {
      ReapedMore(was, running, ran, from, i);
      ran := ran + [running[i].item.name];
      running, rest := Remove(running, i), Remove(from, i);
      Do(MainStep);
    }

    /** Looks at the thread at position `i`, and takes it out if it is dead. */
    method ReapOne(i: nat, ghost was: seq<Worker>, ghost from: seq<nat>)
      returns (confused: bool, next: nat, ghost rest: seq<nat>)
      requires Valid() && model.main == Reaping(i) && i < |running| && Reaped(was, running, ran, from, i)
      modifies this
      ensures Valid() && start == old(start) && old(steps) <= steps
      ensures queued == old(queued) && budget == old(budget) && model.log == old(model.log)
      ensures old(ran) <= ran && old(exceptions) <= exceptions
      ensures if confused then model.main.Confused? else model.main == Reaping(next)
      ensures !confused ==> Reaped(was, running, ran, rest, next) && |running| - next < old(|running|) - i
    {
      confused, next, rest := false, i, from;
      ghost var before := running;
      Interfere(false);
      ReapedLater(was, before, running, ran, from, i);
      var thread := running[i];
      if thread.phase != Dead {
        next := i + 1;
      } else if thread.item.name in ran {
        running, confused := running[..i], true;
      } else {
        rest := Retire(i, was, from);
        return;
      }
      Do(MainStep);
    }

    /** Moves every thread found dead from `running` to `ran`. */
    method FlushTerminatedThreads() returns (confused: bool)
      requires Valid() && model.main == Reaping(0)
      modifies this
      ensures Valid() && start == old(start) && old(steps) <= steps
      ensures if confused then model.main.Confused? else model.main.Testing?
      ensures queued == old(queued) && budget == old(budget) && model.log == old(model.log)
      ensures old(ran) <= ran && old(exceptions) <= exceptions
      ensures !confused ==> NoneLost(old(running), running, ran) && DeadReaped(old(running), running, ran)
    {
      ghost var was := running;
      ghost var from: seq<nat> := seq(|running|, k => k);
      IndicesAreOwn();
      var i: nat := 0;
      while i < |running|
        invariant Valid() && start == old(start) && old(steps) <= steps && model.main == Reaping(i)
        invariant queued == old(queued) && budget == old(budget) && model.log == old(model.log)
        invariant old(ran) <= ran && old(exceptions) <= exceptions
        invariant Reaped(was, running, ran, from, i)
        decreases |running| - i
      {
        confused, i, from := ReapOne(i, was, from);
        if confused { return; }
      }
      AllReaped(was, running, ran, from);
      Do(MainStep);
      return false;
    }

    /** A piece of an item's body in the main thread. */
    method InlineStep()
      requires Valid() && model.main.Inline?
      modifies this
      ensures Valid() && start == old(start) && old(steps) <= steps && model.main == old(model.main)
      ensures budget + |queued| == old(budget + |queued|) && old(queued) <= queued
      ensures ran == old(ran) && running == old(running)
      ensures model.log == old(model.log) && model.raised == old(model.raised)
    {
      var d: Item := *;
      var newReqs: map<string, set<string>> := *;
      if budget > 0 {
        queued, budget := queued + [d], budget - 1;
        Do(InlineEnqueue(d));
      }
      reqs := newReqs;
      Do(InlineTouch(newReqs));
    }

    /** The body of an item run inside the main thread (jobs = 1). */
    method RunInline() returns (ok: bool)
      requires Valid() && model.main.Inline?
      modifies this
      ensures Valid() && start == old(start) && old(steps) <= steps && model.main == old(model.main)
      ensures budget + |queued| == old(budget + |queued|) && old(queued) <= queued
      ensures ran == old(ran) && running == old(running)
      ensures model.log == old(model.log) && model.raised == old(model.raised)
    {
      ghost var item, slot := model.main.item, model.main.slot;
      var n: nat := *;
      while n > 0
        invariant Valid() && start == old(start) && old(steps) <= steps && model.main == Inline(item, slot)
        invariant budget + |queued| == old(budget + |queued|) && old(queued) <= queued
        invariant ran == old(ran) && running == old(running)
        invariant model.log == old(model.log) && model.raised == old(model.raised)
      {
        InlineStep();
        n := n - 1;
      }
      ok := *;
    }

    /** Takes queued item `i` off the queue and starts it: on a thread, or inline when jobs is 1. */
    method StartTask(i: nat)
      requires Valid() && model.main == Scanning(i) && i < |queued|
      requires Startable(config, model, queued[i])
      modifies this
      ensures Valid() && start == old(start) && old(steps) <= steps && ran == old(ran)
      ensures if config.jobs > 1 then model.main.Checking?
              else model.main.Inline? && model.main.item == old(queued[i])
      ensures budget == old(budget) && queued == Remove(old(queued), i)
      ensures running == old(running) + (if config.jobs > 1 then [NewWorker(old(queued[i]), old(ran), old(running))] else [])
      ensures Started(config, old(model.log), model.log, old(queued[i]), ran) && model.raised == old(model.raised)
    {
      if config.jobs > 1 {
        running := running + [NewWorker(queued[i], ran, running)];
      }
      queued := Remove(queued, i);
      ghost var before := model;
      Do(MainStep);
      assert model == StartItem(config, before, i);
    }

    /** Starts queued item `i`; false when it ran inline and raised. */
    method RunOneTask(i: nat) returns (ok: bool)
      requires Valid() && model.main == Scanning(i) && i < |queued|
      requires Startable(config, model, queued[i])
      modifies this
      ensures Valid() && start == old(start) && old(steps) <= steps
      ensures if ok then model.main.Checking? else model.main.InlineFailed?
      ensures budget + |queued| == old(budget + |queued|) - 1
      ensures Remove(old(queued), i) <= queued
      ensures Started(config, old(model.log), model.log, old(queued[i]), old(ran))
      ensures config.jobs > 1 ==>
                ok && ran == old(ran) && running == old(running) + [NewWorker(old(queued[i]), old(ran), old(running))]
      ensures config.jobs == 1 && ok ==> running == old(running) && ran == old(ran) + [old(queued[i]).name]
      ensures !ok ==> ran == old(ran) && model.raised == old(model.raised) + [old(queued[i]).name]
    {
      var item := queued[i];
      StartTask(i);
      if config.jobs > 1 { return true; }
      ok := RunInline();
      if ok {
        ran := ran + [item.name];
        Do(InlineOk);
      } else {
        Do(InlineRaise);
      }
    }

    predicate Satisfied(item: Item)
      requires Valid()
      reads this
      ensures Satisfied(item) <==> RequirementsRan(config, model, item)
    {
      var required := if item.name in reqs then reqs[item.name] else {};
      config.ignoreRequirements || forall r | r in required :: r in ran
    }

    /** Reads the requirements of item `i` and looks for a conflict. */
    method CanStart(i: nat) returns (can: bool)
      requires Valid() && model.main == Scanning(i) && i < |queued|
      modifies this
      ensures Valid() && start == old(start) && model.main == old(model.main)
      ensures queued == old(queued) && budget == old(budget) && ran == old(ran) && model.log == old(model.log)
      ensures SameWorkers(old(running), running) && old(steps) <= steps
      ensures can <==> Startable(config, model, queued[i])
    {
      Interfere(false);
      can := Satisfied(queued[i]);
      if can {
        var conflict := IsConflict(queued[i]);
        can := !conflict;
      }
    }

    /** Stays at item `i` if it can start, and passes it over otherwise. */
    method TryItem(i: nat) returns (can: bool)
      requires Valid() && model.main == Scanning(i) && i < |queued|
      requires config.ignoreRequirements ==> forall k :: 0 <= k < i ==> Conflict(running, queued[k])
      requires AllPassedOver(config, start, steps, queued, running, ran, i)
      modifies this
      ensures Valid() && start == old(start) && old(steps) <= steps
      ensures queued == old(queued) && budget == old(budget) && ran == old(ran) && model.log == old(model.log)
      ensures SameWorkers(old(running), running)
      ensures can ==> model.main == Scanning(i) && Startable(config, model, queued[i])
      ensures !can ==> model.main == Scanning(i + 1)
      ensures !can && config.ignoreRequirements ==> forall k :: 0 <= k <= i ==> Conflict(running, queued[k])
      ensures !can ==> AllPassedOver(config, start, steps, queued, running, ran, i + 1)
    {
      ghost var before, taken := running, steps;
      can := CanStart(i);
      StillConflicts(config, before, running, queued, i);
      StillPassedOver(config, start, taken, steps, queued, before, running, ran, i);
      if !can {
        PassedOverHere(config, start, steps, model, i);
        OneMorePassedOver(config, start, steps, queued, running, ran, i);
        taken := steps;
        Do(MainStep);
        StillPassedOver(config, start, taken, steps, queued, running, running, ran, i + 1);
      }
    }

    lemma NothingLeftToStart()
      requires Valid() && model.main.Deciding? && running == []
      ensures forall k :: 0 <= k < |queued| ==> !RequirementsRan(config, model, queued[k])
    {
      assert Reachable(config, model);
      InvReachable(config, model);
    }

    /** Scans the queue for one item to start; `outcome` is Waits when none could be. */
    method StartOne() returns (outcome: Verdict)
      requires Valid() && model.main == Scanning(0)
      modifies this
      ensures Valid() && start == old(start) && old(steps) <= steps
      ensures outcome == Waits || outcome == Returned || outcome == Raised
      ensures outcome == Waits ==> model.main.Deciding?
      ensures outcome == Returned ==> model.main.Checking? && budget + |queued| < old(budget + |queued|)
      ensures outcome == Raised ==> model.main.InlineFailed?
      ensures outcome == Waits ==> queued == old(queued) && ran == old(ran) && model.log == old(model.log)
      ensures outcome == Waits && running == [] ==>
                forall k :: 0 <= k < |queued| ==> !RequirementsRan(config, model, queued[k])
      ensures outcome == Waits && config.ignoreRequirements ==>
                forall k :: 0 <= k < |queued| ==> Conflict(running, queued[k])
      ensures outcome == Waits ==>
                AllPassedOver(config, start, steps, queued, running, ran, |queued|)
      ensures outcome != Waits ==>
                exists i :: 0 <= i < |old(queued)| && !Conflict(old(running), old(queued)[i]) &&
                  Started(config, old(model.log), model.log, old(queued)[i], old(ran))
    {
      var i: nat := 0;
      while i < |queued|
        invariant Valid() && start == old(start) && old(steps) <= steps && model.main == Scanning(i) && i <= |queued|
        invariant budget + |queued| == old(budget + |queued|)
        invariant queued == old(queued) && ran == old(ran) && model.log == old(model.log)
        invariant SameWorkers(old(running), running)
        invariant config.ignoreRequirements ==> forall k :: 0 <= k < i ==> Conflict(running, queued[k])
        invariant AllPassedOver(config, start, steps, queued, running, ran, i)
        decreases |queued| - i
      {
        var can := TryItem(i);
        if can {
          ConflictSame(old(running), running, queued[i]);
          var ok := RunOneTask(i);
          return if ok then Returned else Raised;
        }
        i := i + 1;
      }
      ghost var taken := steps;
      Do(MainStep);
      StillPassedOver(config, start, taken, steps, queued, running, running, ran, |queued|);
      if running == [] { NothingLeftToStart(); }
      return Waits;
    }

    /** The top of the inner loop: drops the queue after a failure, then reaps. */
    method CheckExceptions() returns (confused: bool)
      requires Valid() && model.main.Checking?
      modifies this
      ensures Valid() && start == old(start) && old(steps) <= steps
      ensures if confused then model.main.Confused? else model.main.Testing?
      ensures budget + |queued| <= old(budget + |queued|)
      ensures queued == old(queued) || (queued == [] && exceptions != [])
      ensures old(exceptions) != [] ==> queued == []
      ensures old(exceptions) <= exceptions && old(ran) <= ran && model.log == old(model.log)
    {
      Interfere(false);
      if exceptions != [] { queued := []; }
      Do(MainStep);
      confused := FlushTerminatedThreads();
    }

    /** The rest of the inner loop's body; `outcome` is Waits when the loop is left. */
    method StartIfPossible() returns (outcome: Verdict)
      requires Valid() && model.main.Testing?
      modifies this
      ensures Valid() && start == old(start) && old(steps) <= steps
      ensures outcome == Waits || outcome == Returned || outcome == Raised
      ensures outcome == Waits ==> model.main.Deciding?
      ensures outcome == Returned ==> model.main.Checking? && budget + |queued| < old(budget + |queued|)
      ensures outcome == Raised ==> model.main.InlineFailed?
      ensures outcome == Waits && |running| < config.jobs ==>
                AllPassedOver(config, start, steps, queued, running, ran, |queued|)
    {
      Interfere(false);
      if (queued == [] && running == []) || config.jobs == |running| {
        Do(MainStep);
        return Waits;
      }
      Do(MainStep);
      outcome := StartOne();
    }

    method Decide() returns (verdict: Verdict)
      requires Valid() && model.main.Deciding?
      modifies this
      ensures Valid() && start == old(start) && old(steps) <= steps
      ensures verdict == Waits || verdict == Returned || verdict == Reraised
      ensures verdict == Waits ==> model.main.Waiting?
      ensures verdict == Returned ==> model.main == Finished(false)
      ensures verdict == Reraised ==> model.main == Finished(true)
      ensures queued == old(queued) && ran == old(ran) && SameWorkers(old(running), running)
    {
      Interfere(false);
      Do(MainStep);
      if queued == [] && running == [] {
        return if exceptions == [] then Returned else Reraised;
      }
      return Waits;
    }

    /** One pass of the outer loop of `flush`: everything up to the wait or the end. */
    method FlushPass() returns (verdict: Verdict)
      requires Valid() && model.main.Checking?
      modifies this
      ensures Valid() && start == old(start) && old(steps) <= steps
      ensures verdict == Waits ==> model.main.Waiting?
      ensures verdict == Returned ==> model.main == Finished(false)
      ensures verdict == Reraised ==> model.main == Finished(true)
      ensures verdict == Raised ==> model.main.Confused? || model.main.InlineFailed?
      ensures verdict != Stopped
      ensures verdict == Waits && |running| < config.jobs ==>
                AllPassedOver(config, start, steps, queued, running, ran, |queued|)
    {
      while true
        invariant Valid() && start == old(start) && old(steps) <= steps && model.main.Checking?
        decreases budget + |queued|
      {
        var confused := CheckExceptions();
        if confused { return Raised; }
        var outcome := StartIfPossible();
        if outcome == Raised { return Raised; }
        if outcome == Waits { break; }
      }
      ghost var taken, listed := steps, running;
      verdict := Decide();
      if |listed| < config.jobs {
        StillPassedOver(config, start, taken, steps, queued, listed, running, ran, |queued|);
      }
    }

    /** `flush`, for as long as it takes or until `polls` waits are over.  When it returns it has
        run exactly what was enqueued, and it re-raises exactly when some body raised. */
    method Flush(polls: nat) returns (verdict: Verdict)
      requires Valid() && steps == []
      modifies this
      ensures Valid() && Reachable(config, model)
      ensures verdict == Returned ==> model.raised == [] && multiset(ran) == multiset(Names(model.enqueued))
      ensures verdict == Reraised ==> model.raised != []
      ensures verdict == Returned || verdict == Reraised ==> queued == [] && running == []
      ensures verdict == Raised && config.jobs > 1 ==> !Distinct(Names(model.enqueued))
      ensures verdict == Waits ==> model.main.Waiting?
      ensures verdict == Waits && |running| < config.jobs ==>
                AllPassedOver(config, start, steps, queued, running, ran, |queued|)
    {
      verdict := FlushPass();
      var n := 0;
      while n < polls && verdict == Waits
        invariant Valid()
        invariant verdict == Waits ==> model.main.Waiting?
        invariant verdict == Returned ==> model.main == Finished(false)
        invariant verdict == Reraised ==> model.main == Finished(true)
        invariant verdict == Raised ==> model.main.Confused? || model.main.InlineFailed?
        invariant verdict == Waits && |running| < config.jobs ==>
                    AllPassedOver(config, start, steps, queued, running, ran, |queued|)
      {
        Interfere(true);
        var keyboardInterrupt: bool := *;
        if keyboardInterrupt {
          Do(Interrupt);
          verdict := Stopped;
        } else {
          Do(MainStep);
          verdict := FlushPass();
        }
        n := n + 1;
      }
      assert Reachable(config, model);
      if verdict == Returned || verdict == Reraised { FlushOutcome(config, model); }
      if model.main.Confused? { ConfusedOnlyByRepeats(config, model); }
      if verdict == Raised { InvReachable(config, model); }
    }
  }
}
