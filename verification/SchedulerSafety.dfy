/** What every interleaving of `ExecutionQueue` keeps. */
module SchedulerSafety {
  import opened Scheduler

  lemma RemoveAt<T>(s: seq<T>, i: nat)
    requires i < |s|
    ensures |Remove(s, i)| == |s| - 1
    ensures forall k :: 0 <= k < |s| - 1 ==> Remove(s, i)[k] == s[if k < i then k else k + 1]
    ensures forall k :: 0 <= k < |s| && k != i ==> s[k] == Remove(s, i)[if k < i then k else k - 1]
  {
  }

  // ----- the job limit and resources

  ghost predicate Disjoint(running: seq<Worker>) {
    forall i, j :: 0 <= i < j < |running| ==> running[i].item.resources !! running[j].item.resources
  }

  ghost predicate WithinLimits(c: Config, s: State) {
    && c.jobs >= 1
    && |s.running| <= c.jobs
    && (s.main.Scanning? ==> |s.running| < c.jobs)
    && (c.jobs == 1 ==> s.running == [])
    && (s.main.Inline? || s.main.InlineFailed? ==> c.jobs == 1)
    && Disjoint(s.running)
  }

  /** The workers after a step: one gone, one added, a prefix, or the same ones in new phases. */
  ghost predicate SameWorkers(v: seq<Worker>, w: seq<Worker>) {
    |v| == |w| && forall k :: 0 <= k < |v| ==>
      v[k].item == w[k].item && v[k].index == w[k].index
  }

  lemma OtherSteps(c: Config, s: State, a: Action)
    requires Enabled(s, a) && !a.MainStep?
    ensures SameWorkers(Apply(c, s, a).running, s.running)
  {
  }

  lemma WithinLimitsKept(c: Config, s: State, a: Action)
    requires WithinLimits(c, s) && Enabled(s, a)
    ensures WithinLimits(c, Apply(c, s, a))
  {
    if !a.MainStep? {
      OtherSteps(c, s, a);
    } else if s.main.Reaping? && s.main.i < |s.running| {
      RemoveAt(s.running, s.main.i);
    }
  }

  // ----- starts, worker indices and the order of `ran`

  function Inlined(s: State): nat {
    if s.main.Inline? || s.main.InlineFailed? then 1 else 0
  }

  ghost predicate Logged(log: seq<Start>, worker: Worker) {
    1 <= worker.index <= |log| && log[worker.index - 1].item == worker.item
  }

  ghost predicate StartsCounted(c: Config, s: State) {
    && (!s.main.Confused? ==> |s.log| == |s.ran| + |s.running| + Inlined(s))
    && (c.jobs > 1 ==> forall k :: 0 <= k < |s.log| ==> s.log[k].index == k + 1)
    && (forall i :: 0 <= i < |s.running| ==> Logged(s.log, s.running[i]))
    && (forall i, j :: 0 <= i < j < |s.running| ==> s.running[i].index != s.running[j].index)
    && (s.main.Inline? ==> s.main.slot < |s.log| && s.log[s.main.slot].item == s.main.item)
  }

  lemma StartsCountedByReap(c: Config, s: State, i: nat)
    requires StartsCounted(c, s) && s.main.Reaping? && i < |s.running|
    ensures StartsCounted(c, Reap(s, i))
  {
    var t := Reap(s, i);
    assert t.log == s.log;
    if s.running[i].item.name in s.ran {
      assert t.running == s.running[..i];
    } else {
      RemoveAt(s.running, i);
      forall j, k | 0 <= j < k < |t.running| ensures t.running[j].index != t.running[k].index {
        assert t.running[j] == s.running[if j < i then j else j + 1];
        assert t.running[k] == s.running[if k < i then k else k + 1];
      }
    }
  }

  lemma StartsCountedByStart(c: Config, s: State, i: nat)
    requires StartsCounted(c, s) && s.main.Scanning? && i < |s.queued|
    requires c.jobs <= 1 ==> s.running == []
    ensures StartsCounted(c, StartItem(c, s, i))
  {
    var t := StartItem(c, s, i);
    assert forall k :: 0 <= k < |s.log| ==> t.log[k] == s.log[k];
  }

  /** Steps that start nothing and reap nothing. */
  lemma StartsCountedSame(c: Config, s: State, t: State)
    requires StartsCounted(c, s) && SameWorkers(t.running, s.running) && t.log == s.log
    requires !s.main.Confused? && |t.ran| + Inlined(t) == |s.ran| + Inlined(s)
    requires t.main.Inline? ==> t.main == s.main
    ensures StartsCounted(c, t)
  {
    assert forall i :: 0 <= i < |t.running| ==> Logged(s.log, s.running[i]);
  }

  lemma StartsCountedKept(c: Config, s: State, a: Action)
    requires StartsCounted(c, s) && WithinLimits(c, s) && Enabled(s, a)
    ensures StartsCounted(c, Apply(c, s, a))
  {
    var t := Apply(c, s, a);
    if !a.MainStep? {
      OtherSteps(c, s, a);
      StartsCountedSame(c, s, t);
    } else if s.main.Reaping? && s.main.i < |s.running| && s.running[s.main.i].phase == Dead {
      StartsCountedByReap(c, s, s.main.i);
    } else if s.main.Scanning? && s.main.i < |s.queued| && Startable(c, s, s.queued[s.main.i]) {
      StartsCountedByStart(c, s, s.main.i);
    } else {
      StartsCountedSame(c, s, t);
    }
  }

  /** Every start saw its requirements in what had run, and that is a prefix of what has run now. */
  ghost predicate StartsServed(c: Config, s: State) {
    forall k :: 0 <= k < |s.log| ==>
      && s.log[k].before <= s.ran
      && (!c.ignoreRequirements ==> forall r :: r in s.log[k].reqs ==> r in s.log[k].before)
  }

  ghost predicate RanStarted(s: State) {
    && |s.origin| == |s.ran|
    && forall j :: 0 <= j < |s.ran| ==>
         && 0 <= s.origin[j] < |s.log|
         && s.log[s.origin[j]].item.name == s.ran[j]
         && |s.log[s.origin[j]].before| <= j
  }

  /** What the order depends on, and nothing more was logged or has run. */
  lemma OrderSame(c: Config, s: State, t: State)
    requires StartsServed(c, s) && RanStarted(s)
    requires t.log == s.log && t.ran == s.ran && t.origin == s.origin
    ensures StartsServed(c, t) && RanStarted(t)
  {
  }

  lemma OrderByRan(c: Config, s: State, slot: nat, t: State)
    requires StartsServed(c, s) && RanStarted(s)
    requires slot < |s.log| && |s.log[slot].before| <= |s.ran|
    requires t.log == s.log && t.ran == s.ran + [s.log[slot].item.name] && t.origin == s.origin + [slot]
    ensures StartsServed(c, t) && RanStarted(t)
  {
    assert forall k :: 0 <= k < |s.log| ==> s.log[k].before <= s.ran <= t.ran;
  }

  lemma OrderByStart(c: Config, s: State, i: nat)
    requires StartsServed(c, s) && RanStarted(s) && i < |s.queued| && RequirementsRan(c, s, s.queued[i])
    ensures StartsServed(c, StartItem(c, s, i)) && RanStarted(StartItem(c, s, i))
  {
    var t := StartItem(c, s, i);
    assert forall k :: 0 <= k < |s.log| ==> t.log[k] == s.log[k];
  }

  lemma OrderByMain(c: Config, s: State)
    requires StartsCounted(c, s) && StartsServed(c, s) && RanStarted(s) && Enabled(s, MainStep)
    ensures StartsServed(c, MainNext(c, s)) && RanStarted(MainNext(c, s))
  {
    var t := MainNext(c, s);
    if s.main.Reaping? && s.main.i < |s.running| {
      var worker := s.running[s.main.i];
      assert Logged(s.log, worker);
      if t.ran == s.ran { OrderSame(c, s, t); } else { OrderByRan(c, s, worker.index - 1, t); }
    } else if s.main.Scanning? && s.main.i < |s.queued| && Startable(c, s, s.queued[s.main.i]) {
      OrderByStart(c, s, s.main.i);
    } else {
      OrderSame(c, s, t);
    }
  }

  lemma OrderKept(c: Config, s: State, a: Action)
    requires StartsCounted(c, s) && StartsServed(c, s) && RanStarted(s) && Enabled(s, a)
    ensures StartsServed(c, Apply(c, s, a)) && RanStarted(Apply(c, s, a))
  {
    var t := Apply(c, s, a);
    if a.MainStep? {
      OrderByMain(c, s);
    } else if a.InlineOk? {
      OrderByRan(c, s, s.main.slot, t);
    } else {
      OrderSame(c, s, t);
    }
  }

  // ----- conservation

  function InlineNames(s: State): multiset<string> {
    if s.main.Inline? || s.main.InlineFailed? then multiset{s.main.item.name} else multiset{}
  }

  ghost predicate Conserved(s: State) {
    !s.main.Confused? ==>
      multiset(Names(s.enqueued)) ==
        multiset(Names(s.queued)) + multiset(WorkerNames(s.running)) + multiset(s.ran)
        + multiset(Names(s.dropped)) + InlineNames(s)
  }

  lemma NamesAppend(xs: seq<Item>, ys: seq<Item>)
    ensures multiset(Names(xs + ys)) == multiset(Names(xs)) + multiset(Names(ys))
  {
    assert Names(xs + ys) == Names(xs) + Names(ys);
  }

  lemma NamesRemove(xs: seq<Item>, i: nat)
    requires i < |xs|
    ensures multiset(Names(xs)) == multiset(Names(Remove(xs, i))) + multiset{xs[i].name}
  {
    assert Names(xs) == Names(xs[..i]) + [xs[i].name] + Names(xs[i + 1..]);
    assert Names(Remove(xs, i)) == Names(xs[..i]) + Names(xs[i + 1..]);
  }

  lemma WorkerNamesRemove(ws: seq<Worker>, i: nat)
    requires i < |ws|
    ensures multiset(WorkerNames(ws)) == multiset(WorkerNames(Remove(ws, i))) + multiset{ws[i].item.name}
  {
    assert WorkerNames(ws) == WorkerNames(ws[..i]) + [ws[i].item.name] + WorkerNames(ws[i + 1..]);
    assert WorkerNames(Remove(ws, i)) == WorkerNames(ws[..i]) + WorkerNames(ws[i + 1..]);
  }

  lemma ConservedByReap(s: State, i: nat)
    requires Conserved(s) && s.main.Reaping? && i < |s.running|
    ensures Conserved(Reap(s, i))
  {
    WorkerNamesRemove(s.running, i);
  }

  lemma ConservedByStart(c: Config, s: State, i: nat)
    requires Conserved(s) && s.main.Scanning? && i < |s.queued|
    ensures Conserved(StartItem(c, s, i))
  {
    NamesRemove(s.queued, i);
    var t := StartItem(c, s, i);
    if c.jobs > 1 {
      assert WorkerNames(t.running) == WorkerNames(s.running) + [s.queued[i].name];
    }
  }

  lemma ConservedByCheck(c: Config, s: State)
    requires Conserved(s) && s.main.Checking?
    ensures Conserved(MainNext(c, s))
  {
    NamesAppend(s.dropped, s.queued);
  }

  lemma ConservedByEnqueue(s: State, item: Item)
    requires Conserved(s) && !s.main.Confused?
    ensures Conserved(s.(queued := s.queued + [item], enqueued := s.enqueued + [item]))
  {
    NamesAppend(s.queued, [item]);
    NamesAppend(s.enqueued, [item]);
  }

  lemma ConservedBySame(s: State, t: State)
    requires Conserved(s) && !s.main.Confused? && SameWorkers(t.running, s.running)
    requires t.queued == s.queued && t.enqueued == s.enqueued && t.dropped == s.dropped
    requires multiset(t.ran) + InlineNames(t) == multiset(s.ran) + InlineNames(s)
    ensures Conserved(t)
  {
    assert WorkerNames(t.running) == WorkerNames(s.running);
    var rest := multiset(Names(s.queued)) + multiset(WorkerNames(s.running));
    var d := multiset(Names(s.dropped));
    assert rest + multiset(t.ran) + d + InlineNames(t) == rest + (multiset(t.ran) + InlineNames(t)) + d;
    assert rest + multiset(s.ran) + d + InlineNames(s) == rest + (multiset(s.ran) + InlineNames(s)) + d;
  }

  /** The main thread's steps that move nothing. */
  lemma ConservedByMove(c: Config, s: State, t: State)
    requires Conserved(s) && Enabled(s, MainStep) && t == s.(main := t.main)
    requires !t.main.Inline? && !t.main.InlineFailed?
    ensures Conserved(t)
  {
    assert InlineNames(t) == InlineNames(s) == multiset{};
  }

  lemma ConservedByMain(c: Config, s: State, t: State)
    requires Conserved(s) && Enabled(s, MainStep) && t == MainNext(c, s)
    ensures Conserved(t)
  {
    if s.main.Checking? {
      ConservedByCheck(c, s);
      assert t == MainNext(c, s);
    } else if t == s.(main := t.main) && !t.main.Inline? {
      ConservedByMove(c, s, t);
    } else if s.main.Reaping? {
      ConservedByReap(s, s.main.i);
      assert t == Reap(s, s.main.i);
    } else {
      ConservedByStart(c, s, s.main.i);
      assert t == StartItem(c, s, s.main.i);
    }
  }

  lemma ConservedKept(c: Config, s: State, a: Action)
    requires Conserved(s) && Enabled(s, a)
    ensures Conserved(Apply(c, s, a))
  {
    if a.Enqueue? || a.InlineEnqueue? {
      ConservedByEnqueue(s, a.item);
    } else if a.MainStep? {
      ConservedByMain(c, s, Apply(c, s, a));
    } else {
      OtherSteps(c, s, a);
      ConservedBySame(s, Apply(c, s, a));
    }
  }

  // ----- failures

  /** The part of the loop body after the exception check, with the lock still held. */
  predicate PastCheck(s: State) {
    s.main.Reaping? || s.main.Testing? || s.main.Scanning? || s.main.Deciding?
  }

  predicate Failed(w: Worker) {
    w.raised && (w.phase == Exiting || w.phase == Dead)
  }

  ghost predicate FailuresReported(s: State) {
    && (forall i :: 0 <= i < |s.running| ==>
          && (s.running[i].phase == Body ==> !s.running[i].raised)
          && (s.running[i].phase == Raising ==> s.running[i].raised)
          && (s.running[i].raised ==> s.raised != [])
          && (s.running[i].raised && s.running[i].phase != Raising ==> s.running[i].item.name in s.exceptions))
    && (s.tainted != {} ==> s.exceptions != [])
    && (s.dropped != [] ==> s.exceptions != [])
    && (s.exceptions != [] ==> s.raised != [])
    && (s.main.InlineFailed? ==> s.main.item.name in s.raised)
  }

  /** Once a failure can have been reaped, the queue stays empty until the lock is released. */
  ghost predicate QueueFlushed(s: State) {
    PastCheck(s) ==>
      (s.tainted != {} || s.dropped != [] || exists i :: 0 <= i < |s.running| && Failed(s.running[i])) ==>
        s.queued == []
  }

  lemma FailuresByReap(s: State, i: nat)
    requires FailuresReported(s) && QueueFlushed(s) && s.main.Reaping?
    requires i < |s.running| && s.running[i].phase == Dead && s.running[i].item.name !in s.ran
    ensures FailuresReported(Reap(s, i)) && QueueFlushed(Reap(s, i))
  {
    RemoveAt(s.running, i);
    assert s.running[i].raised ==> Failed(s.running[i]);
  }

  lemma FailuresByStart(c: Config, s: State, i: nat)
    requires FailuresReported(s) && s.main.Scanning? && i < |s.queued|
    ensures FailuresReported(StartItem(c, s, i)) && QueueFlushed(StartItem(c, s, i))
  {
  }

  lemma FailuresByMain(c: Config, s: State)
    requires FailuresReported(s) && QueueFlushed(s) && Enabled(s, MainStep)
    ensures !MainNext(c, s).main.Confused? ==> FailuresReported(MainNext(c, s))
    ensures QueueFlushed(MainNext(c, s))
  {
    match s.main
    case Reaping(i) =>
      if i < |s.running| && s.running[i].phase == Dead && s.running[i].item.name !in s.ran {
        FailuresByReap(s, i);
      }
    case Scanning(i) => if i < |s.queued| && Startable(c, s, s.queued[i]) { FailuresByStart(c, s, i); }
    case _ =>
  }

  /** A worker that goes on in its body reports nothing. */
  lemma FailuresBySame(s: State, t: State)
    requires FailuresReported(s) && QueueFlushed(s) && t.running == s.running && t.main == s.main
    requires t.tainted == s.tainted && t.dropped == s.dropped && t.exceptions == s.exceptions && s.raised <= t.raised
    requires PastCheck(s) ==> t.queued == s.queued
    ensures FailuresReported(t) && QueueFlushed(t)
  {
  }

  lemma FailuresByWorker(c: Config, s: State, a: Action)
    requires FailuresReported(s) && QueueFlushed(s) && Enabled(s, a)
    requires a.BodyOk? || a.BodyRaise? || a.PutException? || a.Notify? || a.Die?
    ensures FailuresReported(Apply(c, s, a)) && QueueFlushed(Apply(c, s, a))
  {
    var t := Apply(c, s, a);
    assert t.main == s.main && t.queued == s.queued && t.dropped == s.dropped && t.tainted == s.tainted;
    assert forall i :: 0 <= i < |s.running| && i != a.w ==> t.running[i] == s.running[i];
    assert s.raised <= t.raised && s.exceptions <= t.exceptions;
    if PastCheck(t) && exists i :: 0 <= i < |t.running| && Failed(t.running[i]) {
      var i :| 0 <= i < |t.running| && Failed(t.running[i]);
      assert Failed(s.running[i]);
    }
  }

  lemma FailuresKept(c: Config, s: State, a: Action)
    requires FailuresReported(s) && QueueFlushed(s) && Enabled(s, a)
    ensures !Apply(c, s, a).main.Confused? ==> FailuresReported(Apply(c, s, a))
    ensures QueueFlushed(Apply(c, s, a))
  {
    var t := Apply(c, s, a);
    match a
    case MainStep => FailuresByMain(c, s);
    case Enqueue(_, _) => FailuresBySame(s, t);
    case Touch(_, _) => FailuresBySame(s, t);
    case InlineEnqueue(_) => FailuresBySame(s, t);
    case InlineTouch(_) => FailuresBySame(s, t);
    case Interrupt =>
    case InlineOk =>
    case InlineRaise =>
    case _ => FailuresByWorker(c, s, a);
  }

  predicate RaisedIn(running: seq<Worker>, name: string) {
    exists k :: 0 <= k < |running| && running[k].raised && running[k].item.name == name
  }

  /** Every raise belongs to a worker still listed, to a reaped name, or to the main thread. */
  ghost predicate RaisesTracked(s: State) {
    && s.tainted <= (set name | name in s.ran)
    && forall f :: f in s.raised ==>
         RaisedIn(s.running, f) || f in s.tainted || (s.main.InlineFailed? && s.main.item.name == f)
  }

  /** A raise that was listed stays listed where every worker that raised does. */
  lemma StillRaised(v: seq<Worker>, w: seq<Worker>, f: string)
    requires RaisedIn(v, f) && |v| <= |w|
    requires forall k :: 0 <= k < |v| ==> w[k].item == v[k].item && (v[k].raised ==> w[k].raised)
    ensures RaisedIn(w, f)
  {
    var k :| 0 <= k < |v| && v[k].raised && v[k].item.name == f;
    assert w[k].raised && w[k].item.name == f;
  }

  lemma RaisesByReap(s: State, i: nat, t: State)
    requires RaisesTracked(s) && s.main.Reaping? && i < |s.running| && t == Reap(s, i) && !t.main.Confused?
    ensures RaisesTracked(t)
  {
    RemoveAt(s.running, i);
    forall f | f in s.raised && RaisedIn(s.running, f)
      ensures RaisedIn(t.running, f) || f in t.tainted
    {
      var k :| 0 <= k < |s.running| && s.running[k].raised && s.running[k].item.name == f;
      if k != i { assert t.running[if k < i then k else k - 1] == s.running[k]; }
    }
  }

  lemma RaisesByOther(s: State, t: State)
    requires RaisesTracked(s) && |s.running| <= |t.running|
    requires forall k :: 0 <= k < |s.running| ==>
      t.running[k].item == s.running[k].item && (s.running[k].raised ==> t.running[k].raised)
    requires t.tainted == s.tainted && s.ran <= t.ran && !s.main.InlineFailed?
    requires forall f :: f in t.raised ==>
      f in s.raised || RaisedIn(t.running, f) || (t.main.InlineFailed? && t.main.item.name == f)
    ensures RaisesTracked(t)
  {
    forall f | RaisedIn(s.running, f) ensures RaisedIn(t.running, f) { StillRaised(s.running, t.running, f); }
  }

  lemma RaisesTrackedKept(c: Config, s: State, a: Action)
    requires RaisesTracked(s) && Enabled(s, a)
    ensures !Apply(c, s, a).main.Confused? ==> RaisesTracked(Apply(c, s, a))
  {
    var t := Apply(c, s, a);
    if a.MainStep? && s.main.Reaping? && s.main.i < |s.running| && s.running[s.main.i].phase == Dead {
      if !t.main.Confused? { RaisesByReap(s, s.main.i, t); }
    } else {
      if a.BodyRaise? { assert t.running[a.w].raised; }
      RaisesByOther(s, t);
    }
  }

  ghost predicate OutcomeKnown(s: State) {
    s.main.Finished? ==>
      s.queued == [] && s.running == [] && (s.main.reraised <==> s.exceptions != [])
  }

  // ----- nothing startable is passed over

  /** While nothing runs, every item the scan has passed still waits for a requirement. */
  ghost predicate ScanComplete(c: Config, s: State) {
    s.running == [] ==>
      && (s.main.Scanning? ==>
            && s.main.i <= |s.queued|
            && forall k :: 0 <= k < s.main.i ==> !RequirementsRan(c, s, s.queued[k]))
      && (s.main.Deciding? ==>
            forall k :: 0 <= k < |s.queued| ==> !RequirementsRan(c, s, s.queued[k]))
  }

  lemma ScanCompleteKept(c: Config, s: State, a: Action)
    requires WithinLimits(c, s) && ScanComplete(c, s) && Enabled(s, a)
    ensures ScanComplete(c, Apply(c, s, a))
  {
  }

  // ----- all of it together

  ghost predicate ProgressInv(c: Config, s: State) {
    && WithinLimits(c, s)
    && StartsCounted(c, s)
    && StartsServed(c, s)
    && RanStarted(s)
    && Conserved(s)
    && ScanComplete(c, s)
  }

  ghost predicate FailureInv(s: State) {
    && (!s.main.Confused? ==> FailuresReported(s) && RaisesTracked(s))
    && QueueFlushed(s)
    && OutcomeKnown(s)
  }

  ghost predicate Inv(c: Config, s: State) {
    ProgressInv(c, s) && FailureInv(s)
  }

  lemma InvInit(c: Config, s: State)
    requires Init(c, s)
    ensures Inv(c, s)
  {
  }

  lemma ProgressInvStep(c: Config, s: State, a: Action, t: State)
    requires ProgressInv(c, s) && Enabled(s, a) && t == Apply(c, s, a)
    ensures ProgressInv(c, t)
  {
    WithinLimitsKept(c, s, a);
    StartsCountedKept(c, s, a);
    OrderKept(c, s, a);
    ConservedKept(c, s, a);
    ScanCompleteKept(c, s, a);
  }

  lemma OutcomeKnownStep(c: Config, s: State, a: Action)
    requires OutcomeKnown(s) && Enabled(s, a)
    ensures OutcomeKnown(Apply(c, s, a))
  {
  }

  lemma FailureInvStep(c: Config, s: State, a: Action, t: State)
    requires FailureInv(s) && Enabled(s, a) && t == Apply(c, s, a)
    ensures FailureInv(t)
  {
    FailuresKept(c, s, a);
    RaisesTrackedKept(c, s, a);
    OutcomeKnownStep(c, s, a);
  }

  lemma InvStep(c: Config, s: State, a: Action)
    requires Inv(c, s) && Enabled(s, a)
    ensures Inv(c, Apply(c, s, a))
  {
    ProgressInvStep(c, s, a, Apply(c, s, a));
    FailureInvStep(c, s, a, Apply(c, s, a));
  }

  lemma {:induction false} InvRun(c: Config, s: State, actions: seq<Action>)
    requires Inv(c, s) && IsRun(c, s, actions)
    ensures Inv(c, Exec(c, s, actions))
    decreases |actions|
  {
    if actions != [] {
      InvStep(c, s, actions[0]);
      InvRun(c, Apply(c, s, actions[0]), actions[1..]);
    }
  }

  lemma InvReachable(c: Config, s: State)
    requires Reachable(c, s)
    ensures Inv(c, s)
  {
    var s0, actions :| Init(c, s0) && IsRun(c, s0, actions) && Exec(c, s0, actions) == s;
    InvInit(c, s0);
    InvRun(c, s0, actions);
  }

  lemma {:induction false} RunAppend(c: Config, s: State, actions: seq<Action>, a: Action)
    requires IsRun(c, s, actions) && Enabled(Exec(c, s, actions), a)
    ensures IsRun(c, s, actions + [a])
    ensures Exec(c, s, actions + [a]) == Apply(c, Exec(c, s, actions), a)
    decreases |actions|
  {
    if actions == [] {
      assert [a][1..] == [];
      assert actions + [a] == [a];
    } else {
      assert (actions + [a])[1..] == actions[1..] + [a];
      RunAppend(c, Apply(c, s, actions[0]), actions[1..], a);
    }
  }

  lemma ReachableStep(c: Config, s: State, a: Action)
    requires Reachable(c, s) && Enabled(s, a)
    ensures Reachable(c, Apply(c, s, a))
  {
    var s0, actions :| Init(c, s0) && IsRun(c, s0, actions) && Exec(c, s0, actions) == s;
    RunAppend(c, s0, actions, a);
  }

  // ----- the main results

  predicate Distinct(names: seq<string>) {
    forall i, j :: 0 <= i < j < |names| ==> names[i] != names[j]
  }

  lemma DistinctOnce(names: seq<string>, x: string)
    requires Distinct(names)
    ensures multiset(names)[x] <= 1
  {
    if names != [] {
      assert names == [names[0]] + names[1..];
      assert multiset(names) == multiset{names[0]} + multiset(names[1..]);
      DistinctOnce(names[1..], x);
      if x == names[0] { assert x !in names[1..]; }
    }
  }

  /** With unique names an item is in only one place at a time. */
  lemma OnePlace(c: Config, s: State, w: nat)
    requires Inv(c, s) && !s.main.Confused? && Distinct(Names(s.enqueued)) && w < |s.running|
    ensures s.running[w].item.name !in s.ran
  {
    var x := s.running[w].item.name;
    DistinctOnce(Names(s.enqueued), x);
    assert WorkerNames(s.running)[w] == x;
    assert x in multiset(WorkerNames(s.running));
  }

  predicate Starts(c: Config, s: State, a: Action)
    requires Enabled(s, a)
  {
    |Apply(c, s, a).log| > |s.log|
  }

  /** No item starts once an item whose run raised is in `ran`; in particular nothing ever
      starts with a requirement whose own run raised. */
  lemma NothingStartsAfterFailure(c: Config, s: State, a: Action)
    requires Reachable(c, s) && Distinct(Names(s.enqueued))
    requires Enabled(s, a) && Starts(c, s, a)
    ensures forall f :: f in s.raised ==> f !in s.ran
    ensures !c.ignoreRequirements ==>
              forall f :: f in s.raised ==> f !in Apply(c, s, a).log[|s.log|].reqs
  {
    InvReachable(c, s);
    assert a == MainStep && s.main.Scanning?;
    assert s.tainted == {};
    forall f | f in s.raised ensures f !in s.ran {
      if RaisedIn(s.running, f) {
        var k :| 0 <= k < |s.running| && s.running[k].raised && s.running[k].item.name == f;
        OnePlace(c, s, k);
      }
    }
    assert Startable(c, s, s.queued[s.main.i]);
  }

  lemma StepIsNotConfused(c: Config, s: State, a: Action)
    requires Inv(c, s) && Distinct(Names(s.enqueued)) && Enabled(s, a)
    ensures !Apply(c, s, a).main.Confused?
  {
    if s.main.Reaping? && s.main.i < |s.running| { OnePlace(c, s, s.main.i); }
  }

  lemma {:induction false} ConfusedRun(c: Config, s: State, actions: seq<Action>)
    requires Inv(c, s) && IsRun(c, s, actions) && !s.main.Confused? && Exec(c, s, actions).main.Confused?
    ensures !Distinct(Names(Exec(c, s, actions).enqueued))
    decreases |actions|
  {
    var t := Apply(c, s, actions[0]);
    InvStep(c, s, actions[0]);
    if t.main.Confused? {
      assert actions[1..] == [];
      if Distinct(Names(s.enqueued)) { StepIsNotConfused(c, s, actions[0]); }
    } else {
      ConfusedRun(c, t, actions[1..]);
    }
  }

  /** The "confused" error is raised only when a name was enqueued twice. */
  lemma ConfusedOnlyByRepeats(c: Config, s: State)
    requires Reachable(c, s) && s.main.Confused?
    ensures !Distinct(Names(s.enqueued))
  {
    var s0, actions :| Init(c, s0) && IsRun(c, s0, actions) && Exec(c, s0, actions) == s;
    InvInit(c, s0);
    ConfusedRun(c, s0, actions);
  }

  /** `ran` is a topological order: whatever an item required when it started ran before it. */
  lemma RanIsTopologicalOrder(c: Config, s: State)
    requires Reachable(c, s)
    ensures |s.origin| == |s.ran|
    ensures forall j :: 0 <= j < |s.ran| ==>
              0 <= s.origin[j] < |s.log| && s.log[s.origin[j]].item.name == s.ran[j]
    ensures !c.ignoreRequirements ==>
              forall j, r :: 0 <= j < |s.ran| && r in s.log[s.origin[j]].reqs ==> r in s.ran[..j]
  {
    InvReachable(c, s);
    forall j, r | 0 <= j < |s.ran| && r in s.log[s.origin[j]].reqs && !c.ignoreRequirements
      ensures r in s.ran[..j]
    {
      var before := s.log[s.origin[j]].before;
      var i :| 0 <= i < |before| && before[i] == r;
      assert s.ran[..j][i] == r;
    }
  }

  /** The job limit and the resource rule hold in every reachable state. */
  lemma LimitsRespected(c: Config, s: State)
    requires Reachable(c, s)
    ensures |s.running| <= c.jobs
    ensures forall i, j :: 0 <= i < j < |s.running| ==>
              s.running[i].item.resources !! s.running[j].item.resources
  {
    InvReachable(c, s);
  }

  /** Worker indices are 1, 2, 3, ... in start order, and no two live workers share one. */
  lemma WorkerIndicesUnique(c: Config, s: State)
    requires Reachable(c, s) && c.jobs > 1
    ensures forall k :: 0 <= k < |s.log| ==> s.log[k].index == k + 1
    ensures forall i, j :: 0 <= i < j < |s.running| ==> s.running[i].index != s.running[j].index
    ensures forall i :: 0 <= i < |s.running| ==> 1 <= s.running[i].index <= |s.log|
    ensures !s.main.Confused? ==> |s.log| == |s.ran| + |s.running|
  {
    InvReachable(c, s);
  }

  /** Nothing is lost or duplicated: every enqueued name is queued, running, ran or dropped. */
  lemma EnqueuedIsConserved(c: Config, s: State)
    requires Reachable(c, s) && !s.main.Confused?
    ensures multiset(Names(s.enqueued)) ==
              multiset(Names(s.queued)) + multiset(WorkerNames(s.running)) + multiset(s.ran)
              + multiset(Names(s.dropped)) + InlineNames(s)
    ensures s.dropped != [] ==> s.raised != []
  {
    InvReachable(c, s);
  }

  lemma OutcomeOfInv(c: Config, s: State)
    requires Inv(c, s) && s.main.Finished?
    ensures s.main.reraised <==> s.raised != []
    ensures !s.main.reraised ==> multiset(s.ran) == multiset(Names(s.enqueued))
  {
    assert Names(s.queued) == [] && WorkerNames(s.running) == [];
    if s.raised != [] { assert s.raised[0] in s.tainted; }
    if s.dropped == [] { assert Names(s.dropped) == []; }
  }

  /** `flush` re-raises if and only if some body raised; otherwise everything enqueued has run. */
  lemma FlushOutcome(c: Config, s: State)
    requires Reachable(c, s) && s.main.Finished?
    ensures s.main.reraised <==> s.raised != []
    ensures !s.main.reraised ==> multiset(s.ran) == multiset(Names(s.enqueued))
    ensures s.queued == [] && s.running == []
  {
    InvReachable(c, s);
    OutcomeOfInv(c, s);
  }
}
