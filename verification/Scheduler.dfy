/** The interleaved steps of gclient's `ExecutionQueue`.

    `flush` runs on the main thread and holds the condition lock except while it waits.  Every
    other thread is a `_Worker` that runs one item, may enqueue more items, and must take the lock
    once to notify before it can die.  Each `Action` is one atomic step of one thread; a
    worker's acquire-work-release sections are one action because nothing else that is
    lock-protected can happen inside them. */
module Scheduler {

  datatype Item = Item(name: string, resources: set<string>)

  /** What a worker thread still has to do. */
  datatype Phase = Body | Raising | Notifying | Exiting | Dead

  datatype Worker = Worker(item: Item, index: nat, phase: Phase, raised: bool)

  /** One start: the item, the requirements read by the scan, and what had run by then. */
  datatype Start = Start(item: Item, index: nat, reqs: set<string>, before: seq<string>)

  /** Where `flush` is.  `Waiting` is the only place where the lock is free. */
  datatype Main =
    | Checking
    | Reaping(i: nat)
    | Testing
    | Scanning(i: nat)
    | Deciding
    | Waiting
    | Inline(item: Item, slot: nat)
    | Finished(reraised: bool)
    | InlineFailed(item: Item)
    | Interrupted
    | Confused

  datatype Config = Config(jobs: int, ignoreRequirements: bool)

  datatype State = State(
    main: Main,
    queued: seq<Item>,
    running: seq<Worker>,
    ran: seq<string>,
    exceptions: seq<string>,
    reqs: map<string, set<string>>,
    // history: what was ever enqueued, dropped, started, or raised
    enqueued: seq<Item>,
    dropped: seq<Item>,
    log: seq<Start>,
    origin: seq<int>,
    raised: seq<string>,
    tainted: set<string>)

  datatype Action =
    | MainStep
    | Interrupt
    | Enqueue(w: nat, item: Item)
    | Touch(w: nat, reqs: map<string, set<string>>)
    | BodyOk(w: nat)
    | BodyRaise(w: nat)
    | PutException(w: nat)
    | Notify(w: nat)
    | Die(w: nat)
    | InlineEnqueue(item: Item)
    | InlineTouch(reqs: map<string, set<string>>)
    | InlineOk
    | InlineRaise

  function Names(items: seq<Item>): (names: seq<string>)
    ensures |names| == |items|
    ensures forall i :: 0 <= i < |items| ==> names[i] == items[i].name
  {
    seq(|items|, i requires 0 <= i < |items| => items[i].name)
  }

  function WorkerNames(workers: seq<Worker>): (names: seq<string>)
    ensures |names| == |workers|
    ensures forall i :: 0 <= i < |workers| ==> names[i] == workers[i].item.name
  {
    seq(|workers|, i requires 0 <= i < |workers| => workers[i].item.name)
  }

  function Remove<T>(s: seq<T>, i: nat): seq<T>
    requires i < |s|
  {
    s[..i] + s[i + 1..]
  }

  /** The `requirements` property of an item, read now. */
  function Reqs(s: State, item: Item): set<string> {
    if item.name in s.reqs then s.reqs[item.name] else {}
  }

  predicate RequirementsRan(c: Config, s: State, item: Item) {
    c.ignoreRequirements || forall r :: r in Reqs(s, item) ==> r in s.ran
  }

  predicate Conflict(running: seq<Worker>, item: Item) {
    exists k :: 0 <= k < |running| && !(running[k].item.resources !! item.resources)
  }

  predicate Startable(c: Config, s: State, item: Item) {
    RequirementsRan(c, s, item) && !Conflict(s.running, item)
  }

  predicate Terminal(s: State) {
    s.main.Finished? || s.main.InlineFailed? || s.main.Interrupted? || s.main.Confused?
  }

  predicate InPhase(s: State, w: nat, phase: Phase) {
    w < |s.running| && s.running[w].phase == phase
  }

  predicate Enabled(s: State, a: Action) {
    !Terminal(s) &&
    match a
    case MainStep => !s.main.Inline?
    case Interrupt => s.main.Waiting?
    case Enqueue(w, _) => s.main.Waiting? && InPhase(s, w, Body)
    case Touch(w, _) => InPhase(s, w, Body)
    case BodyOk(w) => InPhase(s, w, Body)
    case BodyRaise(w) => InPhase(s, w, Body)
    case PutException(w) => InPhase(s, w, Raising)
    case Notify(w) => s.main.Waiting? && InPhase(s, w, Notifying)
    case Die(w) => InPhase(s, w, Exiting)
    case InlineEnqueue(_) => s.main.Inline?
    case InlineTouch(_) => s.main.Inline?
    case InlineOk => s.main.Inline?
    case InlineRaise => s.main.Inline?
  }

  /** Starting queued item `i`: on a new thread, or inside the main thread when jobs is 1. */
  function StartItem(c: Config, s: State, i: nat): State
    requires i < |s.queued|
  {
    var item := s.queued[i];
    var index := if c.jobs > 1 then |s.ran| + |s.running| + 1 else 0;
    var t := s.(queued := Remove(s.queued, i),
                log := s.log + [Start(item, index, Reqs(s, item), s.ran)]);
    if c.jobs > 1 then
      t.(running := s.running + [Worker(item, index, Body, false)], main := Checking)
    else
      t.(main := Inline(item, |s.log|))
  }

  /** Reaping the dead worker at position `i`. */
  function Reap(s: State, i: nat): State
    requires i < |s.running|
  {
    var worker := s.running[i];
    if worker.item.name in s.ran then
      s.(running := s.running[..i], main := Confused)
    else
      s.(running := Remove(s.running, i), ran := s.ran + [worker.item.name],
         origin := s.origin + [worker.index - 1],
         tainted := if worker.raised then s.tainted + {worker.item.name} else s.tainted)
  }

  function MainNext(c: Config, s: State): State {
    match s.main
    case Checking =>
      if s.exceptions == [] then s.(main := Reaping(0))
      else s.(queued := [], dropped := s.dropped + s.queued, main := Reaping(0))
    case Reaping(i) =>
      if i >= |s.running| then s.(main := Testing)
      else if s.running[i].phase != Dead then s.(main := Reaping(i + 1))
      else Reap(s, i)
    case Testing =>
      if (s.queued == [] && s.running == []) || c.jobs == |s.running|
      then s.(main := Deciding) else s.(main := Scanning(0))
    case Scanning(i) =>
      if i >= |s.queued| then s.(main := Deciding)
      else if Startable(c, s, s.queued[i]) then StartItem(c, s, i)
      else s.(main := Scanning(i + 1))
    case Deciding =>
      if s.queued == [] && s.running == [] then s.(main := Finished(s.exceptions != []))
      else s.(main := Waiting)
    case Waiting => s.(main := Checking)
    case _ => s
  }

  function SetPhase(s: State, w: nat, phase: Phase): State
    requires w < |s.running|
  {
    s.(running := s.running[w := s.running[w].(phase := phase)])
  }

  function Apply(c: Config, s: State, a: Action): State
    requires Enabled(s, a)
  {
    match a
    case MainStep => MainNext(c, s)
    case Interrupt => s.(main := Interrupted)
    case Enqueue(_, item) => s.(queued := s.queued + [item], enqueued := s.enqueued + [item])
    case Touch(_, reqs) => s.(reqs := reqs)
    case BodyOk(w) => SetPhase(s, w, Notifying)
    case BodyRaise(w) =>
      s.(running := s.running[w := s.running[w].(phase := Raising, raised := true)],
         raised := s.raised + [s.running[w].item.name])
    case PutException(w) =>
      SetPhase(s, w, Notifying).(exceptions := s.exceptions + [s.running[w].item.name])
    case Notify(w) => SetPhase(s, w, Exiting)
    case Die(w) => SetPhase(s, w, Dead)
    case InlineEnqueue(item) =>
      s.(queued := s.queued + [item], enqueued := s.enqueued + [item])
    case InlineTouch(reqs) => s.(reqs := reqs)
    case InlineOk =>
      s.(ran := s.ran + [s.main.item.name], origin := s.origin + [s.main.slot], main := Checking)
    case InlineRaise =>
      s.(raised := s.raised + [s.main.item.name], main := InlineFailed(s.main.item))
  }

  /** A finite run: every action is enabled where it is taken. */
  ghost predicate IsRun(c: Config, s: State, actions: seq<Action>)
    decreases |actions|
  {
    actions == [] || (Enabled(s, actions[0]) && IsRun(c, Apply(c, s, actions[0]), actions[1..]))
  }

  ghost function Exec(c: Config, s: State, actions: seq<Action>): State
    requires IsRun(c, s, actions)
    decreases |actions|
  {
    if actions == [] then s else Exec(c, Apply(c, s, actions[0]), actions[1..])
  }

  /** The queue just before `flush`: some items enqueued, nothing else done. */
  ghost predicate Init(c: Config, s: State) {
    && c.jobs >= 1
    && s.main == Checking
    && s.queued == s.enqueued
    && s.running == [] && s.ran == [] && s.exceptions == []
    && s.dropped == [] && s.log == [] && s.origin == [] && s.raised == [] && s.tainted == {}
  }

  ghost predicate Reachable(c: Config, s: State) {
    exists s0, actions :: Init(c, s0) && IsRun(c, s0, actions) && Exec(c, s0, actions) == s
  }
}
