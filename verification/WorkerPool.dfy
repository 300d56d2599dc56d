/** The download pool: a work queue with one sentinel for every worker, an output queue with one for
    the printer. */
module WorkerPool {
  import opened Strings

  datatype Job = Job(sha1: string, path: string)

  /** What the body of a job does on the queues: a line for the printer, or a return code. */
  datatype Emission = Line(text: string) | Code(code: int)

  datatype Worker = Idle | Working(rest: seq<Emission>) | Exited

  datatype Main =
    | PutJobs(put: nat)
    | PutSentinels(put: nat)
    | JoinWorkers(joined: nat)
    | PutEnd
    | JoinPrinter
    | Finished(result: int)

  /** Who took what off the work queue, and the emissions that followed. */
  datatype Taking = Taking(worker: nat, item: Option<Job>, body: seq<Emission>)

  datatype State = State(
    main: Main,
    work: seq<Option<Job>>,
    workers: seq<Worker>,
    output: seq<Option<string>>,
    printed: seq<string>,
    printerDone: bool,
    codes: seq<int>,
    takes: seq<Taking>,
    log: seq<Emission>)

  /** `bound` is any bound on the number of emissions of one body. */
  datatype Config = Config(jobs: seq<Job>, threads: nat, bound: nat)

  datatype Action = MainStep | Take(w: nat, body: seq<Emission>) | Emit(w: nat) | Finish(w: nat) | Print

  function Init(cfg: Config): State {
    State(PutJobs(0), [], seq(cfg.threads, _ => Idle), [], [], false, [0], [], [])
  }

  function Max(codes: seq<int>): (m: int)
    requires codes != []
    ensures m in codes && forall i :: 0 <= i < |codes| ==> codes[i] <= m
  {
    var n := |codes| - 1;
    if n == 0 then codes[0]
    else if Max(codes[..n]) < codes[n] then codes[n] else Max(codes[..n])
  }

  /** The loop over the return codes. */
  method MaxReturnCode(codes: seq<int>) returns (maxRetCode: int)
    ensures maxRetCode == Max([0] + codes)
  {
    maxRetCode := 0;
    for i := 0 to |codes|
      invariant maxRetCode == Max([0] + codes[..i])
    {
      var upTo := [0] + codes[..i + 1];
      assert upTo[..i + 1] == [0] + codes[..i];
      if codes[i] > maxRetCode { maxRetCode := codes[i]; }
    }
    assert codes[..|codes|] == codes;
  }

  // ----- the steps

  predicate MainEnabled(s: State) {
    match s.main
    case JoinWorkers(k) => k >= |s.workers| || s.workers[k].Exited?
    case JoinPrinter => s.printerDone
    case Finished(_) => false
    case _ => true
  }

  predicate Enabled(cfg: Config, s: State, a: Action) {
    match a
    case MainStep => MainEnabled(s)
    case Take(w, body) => w < |s.workers| && s.workers[w].Idle? && s.work != [] && |body| <= cfg.bound
    case Emit(w) => w < |s.workers| && s.workers[w].Working? && s.workers[w].rest != []
    case Finish(w) => w < |s.workers| && s.workers[w] == Working([])
    case Print => !s.printerDone && s.output != []
  }

  function StepMain(cfg: Config, s: State): State
    requires s.codes != []
  {
    match s.main
    case PutJobs(i) =>
      if i < |cfg.jobs| then s.(work := s.work + [Some(cfg.jobs[i])], main := PutJobs(i + 1))
      else s.(main := PutSentinels(0))
    case PutSentinels(k) =>
      if k < cfg.threads then s.(work := s.work + [None], main := PutSentinels(k + 1))
      else s.(main := JoinWorkers(0))
    case JoinWorkers(k) => if k < cfg.threads then s.(main := JoinWorkers(k + 1)) else s.(main := PutEnd)
    case PutEnd => s.(output := s.output + [None], main := JoinPrinter)
    case JoinPrinter => s.(main := Finished(Max(s.codes)))
    case Finished(_) => s
  }

  /** One turn of the worker's loop: a sentinel ends it. */
  function StepTake(s: State, w: nat, body: seq<Emission>): State
    requires w < |s.workers| && s.work != []
  {
    var item := s.work[0];
    var does := if item.None? then [] else body;
    s.(work := s.work[1..],
       workers := s.workers[w := if item.None? then Exited else Working(does)],
       takes := s.takes + [Taking(w, item, does)])
  }

  function StepEmit(s: State, w: nat): State
    requires w < |s.workers| && s.workers[w].Working? && s.workers[w].rest != []
  {
    var rest := s.workers[w].rest;
    var t := s.(workers := s.workers[w := Working(rest[1..])], log := s.log + [rest[0]]);
    match rest[0]
    case Line(text) => t.(output := t.output + [Some(text)])
    case Code(code) => t.(codes := t.codes + [code])
  }

  function StepPrint(s: State): State
    requires s.output != []
  {
    var t := s.(output := s.output[1..]);
    if s.output[0].None? then t.(printerDone := true) else t.(printed := s.printed + [s.output[0].value])
  }

  function Apply(cfg: Config, s: State, a: Action): State
    requires s.codes != [] && Enabled(cfg, s, a)
  {
    match a
    case MainStep => StepMain(cfg, s)
    case Take(w, body) => StepTake(s, w, body)
    case Emit(w) => StepEmit(s, w)
    case Finish(w) => s.(workers := s.workers[w := Idle])
    case Print => StepPrint(s)
  }

  // ----- what every step keeps

  /** All that is ever put on the work queue. */
  function Items(cfg: Config): seq<Option<Job>> {
    seq(|cfg.jobs| + cfg.threads, i requires 0 <= i < |cfg.jobs| + cfg.threads =>
      if i < |cfg.jobs| then Some(cfg.jobs[i]) else None)
  }

  function PutSoFar(cfg: Config, m: Main): nat {
    match m
    case PutJobs(i) => i
    case PutSentinels(k) => |cfg.jobs| + k
    case _ => |cfg.jobs| + cfg.threads
  }

  predicate MainInv(cfg: Config, s: State) {
    && |s.workers| == cfg.threads
    && match s.main
       case PutJobs(i) => i <= |cfg.jobs|
       case PutSentinels(k) => k <= cfg.threads
       case JoinWorkers(k) => k <= cfg.threads && AllExited(s.workers, k)
       case _ => AllExited(s.workers, cfg.threads)
  }

  predicate AllExited(workers: seq<Worker>, k: nat) {
    k <= |workers| && forall w :: 0 <= w < k ==> workers[w].Exited?
  }

  /** The queue hands out the items in the order they were put on it. */
  predicate WorkInv(cfg: Config, s: State) {
    && |s.takes| <= PutSoFar(cfg, s.main) <= |Items(cfg)|
    && s.work == Items(cfg)[|s.takes|..PutSoFar(cfg, s.main)]
    && forall i :: 0 <= i < |s.takes| ==> s.takes[i].item == Items(cfg)[i]
  }

  /** Each worker that exited took one sentinel, and nobody else did. */
  predicate SentinelInv(cfg: Config, s: State) {
    && (forall i :: |cfg.jobs| <= i < |s.takes| ==> s.takes[i].worker < |s.workers| && s.workers[s.takes[i].worker].Exited?)
    && (forall i, j :: |cfg.jobs| <= i < j < |s.takes| ==> s.takes[i].worker != s.takes[j].worker)
    && (forall w :: 0 <= w < |s.workers| && s.workers[w].Exited? ==>
          exists i :: |cfg.jobs| <= i < |s.takes| && s.takes[i].worker == w)
  }

  function Exits(workers: seq<Worker>): (n: nat)
    ensures n <= |workers|
  {
    if workers == [] then 0 else (if workers[0].Exited? then 1 else 0) + Exits(workers[1..])
  }

  predicate CountInv(cfg: Config, s: State) {
    Exits(s.workers) == if |s.takes| <= |cfg.jobs| then 0 else |s.takes| - |cfg.jobs|
  }

  function Lines(log: seq<Emission>): seq<string> {
    if log == [] then []
    else
      var n := |log| - 1;
      if log[n].Line? then Lines(log[..n]) + [log[n].text] else Lines(log[..n])
  }

  function Codes(log: seq<Emission>): seq<int> {
    if log == [] then []
    else
      var n := |log| - 1;
      if log[n].Code? then Codes(log[..n]) + [log[n].code] else Codes(log[..n])
  }

  function Queued(lines: seq<string>): seq<Option<string>> {
    seq(|lines|, i requires 0 <= i < |lines| => Some(lines[i]))
  }

  predicate Ended(m: Main) {
    m.JoinPrinter? || m.Finished?
  }

  /** What was printed and what is queued make up all lines that were put, in order; the end marker
      is last. */
  predicate OutputInv(s: State) {
    var lines := Lines(s.log);
    && |s.printed| <= |lines| && s.printed == lines[..|s.printed|]
    && s.output == Queued(lines[|s.printed|..]) + (if Ended(s.main) && !s.printerDone then [None] else [])
    && (s.printerDone ==> Ended(s.main) && s.output == [])
    && s.codes == [0] + Codes(s.log)
    && (s.main.Finished? ==> s.printerDone && s.main.result == Max(s.codes))
  }

  /** How often a worker will still emit `e`. */
  function ToCome(w: Worker, e: Emission): nat {
    if w.Working? then multiset(w.rest)[e] else 0
  }

  function Pending(workers: seq<Worker>, e: Emission): nat {
    if workers == [] then 0 else ToCome(workers[0], e) + Pending(workers[1..], e)
  }

  /** How often `e` occurs in all bodies. */
  function InBodies(takes: seq<Taking>, e: Emission): nat {
    if takes == [] then 0 else InBodies(takes[..|takes| - 1], e) + multiset(takes[|takes| - 1].body)[e]
  }

  predicate Conserved(s: State, e: Emission) {
    multiset(s.log)[e] + Pending(s.workers, e) == InBodies(s.takes, e)
  }

  /** Nothing a body emits is lost or made up. */
  ghost predicate EmissionInv(s: State) {
    forall e :: Conserved(s, e)
  }

  predicate TakingInv(cfg: Config, s: State) {
    MainInv(cfg, s) && WorkInv(cfg, s) && SentinelInv(cfg, s) && CountInv(cfg, s)
  }

  ghost predicate Inv(cfg: Config, s: State) {
    TakingInv(cfg, s) && OutputInv(s) && EmissionInv(s)
  }

  lemma {:induction false} ExitsUpdate(workers: seq<Worker>, w: nat, to: Worker)
    requires w < |workers|
    ensures Exits(workers[w := to]) ==
            Exits(workers) - (if workers[w].Exited? then 1 else 0) + (if to.Exited? then 1 else 0)
  {
    var next := workers[w := to];
    if w == 0 {
      assert next[1..] == workers[1..];
    } else {
      ExitsUpdate(workers[1..], w - 1, to);
      assert next[1..] == workers[1..][w - 1 := to];
    }
  }

  lemma {:induction false} NoExits(workers: seq<Worker>)
    requires forall w :: 0 <= w < |workers| ==> workers[w].Idle?
    ensures Exits(workers) == 0
  {
    if workers != [] { NoExits(workers[1..]); }
  }

  lemma {:induction false} NonePending(workers: seq<Worker>, e: Emission)
    requires forall w :: 0 <= w < |workers| ==> !workers[w].Working?
    ensures Pending(workers, e) == 0
  {
    if workers != [] { NonePending(workers[1..], e); }
  }

  lemma {:induction false} AllExits(workers: seq<Worker>)
    requires AllExited(workers, |workers|)
    ensures Exits(workers) == |workers|
  {
    if workers != [] { AllExits(workers[1..]); }
  }

  lemma {:induction false} SomeNotExited(workers: seq<Worker>, w: nat)
    requires w < |workers| && !workers[w].Exited?
    ensures Exits(workers) < |workers|
  {
    if w > 0 { SomeNotExited(workers[1..], w - 1); }
  }

  lemma {:induction false} PendingUpdate(workers: seq<Worker>, w: nat, to: Worker, e: Emission)
    requires w < |workers|
    ensures Pending(workers[w := to], e) + ToCome(workers[w], e) == Pending(workers, e) + ToCome(to, e)
  {
    var next := workers[w := to];
    if w == 0 {
      assert next[1..] == workers[1..];
    } else {
      PendingUpdate(workers[1..], w - 1, to, e);
      assert next[1..] == workers[1..][w - 1 := to];
    }
  }

  lemma InvInit(cfg: Config)
    ensures Inv(cfg, Init(cfg))
  {
    TakingInit(cfg, Init(cfg));
    OutputInit(Init(cfg));
    forall e ensures Conserved(Init(cfg), e) { NonePending(Init(cfg).workers, e); }
  }

  lemma TakingInit(cfg: Config, s: State)
    requires s == Init(cfg)
    ensures TakingInv(cfg, s)
  {
    NoExits(s.workers);
  }

  lemma OutputInit(s: State)
    requires s.main == PutJobs(0) && s.output == [] && s.printed == [] && !s.printerDone && s.codes == [0] && s.log == []
    ensures OutputInv(s)
  {
    assert [0] + [] == [0];
    assert Queued([]) + [] == [];
  }

  // ----- step by step: the work queue

  /** A worker that goes on working, or has finished a job, changes nothing about the takings. */
  lemma WorkerGoesOn(cfg: Config, s: State, w: nat, to: Worker, t: State)
    requires TakingInv(cfg, s) && w < |s.workers| && !s.workers[w].Exited? && !to.Exited?
    requires t.workers == s.workers[w := to] && t.main == s.main && t.work == s.work && t.takes == s.takes
    ensures TakingInv(cfg, t)
  {
    ExitsUpdate(s.workers, w, to);
    assert forall v :: 0 <= v < |s.workers| ==> t.workers[v].Exited? == s.workers[v].Exited?;
  }

  lemma PutOne(items: seq<Option<Job>>, n: nat, p: nat)
    requires n <= p < |items|
    ensures items[n..p] + [items[p]] == items[n..p + 1]
  {
  }

  lemma MainKeepsWork(cfg: Config, s: State, t: State)
    requires MainInv(cfg, s) && WorkInv(cfg, s) && s.codes != [] && MainEnabled(s) && t == StepMain(cfg, s)
    ensures MainInv(cfg, t) && WorkInv(cfg, t)
  {
    MainGoesOn(cfg, s, t);
    var p := PutSoFar(cfg, s.main);
    if (s.main.PutJobs? && s.main.put < |cfg.jobs|) || (s.main.PutSentinels? && s.main.put < cfg.threads) {
      PutOne(Items(cfg), |s.takes|, p);
    }
  }

  lemma MainGoesOn(cfg: Config, s: State, t: State)
    requires MainInv(cfg, s) && s.codes != [] && MainEnabled(s) && t == StepMain(cfg, s)
    ensures MainInv(cfg, t) && t.takes == s.takes
  {
  }

  lemma MainKeepsTakings(cfg: Config, s: State, t: State)
    requires TakingInv(cfg, s) && s.codes != [] && MainEnabled(s) && t == StepMain(cfg, s)
    ensures TakingInv(cfg, t)
  {
    MainKeepsWork(cfg, s, t);
    assert t.workers == s.workers && t.takes == s.takes;
  }

  lemma TakeKeepsWork(cfg: Config, s: State, w: nat, body: seq<Emission>, t: State)
    requires TakingInv(cfg, s) && Enabled(cfg, s, Take(w, body)) && t == StepTake(s, w, body)
    ensures MainInv(cfg, t) && WorkInv(cfg, t) && CountInv(cfg, t)
  {
    var n := |s.takes|;
    assert s.work[0] == Items(cfg)[n];
    assert s.work[1..] == Items(cfg)[n + 1..PutSoFar(cfg, s.main)];
    assert forall i :: 0 <= i < n ==> t.takes[i] == s.takes[i];
    ExitsUpdate(s.workers, w, t.workers[w]);
  }

  /** A worker exits exactly when it takes a sentinel. */
  lemma NewSentinel(cfg: Config, s: State, w: nat, body: seq<Emission>, t: State)
    requires TakingInv(cfg, s) && Enabled(cfg, s, Take(w, body)) && t == StepTake(s, w, body)
    ensures |t.takes| == |s.takes| + 1 && t.takes[..|s.takes|] == s.takes && t.takes[|s.takes|].worker == w
    ensures |t.workers| == |s.workers| && t.workers == s.workers[w := t.workers[w]] && !s.workers[w].Exited?
    ensures t.workers[w].Exited? <==> |cfg.jobs| <= |s.takes|
  {
    assert s.work[0] == Items(cfg)[|s.takes|];
  }

  lemma TakeKeepsSentinels(cfg: Config, s: State, w: nat, body: seq<Emission>, t: State)
    requires TakingInv(cfg, s) && Enabled(cfg, s, Take(w, body)) && t == StepTake(s, w, body)
    ensures SentinelInv(cfg, t)
  {
    var n, m := |s.takes|, |cfg.jobs|;
    NewSentinel(cfg, s, w, body, t);
    forall v | 0 <= v < |t.workers| && t.workers[v].Exited?
      ensures exists i :: m <= i < |t.takes| && t.takes[i].worker == v
    {
      if v == w {
        assert m <= n;
      } else {
        var i :| m <= i < n && s.takes[i].worker == v;
        assert t.takes[i].worker == v;
      }
    }
  }

  // ----- the output queue

  lemma MainKeepsOutput(cfg: Config, s: State, t: State)
    requires OutputInv(s) && MainEnabled(s) && t == StepMain(cfg, s)
    ensures OutputInv(t)
  {
    var queued := Queued(Lines(s.log)[|s.printed|..]);
    if s.main.PutEnd? {
      assert queued + [] == queued;
      assert t.output == queued + [None];
    }
  }

  lemma LinesMore(log: seq<Emission>, e: Emission)
    ensures Lines(log + [e]) == if e.Line? then Lines(log) + [e.text] else Lines(log)
    ensures Codes(log + [e]) == if e.Code? then Codes(log) + [e.code] else Codes(log)
  {
    assert (log + [e])[..|log|] == log;
  }

  lemma QueuedMore(lines: seq<string>, k: nat, text: string)
    requires k <= |lines|
    ensures Queued((lines + [text])[k..]) == Queued(lines[k..]) + [Some(text)]
    ensures (lines + [text])[..k] == lines[..k]
  {
  }

  lemma EmitKeepsOutput(s: State, w: nat, t: State)
    requires OutputInv(s) && !Ended(s.main) && w < |s.workers| && s.workers[w].Working? && s.workers[w].rest != []
    requires t == StepEmit(s, w)
    ensures OutputInv(t)
  {
    var e, lines, k := s.workers[w].rest[0], Lines(s.log), |s.printed|;
    LinesMore(s.log, e);
    if e.Line? {
      QueuedMore(lines, k, e.text);
      assert s.output == Queued(lines[k..]);
      assert t.output == Queued(Lines(t.log)[k..]) + [];
    } else {
      assert [0] + (Codes(s.log) + [e.code]) == ([0] + Codes(s.log)) + [e.code];
    }
  }

  lemma PrintKeepsOutput(s: State, t: State)
    requires OutputInv(s) && !s.printerDone && s.output != [] && t == StepPrint(s)
    ensures OutputInv(t)
  {
    var lines, k := Lines(s.log), |s.printed|;
    var end: seq<Option<string>> := if Ended(s.main) then [None] else [];
    if k < |lines| {
      var queued := Queued(lines[k..]);
      assert queued[0] == Some(lines[k]) && queued[1..] == Queued(lines[k + 1..]);
      assert s.output[0] == queued[0];
      assert s.output[1..] == queued[1..] + end;
      assert lines[..k] + [lines[k]] == lines[..k + 1];
    } else {
      assert Queued(lines[k..]) == [];
      assert s.output == end && s.output[1..] == [];
    }
  }

  // ----- conservation

  lemma TakeKeepsEmissions(s: State, w: nat, body: seq<Emission>, t: State)
    requires EmissionInv(s) && w < |s.workers| && s.workers[w].Idle? && s.work != [] && t == StepTake(s, w, body)
    ensures EmissionInv(t)
  {
    forall e ensures Conserved(t, e) {
      assert Conserved(s, e);
      PendingUpdate(s.workers, w, t.workers[w], e);
      assert t.takes[..|s.takes|] == s.takes;
    }
  }

  lemma EmitKeepsEmissions(s: State, w: nat, t: State)
    requires EmissionInv(s) && w < |s.workers| && s.workers[w].Working? && s.workers[w].rest != [] && t == StepEmit(s, w)
    ensures EmissionInv(t)
  {
    var rest := s.workers[w].rest;
    assert rest == [rest[0]] + rest[1..];
    forall e ensures Conserved(t, e) {
      assert Conserved(s, e);
      PendingUpdate(s.workers, w, t.workers[w], e);
    }
  }

  lemma FinishKeepsEmissions(s: State, w: nat, t: State)
    requires EmissionInv(s) && w < |s.workers| && s.workers[w] == Working([]) && t == s.(workers := s.workers[w := Idle])
    ensures EmissionInv(t)
  {
    forall e ensures Conserved(t, e) {
      assert Conserved(s, e);
      PendingUpdate(s.workers, w, Idle, e);
    }
  }

  /** What conservation depends on. */
  lemma SameEmissions(s: State, t: State)
    requires EmissionInv(s) && t.log == s.log && t.workers == s.workers && t.takes == s.takes
    ensures EmissionInv(t)
  {
    forall e ensures Conserved(t, e) { assert Conserved(s, e); }
  }

  // ----- every step

  lemma NotEnded(cfg: Config, s: State, w: nat)
    requires MainInv(cfg, s) && w < |s.workers| && !s.workers[w].Exited?
    ensures !Ended(s.main)
  {
    assert Ended(s.main) ==> AllExited(s.workers, cfg.threads);
  }

  lemma MainKeeps(cfg: Config, s: State, t: State)
    requires Inv(cfg, s) && MainEnabled(s) && t == StepMain(cfg, s)
    ensures Inv(cfg, t)
  {
    MainKeepsTakings(cfg, s, t);
    MainKeepsOutput(cfg, s, t);
    SameEmissions(s, t);
  }

  lemma TakeKeeps(cfg: Config, s: State, w: nat, body: seq<Emission>, t: State)
    requires Inv(cfg, s) && Enabled(cfg, s, Take(w, body)) && t == StepTake(s, w, body)
    ensures Inv(cfg, t)
  {
    TakeKeepsWork(cfg, s, w, body, t);
    TakeKeepsSentinels(cfg, s, w, body, t);
    TakeKeepsEmissions(s, w, body, t);
    assert OutputInv(t);
  }

  lemma WorkerKeeps(cfg: Config, s: State, w: nat, t: State)
    requires Inv(cfg, s)
    requires (Enabled(cfg, s, Emit(w)) && t == StepEmit(s, w)) || (Enabled(cfg, s, Finish(w)) && t == s.(workers := s.workers[w := Idle]))
    ensures Inv(cfg, t)
  {
    NotEnded(cfg, s, w);
    WorkerGoesOn(cfg, s, w, t.workers[w], t);
    if s.workers[w].rest == [] {
      FinishKeepsEmissions(s, w, t);
      assert OutputInv(t);
    } else {
      EmitKeepsOutput(s, w, t);
      EmitKeepsEmissions(s, w, t);
    }
  }

  lemma PrintKeeps(cfg: Config, s: State, t: State)
    requires Inv(cfg, s) && Enabled(cfg, s, Print) && t == StepPrint(s)
    ensures Inv(cfg, t)
  {
    PrintKeepsOutput(s, t);
    SameEmissions(s, t);
    assert t.workers == s.workers && t.takes == s.takes && t.work == s.work && t.main == s.main;
  }

  lemma InvStep(cfg: Config, s: State, a: Action)
    requires Inv(cfg, s) && Enabled(cfg, s, a)
    ensures Inv(cfg, Apply(cfg, s, a))
  {
    var t := Apply(cfg, s, a);
    match a
    case MainStep => MainKeeps(cfg, s, t);
    case Take(w, body) => TakeKeeps(cfg, s, w, body, t);
    case Emit(w) => WorkerKeeps(cfg, s, w, t);
    case Finish(w) => WorkerKeeps(cfg, s, w, t);
    case Print => PrintKeeps(cfg, s, t);
  }

  // ----- runs

  predicate IsRun(cfg: Config, s: State, run: seq<Action>)
    decreases |run|
  {
    run == [] ||
    (s.codes != [] && Enabled(cfg, s, run[0]) && IsRun(cfg, Apply(cfg, s, run[0]), run[1..]))
  }

  function Exec(cfg: Config, s: State, run: seq<Action>): State
    requires IsRun(cfg, s, run)
    decreases |run|
  {
    if run == [] then s else Exec(cfg, Apply(cfg, s, run[0]), run[1..])
  }

  lemma {:induction false} InvRun(cfg: Config, s: State, run: seq<Action>)
    requires Inv(cfg, s) && IsRun(cfg, s, run)
    ensures Inv(cfg, Exec(cfg, s, run))
    decreases |run|
  {
    if run != [] {
      InvStep(cfg, s, run[0]);
      InvRun(cfg, Apply(cfg, s, run[0]), run[1..]);
    }
  }

  lemma Somebody(cfg: Config, s: State)
    requires TakingInv(cfg, s) && s.main.Finished? && cfg.threads > 0
    ensures |s.takes| == |cfg.jobs| + cfg.threads && s.work == []
  {
    AllExits(s.workers);
    assert s.workers[0].Exited?;
  }

  lemma AllTaken(cfg: Config, s: State)
    requires TakingInv(cfg, s) && s.main.Finished? && cfg.threads > 0
    ensures var n := |cfg.jobs|;
      && s.work == [] && |s.takes| == n + cfg.threads && |s.workers| == cfg.threads
      && (forall i :: 0 <= i < |s.takes| ==> s.takes[i].item == if i < n then Some(cfg.jobs[i]) else None)
      && (forall i, j :: n <= i < j < |s.takes| ==> s.takes[i].worker != s.takes[j].worker)
      && (forall w :: 0 <= w < cfg.threads ==>
            s.workers[w].Exited? && exists i :: n <= i < |s.takes| && s.takes[i].worker == w)
  {
    Somebody(cfg, s);
    forall w | 0 <= w < cfg.threads
      ensures s.workers[w].Exited? && exists i :: |cfg.jobs| <= i < |s.takes| && s.takes[i].worker == w
    {
      assert s.workers[w].Exited?;
    }
  }

  lemma AllPrinted(s: State)
    requires OutputInv(s) && s.main.Finished?
    ensures s.printerDone && s.output == [] && s.printed == Lines(s.log)
    ensures s.main.result == Max([0] + Codes(s.log))
  {
    var rest := Queued(Lines(s.log)[|s.printed|..]);
    assert s.output == rest + [];
    assert |rest| == 0;
    assert Lines(s.log)[..|s.printed|] == Lines(s.log);
  }

  lemma AllEmitted(cfg: Config, s: State)
    requires TakingInv(cfg, s) && EmissionInv(s) && s.main.Finished?
    ensures forall e :: multiset(s.log)[e] == InBodies(s.takes, e)
  {
    forall e ensures multiset(s.log)[e] == InBodies(s.takes, e) {
      assert Conserved(s, e);
      NonePending(s.workers, e);
    }
  }

  /** With at least one worker, whatever the interleaving and the bodies: every job has been taken
      exactly once, each worker has taken one sentinel and exited, every line any body put has been
      printed, in the order they were put, before the printer stopped, and the result is the largest
      of 0 and all return codes. */
  lemma PoolOutcome(cfg: Config, run: seq<Action>)
    requires cfg.threads > 0 && IsRun(cfg, Init(cfg), run) && Exec(cfg, Init(cfg), run).main.Finished?
    ensures var s := Exec(cfg, Init(cfg), run); var n := |cfg.jobs|;
      && s.work == [] && |s.takes| == n + cfg.threads && |s.workers| == cfg.threads
      && (forall i :: 0 <= i < |s.takes| ==> s.takes[i].item == if i < n then Some(cfg.jobs[i]) else None)
      && (forall i, j :: n <= i < j < |s.takes| ==> s.takes[i].worker != s.takes[j].worker)
      && (forall w :: 0 <= w < cfg.threads ==>
            s.workers[w].Exited? && exists i :: n <= i < |s.takes| && s.takes[i].worker == w)
      && s.printerDone && s.output == [] && s.printed == Lines(s.log)
      && (forall e :: multiset(s.log)[e] == InBodies(s.takes, e))
      && s.main.result == Max([0] + Codes(s.log))
  {
    var s := Exec(cfg, Init(cfg), run);
    InvInit(cfg);
    InvRun(cfg, Init(cfg), run);
    AllTaken(cfg, s);
    AllPrinted(s);
    AllEmitted(cfg, s);
  }

  /** The number of threads asked for: the option, or where that is absent or 0 the environment's
      number, but at least 1. */
  function NumThreads(option: Option<int>, environment: int): int {
    if option.None? || option.value == 0 then (if environment > 1 then environment else 1) else option.value
  }

  /** How many are started: `range` of a negative number is empty. */
  function Started(numThreads: int): nat {
    if numThreads < 0 then 0 else numThreads
  }

  /** No worker is started if and only if the command line asks for a negative number of threads. */
  lemma NoWorkersIffNegative(option: Option<int>, environment: int)
    ensures Started(NumThreads(option, environment)) == 0 <==> option.Some? && option.value < 0
  {
    if option.Some? && option.value == 0 { assert NumThreads(option, environment) >= 1; }
  }

  /** Then nothing is downloaded, and the result says that all is well. */
  lemma NoWorkersNoWork(cfg: Config, run: seq<Action>)
    requires cfg.threads == 0 && IsRun(cfg, Init(cfg), run) && Exec(cfg, Init(cfg), run).main.Finished?
    ensures var s := Exec(cfg, Init(cfg), run);
      s.takes == [] && |s.work| == |cfg.jobs| && s.printed == [] && s.main.result == 0
  {
    var s := Exec(cfg, Init(cfg), run);
    InvInit(cfg);
    InvRun(cfg, Init(cfg), run);
    NobodyTakes(cfg, Init(cfg), run);
    assert s.log == [];
    assert [0] + [] == [0];
  }

  lemma {:induction false} NobodyTakes(cfg: Config, s: State, run: seq<Action>)
    requires IsRun(cfg, s, run) && s.workers == [] && s.takes == [] && s.log == []
    ensures var t := Exec(cfg, s, run); t.workers == [] && t.takes == [] && t.log == []
    decreases |run|
  {
    if run != [] { NobodyTakes(cfg, Apply(cfg, s, run[0]), run[1..]); }
  }

  // ----- every run ends

  function MainLeft(cfg: Config, m: Main): int {
    match m
    case PutJobs(i) => |cfg.jobs| - i + 2 * cfg.threads + 5
    case PutSentinels(k) => cfg.threads - k + cfg.threads + 4
    case JoinWorkers(k) => cfg.threads - k + 3
    case PutEnd => 2
    case JoinPrinter => 1
    case Finished(_) => 0
  }

  function LoadOf(w: Worker): nat {
    if w.Working? then 2 * |w.rest| + 1 else 0
  }

  function Load(workers: seq<Worker>): nat {
    if workers == [] then 0 else LoadOf(workers[0]) + Load(workers[1..])
  }

  function Untaken(cfg: Config, s: State): int {
    |cfg.jobs| + cfg.threads - |s.takes|
  }

  /** An upper bound on the number of steps to come. */
  function Weight(cfg: Config, s: State): int {
    2 * MainLeft(cfg, s.main) + (2 * cfg.bound + 2) * Untaken(cfg, s) + Load(s.workers) + |s.output|
  }

  lemma {:induction false} LoadUpdate(workers: seq<Worker>, w: nat, to: Worker)
    requires w < |workers|
    ensures Load(workers[w := to]) + LoadOf(workers[w]) == Load(workers) + LoadOf(to)
  {
    var next := workers[w := to];
    if w == 0 {
      assert next[1..] == workers[1..];
    } else {
      LoadUpdate(workers[1..], w - 1, to);
      assert next[1..] == workers[1..][w - 1 := to];
    }
  }

  lemma TimesLess(c: nat, u: int)
    ensures c * (u - 1) == c * u - c
  {
  }

  lemma MainFalls(cfg: Config, s: State, t: State)
    requires MainInv(cfg, s) && s.codes != [] && MainEnabled(s) && t == StepMain(cfg, s)
    ensures MainLeft(cfg, t.main) < MainLeft(cfg, s.main) && |t.output| <= |s.output| + 1
    ensures t.workers == s.workers && t.takes == s.takes
  {
  }

  lemma WeightFalls(cfg: Config, s: State, a: Action)
    requires MainInv(cfg, s) && s.codes != [] && Enabled(cfg, s, a)
    ensures Weight(cfg, Apply(cfg, s, a)) < Weight(cfg, s)
  {
    var t := Apply(cfg, s, a);
    match a
    case MainStep => MainFalls(cfg, s, t);
    case Take(w, body) =>
      LoadUpdate(s.workers, w, t.workers[w]);
      TimesLess(2 * cfg.bound + 2, Untaken(cfg, s));
    case Emit(w) => LoadUpdate(s.workers, w, t.workers[w]);
    case Finish(w) => LoadUpdate(s.workers, w, Idle);
    case Print =>
  }

  lemma WeightIsPositive(cfg: Config, s: State)
    requires MainInv(cfg, s) && WorkInv(cfg, s)
    ensures Weight(cfg, s) >= 0
  {
    assert Untaken(cfg, s) >= 0;
    assert (2 * cfg.bound + 2) * Untaken(cfg, s) >= 0;
    assert MainLeft(cfg, s.main) >= 0;
  }

  lemma {:induction false} RunIsBounded(cfg: Config, s: State, run: seq<Action>)
    requires Inv(cfg, s) && IsRun(cfg, s, run)
    ensures |run| <= Weight(cfg, s)
    decreases |run|
  {
    if run == [] {
      WeightIsPositive(cfg, s);
    } else {
      InvStep(cfg, s, run[0]);
      WeightFalls(cfg, s, run[0]);
      RunIsBounded(cfg, Apply(cfg, s, run[0]), run[1..]);
    }
  }

  /** As long as main has not finished, somebody can go on. */
  lemma SomebodyCanGoOn(cfg: Config, s: State) returns (a: Action)
    requires Inv(cfg, s) && !s.main.Finished?
    ensures Enabled(cfg, s, a)
  {
    if MainEnabled(s) {
      a := MainStep;
    } else if s.main.JoinPrinter? {
      a := Print;
    } else {
      var k := s.main.joined;
      match s.workers[k]
      case Working(rest) => a := if rest == [] then Finish(k) else Emit(k);
      case Idle =>
        SomeNotExited(s.workers, k);
        a := Take(k, []);
    }
  }

  /** Every run of the pool ends, after no more steps than its weight at the start, and it can end
      only with main finished. */
  lemma PoolEnds(cfg: Config, run: seq<Action>)
    requires IsRun(cfg, Init(cfg), run)
    ensures |run| <= Weight(cfg, Init(cfg))
    ensures (forall a :: !Enabled(cfg, Exec(cfg, Init(cfg), run), a)) ==> Exec(cfg, Init(cfg), run).main.Finished?
  {
    InvInit(cfg);
    InvRun(cfg, Init(cfg), run);
    RunIsBounded(cfg, Init(cfg), run);
    var s := Exec(cfg, Init(cfg), run);
    if !s.main.Finished? { var a := SomebodyCanGoOn(cfg, s); }
  }

  // ----- the workers work at the same time

  /** All jobs are on the queue, and the first `k` workers have one each. */
  function Busy(cfg: Config, body: seq<Emission>, k: nat): State
    requires k <= cfg.threads && k <= |cfg.jobs|
  {
    State(PutJobs(|cfg.jobs|), seq(|cfg.jobs| - k, i requires 0 <= i < |cfg.jobs| - k => Some(cfg.jobs[k + i])),
          seq(cfg.threads, w => if w < k then Working(body) else Idle), [], [], false, [0],
          seq(k, i requires 0 <= i < k => Taking(i, Some(cfg.jobs[i]), body)), [])
  }

  /** The first `k` jobs are on the queue. */
  function Filled(cfg: Config, k: nat): State
    requires k <= |cfg.jobs|
  {
    State(PutJobs(k), seq(k, i requires 0 <= i < k => Some(cfg.jobs[i])), seq(cfg.threads, _ => Idle),
          [], [], false, [0], [], [])
  }

  lemma OneMoreFilled(cfg: Config, k: nat)
    requires k < |cfg.jobs|
    ensures Enabled(cfg, Filled(cfg, k), MainStep) && Apply(cfg, Filled(cfg, k), MainStep) == Filled(cfg, k + 1)
  {
    assert Filled(cfg, k + 1).work == Filled(cfg, k).work + [Some(cfg.jobs[k])];
  }

  lemma OneMoreBusy(cfg: Config, body: seq<Emission>, k: nat)
    requires k < cfg.threads && k < |cfg.jobs| && |body| <= cfg.bound
    ensures Enabled(cfg, Busy(cfg, body, k), Take(k, body))
    ensures Apply(cfg, Busy(cfg, body, k), Take(k, body)) == Busy(cfg, body, k + 1)
  {
    var s, t := Busy(cfg, body, k), Busy(cfg, body, k + 1);
    assert s.work[0] == Some(cfg.jobs[k]);
    assert t.work == s.work[1..];
    assert t.workers == s.workers[k := Working(body)];
    assert t.takes == s.takes + [Taking(k, Some(cfg.jobs[k]), body)];
  }

  lemma {:induction false} RunLonger(cfg: Config, s: State, run: seq<Action>, a: Action)
    requires IsRun(cfg, s, run) && Exec(cfg, s, run).codes != [] && Enabled(cfg, Exec(cfg, s, run), a)
    ensures IsRun(cfg, s, run + [a]) && Exec(cfg, s, run + [a]) == Apply(cfg, Exec(cfg, s, run), a)
    decreases |run|
  {
    if run == [] {
      assert [] + [a] == [a] && [a][1..] == [];
    } else {
      assert (run + [a])[1..] == run[1..] + [a];
      RunLonger(cfg, Apply(cfg, s, run[0]), run[1..], a);
    }
  }

  lemma {:induction false} FillingRun(cfg: Config, k: nat) returns (run: seq<Action>)
    requires k <= |cfg.jobs|
    ensures IsRun(cfg, Init(cfg), run) && Exec(cfg, Init(cfg), run) == Filled(cfg, k)
  {
    if k == 0 {
      run := [];
      assert Filled(cfg, 0) == Init(cfg);
    } else {
      run := FillingRun(cfg, k - 1);
      OneMoreFilled(cfg, k - 1);
      RunLonger(cfg, Init(cfg), run, MainStep);
      run := run + [MainStep];
    }
  }

  /** Nothing makes a worker wait for another: with `k` workers and `k` jobs there is a run in which `k` workers
      are all in the middle of their jobs, each with one of its own. */
  lemma {:induction false} AllAtOnce(cfg: Config, body: seq<Emission>, k: nat) returns (run: seq<Action>)
    requires k <= cfg.threads && k <= |cfg.jobs| && |body| <= cfg.bound
    ensures IsRun(cfg, Init(cfg), run)
    ensures var s := Exec(cfg, Init(cfg), run);
      && |s.workers| == cfg.threads && |s.takes| == k
      && forall w :: 0 <= w < k ==> s.workers[w] == Working(body) && s.takes[w] == Taking(w, Some(cfg.jobs[w]), body)
  {
    run := BusyRun(cfg, body, k);
  }

  lemma {:induction false} BusyRun(cfg: Config, body: seq<Emission>, k: nat) returns (run: seq<Action>)
    requires k <= cfg.threads && k <= |cfg.jobs| && |body| <= cfg.bound
    ensures IsRun(cfg, Init(cfg), run) && Exec(cfg, Init(cfg), run) == Busy(cfg, body, k)
  {
    if k == 0 {
      run := FillingRun(cfg, |cfg.jobs|);
      assert Filled(cfg, |cfg.jobs|) == Busy(cfg, body, 0);
    } else {
      run := BusyRun(cfg, body, k - 1);
      OneMoreBusy(cfg, body, k - 1);
      RunLonger(cfg, Init(cfg), run, Take(k - 1, body));
      run := run + [Take(k - 1, body)];
    }
  }
}
