/** `Annotated.write` called by several threads at once.

    Only finding the buffer is done under the lock.  Every other step of `write` is its own: reading
    the buffer, storing the longer text, the two searches, the split, the wrapped write and storing
    the rest.  Output is kept apart in every interleaving if and only if buffered threads have indices
    of their own. */
module AnnotatedThreads {
  import opened Annotated
  import opened Strings
  import Scheduler
  import SchedulerSafety

  /** Where a thread is in `write`.  `kept` is the variable `remaining` of the round before, unset in the
      first; `Broken` is a thread that raised. */
  datatype Place =
    | Outside
    | Reading(out: string)
    | Storing(text: string)
    | FindingCr(kept: Option<string>)
    | FindingLf(kept: Option<string>, cr: int)
    | Splitting(kept: Option<string>, cr: int, lf: int)
    | Writing(line: string, end: char, remaining: string)
    | Keeping(remaining: string)
    | Broken

  /** `input` is everything the thread has passed to `write`. */
  datatype Thread = Thread(index: nat, place: Place, input: string)

  datatype Shared = Shared(buffers: map<nat, string>, written: seq<Record>, threads: seq<Thread>)

  datatype Move = Call(i: nat, out: string) | Advance(i: nat)

  predicate CanMove(s: Shared, m: Move) {
    && m.i < |s.threads|
    && (m.Call? ==> s.threads[m.i].place.Outside?)
    && (m.Advance? ==> !s.threads[m.i].place.Outside? && !s.threads[m.i].place.Broken?)
  }

  predicate Buffered(includeZero: bool, index: nat) {
    index != 0 || includeZero
  }

  function Buffer(s: Shared, index: nat): string {
    if index in s.buffers then s.buffers[index] else ""
  }

  /** Python's `split` with one split, unpacked into two: it fails where there is no separator. */
  function Split(text: string, end: char): Place {
    var at := Find(text, end);
    if at < 0 then Broken
    else if at == 0 then Keeping(text[1..])
    else Writing(text[..at], end, text[at + 1..])
  }

  /** The next place of a thread that finds `text` in its buffer. */
  function Next(place: Place, text: string): Place {
    match place
    case Reading(out) => Storing(text + out)
    case Storing(_) => FindingCr(None)
    case FindingCr(kept) => FindingLf(kept, Find(text, '\r'))
    case FindingLf(kept, cr) =>
      var lf := Find(text, '\n');
      if cr == -1 && lf == -1 then Outside else Splitting(kept, cr, lf)
    case Splitting(kept, cr, lf) =>
      if cr == -1 || (0 <= lf < cr) then Split(text, '\n')
      else if lf == -1 || (0 <= cr < lf) then Split(text, '\r')
      else if kept.Some? then Keeping(kept.value)
      else Broken
    case Writing(_, _, remaining) => Keeping(remaining)
    case Keeping(remaining) => FindingCr(Some(remaining))
    case _ => place
  }

  function Stored(place: Place, text: string): string {
    match place
    case Storing(longer) => longer
    case Keeping(remaining) => remaining
    case _ => text
  }

  function Emitted(index: nat, place: Place): seq<Record> {
    if place.Writing? then [Line(index, place.line, place.end)] else []
  }

  function Apply(includeZero: bool, s: Shared, m: Move): Shared
    requires CanMove(s, m)
  {
    var thread := s.threads[m.i];
    var text := Buffer(s, thread.index);
    match m
    case Call(i, out) =>
      var called := thread.(input := thread.input + out);
      if Buffered(includeZero, thread.index) then
        s.(buffers := s.buffers[thread.index := text], threads := s.threads[i := called.(place := Reading(out))])
      else
        s.(written := s.written + [Raw(out)], threads := s.threads[i := called])
    case Advance(i) =>
      Shared(s.buffers[thread.index := Stored(thread.place, text)],
             s.written + Emitted(thread.index, thread.place),
             s.threads[i := thread.(place := Next(thread.place, text))])
  }

  /** A thread with index 0 writes through at once unless zero is included; any other call only notes its text
      and makes room for a buffer, and writes nothing. */
  lemma CallLaw(includeZero: bool, s: Shared, i: nat, out: string)
    requires CanMove(s, Call(i, out))
    ensures var t, index := Apply(includeZero, s, Call(i, out)), s.threads[i].index;
      && t.threads[i].input == s.threads[i].input + out && t.threads[i].index == index
      && (forall j :: 0 <= j < |s.threads| && j != i ==> t.threads[j] == s.threads[j])
      && (index == 0 && !includeZero ==>
            t.written == s.written + [Raw(out)] && t.buffers == s.buffers && t.threads[i].place == Outside)
      && (index != 0 || includeZero ==>
            && t.written == s.written && t.threads[i].place == Reading(out)
            && t.buffers == s.buffers[index := if index in s.buffers then s.buffers[index] else ""])
  {
  }

  ghost predicate IsRun(includeZero: bool, s: Shared, moves: seq<Move>)
    decreases |moves|
  {
    moves == [] || (CanMove(s, moves[0]) && IsRun(includeZero, Apply(includeZero, s, moves[0]), moves[1..]))
  }

  ghost function Exec(includeZero: bool, s: Shared, moves: seq<Move>): Shared
    requires IsRun(includeZero, s, moves)
    decreases |moves|
  {
    if moves == [] then s else Exec(includeZero, Apply(includeZero, s, moves[0]), moves[1..])
  }

  /** Threads with these indices, before any of them has written. */
  function Start(indices: seq<nat>): (s: Shared)
    ensures |s.threads| == |indices|
    ensures forall i :: 0 <= i < |indices| ==> s.threads[i] == Thread(indices[i], Outside, "")
  {
    Shared(map[], [], seq(|indices|, i requires 0 <= i < |indices| => Thread(indices[i], Outside, "")))
  }

  /** No two threads that are buffered share an index. */
  ghost predicate OwnIndices(includeZero: bool, threads: seq<Thread>) {
    forall i, j :: 0 <= i < j < |threads| && Buffered(includeZero, threads[i].index) ==>
      threads[i].index != threads[j].index
  }

  // ----- what one thread has written and still has to write

  /** The lines that went out under `index`. */
  function Output(written: seq<Record>, index: nat): seq<Segment> {
    if written == [] then []
    else
      var rest, last := written[..|written| - 1], written[|written| - 1];
      if last.Line? && last.index == index
      then Output(rest, index) + [Segment(last.line, last.end)]
      else Output(rest, index)
  }

  lemma OutputAppend(written: seq<Record>, r: Record, index: nat)
    ensures r.Line? && r.index == index ==>
              Output(written + [r], index) == Output(written, index) + [Segment(r.line, r.end)]
    ensures !(r.Line? && r.index == index) ==> Output(written + [r], index) == Output(written, index)
  {
    assert (written + [r])[..|written|] == written;
  }

  /** The text a thread is still to cut, given what its buffer holds. */
  function Rest(place: Place, text: string): string {
    match place
    case Reading(out) => text + out
    case Storing(longer) => longer
    case Writing(_, _, remaining) => remaining
    case Keeping(remaining) => remaining
    case _ => text
  }

  /** The line it has taken off and not written yet. */
  function Pending(place: Place): seq<Segment> {
    if place.Writing? then [Segment(place.line, place.end)] else []
  }

  /** What it has found is still so. */
  predicate Current(place: Place, text: string) {
    match place
    case Outside => Unterminated(text)
    case FindingLf(_, cr) => cr == Find(text, '\r')
    case Splitting(_, cr, lf) => cr == Find(text, '\r') && lf == Find(text, '\n') && (cr != -1 || lf != -1)
    case Broken => false
    case _ => true
  }

  /** Written, pending and still to be cut: together the cut of this thread's own input. */
  predicate OnTrack(written: seq<Record>, text: string, thread: Thread) {
    && Current(thread.place, text)
    && Output(written, thread.index) + Pending(thread.place) + Segments("", Rest(thread.place, text))
         == Segments("", thread.input)
    && Tail("", Rest(thread.place, text)) == Tail("", thread.input)
  }

  ghost predicate AllOnTrack(includeZero: bool, s: Shared) {
    forall i :: 0 <= i < |s.threads| && Buffered(includeZero, s.threads[i].index) ==>
      OnTrack(s.written, Buffer(s, s.threads[i].index), s.threads[i])
  }

  lemma CallOnTrack(written: seq<Record>, text: string, thread: Thread, out: string)
    requires OnTrack(written, text, thread) && thread.place.Outside?
    ensures OnTrack(written, text, Thread(thread.index, Reading(out), thread.input + out))
  {
    var output := Output(written, thread.index);
    CutUnterminated("", text);
    assert "" + text == text;
    assert output + [] + [] == output;
    CutConcat("", text, out);
    CutConcat("", thread.input, out);
    assert output + [] + Segments("", text + out) == output + Segments(text, out);
  }

  lemma SplitCuts(text: string, end: char, at: nat)
    requires at == Find(text, end) && IsEnd(end) && Unterminated(text[..at])
    ensures var place := Split(text, end);
      && !place.Outside? && Current(place, text)
      && Pending(place) + Segments("", Rest(place, text)) == Segments("", text)
      && Tail("", Rest(place, text)) == Tail("", text)
  {
    CutAt(text, at);
    assert at == 0 ==> text[1..] == text[at + 1..];
  }

  lemma SplitKeeps(written: seq<Record>, text: string, thread: Thread, next: Place)
    requires OnTrack(written, text, thread) && thread.place.Splitting? && Current(next, text)
    requires Pending(next) + Segments("", Rest(next, text)) == Segments("", text)
    requires Tail("", Rest(next, text)) == Tail("", text)
    ensures OnTrack(written, text, thread.(place := next))
  {
    var output := Output(written, thread.index);
    assert output + [] == output;
    Regroup(output, Pending(next), Segments("", Rest(next, text)));
  }

  lemma SplitOnTrack(written: seq<Record>, text: string, thread: Thread)
    requires OnTrack(written, text, thread) && thread.place.Splitting?
    ensures OnTrack(written, text, thread.(place := Next(thread.place, text)))
  {
    var cr, lf := thread.place.cr, thread.place.lf;
    if cr == -1 || (0 <= lf < cr) {
      SplitCuts(text, '\n', lf);
      SplitKeeps(written, text, thread, Split(text, '\n'));
    } else {
      assert lf == -1 || cr < lf;
      SplitCuts(text, '\r', cr);
      SplitKeeps(written, text, thread, Split(text, '\r'));
    }
  }

  lemma WriteOnTrack(written: seq<Record>, text: string, thread: Thread)
    requires OnTrack(written, text, thread) && thread.place.Writing?
    ensures OnTrack(written + Emitted(thread.index, thread.place), text, thread.(place := Next(thread.place, text)))
  {
    OutputAppend(written, Line(thread.index, thread.place.line, thread.place.end), thread.index);
    var output := Output(written, thread.index) + Pending(thread.place);
    assert output + [] == output;
  }

  /** A thread's own step keeps it on its track. */
  lemma AdvanceOnTrack(written: seq<Record>, text: string, thread: Thread)
    requires OnTrack(written, text, thread) && !thread.place.Outside?
    ensures OnTrack(written + Emitted(thread.index, thread.place), Stored(thread.place, text),
                    thread.(place := Next(thread.place, text)))
  {
    if thread.place.Writing? {
      WriteOnTrack(written, text, thread);
    } else {
      assert written + [] == written;
      if thread.place.Splitting? { SplitOnTrack(written, text, thread); }
    }
  }

  /** Another thread's step leaves it there, because it has another index. */
  lemma OthersOnTrack(written: seq<Record>, text: string, thread: Thread, r: Record)
    requires OnTrack(written, text, thread) && (r.Line? ==> r.index != thread.index)
    ensures OnTrack(written + [r], text, thread)
  {
    OutputAppend(written, r, thread.index);
  }

  lemma StepOfOther(includeZero: bool, s: Shared, m: Move, t: Shared, i: nat)
    requires CanMove(s, m) && t == Apply(includeZero, s, m) && i < |s.threads| && i != m.i
    requires Buffered(includeZero, s.threads[i].index) && s.threads[i].index != s.threads[m.i].index
    requires OnTrack(s.written, Buffer(s, s.threads[i].index), s.threads[i])
    ensures OnTrack(t.written, Buffer(t, t.threads[i].index), t.threads[i])
  {
    var thread, other := s.threads[i], s.threads[m.i];
    var text := Buffer(s, thread.index);
    assert t.threads[i] == thread && Buffer(t, thread.index) == text;
    if m.Call? {
      OthersOnTrack(s.written, text, thread, Raw(m.out));
    } else if other.place.Writing? {
      OthersOnTrack(s.written, text, thread, Line(other.index, other.place.line, other.place.end));
    } else {
      assert t.written == s.written;
    }
  }

  lemma StepOfOwn(includeZero: bool, s: Shared, m: Move, t: Shared)
    requires CanMove(s, m) && t == Apply(includeZero, s, m) && Buffered(includeZero, s.threads[m.i].index)
    requires OnTrack(s.written, Buffer(s, s.threads[m.i].index), s.threads[m.i])
    ensures OnTrack(t.written, Buffer(t, t.threads[m.i].index), t.threads[m.i])
  {
    var thread := s.threads[m.i];
    var text := Buffer(s, thread.index);
    if m.Call? {
      CallOnTrack(s.written, text, thread, m.out);
    } else {
      AdvanceOnTrack(s.written, text, thread);
    }
  }

  lemma StepOnTrack(includeZero: bool, s: Shared, m: Move, t: Shared)
    requires CanMove(s, m) && t == Apply(includeZero, s, m)
    requires OwnIndices(includeZero, s.threads) && AllOnTrack(includeZero, s)
    ensures OwnIndices(includeZero, t.threads) && AllOnTrack(includeZero, t)
  {
    forall i | 0 <= i < |t.threads| && Buffered(includeZero, t.threads[i].index)
      ensures OnTrack(t.written, Buffer(t, t.threads[i].index), t.threads[i])
    {
      assert t.threads[i].index == s.threads[i].index;
      if i == m.i { StepOfOwn(includeZero, s, m, t); } else { StepOfOther(includeZero, s, m, t, i); }
    }
  }

  /** However threads with indices of their own interleave, what each has written, has taken off and
      still has to cut is what its own input alone is cut into; and no split ever fails. */
  lemma {:induction false} ThreadsDoNotMix(includeZero: bool, s: Shared, moves: seq<Move>)
    requires IsRun(includeZero, s, moves) && OwnIndices(includeZero, s.threads) && AllOnTrack(includeZero, s)
    ensures AllOnTrack(includeZero, Exec(includeZero, s, moves))
    ensures |Exec(includeZero, s, moves).threads| == |s.threads|
    ensures forall i :: 0 <= i < |s.threads| ==> Exec(includeZero, s, moves).threads[i].index == s.threads[i].index
    decreases |moves|
  {
    if moves != [] {
      var t := Apply(includeZero, s, moves[0]);
      StepOnTrack(includeZero, s, moves[0], t);
      ThreadsDoNotMix(includeZero, t, moves[1..]);
    }
  }

  /** Whenever a thread is between two writes, exactly the segments of its own input are out under its
      index, and its buffer holds the tail of its input. */
  lemma ThreadOutput(includeZero: bool, indices: seq<nat>, moves: seq<Move>, i: nat)
    requires OwnIndices(includeZero, Start(indices).threads) && IsRun(includeZero, Start(indices), moves)
    requires i < |indices| && Buffered(includeZero, indices[i])
    ensures var s := Exec(includeZero, Start(indices), moves);
      && |s.threads| == |indices| && s.threads[i].index == indices[i]
      && !s.threads[i].place.Broken?
      && (s.threads[i].place.Outside? ==>
            && Output(s.written, indices[i]) == Segments("", s.threads[i].input)
            && Buffer(s, indices[i]) == Tail("", s.threads[i].input))
  {
    ThreadsDoNotMix(includeZero, Start(indices), moves);
    var s := Exec(includeZero, Start(indices), moves);
    var text := Buffer(s, indices[i]);
    assert OnTrack(s.written, text, s.threads[i]);
    if s.threads[i].place.Outside? {
      CutUnterminated("", text);
      assert "" + text == text;
      assert Output(s.written, indices[i]) + [] + [] == Output(s.written, indices[i]);
    }
  }

  // ----- the threads of the queue

  /** The main thread and every worker that was started. */
  function ThreadIndices(log: seq<Scheduler.Start>): (indices: seq<nat>)
    ensures |indices| == |log| + 1 && indices[0] == 0
    ensures forall k :: 0 <= k < |log| ==> indices[k + 1] == log[k].index
  {
    [0] + seq(|log|, k requires 0 <= k < |log| => log[k].index)
  }

  lemma IndexOfWorker(c: Scheduler.Config, s: Scheduler.State, i: nat)
    requires Scheduler.Reachable(c, s) && c.jobs > 1 && 1 <= i <= |s.log|
    ensures ThreadIndices(s.log)[i] == i
  {
    SchedulerSafety.WorkerIndicesUnique(c, s);
    var k := i - 1;
    assert ThreadIndices(s.log)[k + 1] == s.log[k].index;
  }

  /** With more than one job, they all have indices of their own, those that have ended included. */
  lemma WorkersHaveOwnIndices(c: Scheduler.Config, s: Scheduler.State, includeZero: bool)
    requires Scheduler.Reachable(c, s) && c.jobs > 1
    ensures OwnIndices(includeZero, Start(ThreadIndices(s.log)).threads)
  {
    var indices := ThreadIndices(s.log);
    forall k | 0 <= k < |indices| ensures indices[k] == k {
      if k > 0 { IndexOfWorker(c, s, k); }
    }
  }

  /** So the output of the queue's workers never mixes: here that of the `i`th to start. */
  lemma WorkersDoNotMix(c: Scheduler.Config, s: Scheduler.State, includeZero: bool, moves: seq<Move>, i: nat)
    requires Scheduler.Reachable(c, s) && c.jobs > 1 && 1 <= i <= |s.log|
    requires IsRun(includeZero, Start(ThreadIndices(s.log)), moves)
    ensures var t := Exec(includeZero, Start(ThreadIndices(s.log)), moves);
      && |t.threads| == |s.log| + 1 && t.threads[i].index == i
      && (t.threads[i].place.Outside? ==>
            && Output(t.written, i) == Segments("", t.threads[i].input)
            && Buffer(t, i) == Tail("", t.threads[i].input))
  {
    WorkersHaveOwnIndices(c, s, includeZero);
    IndexOfWorker(c, s, i);
    ThreadOutput(includeZero, ThreadIndices(s.log), moves, i);
  }

  // ----- why the indices matter

  /** If the run leaves thread `i` between two writes, and it is buffered, then exactly the segments of
      its own input are out under its index and its buffer holds the tail. */
  ghost predicate Kept(includeZero: bool, indices: seq<nat>, moves: seq<Move>, i: nat)
    requires IsRun(includeZero, Start(indices), moves)
  {
    var s := Exec(includeZero, Start(indices), moves);
    i < |indices| && i < |s.threads| && Buffered(includeZero, indices[i]) && s.threads[i].place.Outside? ==>
      && Output(s.written, indices[i]) == Segments("", s.threads[i].input)
      && Buffer(s, indices[i]) == Tail("", s.threads[i].input)
  }

  lemma {:induction false} RunThen(includeZero: bool, s: Shared, moves: seq<Move>, t: Shared, m: Move, u: Shared)
    returns (more: seq<Move>)
    requires IsRun(includeZero, s, moves) && Exec(includeZero, s, moves) == t
    requires CanMove(t, m) && Apply(includeZero, t, m) == u
    ensures more == moves + [m] && IsRun(includeZero, s, more) && Exec(includeZero, s, more) == u
    decreases |moves|
  {
    more := moves + [m];
    if moves == [] {
      assert more == [m] && more[1..] == [];
    } else {
      var rest := RunThen(includeZero, Apply(includeZero, s, moves[0]), moves[1..], t, m, u);
      assert more[1..] == rest;
    }
  }

  /** Threads `i` and `j` are at these places and share a buffer with this text; nothing is written. */
  function Two(indices: seq<nat>, i: nat, j: nat, first: Place, second: Place, text: string): Shared
    requires i < j < |indices|
  {
    Shared(map[indices[i] := text], [],
           Start(indices).threads[i := Thread(indices[i], first, "a")][j := Thread(indices[j], second, "b")])
  }

  predicate Sharing(includeZero: bool, indices: seq<nat>, i: nat, j: nat) {
    i < j < |indices| && indices[i] == indices[j] && Buffered(includeZero, indices[i])
  }

  lemma FirstAdvances(includeZero: bool, indices: seq<nat>, i: nat, j: nat, first: Place, second: Place, text: string)
    requires Sharing(includeZero, indices, i, j) && !first.Outside? && !first.Broken? && !first.Writing?
    ensures CanMove(Two(indices, i, j, first, second, text), Advance(i))
    ensures Apply(includeZero, Two(indices, i, j, first, second, text), Advance(i)) ==
              Two(indices, i, j, Next(first, text), second, Stored(first, text))
  {
    var s := Two(indices, i, j, first, second, text);
    var t := Apply(includeZero, s, Advance(i));
    assert t.threads == Two(indices, i, j, Next(first, text), second, Stored(first, text)).threads;
    assert s.written + [] == s.written;
  }

  lemma SecondAdvances(includeZero: bool, indices: seq<nat>, i: nat, j: nat, first: Place, second: Place, text: string)
    requires Sharing(includeZero, indices, i, j) && !second.Outside? && !second.Broken? && !second.Writing?
    ensures CanMove(Two(indices, i, j, first, second, text), Advance(j))
    ensures Apply(includeZero, Two(indices, i, j, first, second, text), Advance(j)) ==
              Two(indices, i, j, first, Next(second, text), Stored(second, text))
  {
    var s := Two(indices, i, j, first, second, text);
    var t := Apply(includeZero, s, Advance(j));
    assert t.threads == Two(indices, i, j, first, Next(second, text), Stored(second, text)).threads;
    assert s.written + [] == s.written;
  }

  /** Both call `write`, `i` with "a" and `j` with "b", and read the empty buffer. */
  lemma BothCall(includeZero: bool, indices: seq<nat>, i: nat, j: nat) returns (moves: seq<Move>)
    requires Sharing(includeZero, indices, i, j)
    ensures IsRun(includeZero, Start(indices), moves)
    ensures Exec(includeZero, Start(indices), moves) == Two(indices, i, j, Reading("a"), Reading("b"), "")
  {
    var s := Start(indices);
    assert "" + "a" == "a" && "" + "b" == "b";
    var t := Apply(includeZero, s, Call(i, "a"));
    moves := RunThen(includeZero, s, [], s, Call(i, "a"), t);
    var u := Apply(includeZero, t, Call(j, "b"));
    moves := RunThen(includeZero, s, moves, t, Call(j, "b"), u);
    assert u.threads == Two(indices, i, j, Reading("a"), Reading("b"), "").threads;
    assert u.buffers == map[indices[i] := ""];
  }

  lemma FirstMoves(includeZero: bool, indices: seq<nat>, i: nat, j: nat, moves: seq<Move>,
                   first: Place, second: Place, text: string)
    returns (more: seq<Move>)
    requires Sharing(includeZero, indices, i, j) && !first.Outside? && !first.Broken? && !first.Writing?
    requires IsRun(includeZero, Start(indices), moves)
    requires Exec(includeZero, Start(indices), moves) == Two(indices, i, j, first, second, text)
    ensures IsRun(includeZero, Start(indices), more)
    ensures Exec(includeZero, Start(indices), more) ==
              Two(indices, i, j, Next(first, text), second, Stored(first, text))
  {
    FirstAdvances(includeZero, indices, i, j, first, second, text);
    more := RunThen(includeZero, Start(indices), moves, Two(indices, i, j, first, second, text), Advance(i),
                    Two(indices, i, j, Next(first, text), second, Stored(first, text)));
  }

  lemma SecondMoves(includeZero: bool, indices: seq<nat>, i: nat, j: nat, moves: seq<Move>,
                    first: Place, second: Place, text: string)
    returns (more: seq<Move>)
    requires Sharing(includeZero, indices, i, j) && !second.Outside? && !second.Broken? && !second.Writing?
    requires IsRun(includeZero, Start(indices), moves)
    requires Exec(includeZero, Start(indices), moves) == Two(indices, i, j, first, second, text)
    ensures IsRun(includeZero, Start(indices), more)
    ensures Exec(includeZero, Start(indices), more) ==
              Two(indices, i, j, first, Next(second, text), Stored(second, text))
  {
    SecondAdvances(includeZero, indices, i, j, first, second, text);
    more := RunThen(includeZero, Start(indices), moves, Two(indices, i, j, first, second, text), Advance(j),
                    Two(indices, i, j, first, Next(second, text), Stored(second, text)));
  }

  /** Both read before either has stored, and the second store undoes the first. */
  lemma BothStore(includeZero: bool, indices: seq<nat>, i: nat, j: nat) returns (moves: seq<Move>)
    requires Sharing(includeZero, indices, i, j)
    ensures IsRun(includeZero, Start(indices), moves)
    ensures Exec(includeZero, Start(indices), moves) == Two(indices, i, j, FindingCr(None), FindingCr(None), "b")
  {
    assert "" + "a" == "a" && "" + "b" == "b";
    moves := BothCall(includeZero, indices, i, j);
    moves := FirstMoves(includeZero, indices, i, j, moves, Reading("a"), Reading("b"), "");
    moves := SecondMoves(includeZero, indices, i, j, moves, Storing("a"), Reading("b"), "");
    moves := FirstMoves(includeZero, indices, i, j, moves, Storing("a"), Storing("b"), "");
    moves := SecondMoves(includeZero, indices, i, j, moves, FindingCr(None), Storing("b"), "a");
  }

  /** Wherever two buffered threads share an index, one can lose its text. */
  lemma SharedIndexLosesText(includeZero: bool, indices: seq<nat>, i: nat, j: nat) returns (moves: seq<Move>)
    requires Sharing(includeZero, indices, i, j)
    ensures IsRun(includeZero, Start(indices), moves)
    ensures Exec(includeZero, Start(indices), moves) == Two(indices, i, j, Outside, Outside, "b")
  {
    var cr, lf := FindingCr(None), FindingLf(None, -1);
    assert Next(cr, "b") == lf && Next(lf, "b") == Outside;
    moves := BothStore(includeZero, indices, i, j);
    moves := FirstMoves(includeZero, indices, i, j, moves, cr, cr, "b");
    moves := FirstMoves(includeZero, indices, i, j, moves, lf, cr, "b");
    moves := SecondMoves(includeZero, indices, i, j, moves, Outside, cr, "b");
    moves := SecondMoves(includeZero, indices, i, j, moves, Outside, lf, "b");
  }

  lemma SharedIndexIsNotKept(includeZero: bool, indices: seq<nat>, i: nat, j: nat) returns (moves: seq<Move>)
    requires Sharing(includeZero, indices, i, j)
    ensures IsRun(includeZero, Start(indices), moves) && !Kept(includeZero, indices, moves, i)
  {
    moves := SharedIndexLosesText(includeZero, indices, i, j);
    CutUnterminated("", "a");
    assert "" + "a" == "a";
  }

  /** The exact condition: in every interleaving every buffered thread keeps its output if and only if
      no two of them share an index. */
  lemma KeptIffOwnIndices(includeZero: bool, indices: seq<nat>)
    ensures OwnIndices(includeZero, Start(indices).threads) <==>
              forall moves, i: nat :: IsRun(includeZero, Start(indices), moves) ==> Kept(includeZero, indices, moves, i)
  {
    var threads := Start(indices).threads;
    if OwnIndices(includeZero, threads) {
      forall moves, i: nat | IsRun(includeZero, Start(indices), moves) ensures Kept(includeZero, indices, moves, i) {
        if i < |indices| && Buffered(includeZero, indices[i]) { ThreadOutput(includeZero, indices, moves, i); }
      }
    } else {
      var i: nat, j: nat :|
        i < j < |threads| && Buffered(includeZero, threads[i].index) && threads[i].index == threads[j].index;
      var moves := SharedIndexIsNotKept(includeZero, indices, i, j);
    }
  }
}
