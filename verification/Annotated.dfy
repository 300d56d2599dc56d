/** `Annotated.write`: output of worker threads, cut into lines and prefixed per thread. */
module Annotated {

  /** One call of the wrapped `write`: raw text, or `index>line` with its terminator. */
  datatype Record = Raw(text: string) | Line(index: nat, line: string, end: char)

  datatype Segment = Segment(line: string, end: char)

  predicate IsEnd(c: char) {
    c == '\r' || c == '\n'
  }

  predicate Unterminated(s: string) {
    forall i :: 0 <= i < |s| ==> !IsEnd(s[i])
  }

  // ----- what a stream of characters is cut into, one character at a time

  /** The non-empty segments of `held + s` that end in CR or LF, where `held` is unterminated. */
  function Segments(held: string, s: string): seq<Segment>
    decreases |s|
  {
    if s == "" then []
    else if IsEnd(s[0])
    then (if held == "" then [] else [Segment(held, s[0])]) + Segments("", s[1..])
    else Segments(held + [s[0]], s[1..])
  }

  /** What is left of `held + s` after its last terminator. */
  function Tail(held: string, s: string): string
    decreases |s|
  {
    if s == "" then held
    else if IsEnd(s[0]) then Tail("", s[1..])
    else Tail(held + [s[0]], s[1..])
  }

  /** Cutting does not depend on how the stream was split. */
  lemma {:induction false} CutConcat(held: string, s: string, t: string)
    ensures Segments(held, s + t) == Segments(held, s) + Segments(Tail(held, s), t)
    ensures Tail(held, s + t) == Tail(Tail(held, s), t)
    decreases |s|
  {
    if s == "" {
      assert s + t == t;
    } else {
      assert (s + t)[1..] == s[1..] + t;
      CutConcat(if IsEnd(s[0]) then "" else held + [s[0]], s[1..], t);
    }
  }

  lemma {:induction false} CutUnterminated(held: string, s: string)
    requires Unterminated(s)
    ensures Segments(held, s) == [] && Tail(held, s) == held + s
    decreases |s|
  {
    if s != "" {
      CutUnterminated(held + [s[0]], s[1..]);
      assert held + [s[0]] + s[1..] == held + s;
    }
  }

  lemma {:induction false} TailUnterminated(held: string, s: string)
    requires Unterminated(held)
    ensures Unterminated(Tail(held, s))
    decreases |s|
  {
    if s != "" { TailUnterminated(if IsEnd(s[0]) then "" else held + [s[0]], s[1..]); }
  }

  /** Cutting a line off the front. */
  lemma CutLine(line: string, end: char, rest: string)
    requires Unterminated(line) && IsEnd(end)
    ensures Segments("", line + [end] + rest) ==
              (if line == "" then [] else [Segment(line, end)]) + Segments("", rest)
    ensures Tail("", line + [end] + rest) == Tail("", rest)
  {
    CutConcat("", line, [end] + rest);
    CutUnterminated("", line);
    assert line + [end] + rest == line + ([end] + rest);
    assert ([end] + rest)[1..] == rest;
    assert "" + line == line;
  }

  lemma CutAt(text: string, at: nat)
    requires at < |text| && Unterminated(text[..at]) && IsEnd(text[at])
    ensures Segments("", text) ==
              (if at == 0 then [] else [Segment(text[..at], text[at])]) + Segments("", text[at + 1..])
    ensures Tail("", text) == Tail("", text[at + 1..])
  {
    assert text == text[..at] + [text[at]] + text[at + 1..];
    CutLine(text[..at], text[at], text[at + 1..]);
  }

  /** Text up to a carriage return or a line feed is one segment, if there is any, and the rest is cut by
      itself; text with neither is what is left. */
  lemma LineLaw(line: string, end: char, rest: string)
    requires '\r' !in line && '\n' !in line && (end == '\r' || end == '\n')
    ensures Segments("", line + [end] + rest) == (if line == "" then [] else [Segment(line, end)]) + Segments("", rest)
    ensures Tail("", line + [end] + rest) == Tail("", rest)
    ensures Segments("", line) == [] && Tail("", line) == line
  {
    CutLine(line, end, rest);
    CutUnterminated("", line);
    assert "" + line == line;
  }

  /** The segments and the tail, with the terminators that ended empty segments left out, are
      the stream: nothing is lost and nothing is made up. */
  function Joined(segments: seq<Segment>): string {
    if segments == [] then "" else segments[0].line + Joined(segments[1..])
  }

  function Kept(s: string): string {
    if s == "" then "" else if IsEnd(s[0]) then Kept(s[1..]) else [s[0]] + Kept(s[1..])
  }

  lemma {:induction false} NothingLost(held: string, s: string)
    requires Unterminated(held)
    ensures Joined(Segments(held, s)) + Tail(held, s) == held + Kept(s)
    ensures forall k :: 0 <= k < |Segments(held, s)| ==>
              var segment := Segments(held, s)[k];
              segment.line != "" && Unterminated(segment.line) && IsEnd(segment.end)
    decreases |s|
  {
    if s != "" {
      if IsEnd(s[0]) {
        NothingLost("", s[1..]);
        var segments, rest := Segments(held, s), Segments("", s[1..]);
        if held == "" {
          assert segments == rest;
        } else {
          assert segments[1..] == rest && segments[0] == Segment(held, s[0]);
          assert held + Joined(rest) + Tail("", s[1..]) == held + (Joined(rest) + Tail("", s[1..]));
        }
      } else {
        NothingLost(held + [s[0]], s[1..]);
        assert held + [s[0]] + Kept(s[1..]) == held + ([s[0]] + Kept(s[1..]));
      }
    }
  }

  // ----- the code

  /** `find`: the first position of `c`, or -1. */
  function Find(s: string, c: char): (i: int)
    ensures -1 <= i < |s|
    ensures i >= 0 ==> s[i] == c && forall k :: 0 <= k < i ==> s[k] != c
    ensures i < 0 ==> forall k :: 0 <= k < |s| ==> s[k] != c
  {
    if s == "" then -1
    else if s[0] == c then 0
    else var i := Find(s[1..], c); if i < 0 then -1 else i + 1
  }

  function Tagged(index: nat, segments: seq<Segment>): (records: seq<Record>)
    ensures |records| == |segments|
    ensures forall k :: 0 <= k < |segments| ==>
              records[k] == Line(index, segments[k].line, segments[k].end)
  {
    seq(|segments|, k requires 0 <= k < |segments| => Line(index, segments[k].line, segments[k].end))
  }

  lemma TaggedAppend(index: nat, a: seq<Segment>, b: seq<Segment>)
    ensures Tagged(index, a + b) == Tagged(index, a) + Tagged(index, b)
  {
  }

  lemma Regroup(a: seq<Segment>, b: seq<Segment>, c: seq<Segment>)
    ensures a + (b + c) == (a + b) + c
  {
  }

  class AnnotatedFile {
    const includeZero: bool
    var buffers: map<nat, string>
    var written: seq<Record>

    constructor (includeZero: bool)
      ensures buffers == map[] && written == [] && this.includeZero == includeZero
    {
      this.includeZero := includeZero;
      buffers, written := map[], [];
    }

    function Held(index: nat): string
      reads this
    {
      if index in buffers then buffers[index] else ""
    }

    /** One round of the loop: the first line of the buffer goes out, if it is not empty. */
    method EmitLine(index: nat, at: nat, end: char)
      requires index in buffers && at < |buffers[index]| && buffers[index][at] == end
      modifies this
      ensures buffers == old(buffers)[index := old(buffers[index])[at + 1..]]
      ensures written == old(written) + (if at == 0 then [] else [Line(index, old(buffers[index])[..at], end)])
    {
      var line, remaining := buffers[index][..at], buffers[index][at + 1..];
      if line != "" { written := written + [Line(index, line, end)]; }
      buffers := buffers[index := remaining];
    }

    /** One round, if the buffer holds a terminator; `more` is what it emits. */
    method EmitFirst(index: nat) returns (found: bool, ghost more: seq<Segment>)
      requires index in buffers
      modifies this
      ensures index in buffers && buffers == old(buffers)[index := buffers[index]]
      ensures written == old(written) + Tagged(index, more)
      ensures more + Segments("", buffers[index]) == Segments("", old(buffers[index]))
      ensures Tail("", buffers[index]) == Tail("", old(buffers[index]))
      ensures if found then |buffers[index]| < |old(buffers[index])| else more == [] && Unterminated(buffers[index])
    {
      ghost var text := buffers[index];
      var cr, lf := Find(buffers[index], '\r'), Find(buffers[index], '\n');
      found, more := cr != -1 || lf != -1, [];
      if found {
        var at, end := if cr == -1 || (0 <= lf < cr) then lf else cr, if cr == -1 || (0 <= lf < cr) then '\n' else '\r';
        CutAt(text, at);
        more := if at == 0 then [] else [Segment(text[..at], end)];
        EmitLine(index, at, end);
      }
    }

    /** The loop of `write`: emits lines until the buffer holds no terminator. */
    method EmitLines(index: nat)
      requires index in buffers
      modifies this
      ensures written == old(written) + Tagged(index, Segments("", old(buffers[index])))
      ensures buffers == old(buffers)[index := Tail("", old(buffers[index]))]
    {
      ghost var emitted: seq<Segment> := [];
      while true
        invariant index in buffers && buffers == old(buffers)[index := buffers[index]]
        invariant written == old(written) + Tagged(index, emitted)
        invariant emitted + Segments("", buffers[index]) == Segments("", old(buffers[index]))
        invariant Tail("", buffers[index]) == Tail("", old(buffers[index]))
        decreases |buffers[index]|
      {
        var found, more := EmitFirst(index);
        TaggedAppend(index, emitted, more);
        Regroup(emitted, more, Segments("", buffers[index]));
        emitted := emitted + more;
        if !found {
          CutUnterminated("", buffers[index]);
          assert "" + buffers[index] == buffers[index];
          break;
        }
      }
    }

    method Write(index: nat, out: string)
      modifies this
      ensures index == 0 && !includeZero ==>
                written == old(written) + [Raw(out)] && buffers == old(buffers)
      ensures index != 0 || includeZero ==>
                && written == old(written) + Tagged(index, Segments("", old(Held(index)) + out))
                && buffers == old(buffers)[index := Tail("", old(Held(index)) + out)]
    {
      if index == 0 && !includeZero {
        written := written + [Raw(out)];
        return;
      }
      if index !in buffers { buffers := buffers[index := ""]; }
      buffers := buffers[index := buffers[index] + out];
      assert buffers[index] == old(Held(index)) + out;
      EmitLines(index);
    }
  }
}
