/** cpplint's bracket matchers: forward, backward, and the one of `_GetTextInside`. */
module Brackets {
  import opened Strings

  /** What a scan of one line ends with: a position, a mismatch, or a stack to carry on with. */
  datatype Scan = Found(pos: nat) | Failed | Open(stack: seq<char>)

  /** A position in the file, or nowhere. */
  datatype Place = At(line: nat, pos: nat) | Nowhere

  predicate IsOpener(c: char) { c == '(' || c == '[' || c == '{' }

  predicate IsCloser(c: char) { c == ')' || c == ']' || c == '}' }

  predicate Pairs(opener: char, closer: char) {
    (opener == '(' && closer == ')') || (opener == '[' && closer == ']') || (opener == '{' && closer == '}')
  }

  function CloserOf(opener: char): char {
    if opener == '(' then ')' else if opener == '[' then ']' else '}'
  }

  function Last(stack: seq<char>): char
    requires stack != []
  {
    stack[|stack| - 1]
  }

  function Pop(stack: seq<char>): seq<char>
    requires stack != []
  {
    stack[..|stack| - 1]
  }

  /** The search for `\boperator\s*$`. */
  predicate EndsWithOperator(s: string) {
    var t := TrimRight(s);
    && |t| >= 8
    && t[|t| - 8..] == "operator"
    && (|t| == 8 || !IsWord(t[|t| - 9]))
  }

  /** Drops tentative template brackets from the top of the stack. */
  function DropTop(stack: seq<char>, c: char): seq<char> {
    if stack != [] && Last(stack) == c then DropTop(Pop(stack), c) else stack
  }

  // ----- forward, one line

  /** What the forward scan does with `c`, found at `i`; `Open` means go on.  The flags say
      whether the character follows a `<`, follows the word `operator`, or is a `>` to ignore. */
  function EndMove(c: char, i: nat, afterLess: bool, named: bool, ignored: bool, stack: seq<char>): Scan {
    if IsOpener(c) then Open(stack + [c])
    else if c == '<' then
      if afterLess then
        if stack != [] && Last(stack) == '<'
        then (if |stack| == 1 then Failed else Open(Pop(stack)))
        else Open(stack)
      else if named then Open(stack)
      else Open(stack + ['<'])
    else if IsCloser(c) then
      var rest := DropTop(stack, '<');
      if rest == [] || !Pairs(Last(rest), c) then Failed
      else if |rest| == 1 then Found(i + 1)
      else Open(Pop(rest))
    else if c == '>' then
      if ignored then Open(stack)
      else if stack != [] && Last(stack) == '<'
      then (if |stack| == 1 then Found(i + 1) else Open(Pop(stack)))
      else Open(stack)
    else if c == ';' then
      var rest := DropTop(stack, '<');
      if rest == [] then Failed else Open(rest)
    else Open(stack)
  }

  function EndStep(line: string, i: nat, stack: seq<char>): Scan
    requires i < |line|
  {
    EndMove(line[i], i,
            i > 0 && line[i - 1] == '<',
            i > 0 && EndsWithOperator(line[..i]),
            i > 0 && (line[i - 1] == '-' || EndsWithOperator(line[..i - 1])),
            stack)
  }

  function FindEnd(line: string, i: nat, stack: seq<char>): Scan
    requires i <= |line|
    decreases |line| - i
  {
    if i == |line| then Open(stack)
    else
      var next := EndStep(line, i, stack);
      if next.Open? then FindEnd(line, i + 1, next.stack) else next
  }

  method PopWhile(stack: seq<char>, c: char) returns (r: seq<char>)
    ensures r == DropTop(stack, c)
  {
    r := stack;
    while r != [] && Last(r) == c
      invariant DropTop(r, c) == DropTop(stack, c)
    {
      r := Pop(r);
    }
  }

  method FindEndOfExpressionInLine(line: string, startpos: nat, initial: seq<char>) returns (r: Scan)
    requires startpos <= |line|
    ensures r == FindEnd(line, startpos, initial)
  {
    var stack := initial;
    for i := startpos to |line|
      invariant FindEnd(line, i, stack) == FindEnd(line, startpos, initial)
    {
      var c := line[i];
      if IsOpener(c) {
        stack := stack + [c];
      } else if c == '<' {
        if i > 0 && line[i - 1] == '<' {
          if stack != [] && Last(stack) == '<' {
            stack := Pop(stack);
            if stack == [] { return Failed; }
          }
        } else if i > 0 && EndsWithOperator(line[..i]) {
          continue;
        } else {
          stack := stack + ['<'];
        }
      } else if IsCloser(c) {
        stack := PopWhile(stack, '<');
        if stack == [] { return Failed; }
        if Pairs(Last(stack), c) {
          stack := Pop(stack);
          if stack == [] { return Found(i + 1); }
        } else {
          return Failed;
        }
      } else if c == '>' {
        if i > 0 && (line[i - 1] == '-' || EndsWithOperator(line[..i - 1])) {
          continue;
        }
        if stack != [] && Last(stack) == '<' {
          stack := Pop(stack);
          if stack == [] { return Found(i + 1); }
        }
      } else if c == ';' {
        stack := PopWhile(stack, '<');
        if stack == [] { return Failed; }
      }
    }
    return Open(stack);
  }

  // ----- forward, many lines

  function CloseFrom(lines: seq<string>, linenum: nat, pos: nat, stack: seq<char>): Place
    requires linenum < |lines| && pos <= |lines[linenum]|
    decreases |lines| - linenum
  {
    match FindEnd(lines[linenum], pos, stack)
    case Found(end) => At(linenum, end)
    case Failed => Nowhere
    case Open(rest) =>
      if rest != [] && linenum + 1 < |lines| then CloseFrom(lines, linenum + 1, 0, rest) else Nowhere
  }

  predicate StartsShift(line: string, pos: nat)
    requires pos < |line|
  {
    line[pos] == '<' && pos + 1 < |line| && (line[pos + 1] == '<' || line[pos + 1] == '=')
  }

  function Close(lines: seq<string>, linenum: nat, pos: nat): Place
    requires linenum < |lines| && pos < |lines[linenum]|
  {
    var line := lines[linenum];
    if !(IsOpener(line[pos]) || line[pos] == '<') || StartsShift(line, pos) then Nowhere
    else CloseFrom(lines, linenum, pos, [])
  }

  method CloseExpression(lines: seq<string>, linenum: nat, pos: nat) returns (r: Place)
    requires linenum < |lines| && pos < |lines[linenum]|
    ensures r == Close(lines, linenum, pos)
  {
    var line := lines[linenum];
    if !(IsOpener(line[pos]) || line[pos] == '<') || StartsShift(line, pos) { return Nowhere; }
    var scan := FindEndOfExpressionInLine(line, pos, []);
    if scan.Found? { return At(linenum, scan.pos); }
    var n := linenum;
    while scan.Open? && scan.stack != [] && n < |lines| - 1
      invariant linenum <= n < |lines| && !scan.Found?
      invariant Close(lines, linenum, pos) ==
                  if scan.Open? && scan.stack != [] && n + 1 < |lines|
                  then CloseFrom(lines, n + 1, 0, scan.stack) else Nowhere
      decreases |lines| - n
    {
      n := n + 1;
      scan := FindEndOfExpressionInLine(lines[n], 0, scan.stack);
      if scan.Found? { return At(n, scan.pos); }
    }
    return Nowhere;
  }

  // ----- backward, one line

  /** Whether the `>` at `i` is part of `->`, ` >= ` or `operator>`. */
  predicate ArrowOrOperator(line: string, i: nat)
    requires i < |line|
  {
    i > 0 &&
    ( || line[i - 1] == '-'
      || (i + 2 < |line| && IsSpace(line[i - 1]) && line[i + 1] == '=' && IsSpace(line[i + 2]))
      || EndsWithOperator(line[..i]))
  }

  /** Whether the scan also skips the character before `i`. */
  predicate SkipsTwo(line: string, i: nat)
    requires i < |line|
  {
    || (line[i] == '>' && ArrowOrOperator(line, i))
    || (line[i] == '<' && i > 0 && line[i - 1] == '<')
  }

  function StartMove(c: char, i: nat, skips: bool, stack: seq<char>): Scan {
    if IsCloser(c) then Open(stack + [c])
    else if c == '>' then (if skips then Open(stack) else Open(stack + ['>']))
    else if c == '<' then
      if skips then Open(stack)
      else if stack != [] && Last(stack) == '>'
      then (if |stack| == 1 then Found(i) else Open(Pop(stack)))
      else Open(stack)
    else if IsOpener(c) then
      var rest := DropTop(stack, '>');
      if rest == [] || !Pairs(c, Last(rest)) then Failed
      else if |rest| == 1 then Found(i)
      else Open(Pop(rest))
    else if c == ';' then
      var rest := DropTop(stack, '>');
      if rest == [] then Failed else Open(rest)
    else Open(stack)
  }

  function StartStep(line: string, i: nat, stack: seq<char>): Scan
    requires i < |line|
  {
    StartMove(line[i], i, SkipsTwo(line, i), stack)
  }

  function FindStart(line: string, i: int, stack: seq<char>): Scan
    requires -1 <= i < |line|
    decreases i + 1
  {
    if i < 0 then Open(stack)
    else
      var next := StartStep(line, i, stack);
      if next.Open? then FindStart(line, if SkipsTwo(line, i) then i - 2 else i - 1, next.stack) else next
  }

  method FindStartOfExpressionInLine(line: string, endpos: int, initial: seq<char>) returns (r: Scan)
    requires -1 <= endpos < |line|
    ensures r == FindStart(line, endpos, initial)
  {
    var stack, i := initial, endpos;
    while i >= 0
      invariant -1 <= i < |line|
      invariant FindStart(line, i, stack) == FindStart(line, endpos, initial)
    {
      var c := line[i];
      if IsCloser(c) {
        stack := stack + [c];
      } else if c == '>' {
        if ArrowOrOperator(line, i) {
          i := i - 1;
        } else {
          stack := stack + ['>'];
        }
      } else if c == '<' {
        if i > 0 && line[i - 1] == '<' {
          i := i - 1;
        } else if stack != [] && Last(stack) == '>' {
          stack := Pop(stack);
          if stack == [] { return Found(i); }
        }
      } else if IsOpener(c) {
        stack := PopWhile(stack, '>');
        if stack == [] { return Failed; }
        if Pairs(c, Last(stack)) {
          stack := Pop(stack);
          if stack == [] { return Found(i); }
        } else {
          return Failed;
        }
      } else if c == ';' {
        stack := PopWhile(stack, '>');
        if stack == [] { return Failed; }
      }
      i := i - 1;
    }
    return Open(stack);
  }

  // ----- backward, many lines

  function ReverseFrom(lines: seq<string>, linenum: nat, pos: int, stack: seq<char>): Place
    requires linenum < |lines| && -1 <= pos < |lines[linenum]|
    decreases linenum
  {
    match FindStart(lines[linenum], pos, stack)
    case Found(start) => At(linenum, start)
    case Failed => Nowhere
    case Open(rest) =>
      if rest != [] && linenum > 0
      then ReverseFrom(lines, linenum - 1, |lines[linenum - 1]| - 1, rest) else Nowhere
  }

  function ReverseClose(lines: seq<string>, linenum: nat, pos: nat): Place
    requires linenum < |lines| && pos < |lines[linenum]|
  {
    if IsCloser(lines[linenum][pos]) || lines[linenum][pos] == '>'
    then ReverseFrom(lines, linenum, pos, []) else Nowhere
  }

  method ReverseCloseExpression(lines: seq<string>, linenum: nat, pos: nat) returns (r: Place)
    requires linenum < |lines| && pos < |lines[linenum]|
    ensures r == ReverseClose(lines, linenum, pos)
  {
    var line := lines[linenum];
    if !(IsCloser(line[pos]) || line[pos] == '>') { return Nowhere; }
    var scan := FindStartOfExpressionInLine(line, pos, []);
    if scan.Found? { return At(linenum, scan.pos); }
    var n := linenum;
    while scan.Open? && scan.stack != [] && n > 0
      invariant n <= linenum && !scan.Found?
      invariant ReverseClose(lines, linenum, pos) ==
                  if scan.Open? && scan.stack != [] && n > 0
                  then ReverseFrom(lines, n - 1, |lines[n - 1]| - 1, scan.stack) else Nowhere
      decreases n
    {
      n := n - 1;
      scan := FindStartOfExpressionInLine(lines[n], |lines[n]| - 1, scan.stack);
      if scan.Found? { return At(n, scan.pos); }
    }
    return Nowhere;
  }

  // ----- the independent matcher

  /** The text up to the closer of the last expected punctuation in `stack`. */
  function InsideEnd(text: string, position: nat, stack: seq<char>): (end: Option<nat>)
    requires position <= |text|
    ensures end.Some? ==> position <= end.value <= |text| && (stack != [] ==> position < end.value)
    decreases |text| - position
  {
    if stack == [] then Some(position)
    else if position == |text| then None
    else
      var c := text[position];
      if c == Last(stack) then InsideEnd(text, position + 1, Pop(stack))
      else if IsCloser(c) then None
      else if IsOpener(c) then InsideEnd(text, position + 1, stack + [CloserOf(c)])
      else InsideEnd(text, position + 1, stack)
  }

  /** `start` is where the match of the start pattern ends, when it is found. */
  method GetTextInside(text: string, start: Option<nat>) returns (r: Option<string>)
    requires start.Some? ==> 0 < start.value <= |text| && IsOpener(text[start.value - 1])
    ensures start.None? ==> r == None
    ensures start.Some? ==>
              var end := InsideEnd(text, start.value, [CloserOf(text[start.value - 1])]);
              r == if end.Some? then Some(text[start.value..end.value - 1]) else None
  {
    if start.None? { return None; }
    var stack := [CloserOf(text[start.value - 1])];
    var position := start.value;
    while stack != [] && position < |text|
      invariant start.value <= position <= |text|
      invariant InsideEnd(text, position, stack) == InsideEnd(text, start.value, [CloserOf(text[start.value - 1])])
      invariant stack == [] ==> start.value < position
      decreases |text| - position
    {
      var c := text[position];
      if c == Last(stack) {
        stack := Pop(stack);
      } else if IsCloser(c) {
        return None;
      } else if IsOpener(c) {
        stack := stack + [CloserOf(c)];
      }
      position := position + 1;
    }
    if stack != [] { return None; }
    return Some(text[start.value..position - 1]);
  }
}
