/** cpplint's matchers agree: the template heuristics do not matter for `(`, `[` and `{`, the
    matchers are plain bracket matchers over the joined text, and backward undoes forward. */
module BracketLaws {
  import opened Strings
  import opened Brackets

  // ----- plain bracket matching over one text

  function PlainEndStep(c: char, i: nat, stack: seq<char>): Scan {
    if IsOpener(c) then Open(stack + [c])
    else if IsCloser(c) then
      if stack == [] || !Pairs(Last(stack), c) then Failed
      else if |stack| == 1 then Found(i + 1)
      else Open(Pop(stack))
    else Open(stack)
  }

  function PlainEnd(text: string, i: nat, stack: seq<char>): Scan
    requires i <= |text|
    decreases |text| - i
  {
    if i == |text| then Open(stack)
    else
      var next := PlainEndStep(text[i], i, stack);
      if next.Open? then PlainEnd(text, i + 1, next.stack) else next
  }

  function PlainStartStep(c: char, i: nat, stack: seq<char>): Scan {
    if IsCloser(c) then Open(stack + [c])
    else if IsOpener(c) then
      if stack == [] || !Pairs(c, Last(stack)) then Failed
      else if |stack| == 1 then Found(i)
      else Open(Pop(stack))
    else Open(stack)
  }

  function PlainStart(text: string, i: int, stack: seq<char>): Scan
    requires -1 <= i < |text|
    decreases i + 1
  {
    if i < 0 then Open(stack)
    else
      var next := PlainStartStep(text[i], i, stack);
      if next.Open? then PlainStart(text, i - 1, next.stack) else next
  }

  // ----- backward undoes forward, on one text

  function Mirror(openers: seq<char>): (closers: seq<char>)
    ensures |closers| == |openers|
    ensures forall k :: 0 <= k < |openers| ==> closers[k] == CloserOf(openers[k])
  {
    seq(|openers|, k requires 0 <= k < |openers| => CloserOf(openers[k]))
  }

  predicate Openers(stack: seq<char>) {
    forall k :: 0 <= k < |stack| ==> IsOpener(stack[k])
  }

  lemma MirrorPush(stack: seq<char>, c: char)
    ensures Mirror(stack + [c]) == Mirror(stack) + [CloserOf(c)]
  {
  }

  /** One character, backward, with the mirrored stacks of the forward step. */
  lemma MirrorStep(text: string, i: nat, stack: seq<char>)
    requires i < |text| && stack != [] && Openers(stack)
    ensures var next := PlainEndStep(text[i], i, stack);
      && (next.Open? ==>
            Openers(next.stack) && PlainStart(text, i, Mirror(next.stack)) == PlainStart(text, i - 1, Mirror(stack)))
      && (next.Found? ==> IsCloser(text[i]) && PlainStart(text, i, []) == PlainStart(text, i - 1, Mirror(stack)))
  {
    var c := text[i];
    if IsOpener(c) {
      MirrorPush(stack, c);
      assert Pop(Mirror(stack) + [CloserOf(c)]) == Mirror(stack);
    } else if IsCloser(c) {
      var rest := Pop(stack);
      assert stack == rest + [Last(stack)];
      MirrorPush(rest, Last(stack));
      assert Pairs(Last(stack), c) ==> CloserOf(Last(stack)) == c;
      if rest == [] { assert Mirror(stack) == [CloserOf(Last(stack))] && [] + [c] == [c] && Mirror(rest) == []; }
    }
  }

  /** Where the forward scan holds `stack`, the backward scan from the closer holds its mirror. */
  lemma {:induction false} ScansMeet(text: string, i: nat, stack: seq<char>, end: nat)
    requires i < |text| && stack != [] && Openers(stack) && PlainEnd(text, i, stack) == Found(end)
    ensures i < end <= |text| && IsCloser(text[end - 1])
    ensures i > 0 ==> PlainStart(text, end - 1, []) == PlainStart(text, i - 1, Mirror(stack))
    decreases |text| - i
  {
    MirrorStep(text, i, stack);
    var next := PlainEndStep(text[i], i, stack);
    if next.Open? { ScansMeet(text, i + 1, next.stack, end); }
  }

  lemma ForwardThenBack(text: string, i: nat, end: nat)
    requires i < |text| && IsOpener(text[i]) && PlainEnd(text, i, []) == Found(end)
    ensures i + 1 < end <= |text| && IsCloser(text[end - 1]) && PlainStart(text, end - 1, []) == Found(i)
  {
    assert [] + [text[i]] == [text[i]];
    ScansMeet(text, i + 1, [text[i]], end);
    assert Mirror([text[i]]) == [CloserOf(text[i])];
  }

  predicate Closers(stack: seq<char>) {
    forall k :: 0 <= k < |stack| ==> IsCloser(stack[k])
  }

  function OpenerOf(closer: char): char {
    if closer == ')' then '(' else if closer == ']' then '[' else '{'
  }

  function MirrorBack(closers: seq<char>): (openers: seq<char>)
    ensures |openers| == |closers|
    ensures forall k :: 0 <= k < |closers| ==> openers[k] == OpenerOf(closers[k])
  {
    seq(|closers|, k requires 0 <= k < |closers| => OpenerOf(closers[k]))
  }

  lemma MirrorBackPush(stack: seq<char>, c: char)
    ensures MirrorBack(stack + [c]) == MirrorBack(stack) + [OpenerOf(c)]
  {
  }

  lemma {:induction false} ScansMeetBack(text: string, i: nat, stack: seq<char>, start: nat)
    requires i < |text| && stack != [] && Closers(stack) && PlainStart(text, i, stack) == Found(start)
    ensures start <= i && IsOpener(text[start])
    ensures PlainEnd(text, start, []) == PlainEnd(text, i + 1, MirrorBack(stack))
    decreases i
  {
    var c := text[i];
    if IsCloser(c) {
      assert i > 0;
      ScansMeetBack(text, i - 1, stack + [c], start);
      MirrorBackPush(stack, c);
      assert Pop(MirrorBack(stack) + [OpenerOf(c)]) == MirrorBack(stack);
    } else if IsOpener(c) {
      var rest := Pop(stack);
      assert stack == rest + [Last(stack)];
      MirrorBackPush(rest, Last(stack));
      assert OpenerOf(Last(stack)) == c;
      if rest == [] {
        assert MirrorBack(stack) == [c] && [] + [c] == [c];
      } else {
        ScansMeetBack(text, i - 1, rest, start);
      }
    } else {
      ScansMeetBack(text, i - 1, stack, start);
    }
  }

  lemma BackThenForward(text: string, i: nat, start: nat)
    requires i < |text| && IsCloser(text[i]) && PlainStart(text, i, []) == Found(start)
    ensures start < i && IsOpener(text[start]) && PlainEnd(text, start, []) == Found(i + 1)
  {
    assert [] + [text[i]] == [text[i]];
    ScansMeetBack(text, i - 1, [text[i]], start);
    assert MirrorBack([text[i]]) == [OpenerOf(text[i])];
  }

  // ----- the tentative template brackets are noise

  /** The stack without entries `c`. */
  function Without(stack: seq<char>, c: char): seq<char> {
    if stack == [] then []
    else if Last(stack) == c then Without(Pop(stack), c)
    else Without(Pop(stack), c) + [Last(stack)]
  }

  lemma WithoutPush(stack: seq<char>, x: char, c: char)
    ensures Without(stack + [x], c) == if x == c then Without(stack, c) else Without(stack, c) + [x]
  {
    assert Pop(stack + [x]) == stack;
  }

  /** Dropping from the top changes nothing underneath, and stops at something to match. */
  lemma {:induction false} DropTopKeeps(stack: seq<char>, c: char)
    requires stack != [] && stack[0] != c
    ensures var rest := DropTop(stack, c);
      && rest != [] && rest[0] == stack[0] && Last(rest) != c
      && Without(rest, c) == Without(stack, c)
      && Last(Without(stack, c)) == Last(rest)
      && Without(Pop(rest), c) == Pop(Without(stack, c))
      && (|rest| > 1 ==> Pop(rest)[0] == stack[0])
    decreases |stack|
  {
    if Last(stack) == c { DropTopKeeps(Pop(stack), c); }
  }

  lemma {:induction false} WithoutLength(stack: seq<char>, c: char)
    requires stack != [] && stack[0] != c
    ensures 1 <= |Without(stack, c)| <= |stack|
    ensures |stack| > 1 && Last(stack) != c ==> |Without(stack, c)| > 1
    decreases |stack|
  {
    if |stack| > 1 { WithoutLength(Pop(stack), c); }
  }

  /** What a matcher's scan says, once tentative brackets `c` are taken out of its stack. */
  ghost predicate Agree(scan: Scan, plain: Scan, c: char, bottom: char) {
    match scan
    case Open(stack) => stack != [] && stack[0] == bottom && plain == Open(Without(stack, c))
    case _ => plain == scan
  }

  /** A closing bracket, or an opening one for the backward scan, after dropping `c`s. */
  lemma MatchAfterDrop(stack: seq<char>, c: char)
    requires stack != [] && stack[0] != c
    ensures var rest, plain := DropTop(stack, c), Without(stack, c);
      && rest != [] && plain != [] && Last(rest) == Last(plain)
      && (|rest| == 1 <==> |plain| == 1)
      && (|rest| > 1 ==> Pop(rest)[0] == stack[0] && Without(Pop(rest), c) == Pop(plain))
      && rest[0] == stack[0] && Without(rest, c) == plain
  {
    DropTopKeeps(stack, c);
    WithoutLength(DropTop(stack, c), c);
  }

  /** Popping a tentative bracket. */
  lemma PopTentative(stack: seq<char>, c: char)
    requires stack != [] && stack[0] != c && Last(stack) == c
    ensures |stack| > 1 && Pop(stack)[0] == stack[0] && Without(Pop(stack), c) == Without(stack, c)
  {
  }

  lemma EndMoveNoise(c: char, i: nat, afterLess: bool, named: bool, ignored: bool, stack: seq<char>)
    requires stack != [] && stack[0] != '<'
    ensures Agree(EndMove(c, i, afterLess, named, ignored, stack), PlainEndStep(c, i, Without(stack, '<')), '<', stack[0])
  {
    if IsCloser(c) || c == ';' {
      MatchAfterDrop(stack, '<');
    } else if Last(stack) == '<' && (c == '<' || c == '>') {
      PopTentative(stack, '<');
      WithoutPush(stack, c, '<');
    } else {
      WithoutPush(stack, c, '<');
    }
  }

  lemma StartMoveNoise(c: char, i: nat, skips: bool, stack: seq<char>)
    requires stack != [] && stack[0] != '>'
    ensures Agree(StartMove(c, i, skips, stack), PlainStartStep(c, i, Without(stack, '>')), '>', stack[0])
  {
    if IsOpener(c) || c == ';' {
      MatchAfterDrop(stack, '>');
    } else if Last(stack) == '>' && (c == '<' || c == '>') {
      PopTentative(stack, '>');
      WithoutPush(stack, c, '>');
    } else {
      WithoutPush(stack, c, '>');
    }
  }

  lemma {:induction false} LineNoise(line: string, i: nat, stack: seq<char>)
    requires i <= |line| && stack != [] && stack[0] != '<'
    ensures Agree(FindEnd(line, i, stack), PlainEnd(line, i, Without(stack, '<')), '<', stack[0])
    decreases |line| - i
  {
    if i < |line| {
      EndMoveNoise(line[i], i, i > 0 && line[i - 1] == '<', i > 0 && EndsWithOperator(line[..i]),
                   i > 0 && (line[i - 1] == '-' || EndsWithOperator(line[..i - 1])), stack);
      var next := EndStep(line, i, stack);
      if next.Open? { LineNoise(line, i + 1, next.stack); }
    }
  }

  lemma {:induction false} TrimRightLast(s: string)
    ensures var t := TrimRight(s);
      |t| <= |s| && (s != "" ==> IsSpace(s[|s| - 1]) || (t != "" && t[|t| - 1] == s[|s| - 1]))
    decreases |s|
  {
    if s != "" && IsSpace(s[|s| - 1]) { TrimRightLast(s[..|s| - 1]); }
  }

  lemma OperatorLast(s: string)
    requires EndsWithOperator(s)
    ensures s != "" && (IsSpace(s[|s| - 1]) || s[|s| - 1] == 'r')
  {
    TrimRightLast(s);
    var t := TrimRight(s);
    assert t[|t| - 1] == t[|t| - 8..][7];
  }

  /** The character that the backward scan skips besides the current one is never a bracket. */
  lemma SkippedIsNoise(line: string, i: nat)
    requires i < |line| && SkipsTwo(line, i)
    ensures i > 0 && !IsOpener(line[i - 1]) && !IsCloser(line[i - 1])
    ensures !IsOpener(line[i]) && !IsCloser(line[i])
  {
    if line[i] == '>' && EndsWithOperator(line[..i]) {
      OperatorLast(line[..i]);
    }
  }

  lemma {:induction false} LineNoiseBack(line: string, i: int, stack: seq<char>)
    requires -1 <= i < |line| && stack != [] && stack[0] != '>'
    ensures Agree(FindStart(line, i, stack), PlainStart(line, i, Without(stack, '>')), '>', stack[0])
    decreases i + 1
  {
    if i >= 0 {
      StartMoveNoise(line[i], i, SkipsTwo(line, i), stack);
      var next := StartStep(line, i, stack);
      if SkipsTwo(line, i) {
        SkippedIsNoise(line, i);
        LineNoiseBack(line, i - 2, stack);
      } else if next.Open? {
        LineNoiseBack(line, i - 1, next.stack);
      }
    }
  }

  // ----- the joined text

  function Join(lines: seq<string>): string
    requires lines != []
  {
    if |lines| == 1 then lines[0] else Join(lines[..|lines| - 1]) + "\n" + lines[|lines| - 1]
  }

  /** Where line `n` starts in the joined text. */
  function Offset(lines: seq<string>, n: nat): nat
    requires n <= |lines|
  {
    if n == 0 then 0 else Offset(lines, n - 1) + |lines[n - 1]| + 1
  }

  lemma {:induction false} OffsetPrefix(lines: seq<string>, m: nat, n: nat)
    requires n <= m <= |lines|
    ensures Offset(lines[..m], n) == Offset(lines, n)
    decreases n
  {
    if n > 0 { OffsetPrefix(lines, m, n - 1); }
  }

  lemma {:induction false} OffsetOrder(lines: seq<string>, m: nat, n: nat)
    requires m < n <= |lines|
    ensures Offset(lines, m) + |lines[m]| < Offset(lines, n)
    decreases n
  {
    if m < n - 1 { OffsetOrder(lines, m, n - 1); }
  }

  /** Line `n` sits at its offset, between line feeds or the ends of the text. */
  lemma {:induction false} JoinAt(lines: seq<string>, n: nat)
    requires n < |lines|
    ensures |Join(lines)| + 1 == Offset(lines, |lines|)
    ensures Offset(lines, n) + |lines[n]| <= |Join(lines)|
    ensures Join(lines)[Offset(lines, n)..Offset(lines, n) + |lines[n]|] == lines[n]
    ensures n + 1 == |lines| <==> Offset(lines, n) + |lines[n]| == |Join(lines)|
    ensures n + 1 < |lines| ==> Join(lines)[Offset(lines, n) + |lines[n]|] == '\n'
    decreases |lines|
  {
    var m := |lines| - 1;
    OffsetPrefix(lines, m, n);
    OffsetPrefix(lines, m, m);
    if m > 0 {
      var rest := lines[..m];
      var text := Join(rest);
      assert Join(lines) == text + "\n" + lines[m];
      if n < m {
        JoinAt(rest, n);
        assert Join(lines)[..|text|] == text;
      } else {
        JoinAt(rest, 0);
      }
    }
  }

  function Offsets(lines: seq<string>): seq<nat> {
    seq(|lines|, n requires 0 <= n < |lines| => Offset(lines, n))
  }

  /** Line `n` stands at `o`. */
  predicate IsAt(text: string, o: nat, line: string) {
    o + |line| <= |text| && forall k {:trigger line[k]} :: 0 <= k < |line| ==> text[o + k] == line[k]
  }

  predicate IsLine(lines: seq<string>, n: int) {
    0 <= n < |lines|
  }

  /** Line `n` stands in `text`, and a line feed and the next line or the end follow. */
  predicate Stands(lines: seq<string>, text: string, at: seq<nat>, n: nat)
    requires n < |lines| == |at|
  {
    && IsAt(text, at[n], lines[n])
    && (n == 0 ==> at[n] == 0)
    && if n + 1 == |lines| then at[n] + |lines[n]| == |text|
       else at[n + 1] == at[n] + |lines[n]| + 1 <= |text| && text[at[n] + |lines[n]|] == '\n'
  }

  /** The lines stand in `text`, one after the other. */
  ghost predicate Placed(lines: seq<string>, text: string, at: seq<nat>) {
    |at| == |lines| && forall n {:trigger IsLine(lines, n)} :: IsLine(lines, n) ==> Stands(lines, text, at, n)
  }

  lemma LineStands(lines: seq<string>, text: string, at: seq<nat>, n: nat)
    requires Placed(lines, text, at) && n < |lines|
    ensures Stands(lines, text, at, n)
  {
    assert IsLine(lines, n);
  }

  lemma CharAt(text: string, o: nat, line: string, pos: nat)
    requires IsAt(text, o, line) && pos < |line|
    ensures o + pos < |text| && text[o + pos] == line[pos]
  {
  }

  lemma JoinIsPlaced(lines: seq<string>)
    requires lines != []
    ensures Placed(lines, Join(lines), Offsets(lines))
  {
    var text, at := Join(lines), Offsets(lines);
    forall n | IsLine(lines, n) ensures Stands(lines, text, at, n) {
      JoinAt(lines, n);
      assert IsAt(text, at[n], lines[n]) by {
        var part := text[at[n]..at[n] + |lines[n]|];
        assert forall k :: 0 <= k < |lines[n]| ==> part[k] == text[at[n] + k];
      }
      assert n + 1 < |lines| ==> Offset(lines, n + 1) == Offset(lines, n) + |lines[n]| + 1;
    }
  }

  lemma PlacedChar(lines: seq<string>, text: string, at: seq<nat>, n: nat, pos: nat)
    requires Placed(lines, text, at) && n < |lines| && pos < |lines[n]|
    ensures at[n] + pos < |text| && text[at[n] + pos] == lines[n][pos]
  {
    LineStands(lines, text, at, n);
    CharAt(text, at[n], lines[n], pos);
  }

  /** Two positions at the same offset are the same. */
  lemma {:induction false} PlacedInOrder(lines: seq<string>, text: string, at: seq<nat>, m: nat, n: nat)
    requires Placed(lines, text, at) && m < n < |lines|
    ensures at[m] + |lines[m]| < at[n]
    decreases n
  {
    LineStands(lines, text, at, n - 1);
    if m < n - 1 { PlacedInOrder(lines, text, at, m, n - 1); }
  }

  lemma OnePosition(lines: seq<string>, text: string, at: seq<nat>, m: nat, x: nat, n: nat, y: nat)
    requires Placed(lines, text, at) && m < |lines| && n < |lines| && x <= |lines[m]| && y <= |lines[n]|
    requires at[m] + x == at[n] + y
    ensures m == n && x == y
  {
    if m < n { PlacedInOrder(lines, text, at, m, n); }
    if n < m { PlacedInOrder(lines, text, at, n, m); }
  }

  // ----- from lines to the joined text

  lemma {:induction false} EndOnLine(text: string, o: nat, line: string, i: nat, stack: seq<char>)
    requires IsAt(text, o, line) && i <= |line|
    ensures match PlainEnd(line, i, stack)
      case Found(p) => PlainEnd(text, o + i, stack) == Found(o + p) && p <= |line|
      case Failed => PlainEnd(text, o + i, stack) == Failed
      case Open(rest) => PlainEnd(text, o + i, stack) == PlainEnd(text, o + |line|, rest)
    decreases |line| - i
  {
    if i < |line| {
      CharAt(text, o, line, i);
      var next := PlainEndStep(line[i], i, stack);
      if next.Open? { EndOnLine(text, o, line, i + 1, next.stack); }
    }
  }

  lemma {:induction false} StartOnLine(text: string, o: nat, line: string, i: int, stack: seq<char>)
    requires IsAt(text, o, line) && -1 <= i < |line|
    ensures match PlainStart(line, i, stack)
      case Found(p) => PlainStart(text, o + i, stack) == Found(o + p) && p < |line|
      case Failed => PlainStart(text, o + i, stack) == Failed
      case Open(rest) => PlainStart(text, o + i, stack) == PlainStart(text, o - 1, rest)
    decreases i + 1
  {
    if i >= 0 {
      CharAt(text, o, line, i);
      var next := PlainStartStep(line[i], i, stack);
      if next.Open? { StartOnLine(text, o, line, i - 1, next.stack); }
    }
  }

  /** A place in the lines, as a scan of the text would report it. */
  function InText(lines: seq<string>, at: seq<nat>, place: Place): Scan
    requires |at| == |lines|
  {
    match place
    case At(m, e) => if m < |lines| && e <= |lines[m]| then Found(at[m] + e) else Open([])
    case Nowhere => Failed
  }

  /** A scan that comes to the end of the text has failed. */
  function Outcome(scan: Scan): Scan {
    if scan.Found? then scan else Failed
  }

  lemma {:induction false} CloseFromIsPlain(lines: seq<string>, text: string, at: seq<nat>, n: nat, pos: nat, stack: seq<char>)
    requires Placed(lines, text, at) && n < |lines| && at[n] + pos <= |text|
    requires pos <= |lines[n]| && stack != [] && stack[0] != '<'
    ensures InText(lines, at, CloseFrom(lines, n, pos, stack)) == Outcome(PlainEnd(text, at[n] + pos, Without(stack, '<')))
    decreases |lines| - n
  {
    var o, line, plain := at[n], lines[n], Without(stack, '<');
    LineStands(lines, text, at, n);
    LineNoise(line, pos, stack);
    EndOnLine(text, o, line, pos, plain);
    var scan := FindEnd(line, pos, stack);
    if scan.Open? {
      var rest := Without(scan.stack, '<');
      assert PlainEnd(text, o + pos, plain) == PlainEnd(text, o + |line|, rest);
      if n + 1 < |lines| {
        PastLineFeed(text, o + |line|, rest);
        CloseFromIsPlain(lines, text, at, n + 1, 0, scan.stack);
      }
    }
  }

  lemma PastLineFeed(text: string, i: nat, stack: seq<char>)
    requires i < |text| && text[i] == '\n'
    ensures PlainEnd(text, i, stack) == PlainEnd(text, i + 1, stack)
    ensures PlainStart(text, i, stack) == PlainStart(text, i - 1, stack)
  {
  }

  /** One line backward: where the line leaves off, the text goes on. */
  lemma LineBack(text: string, o: int, line: string, pos: int, stack: seq<char>)
    requires o >= 0 && IsAt(text, o, line) && -1 <= pos < |line| && o + pos < |text| && stack != [] && stack[0] != '>'
    ensures match FindStart(line, pos, stack)
      case Found(p) => p < |line| && PlainStart(text, o + pos, Without(stack, '>')) == Found(o + p)
      case Failed => PlainStart(text, o + pos, Without(stack, '>')) == Failed
      case Open(rest) =>
        && rest != [] && rest[0] != '>' && o <= |text|
        && PlainStart(text, o + pos, Without(stack, '>')) == PlainStart(text, o - 1, Without(rest, '>'))
  {
    LineNoiseBack(line, pos, stack);
    StartOnLine(text, o, line, pos, Without(stack, '>'));
  }

  lemma LineBefore(lines: seq<string>, text: string, at: seq<nat>, n: nat, stack: seq<char>)
    requires Placed(lines, text, at) && 0 < n < |lines|
    ensures at[n] == at[n - 1] + |lines[n - 1]| + 1 <= |text|
    ensures PlainStart(text, at[n] - 1, stack) == PlainStart(text, at[n - 1] + (|lines[n - 1]| - 1), stack)
  {
    LineStands(lines, text, at, n - 1);
    PastLineFeed(text, at[n] - 1, stack);
  }

  lemma {:induction false} ReverseFromIsPlain(lines: seq<string>, text: string, at: seq<nat>, n: nat, pos: int, stack: seq<char>)
    requires Placed(lines, text, at) && n < |lines| && at[n] + pos < |text|
    requires -1 <= pos < |lines[n]| && stack != [] && stack[0] != '>'
    ensures InText(lines, at, ReverseFrom(lines, n, pos, stack)) == Outcome(PlainStart(text, at[n] + pos, Without(stack, '>')))
    decreases n
  {
    LineStands(lines, text, at, n);
    LineBack(text, at[n], lines[n], pos, stack);
    var scan := FindStart(lines[n], pos, stack);
    if scan.Open? {
      if n > 0 {
        LineBefore(lines, text, at, n, Without(scan.stack, '>'));
        ReverseFromIsPlain(lines, text, at, n - 1, |lines[n - 1]| - 1, scan.stack);
      }
    }
  }

  lemma FirstOpener(line: string, pos: nat)
    requires pos < |line| && IsOpener(line[pos])
    ensures FindEnd(line, pos, []) == FindEnd(line, pos + 1, [line[pos]])
  {
    assert [] + [line[pos]] == [line[pos]];
  }

  lemma FirstCloser(line: string, pos: nat)
    requires pos < |line| && IsCloser(line[pos])
    ensures FindStart(line, pos, []) == FindStart(line, pos - 1, [line[pos]])
  {
    assert !SkipsTwo(line, pos);
    assert StartMove(line[pos], pos, false, []) == Open([] + [line[pos]]);
    assert [] + [line[pos]] == [line[pos]];
  }

  lemma CloseFromOpener(lines: seq<string>, n: nat, pos: nat)
    requires n < |lines| && pos < |lines[n]| && IsOpener(lines[n][pos])
    ensures Close(lines, n, pos) == CloseFrom(lines, n, pos + 1, [lines[n][pos]])
  {
    FirstOpener(lines[n], pos);
  }

  lemma ReverseFromCloser(lines: seq<string>, n: nat, pos: nat)
    requires n < |lines| && pos < |lines[n]| && IsCloser(lines[n][pos])
    ensures ReverseClose(lines, n, pos) == ReverseFrom(lines, n, pos - 1, [lines[n][pos]])
  {
    FirstCloser(lines[n], pos);
  }

  lemma PlainFirst(text: string, i: nat)
    requires i < |text|
    ensures IsOpener(text[i]) ==> PlainEnd(text, i, []) == PlainEnd(text, i + 1, [text[i]])
    ensures IsCloser(text[i]) ==> PlainStart(text, i, []) == PlainStart(text, i - 1, [text[i]])
  {
    assert [] + [text[i]] == [text[i]];
  }

  /** After the first bracket: what the two scans of it and after it have in common. */
  lemma CloseAfter(lines: seq<string>, text: string, at: seq<nat>, n: nat, pos: nat, c: char, o: nat)
    requires Placed(lines, text, at) && n < |lines|
    requires pos < |lines[n]| && IsOpener(c) && o == at[n] + pos + 1 <= |text|
    ensures InText(lines, at, CloseFrom(lines, n, pos + 1, [c])) == Outcome(PlainEnd(text, o, [c]))
  {
    assert Without([c], '<') == [c] by {
      WithoutPush([], c, '<');
      assert [] + [c] == [c];
    }
    CloseFromIsPlain(lines, text, at, n, pos + 1, [c]);
    assert at[n] + (pos + 1) == o;
  }

  lemma ReverseAfter(lines: seq<string>, text: string, at: seq<nat>, n: nat, pos: nat, c: char, o: int)
    requires Placed(lines, text, at) && n < |lines|
    requires pos < |lines[n]| && IsCloser(c) && -1 <= o == at[n] + pos - 1 < |text|
    ensures InText(lines, at, ReverseFrom(lines, n, pos - 1, [c])) == Outcome(PlainStart(text, o, [c]))
  {
    assert Without([c], '>') == [c] by {
      WithoutPush([], c, '>');
      assert [] + [c] == [c];
    }
    ReverseFromIsPlain(lines, text, at, n, pos - 1, [c]);
    assert at[n] + (pos - 1) == o;
  }

  lemma CloseIsPlainAt(lines: seq<string>, text: string, at: seq<nat>, n: nat, pos: nat)
    requires Placed(lines, text, at) && n < |lines| && pos < |lines[n]| && IsOpener(lines[n][pos])
    ensures at[n] + pos < |text| && text[at[n] + pos] == lines[n][pos]
    ensures InText(lines, at, Close(lines, n, pos)) == Outcome(PlainEnd(text, at[n] + pos, []))
  {
    PlacedChar(lines, text, at, n, pos);
    CloseFromOpener(lines, n, pos);
    PlainFirst(text, at[n] + pos);
    var o, c := at[n] + pos, lines[n][pos];
    CloseAfter(lines, text, at, n, pos, c, o + 1);
  }

  lemma ReverseIsPlainAt(lines: seq<string>, text: string, at: seq<nat>, n: nat, pos: nat)
    requires Placed(lines, text, at) && n < |lines| && pos < |lines[n]| && IsCloser(lines[n][pos])
    ensures at[n] + pos < |text| && text[at[n] + pos] == lines[n][pos]
    ensures InText(lines, at, ReverseClose(lines, n, pos)) == Outcome(PlainStart(text, at[n] + pos, []))
  {
    PlacedChar(lines, text, at, n, pos);
    ReverseFromCloser(lines, n, pos);
    PlainFirst(text, at[n] + pos);
    ReverseAfter(lines, text, at, n, pos, lines[n][pos], at[n] + pos - 1);
  }

  // ----- the main results

  /** From `(`, `[` or `{`, `CloseExpression` is the plain matcher over the joined text: none of
      the template heuristics matters. */
  lemma CloseIsPlain(lines: seq<string>, n: nat, pos: nat)
    requires n < |lines| && pos < |lines[n]| && IsOpener(lines[n][pos])
    ensures Offset(lines, n) + pos < |Join(lines)|
    ensures Join(lines)[Offset(lines, n) + pos] == lines[n][pos]
    ensures InText(lines, Offsets(lines), Close(lines, n, pos)) == Outcome(PlainEnd(Join(lines), Offset(lines, n) + pos, []))
  {
    JoinIsPlaced(lines);
    CloseIsPlainAt(lines, Join(lines), Offsets(lines), n, pos);
  }

  lemma ReverseIsPlain(lines: seq<string>, n: nat, pos: nat)
    requires n < |lines| && pos < |lines[n]| && IsCloser(lines[n][pos])
    ensures Offset(lines, n) + pos < |Join(lines)|
    ensures Join(lines)[Offset(lines, n) + pos] == lines[n][pos]
    ensures InText(lines, Offsets(lines), ReverseClose(lines, n, pos)) == Outcome(PlainStart(Join(lines), Offset(lines, n) + pos, []))
  {
    JoinIsPlaced(lines);
    ReverseIsPlainAt(lines, Join(lines), Offsets(lines), n, pos);
  }

  /** A bracket of the text is on a line, not between two. */
  lemma NotBetween(lines: seq<string>, text: string, at: seq<nat>, m: nat)
    requires Placed(lines, text, at) && 0 < m < |lines|
    ensures 0 < at[m] <= |text| && text[at[m] - 1] == '\n'
  {
    LineStands(lines, text, at, m - 1);
  }

  /** `ReverseCloseExpression` undoes `CloseExpression`, over any number of lines. */
  lemma ReverseUndoesClose(lines: seq<string>, n: nat, pos: nat, m: nat, end: nat)
    requires n < |lines| && pos < |lines[n]| && IsOpener(lines[n][pos])
    requires Close(lines, n, pos) == At(m, end)
    ensures m < |lines| && 0 < end <= |lines[m]| && IsCloser(lines[m][end - 1])
    ensures ReverseClose(lines, m, end - 1) == At(n, pos)
  {
    var text, at := Join(lines), Offsets(lines);
    JoinIsPlaced(lines);
    CloseIsPlainAt(lines, text, at, n, pos);
    var o, e := at[n] + pos, at[m] + end;
    ForwardThenBack(text, o, e);
    if m > 0 { NotBetween(lines, text, at, m); }
    assert end > 0;
    PlacedChar(lines, text, at, m, end - 1);
    ReverseIsPlainAt(lines, text, at, m, end - 1);
    var back := ReverseClose(lines, m, end - 1);
    OnePosition(lines, text, at, back.line, back.pos, n, pos);
  }

  /** `CloseExpression` undoes `ReverseCloseExpression`. */
  lemma CloseUndoesReverse(lines: seq<string>, n: nat, pos: nat, m: nat, start: nat)
    requires n < |lines| && pos < |lines[n]| && IsCloser(lines[n][pos])
    requires ReverseClose(lines, n, pos) == At(m, start)
    ensures m < |lines| && start < |lines[m]| && IsOpener(lines[m][start])
    ensures Close(lines, m, start) == At(n, pos + 1)
  {
    var text, at := Join(lines), Offsets(lines);
    JoinIsPlaced(lines);
    ReverseIsPlainAt(lines, text, at, n, pos);
    var o, b := at[n] + pos, at[m] + start;
    BackThenForward(text, o, b);
    LineStands(lines, text, at, m);
    assert start < |lines[m]|;
    PlacedChar(lines, text, at, m, start);
    CloseIsPlainAt(lines, text, at, m, start);
    var there := Close(lines, m, start);
    OnePosition(lines, text, at, there.line, there.pos, n, pos + 1);
  }

  lemma {:induction false} InsideIsPlain(text: string, i: nat, stack: seq<char>)
    requires i <= |text| && stack != [] && Openers(stack)
    ensures match PlainEnd(text, i, stack)
      case Found(end) => InsideEnd(text, i, Mirror(stack)) == Some(end)
      case _ => InsideEnd(text, i, Mirror(stack)) == None
    decreases |text| - i
  {
    if i < |text| {
      var c := text[i];
      MirrorPush(stack, c);
      assert Pop(Mirror(stack)) == Mirror(Pop(stack));
      var next := PlainEndStep(c, i, stack);
      if next.Open? { InsideIsPlain(text, i + 1, next.stack); }
    }
  }

  lemma InsideFromOpener(text: string, o: nat)
    requires o < |text| && IsOpener(text[o])
    ensures InsideEnd(text, o + 1, [CloserOf(text[o])]) ==
            match PlainEnd(text, o, []) case Found(end) => Option.Some(end) case _ => Option.None
  {
    PlainFirst(text, o);
    InsideIsPlain(text, o + 1, [text[o]]);
    assert Mirror([text[o]]) == [CloserOf(text[o])];
  }

  lemma CloseIsTextInsideAt(lines: seq<string>, text: string, at: seq<nat>, n: nat, pos: nat)
    requires Placed(lines, text, at) && n < |lines| && pos < |lines[n]| && IsOpener(lines[n][pos])
    ensures at[n] + pos < |text|
    ensures var end := InsideEnd(text, at[n] + pos + 1, [CloserOf(lines[n][pos])]);
      InText(lines, at, Close(lines, n, pos)) == if end.Some? then Found(end.value) else Failed
  {
    CloseIsPlainAt(lines, text, at, n, pos);
    InsideFromOpener(text, at[n] + pos);
  }

  /** `_GetTextInside` on the joined text and `CloseExpression` on the lines find the same span,
      or both find none. */
  lemma CloseIsTextInside(lines: seq<string>, n: nat, pos: nat)
    requires n < |lines| && pos < |lines[n]| && IsOpener(lines[n][pos])
    ensures Offset(lines, n) + pos < |Join(lines)|
    ensures var end := InsideEnd(Join(lines), Offset(lines, n) + pos + 1, [CloserOf(lines[n][pos])]);
      InText(lines, Offsets(lines), Close(lines, n, pos)) == if end.Some? then Found(end.value) else Failed
  {
    JoinIsPlaced(lines);
    CloseIsTextInsideAt(lines, Join(lines), Offsets(lines), n, pos);
  }
}
