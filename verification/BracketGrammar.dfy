/** What the matchers find, as a grammar: a bracket, balanced text, and the bracket that closes it. */
module BracketGrammar {
  import opened Strings
  import opened Brackets
  import opened BracketLaws

  /** Text piece by piece: one or two characters to pass over, or a group in brackets. */
  datatype Pieces = Done | Skip(n: nat, rest: Pieces) | Group(inside: Pieces, rest: Pieces)

  predicate Starts(c: char) {
    c == '(' || c == '[' || c == '{'
  }

  predicate Ends(c: char) {
    c == ')' || c == ']' || c == '}'
  }

  function CloserFor(open: char): char {
    match open
    case '(' => ')'
    case '[' => ']'
    case '{' => '}'
    case _ => '>'
  }

  predicate Has(text: string, i: nat, c: char) {
    i < |text| && text[i] == c
  }

  /** The position after these pieces, if the text has them from `i` on and they are balanced: round, square
      and curly brackets are all that counts. */
  function After(text: string, i: nat, b: Pieces): (r: Option<nat>)
    ensures r.Some? ==> i <= r.value <= |text|
    decreases b
  {
    match b
    case Done => if i <= |text| then Option.Some(i) else Option.None
    case Skip(n, rest) =>
      if n == 1 && i < |text| && !Starts(text[i]) && !Ends(text[i]) then After(text, i + 1, rest) else Option.None
    case Group(inside, rest) =>
      var closer := if i < |text| && Starts(text[i]) then After(text, i + 1, inside) else Option.None;
      if closer.Some? && Has(text, closer.value, CloserFor(text[i])) then After(text, closer.value + 1, rest) else Option.None
  }

  /** Balanced text from `i` on, and then, at `closer`, what closes `open`. */
  predicate Fits(text: string, i: nat, b: Pieces, open: char, closer: nat) {
    After(text, i, b) == Option.Some(closer) && Has(text, closer, CloserFor(open))
  }

  /** A bracket, balanced text and the closer of the bracket, from `i` to before `end`. */
  predicate Bracketed(text: string, i: nat, end: nat, b: Pieces) {
    i < |text| && Starts(text[i]) && end > 0 && Fits(text, i + 1, b, text[i], end - 1)
  }

  // ----- balanced text is skipped

  lemma OpenerStep(text: string, i: nat, stack: seq<char>, c: char)
    requires Starts(c) && Has(text, i, c)
    ensures PlainEnd(text, i, stack) == PlainEnd(text, i + 1, stack + [c])
  {
  }

  lemma CloserStep(text: string, i: nat, stack: seq<char>, c: char)
    requires Starts(c) && Has(text, i, CloserFor(c))
    ensures PlainEnd(text, i, stack + [c]) == if stack == [] then Found(i + 1) else PlainEnd(text, i + 1, stack)
  {
    assert Last(stack + [c]) == c && Pop(stack + [c]) == stack;
  }

  lemma OtherStep(text: string, i: nat, stack: seq<char>, c: char)
    requires !Starts(c) && !Ends(c) && Has(text, i, c)
    ensures PlainEnd(text, i, stack) == PlainEnd(text, i + 1, stack)
  {
  }

  lemma {:induction false} BalancedIsSkipped(text: string, i: nat, b: Pieces, end: nat, stack: seq<char>)
    requires After(text, i, b) == Option.Some(end) && stack != []
    ensures PlainEnd(text, i, stack) == PlainEnd(text, end, stack)
    decreases b
  {
    match b
    case Done =>
    case Skip(_, rest) =>
      OtherStep(text, i, stack, text[i]);
      BalancedIsSkipped(text, i + 1, rest, end, stack);
    case Group(inside, rest) =>
      var closer := After(text, i + 1, inside).value;
      OpenerStep(text, i, stack, text[i]);
      BalancedIsSkipped(text, i + 1, inside, closer, stack + [text[i]]);
      CloserStep(text, closer, stack, text[i]);
      BalancedIsSkipped(text, closer + 1, rest, end, stack);
  }

  // ----- what is found is balanced

  predicate AllOpen(stack: seq<char>) {
    forall k :: 0 <= k < |stack| ==> Starts(stack[k])
  }

  lemma GroupFits(text: string, i: nat, inside: Pieces, closer: nat, rest: Pieces, open: char, next: nat)
    requires i < |text| && Starts(text[i])
    requires Fits(text, i + 1, inside, text[i], closer) && Fits(text, closer + 1, rest, open, next)
    ensures Fits(text, i, Group(inside, rest), open, next)
  {
  }

  lemma OtherFits(text: string, i: nat, rest: Pieces, open: char, closer: nat)
    requires i < |text| && !Starts(text[i]) && !Ends(text[i]) && Fits(text, i + 1, rest, open, closer)
    ensures Fits(text, i, Skip(1, rest), open, closer)
  {
  }

  /** A scan that finds an end comes to the closer of the last bracket it holds, over balanced text. */
  lemma {:induction false} NextCloser(text: string, i: nat, stack: seq<char>, open: char, end: nat) returns (b: Pieces, closer: nat)
    requires i <= |text| && stack != [] && Last(stack) == open && AllOpen(stack) && PlainEnd(text, i, stack) == Found(end)
    ensures i <= closer < |text| && Fits(text, i, b, open, closer) && PlainEnd(text, closer, stack) == Found(end)
    decreases |text| - i
  {
    var c := text[i];
    if Starts(c) {
      OpenerStep(text, i, stack, c);
      var inside, k := NextCloser(text, i + 1, stack + [c], c, end);
      CloserStep(text, k, stack, c);
      var rest;
      rest, closer := NextCloser(text, k + 1, stack, open, end);
      b := Group(inside, rest);
      GroupFits(text, i, inside, k, rest, open, closer);
    } else if Ends(c) {
      CloserFits(text, i, stack, open, end);
      b, closer := Done, i;
    } else {
      OtherStep(text, i, stack, c);
      var rest;
      rest, closer := NextCloser(text, i + 1, stack, open, end);
      b := Skip(1, rest);
      OtherFits(text, i, rest, open, closer);
    }
  }

  lemma CloserFits(text: string, i: nat, stack: seq<char>, open: char, end: nat)
    requires i < |text| && Ends(text[i]) && stack != [] && Last(stack) == open && Starts(open)
    requires PlainEnd(text, i, stack) == Found(end)
    ensures Fits(text, i, Done, open, i)
  {
  }

  ghost predicate IsBracketed(text: string, i: nat, end: nat) {
    exists b :: Bracketed(text, i, end, b)
  }

  /** The plain matcher finds an end exactly when balanced text and the closer of the bracket stand before it. */
  lemma PlainIffBracketed(text: string, i: nat, end: nat)
    requires i < |text| && Starts(text[i])
    ensures (PlainEnd(text, i, []) == Found(end)) == IsBracketed(text, i, end)
  {
    PlainFirst(text, i);
    if PlainEnd(text, i, []) == Found(end) { PlainIsBracketed(text, i, end); }
    if b :| Bracketed(text, i, end, b) { BracketedIsPlain(text, i, end, b); }
  }

  lemma PlainIsBracketed(text: string, i: nat, end: nat)
    requires i < |text| && Starts(text[i]) && PlainEnd(text, i + 1, [text[i]]) == Found(end)
    ensures IsBracketed(text, i, end)
  {
    var b, closer := NextCloser(text, i + 1, [text[i]], text[i], end);
    CloserStep(text, closer, [], text[i]);
    assert [] + [text[i]] == [text[i]];
    assert Bracketed(text, i, end, b);
  }

  lemma BracketedIsPlain(text: string, i: nat, end: nat, b: Pieces)
    requires Bracketed(text, i, end, b)
    ensures PlainEnd(text, i + 1, [text[i]]) == Found(end)
  {
    BalancedIsSkipped(text, i + 1, b, end - 1, [text[i]]);
    CloserStep(text, end - 1, [], text[i]);
    assert [] + [text[i]] == [text[i]];
  }

  lemma BackIffBracketed(text: string, i: nat, start: nat)
    requires i < |text| && Ends(text[i])
    ensures (PlainStart(text, i, []) == Found(start)) == IsBracketed(text, start, i + 1)
  {
    if PlainStart(text, i, []) == Found(start) {
      BackThenForward(text, i, start);
      PlainIffBracketed(text, start, i + 1);
    }
    if IsBracketed(text, start, i + 1) {
      PlainIffBracketed(text, start, i + 1);
      ForwardThenBack(text, start, i + 1);
    }
  }

  lemma EndIffBracketed(place: Scan, text: string, i: nat, end: nat)
    requires i < |text| && Starts(text[i]) && place == Outcome(PlainEnd(text, i, []))
    ensures (place == Found(end)) == IsBracketed(text, i, end)
  {
    PlainIffBracketed(text, i, end);
  }

  lemma StartIffBracketed(place: Scan, text: string, i: nat, start: nat)
    requires i < |text| && Ends(text[i]) && place == Outcome(PlainStart(text, i, []))
    ensures (place == Found(start)) == IsBracketed(text, start, i + 1)
  {
    BackIffBracketed(text, i, start);
  }

  /** So, from `(`, `[` or `{`, does `CloseExpression`, over any number of lines. */
  lemma CloseIffBracketed(lines: seq<string>, n: nat, pos: nat, end: nat)
    requires n < |lines| && pos < |lines[n]| && Starts(lines[n][pos])
    ensures (InText(lines, Offsets(lines), Close(lines, n, pos)) == Found(end)) ==
            IsBracketed(Join(lines), Offsets(lines)[n] + pos, end)
  {
    JoinIsPlaced(lines);
    CloseIffAt(lines, Join(lines), Offsets(lines), n, pos, end);
  }

  lemma CloseIffAt(lines: seq<string>, text: string, at: seq<nat>, n: nat, pos: nat, end: nat)
    requires Placed(lines, text, at) && n < |lines| && pos < |lines[n]| && Starts(lines[n][pos])
    ensures (InText(lines, at, Close(lines, n, pos)) == Found(end)) == IsBracketed(text, at[n] + pos, end)
  {
    CloseIsPlainAt(lines, text, at, n, pos);
    EndIffBracketed(InText(lines, at, Close(lines, n, pos)), text, at[n] + pos, end);
  }

  lemma ReverseIffAt(lines: seq<string>, text: string, at: seq<nat>, n: nat, pos: nat, start: nat)
    requires Placed(lines, text, at) && n < |lines| && pos < |lines[n]| && Ends(lines[n][pos])
    ensures (InText(lines, at, ReverseClose(lines, n, pos)) == Found(start)) == IsBracketed(text, start, at[n] + pos + 1)
  {
    ReverseIsPlainAt(lines, text, at, n, pos);
    StartIffBracketed(InText(lines, at, ReverseClose(lines, n, pos)), text, at[n] + pos, start);
  }

  /** And, from `)`, `]` or `}`, `ReverseCloseExpression` finds the start of balanced text that ends there. */
  lemma ReverseIffBracketed(lines: seq<string>, n: nat, pos: nat, start: nat)
    requires n < |lines| && pos < |lines[n]| && Ends(lines[n][pos])
    ensures (InText(lines, Offsets(lines), ReverseClose(lines, n, pos)) == Found(start)) ==
            IsBracketed(Join(lines), start, Offsets(lines)[n] + pos + 1)
  {
    JoinIsPlaced(lines);
    ReverseIffAt(lines, Join(lines), Offsets(lines), n, pos, start);
  }

  // ----- template arguments

  /** The search for the word `operator` with spaces behind it, at the end of the text, finds it exactly where
      it is. */
  lemma OperatorIs(before: string, spaces: string)
    requires IsName(before, spaces)
    ensures EndsWithOperator(before + "operator" + spaces)
  {
    var t := before + "operator";
    TrimmedTo(t, spaces);
    assert t[|t| - 8..] == "operator";
    assert before != "" ==> t[|t| - 9] == before[|before| - 1];
  }

  lemma OperatorOf(s: string) returns (before: string, spaces: string)
    requires EndsWithOperator(s)
    ensures s == before + "operator" + spaces && IsName(before, spaces)
  {
    var t := TrimRight(s);
    TrimmedIs(s);
    before, spaces := t[..|t| - 8], s[|t|..];
    assert s == before + "operator" + spaces;
  }

  predicate IsName(before: string, spaces: string) {
    (before == "" || !IsWord(before[|before| - 1])) && forall j :: 0 <= j < |spaces| ==> IsSpace(spaces[j])
  }

  lemma {:induction false} TrimmedIs(s: string)
    ensures TrimRight(s) <= s && forall j :: |TrimRight(s)| <= j < |s| ==> IsSpace(s[j])
  {
    if s != "" && IsSpace(s[|s| - 1]) { TrimmedIs(s[..|s| - 1]); }
  }

  lemma {:induction false} TrimmedTo(text: string, spaces: string)
    requires (forall j :: 0 <= j < |spaces| ==> IsSpace(spaces[j])) && (text == "" || !IsSpace(text[|text| - 1]))
    ensures TrimRight(text + spaces) == text
    decreases |spaces|
  {
    var s := text + spaces;
    if spaces == "" {
      assert s == text;
    } else {
      assert s[..|s| - 1] == text + spaces[..|spaces| - 1];
      TrimmedTo(text, spaces[..|spaces| - 1]);
    }
  }

  /** The `<` or `>` at `i` is no part of `<<`, `->`, ` >= ` or the name of an operator. */
  predicate Lone(line: string, i: nat)
    requires i < |line|
  {
    i > 0 ==>
      && line[i - 1] != (if line[i] == '<' then '<' else '-')
      && !EndsWithOperator(line[..i]) && !EndsWithOperator(line[..i - 1])
      && !(i < |line| - 2 && IsSpace(line[i - 1]) && line[i + 1] == '=' && IsSpace(line[i + 2]))
  }

  predicate Ordinary(c: char) {
    c != '(' && c != ')' && c != '[' && c != ']' && c != '{' && c != '}' && c != '<' && c != '>' && c != ';'
  }

  /** Positions of brackets `<` and `>`, each on its own. */
  ghost predicate Marks(line: string, marks: set<nat>) {
    forall k :: k in marks ==> k < |line| && Lone(line, k)
  }

  /** An ordinary character, or two that make an arrow `->` or, at a mark, a shift `<<`. */
  predicate Passes(line: string, marks: set<nat>, i: nat, n: nat) {
    || (n == 1 && i < |line| && Ordinary(line[i]))
    || (n == 2 && Has(line, i, '-') && Has(line, i + 1, '>'))
    || (n == 2 && Has(line, i, '<') && Has(line, i + 1, '<') && i in marks)
  }

  predicate Opens(line: string, marks: set<nat>, i: nat) {
    i < |line| && (line[i] == '(' || line[i] == '[' || line[i] == '{' || (line[i] == '<' && i in marks))
  }

  predicate Shuts(line: string, marks: set<nat>, i: nat, open: char) {
    Has(line, i, CloserFor(open)) && (open == '<' ==> i in marks)
  }

  /** The position after these pieces, if they are template arguments: brackets of all four kinds, those at
      `marks` being the angular ones, arrows and shifts, and no other `<`, `>` or `;`. */
  function ArgumentsEnd(line: string, marks: set<nat>, i: nat, b: Pieces): (r: Option<nat>)
    ensures r.Some? ==> i <= r.value <= |line|
    decreases b
  {
    match b
    case Done => if i <= |line| then Option.Some(i) else Option.None
    case Skip(n, rest) => if Passes(line, marks, i, n) then ArgumentsEnd(line, marks, i + n, rest) else Option.None
    case Group(inside, rest) =>
      var closer := if Opens(line, marks, i) then ArgumentsEnd(line, marks, i + 1, inside) else Option.None;
      if closer.Some? && Shuts(line, marks, closer.value, line[i])
      then ArgumentsEnd(line, marks, closer.value + 1, rest) else Option.None
  }

  // ----- forward

  lemma OpenerOpens(line: string, marks: set<nat>, i: nat, stack: seq<char>)
    requires Marks(line, marks) && Opens(line, marks, i)
    ensures FindEnd(line, i, stack) == FindEnd(line, i + 1, stack + [line[i]])
  {
  }

  lemma OnePasses(line: string, i: nat, stack: seq<char>)
    requires i < |line| && Ordinary(line[i])
    ensures FindEnd(line, i, stack) == FindEnd(line, i + 1, stack)
  {
  }

  lemma ArrowPasses(line: string, i: nat, stack: seq<char>)
    requires Has(line, i, '-') && Has(line, i + 1, '>')
    ensures FindEnd(line, i, stack) == FindEnd(line, i + 2, stack)
  {
    OnePasses(line, i, stack);
  }

  lemma ShiftPasses(line: string, marks: set<nat>, i: nat, stack: seq<char>)
    requires Marks(line, marks) && Has(line, i, '<') && Has(line, i + 1, '<') && i in marks && stack != []
    ensures FindEnd(line, i, stack) == FindEnd(line, i + 2, stack)
  {
    OpenerOpens(line, marks, i, stack);
    SecondLess(line, i, stack);
  }

  lemma SecondLess(line: string, i: nat, stack: seq<char>)
    requires Has(line, i, '<') && Has(line, i + 1, '<') && stack != []
    ensures FindEnd(line, i + 1, stack + ['<']) == FindEnd(line, i + 2, stack)
  {
    assert Last(stack + ['<']) == '<' && Pop(stack + ['<']) == stack;
  }

  lemma CloserCloses(line: string, marks: set<nat>, i: nat, stack: seq<char>, open: char)
    requires Marks(line, marks) && (Starts(open) || open == '<') && Shuts(line, marks, i, open)
    ensures FindEnd(line, i, stack + [open]) == if stack == [] then Found(i + 1) else FindEnd(line, i + 1, stack)
  {
    if open == '<' { GreaterCloses(line, i, stack); } else { BracketCloses(line, i, stack, open); }
  }

  lemma GreaterCloses(line: string, i: nat, stack: seq<char>)
    requires Has(line, i, '>') && Lone(line, i)
    ensures FindEnd(line, i, stack + ['<']) == if stack == [] then Found(i + 1) else FindEnd(line, i + 1, stack)
  {
    assert Last(stack + ['<']) == '<' && Pop(stack + ['<']) == stack;
  }

  lemma BracketCloses(line: string, i: nat, stack: seq<char>, open: char)
    requires Starts(open) && Has(line, i, CloserFor(open))
    ensures FindEnd(line, i, stack + [open]) == if stack == [] then Found(i + 1) else FindEnd(line, i + 1, stack)
  {
    assert Last(stack + [open]) == open && Pop(stack + [open]) == stack;
    assert DropTop(stack + [open], '<') == stack + [open];
  }

  // ----- backward

  lemma CloserBack(line: string, marks: set<nat>, i: nat, stack: seq<char>, open: char)
    requires Marks(line, marks) && (Starts(open) || open == '<') && Shuts(line, marks, i, open)
    ensures FindStart(line, i, stack) == FindStart(line, i - 1, stack + [CloserFor(open)])
  {
  }

  lemma OneBack(line: string, i: nat, stack: seq<char>)
    requires i < |line| && Ordinary(line[i])
    ensures FindStart(line, i, stack) == FindStart(line, i - 1, stack)
  {
  }

  lemma TwoBack(line: string, i: nat, stack: seq<char>)
    requires i + 1 < |line| && ((line[i] == '-' && line[i + 1] == '>') || (line[i] == '<' && line[i + 1] == '<'))
    ensures FindStart(line, i + 1, stack) == FindStart(line, i - 1, stack)
  {
  }

  lemma OpenerBack(line: string, marks: set<nat>, i: nat, stack: seq<char>)
    requires Marks(line, marks) && Opens(line, marks, i)
    ensures FindStart(line, i, stack + [CloserFor(line[i])]) == if stack == [] then Found(i) else FindStart(line, i - 1, stack)
  {
    if line[i] == '<' { LessBack(line, i, stack); } else { BracketBack(line, i, stack, line[i]); }
  }

  lemma LessBack(line: string, i: nat, stack: seq<char>)
    requires Has(line, i, '<') && Lone(line, i)
    ensures FindStart(line, i, stack + ['>']) == if stack == [] then Found(i) else FindStart(line, i - 1, stack)
  {
    assert Last(stack + ['>']) == '>' && Pop(stack + ['>']) == stack;
  }

  lemma BracketBack(line: string, i: nat, stack: seq<char>, open: char)
    requires Starts(open) && Has(line, i, open)
    ensures FindStart(line, i, stack + [CloserFor(open)]) == if stack == [] then Found(i) else FindStart(line, i - 1, stack)
  {
    var c := CloserFor(open);
    assert Last(stack + [c]) == c && Pop(stack + [c]) == stack;
    assert DropTop(stack + [c], '>') == stack + [c];
  }

  // ----- both

  type Scanner = (nat, seq<char>) -> Scan

  /** What a scan does at `i` with `stack`: it passes over what is no bracket, and holds a bracket from where it
      opens to where it closes. */
  ghost predicate StepAt(scan: Scanner, line: string, marks: set<nat>, i: nat, stack: seq<char>) {
    && (Passes(line, marks, i, 1) && stack != [] ==> scan(i, stack) == scan(i + 1, stack))
    && (Passes(line, marks, i, 2) && stack != [] ==> scan(i, stack) == scan(i + 2, stack))
    && (Opens(line, marks, i) && stack != [] ==> scan(i, stack) == scan(i + 1, stack + [line[i]]))
  }

  ghost predicate ShutAt(scan: Scanner, line: string, marks: set<nat>, i: nat, stack: seq<char>, open: char) {
    IsOpen(open) && Shuts(line, marks, i, open) && stack != [] ==> scan(i, stack + [open]) == scan(i + 1, stack)
  }

  ghost predicate Scans(scan: Scanner, line: string, marks: set<nat>) {
    && (forall i, stack :: StepAt(scan, line, marks, i, stack))
    && (forall i, stack, open :: ShutAt(scan, line, marks, i, stack, open))
  }

  predicate IsOpen(c: char) {
    Starts(c) || c == '<'
  }

  lemma PassStep(scan: Scanner, line: string, marks: set<nat>, i: nat, n: nat, stack: seq<char>)
    requires Scans(scan, line, marks) && Passes(line, marks, i, n) && stack != []
    ensures scan(i, stack) == scan(i + n, stack)
  {
    assert StepAt(scan, line, marks, i, stack);
  }

  lemma GroupStep(scan: Scanner, line: string, marks: set<nat>, i: nat, closer: nat, stack: seq<char>)
    requires Scans(scan, line, marks) && Opens(line, marks, i) && Shuts(line, marks, closer, line[i]) && stack != []
    ensures scan(i, stack) == scan(i + 1, stack + [line[i]])
    ensures scan(closer, stack + [line[i]]) == scan(closer + 1, stack)
  {
    assert StepAt(scan, line, marks, i, stack);
    assert ShutAt(scan, line, marks, closer, stack, line[i]);
  }

  lemma {:induction false} ArgumentsPass(scan: Scanner, line: string, marks: set<nat>, i: nat, b: Pieces, end: nat,
                                         stack: seq<char>)
    requires Scans(scan, line, marks) && ArgumentsEnd(line, marks, i, b) == Option.Some(end) && stack != []
    ensures scan(i, stack) == scan(end, stack)
    decreases b, 1
  {
    match b
    case Done =>
    case Skip(n, rest) =>
      PassStep(scan, line, marks, i, n, stack);
      ArgumentsPass(scan, line, marks, i + n, rest, end, stack);
    case Group(inside, rest) =>
      GroupPasses(scan, line, marks, i, inside, ArgumentsEnd(line, marks, i + 1, inside).value, rest, end, stack);
  }

  lemma {:induction false} GroupPasses(scan: Scanner, line: string, marks: set<nat>, i: nat, inside: Pieces, closer: nat,
                                       rest: Pieces, end: nat, stack: seq<char>)
    requires Scans(scan, line, marks) && stack != []
    requires Opens(line, marks, i) && ArgumentsEnd(line, marks, i + 1, inside) == Option.Some(closer)
    requires Shuts(line, marks, closer, line[i]) && ArgumentsEnd(line, marks, closer + 1, rest) == Option.Some(end)
    ensures scan(i, stack) == scan(end, stack)
    decreases Group(inside, rest), 0
  {
    ArgumentsPass(scan, line, marks, i + 1, inside, closer, stack + [line[i]]);
    GroupStep(scan, line, marks, i, closer, stack);
    ArgumentsPass(scan, line, marks, closer + 1, rest, end, stack);
  }

  function Forward(line: string): Scanner {
    (i: nat, stack: seq<char>) => if i <= |line| then FindEnd(line, i, stack) else Failed
  }

  function ClosersFor(stack: seq<char>): (r: seq<char>)
    ensures |r| == |stack|
  {
    seq(|stack|, k requires 0 <= k < |stack| => CloserFor(stack[k]))
  }

  lemma ClosersPush(stack: seq<char>, c: char)
    ensures ClosersFor(stack + [c]) == ClosersFor(stack) + [CloserFor(c)]
  {
  }

  /** The backward scan holds the closers of the brackets it has not found yet. */
  function Backward(line: string): Scanner {
    (i: nat, stack: seq<char>) => if i <= |line| then FindStart(line, i - 1, ClosersFor(stack)) else Failed
  }

  lemma ForwardScans(line: string, marks: set<nat>)
    requires Marks(line, marks)
    ensures Scans(Forward(line), line, marks)
  {
    forall i, stack ensures StepAt(Forward(line), line, marks, i, stack) { ForwardStep(line, marks, i, stack); }
    forall i, stack, open ensures ShutAt(Forward(line), line, marks, i, stack, open) {
      if IsOpen(open) && Shuts(line, marks, i, open) { CloserCloses(line, marks, i, stack, open); }
    }
  }

  lemma ForwardStep(line: string, marks: set<nat>, i: nat, stack: seq<char>)
    requires Marks(line, marks)
    ensures StepAt(Forward(line), line, marks, i, stack)
  {
    if Opens(line, marks, i) { OpenerOpens(line, marks, i, stack); }
    if Passes(line, marks, i, 1) { OnePasses(line, i, stack); }
    if Passes(line, marks, i, 2) && stack != [] {
      if line[i] == '-' { ArrowPasses(line, i, stack); } else { ShiftPasses(line, marks, i, stack); }
    }
  }

  lemma BackwardScans(line: string, marks: set<nat>)
    requires Marks(line, marks)
    ensures Scans(Backward(line), line, marks)
  {
    forall i, stack ensures StepAt(Backward(line), line, marks, i, stack) { BackwardStep(line, marks, i, stack); }
    forall i, stack, open ensures ShutAt(Backward(line), line, marks, i, stack, open) {
      if IsOpen(open) && Shuts(line, marks, i, open) {
        CloserBack(line, marks, i, ClosersFor(stack), open);
        ClosersPush(stack, open);
      }
    }
  }

  lemma BackwardStep(line: string, marks: set<nat>, i: nat, stack: seq<char>)
    requires Marks(line, marks)
    ensures StepAt(Backward(line), line, marks, i, stack)
  {
    var closers := ClosersFor(stack);
    if Opens(line, marks, i) && stack != [] {
      OpenerBack(line, marks, i, closers);
      ClosersPush(stack, line[i]);
    }
    if Passes(line, marks, i, 1) { OneBack(line, i, closers); }
    if Passes(line, marks, i, 2) { TwoBack(line, i, closers); }
  }

  /** From a `<`, the `>` after template arguments is found, and from there the `<` again; with a semicolon or
      the end of an enclosing bracket in its place nothing is. */
  lemma TemplateLaw(line: string, marks: set<nat>, i: nat, b: Pieces, end: nat)
    requires Marks(line, marks) && i in marks && Has(line, i, '<')
    requires ArgumentsEnd(line, marks, i + 1, b) == Option.Some(end) && end < |line|
    ensures line[end] == '>' && end in marks ==>
              FindEnd(line, i, []) == Found(end + 1) && FindStart(line, end, []) == Found(i)
    ensures (line[end] == ';' || Ends(line[end])) ==> FindEnd(line, i, []) == Failed
  {
    FromOpener(line, marks, i, b, end);
    if line[end] == '>' && end in marks {
      assert [] + ['<'] == ['<'];
      CloserCloses(line, marks, end, [], '<');
      FromCloser(line, marks, i, b, end);
    } else if line[end] == ';' || Ends(line[end]) {
      NoneLeft(line, end);
    }
  }

  lemma FromOpener(line: string, marks: set<nat>, i: nat, b: Pieces, end: nat)
    requires Marks(line, marks) && i in marks && Has(line, i, '<')
    requires ArgumentsEnd(line, marks, i + 1, b) == Option.Some(end)
    ensures FindEnd(line, i, []) == FindEnd(line, end, ['<'])
  {
    assert [] + ['<'] == ['<'];
    OpenerOpens(line, marks, i, []);
    ForwardScans(line, marks);
    ArgumentsPass(Forward(line), line, marks, i + 1, b, end, ['<']);
    assert Forward(line)(i + 1, ['<']) == FindEnd(line, i + 1, ['<']);
  }

  lemma FromCloser(line: string, marks: set<nat>, i: nat, b: Pieces, end: nat)
    requires Marks(line, marks) && i in marks && Has(line, i, '<')
    requires ArgumentsEnd(line, marks, i + 1, b) == Option.Some(end) && Has(line, end, '>') && end in marks
    ensures FindStart(line, end, []) == Found(i)
  {
    assert [] + ['>'] == ['>'] && ClosersFor(['<']) == ['>'];
    CloserBack(line, marks, end, [], '<');
    BackwardScans(line, marks);
    ArgumentsPass(Backward(line), line, marks, i + 1, b, end, ['<']);
    assert Backward(line)(i + 1, ['<']) == FindStart(line, i, ['>']);
    OpenerBack(line, marks, i, []);
  }

  lemma NoneLeft(line: string, i: nat)
    requires i < |line| && (line[i] == ';' || Ends(line[i]))
    ensures FindEnd(line, i, ['<']) == Failed
  {
    assert DropTop(['<'], '<') == [];
  }

  /** The same for a line of a file; `<<` and `<=` start nothing, and no other character does. */
  lemma TemplateOnLine(lines: seq<string>, n: nat, pos: nat, marks: set<nat>, b: Pieces, end: nat)
    requires n < |lines| && pos < |lines[n]|
    ensures var line := lines[n];
      && (!Starts(line[pos]) && line[pos] != '<' ==> Close(lines, n, pos) == Nowhere)
      && (!Ends(line[pos]) && line[pos] != '>' ==> ReverseClose(lines, n, pos) == Nowhere)
      && (line[pos] == '<' && pos + 1 < |line| && (line[pos + 1] == '<' || line[pos + 1] == '=') ==> Close(lines, n, pos) == Nowhere)
      && (line[pos] == '<' && (pos + 1 < |line| ==> line[pos + 1] != '<' && line[pos + 1] != '=') && Marks(line, marks) && pos in marks
          && ArgumentsEnd(line, marks, pos + 1, b) == Option.Some(end) && Has(line, end, '>') && end in marks ==>
            Close(lines, n, pos) == At(n, end + 1) && ReverseClose(lines, n, end) == At(n, pos))
  {
    var line := lines[n];
    if line[pos] == '<' && Marks(line, marks) && pos in marks
       && ArgumentsEnd(line, marks, pos + 1, b) == Option.Some(end) && Has(line, end, '>') {
      TemplateLaw(line, marks, pos, b, end);
    }
  }
}
