/** cpplint's nesting stack as values: what one line does to it, and what a file with
    conditionals leaves. */
module Nesting {
  import opened Strings

  datatype Asm = NoAsm | InsideAsm | EndAsm | BlockAsm

  datatype Kind =
    | Plain
    | ExternC
    | Namespace(name: string)
    | Class(name: string, isStruct: bool, indent: nat, lastLine: nat)

  /** The value of one block. `isDerived` and `access` are about classes only. */
  datatype BlockValue = BlockValue(
    kind: Kind,
    line: nat,
    seenOpenBrace: bool,
    openParentheses: int,
    inlineAsm: Asm,
    isDerived: bool,
    access: string)

  type Stack = seq<BlockValue>

  datatype Directive = NoDirective | If | Else | Endif

  datatype NamespaceDecl = NamespaceDecl(name: string, open: bool)

  datatype ClassDecl = ClassDecl(name: string, isStruct: bool, indent: nat, lastLine: nat, templateArgument: bool)

  datatype Token = Open(externC: bool, asm: bool) | Close | Semicolon | CloseParen

  /** What is left of a line: an access specifier, and the tokens in it. */
  datatype Tail = Tail(access: string, tokens: seq<Token>)

  /** One cleansed line as its regular expressions see it. `whole` is the line without its
      namespaces, `rest` what follows the class head if there is one. */
  datatype Line = Line(
    number: nat,
    directive: Directive,
    parentheses: int,
    asm: bool,
    bareColon: bool,
    namespaces: seq<NamespaceDecl>,
    decl: Option<ClassDecl>,
    whole: Tail,
    rest: Tail)

  // ----- the blocks of one line

  predicate SeenOpenBrace(stack: Stack) {
    stack == [] || stack[|stack| - 1].seenOpenBrace
  }

  function NewBlock(kind: Kind, line: nat, seen: bool, asm: Asm): BlockValue {
    BlockValue(kind, line, seen, 0, asm, false, if kind.Class? && kind.isStruct then "public" else "private")
  }

  function Push(stack: Stack, kind: Kind, line: nat, seen: bool, asm: Asm): Stack {
    stack + [NewBlock(kind, line, seen, asm)]
  }

  function Pop(stack: Stack): Stack
    requires stack != []
  {
    stack[..|stack| - 1]
  }

  function SetTop(stack: Stack, top: BlockValue): Stack
    requires stack != []
  {
    stack[|stack| - 1 := top]
  }

  function NextAsm(asm: Asm, change: int, open: int, asmLine: bool): Asm {
    if asm.NoAsm? || asm.EndAsm? then
      if change != 0 && open == 1 && asmLine then InsideAsm else NoAsm
    else if asm.InsideAsm? && open == 0 then EndAsm
    else asm
  }

  function Parentheses(stack: Stack, line: Line): Stack {
    if stack == [] then stack
    else
      var top := stack[|stack| - 1];
      var open := top.openParentheses + line.parentheses;
      SetTop(stack, top.(openParentheses := open, inlineAsm := NextAsm(top.inlineAsm, line.parentheses, open, line.asm)))
  }

  function Namespaces(stack: Stack, decls: seq<NamespaceDecl>, line: nat): Stack
    decreases |decls|
  {
    if decls == [] then stack
    else Namespaces(Push(stack, Namespace(decls[0].name), line, decls[0].open, NoAsm), decls[1..], line)
  }

  predicate Declares(stack: Stack, line: Line) {
    && line.decl.Some?
    && (stack == [] || stack[|stack| - 1].openParentheses == 0)
    && !line.decl.value.templateArgument
  }

  function ClassOf(decl: ClassDecl): Kind {
    Class(decl.name, decl.isStruct, decl.indent, decl.lastLine)
  }

  function OpenClass(stack: Stack, line: Line): Stack {
    if Declares(stack, line) then Push(stack, ClassOf(line.decl.value), line.number, false, NoAsm) else stack
  }

  /** While the innermost block is not open, its head is searched for a bare colon. */
  function LookForColon(stack: Stack, bareColon: bool): Stack {
    if SeenOpenBrace(stack) || !stack[|stack| - 1].kind.Class? || !bareColon then stack
    else SetTop(stack, stack[|stack| - 1].(isDerived := true))
  }

  function Access(stack: Stack, access: string): Stack {
    if stack == [] || !stack[|stack| - 1].kind.Class? || access == "" then stack
    else SetTop(stack, stack[|stack| - 1].(access := access))
  }

  function OneToken(stack: Stack, token: Token, line: nat): Stack {
    match token
    case Open(externC, asm) =>
      if !SeenOpenBrace(stack) then SetTop(stack, stack[|stack| - 1].(seenOpenBrace := true))
      else if externC then Push(stack, ExternC, line, true, NoAsm)
      else Push(stack, Plain, line, true, if asm then BlockAsm else NoAsm)
    case Close => if stack == [] then stack else Pop(stack)
    case _ => if SeenOpenBrace(stack) then stack else Pop(stack)
  }

  function Tokens(stack: Stack, tokens: seq<Token>, line: nat): Stack
    decreases |tokens|
  {
    if tokens == [] then stack else Tokens(OneToken(stack, tokens[0], line), tokens[1..], line)
  }

  function Heads(stack: Stack, line: Line): Stack {
    OpenClass(Namespaces(Parentheses(stack, line), line.namespaces, line.number), line)
  }

  function TailOf(stack: Stack, line: Line): Tail {
    if Declares(Namespaces(Parentheses(stack, line), line.namespaces, line.number), line) then line.rest else line.whole
  }

  function Rest(stack: Stack, line: Line, tail: Tail): Stack {
    Tokens(Access(LookForColon(stack, line.bareColon), tail.access), tail.tokens, line.number)
  }

  /** `Update` after the preprocessor has been dealt with. */
  function Body(stack: Stack, line: Line): Stack {
    Rest(Heads(stack, line), line, TailOf(stack, line))
  }

  // ----- matched braces

  /** From `depth` open braces on, the braces match. */
  predicate Matched(tokens: seq<Token>, depth: nat)
    decreases |tokens|
  {
    if tokens == [] then depth == 0
    else if tokens[0].Open? then Matched(tokens[1..], depth + 1)
    else if tokens[0].Close? then depth > 0 && Matched(tokens[1..], depth - 1)
    else Matched(tokens[1..], depth)
  }

  lemma {:induction false} BlocksClose(base: Stack, blocks: Stack, tokens: seq<Token>, line: nat)
    requires SeenOpenBrace(base) && forall i :: 0 <= i < |blocks| ==> blocks[i].seenOpenBrace
    requires Matched(tokens, |blocks|)
    ensures Tokens(base + blocks, tokens, line) == base
    decreases |tokens|
  {
    var stack := base + blocks;
    if tokens == [] {
      assert stack == base;
    } else {
      assert SeenOpenBrace(stack);
      var next := OneToken(stack, tokens[0], line);
      if tokens[0].Open? {
        var block := next[|stack|];
        assert next == base + (blocks + [block]);
        BlocksClose(base, blocks + [block], tokens[1..], line);
      } else if tokens[0].Close? {
        assert next == base + blocks[..|blocks| - 1];
        BlocksClose(base, blocks[..|blocks| - 1], tokens[1..], line);
      } else {
        BlocksClose(base, blocks, tokens[1..], line);
      }
    }
  }

  /** Matched braces leave the blocks exactly as they were; a class or namespace whose head is on top
      ends with its own braces, or at once with a semicolon. */
  lemma BracesMatch(stack: Stack, head: BlockValue, open: Token, inner: seq<Token>, close: Token, line: nat)
    requires SeenOpenBrace(stack) && !head.seenOpenBrace
    requires open.Open? && Matched(inner, 0) && close.Close?
    ensures Tokens(stack, inner, line) == stack
    ensures Tokens(stack + [head], [open] + inner + [close], line) == stack
    ensures Tokens(stack + [head], [Semicolon] + inner, line) == stack
  {
    BlocksClose(stack, [], inner, line);
    assert stack + [] == stack;
    var started := head.(seenOpenBrace := true);
    var all := [open] + inner + [close];
    assert all[1..] == inner + [close];
    assert OneToken(stack + [head], open, line) == stack + [started];
    MatchedMore(inner, 0, close);
    BlocksClose(stack, [started], inner + [close], line);
    var ended := [Semicolon] + inner;
    assert ended[1..] == inner;
    assert OneToken(stack + [head], Semicolon, line) == stack;
  }

  lemma {:induction false} MatchedMore(tokens: seq<Token>, depth: nat, close: Token)
    requires Matched(tokens, depth) && close.Close?
    ensures Matched(tokens + [close], depth + 1)
    decreases |tokens|
  {
    if tokens == [] {
      assert tokens + [close] == [close] && [close][1..] == [];
    } else {
      assert (tokens + [close])[1..] == tokens[1..] + [close];
      MatchedMore(tokens[1..], if tokens[0].Open? then depth + 1 else if tokens[0].Close? then depth - 1 else depth, close);
    }
  }

  // ----- conditionals

  /** A saved pair of stacks for an open conditional. */
  datatype Frame = Frame(beforeIf: Stack, beforeElse: Stack, seenElse: bool)

  datatype State = State(stack: Stack, frames: seq<Frame>)

  function Directed(s: State, d: Directive): State {
    var n := |s.frames| - 1;
    match d
    case NoDirective => s
    case If => s.(frames := s.frames + [Frame(s.stack, [], false)])
    case Else =>
      if n < 0 then s
      else
        var top := s.frames[n];
        State(top.beforeIf, s.frames[n := if top.seenElse then top else top.(beforeElse := s.stack, seenElse := true)])
    case Endif =>
      if n < 0 then s
      else State(if s.frames[n].seenElse then s.frames[n].beforeElse else s.stack, s.frames[..n])
  }

  function Step(s: State, line: Line): State {
    var directed := Directed(s, line.directive);
    directed.(stack := Body(directed.stack, line))
  }

  function Run(s: State, lines: seq<Line>): State
    decreases |lines|
  {
    if lines == [] then s else Run(Step(s, lines[0]), lines[1..])
  }

  lemma {:induction false} RunAppend(s: State, a: seq<Line>, b: seq<Line>)
    ensures Run(s, a + b) == Run(Run(s, a), b)
    decreases |a|
  {
    if a == [] {
      assert a + b == b;
    } else {
      assert (a + b)[1..] == a[1..] + b;
      RunAppend(Step(s, a[0]), a[1..], b);
    }
  }

  // ----- which lines count

  /** For every open conditional, whether its first `#else` or `#elif` has come. */
  function Flags(flags: seq<bool>, d: Directive): seq<bool> {
    var n := |flags| - 1;
    match d
    case NoDirective => flags
    case If => flags + [false]
    case Else => if n < 0 then flags else flags[n := true]
    case Endif => if n < 0 then flags else flags[..n]
  }

  predicate Counts(flags: seq<bool>) {
    forall i :: 0 <= i < |flags| ==> !flags[i]
  }

  function Kept(flags: seq<bool>, lines: seq<Line>): seq<Line>
    decreases |lines|
  {
    if lines == [] then []
    else
      var next := Flags(flags, lines[0].directive);
      (if Counts(next) then [lines[0]] else []) + Kept(next, lines[1..])
  }

  function FlagsOf(s: State): seq<bool> {
    seq(|s.frames|, i requires 0 <= i < |s.frames| => s.frames[i].seenElse)
  }

  /** The state that counts: with a branch being skipped, the one before the outermost such branch. */
  function Counted(s: State): State {
    CountedFrom(s, 0)
  }

  function CountedFrom(s: State, i: nat): State
    requires i <= |s.frames|
    decreases |s.frames| - i
  {
    if i == |s.frames| then s
    else if s.frames[i].seenElse then State(s.frames[i].beforeElse, s.frames[..i] + [Frame(s.frames[i].beforeIf, [], false)])
    else CountedFrom(s, i + 1)
  }

  /** Frames without an `#else` have saved one stack only. */
  ghost predicate Tidy(s: State) {
    forall i :: 0 <= i < |s.frames| && !s.frames[i].seenElse ==> s.frames[i].beforeElse == []
  }

  lemma TidyStep(s: State, line: Line)
    requires Tidy(s)
    ensures Tidy(Step(s, line)) && FlagsOf(Step(s, line)) == Flags(FlagsOf(s), line.directive)
  {
    var t := Directed(s, line.directive);
    assert Tidy(t);
    assert FlagsOf(t) == Flags(FlagsOf(s), line.directive);
    assert Step(s, line).frames == t.frames;
  }

  lemma {:induction false} CountedAt(s: State, i: nat, k: nat)
    requires i <= k < |s.frames| && s.frames[k].seenElse && forall j :: i <= j < k ==> !s.frames[j].seenElse
    ensures CountedFrom(s, i) == State(s.frames[k].beforeElse, s.frames[..k] + [Frame(s.frames[k].beforeIf, [], false)])
    decreases k - i
  {
    if i < k { CountedAt(s, i + 1, k); }
  }

  lemma {:induction false} CountedAll(s: State, i: nat)
    requires i <= |s.frames| && forall j :: i <= j < |s.frames| ==> !s.frames[j].seenElse
    ensures CountedFrom(s, i) == s
    decreases |s.frames| - i
  {
    if i < |s.frames| { CountedAll(s, i + 1); }
  }

  /** The outermost conditional whose `#else` has come. */
  lemma {:induction false} Outermost(s: State, i: nat) returns (k: nat)
    requires i < |s.frames| && exists j :: i <= j < |s.frames| && s.frames[j].seenElse
    ensures i <= k < |s.frames| && s.frames[k].seenElse && forall j :: i <= j < k ==> !s.frames[j].seenElse
    decreases |s.frames| - i
  {
    if s.frames[i].seenElse { k := i; } else { k := Outermost(s, i + 1); }
  }

  /** A line that counts acts on the state that counts; any other line leaves that state alone. */
  lemma StepCounted(s: State, line: Line)
    requires Tidy(s)
    ensures Counted(Step(s, line)) ==
            if Counts(Flags(FlagsOf(s), line.directive)) then Step(Counted(s), line) else Counted(s)
  {
    TidyStep(s, line);
    var t := Step(s, line);
    var before, after := FlagsOf(s), FlagsOf(t);
    if Counts(before) {
      assert forall j :: 0 <= j < |s.frames| ==> before[j] == s.frames[j].seenElse;
      CountedAll(s, 0);
      if Counts(after) {
        assert forall j :: 0 <= j < |t.frames| ==> after[j] == t.frames[j].seenElse;
        CountedAll(t, 0);
      } else {
        var n := |s.frames| - 1;
        assert line.directive.Else? && n >= 0;
        CountedAt(t, 0, n);
        assert t.frames[..n] == s.frames[..n];
        assert s.frames[n] == Frame(s.frames[n].beforeIf, [], false);
        assert s.frames[..n] + [s.frames[n]] == s.frames;
      }
    } else {
      SkippedCounted(s, line);
    }
  }

  lemma SkippedCounted(s: State, line: Line)
    requires Tidy(s) && !Counts(FlagsOf(s))
    ensures Counted(Step(s, line)) ==
            if Counts(Flags(FlagsOf(s), line.directive)) then Step(Counted(s), line) else Counted(s)
  {
    TidyStep(s, line);
    var t := Step(s, line);
    var j0 :| 0 <= j0 < |s.frames| && FlagsOf(s)[j0];
    assert s.frames[j0].seenElse;
    var k := Outermost(s, 0);
    CountedAt(s, 0, k);
    var n := |s.frames| - 1;
    if line.directive.Endif? && k == n {
      assert forall j :: 0 <= j < n ==> !t.frames[j].seenElse;
      CountedAll(t, 0);
      assert Counts(FlagsOf(t));
      var c := Counted(s);
      assert c.frames[..n] == s.frames[..n];
      assert Directed(c, Endif) == State(c.stack, s.frames[..n]);
    } else {
      assert FlagsOf(t)[k];
      assert t.frames[k] == s.frames[k] && t.frames[..k] == s.frames[..k];
      CountedAt(t, 0, k);
    }
  }

  lemma {:induction false} RunCounted(s: State, lines: seq<Line>)
    requires Tidy(s)
    ensures Counted(Run(s, lines)) == Run(Counted(s), Kept(FlagsOf(s), lines))
    ensures Tidy(Run(s, lines))
    decreases |lines|
  {
    if lines != [] {
      var t := Step(s, lines[0]);
      TidyStep(s, lines[0]);
      StepCounted(s, lines[0]);
      RunCounted(t, lines[1..]);
      var kept := Kept(FlagsOf(t), lines[1..]);
      if Counts(FlagsOf(t)) {
        RunAppend(Counted(s), [lines[0]], kept);
        assert [lines[0]][1..] == [];
        assert Run(Counted(s), [lines[0]]) == Run(Step(Counted(s), lines[0]), []);
      } else {
        assert [] + kept == kept;
      }
    }
  }

  const START := State([], [])

  /** For any lines at all, well nested or not: the stack that counts is that of the lines outside
      skipped branches. */
  lemma AnyFile(lines: seq<Line>)
    ensures Counted(Run(START, lines)) == Run(START, Kept([], lines))
  {
    assert FlagsOf(START) == [];
    RunCounted(START, lines);
  }

  // ----- well-nested files

  /** A part of a well-nested file. */
  datatype Part =
    | Ordinary(line: Line)
    | Conditional(open: Line, body: seq<Part>, branches: seq<Branch>, close: Line)

  /** `#else` or `#elif` and the lines up to the next. */
  datatype Branch = Branch(line: Line, body: seq<Part>)

  predicate WellNested(parts: seq<Part>) {
    forall i :: 0 <= i < |parts| ==> WellNestedPart(parts[i])
  }

  predicate WellNestedPart(p: Part) {
    match p
    case Ordinary(line) => line.directive.NoDirective?
    case Conditional(open, body, branches, close) =>
      && open.directive.If? && close.directive.Endif? && WellNested(body)
      && forall i :: 0 <= i < |branches| ==> branches[i].line.directive.Else? && WellNested(branches[i].body)
  }

  function Lines(parts: seq<Part>): seq<Line> {
    if parts == [] then [] else PartLines(parts[0]) + Lines(parts[1..])
  }

  function PartLines(p: Part): seq<Line> {
    match p
    case Ordinary(line) => [line]
    case Conditional(open, body, branches, close) => [open] + Lines(body) + BranchLines(branches) + [close]
  }

  function BranchLines(branches: seq<Branch>): seq<Line> {
    if branches == [] then [] else [branches[0].line] + Lines(branches[0].body) + BranchLines(branches[1..])
  }

  /** The lines that count: of every conditional only what precedes its first `#else` or `#elif`,
      and its `#endif`. */
  function FirstBranches(parts: seq<Part>): seq<Line> {
    if parts == [] then [] else FirstBranch(parts[0]) + FirstBranches(parts[1..])
  }

  function FirstBranch(p: Part): seq<Line> {
    match p
    case Ordinary(line) => [line]
    case Conditional(open, body, _, close) => [open] + FirstBranches(body) + [close]
  }

  function FlagsAfter(flags: seq<bool>, lines: seq<Line>): seq<bool>
    decreases |lines|
  {
    if lines == [] then flags else FlagsAfter(Flags(flags, lines[0].directive), lines[1..])
  }

  lemma {:induction false} KeptAppend(flags: seq<bool>, a: seq<Line>, b: seq<Line>)
    ensures Kept(flags, a + b) == Kept(flags, a) + Kept(FlagsAfter(flags, a), b)
    ensures FlagsAfter(flags, a + b) == FlagsAfter(FlagsAfter(flags, a), b)
    decreases |a|
  {
    if a == [] {
      assert a + b == b && [] + Kept(flags, b) == Kept(flags, b);
    } else {
      assert (a + b)[1..] == a[1..] + b;
      var next := Flags(flags, a[0].directive);
      KeptAppend(next, a[1..], b);
      var head := if Counts(next) then [a[0]] else [];
      assert head + (Kept(next, a[1..]) + Kept(FlagsAfter(next, a[1..]), b)) ==
             (head + Kept(next, a[1..])) + Kept(FlagsAfter(next, a[1..]), b);
    }
  }

  lemma KeptOne(flags: seq<bool>, line: Line)
    ensures Kept(flags, [line]) == if Counts(Flags(flags, line.directive)) then [line] else []
    ensures FlagsAfter(flags, [line]) == Flags(flags, line.directive)
  {
    assert [line][1..] == [];
    assert [line] + [] == [line];
  }

  /** What `Kept` does to a stretch of well-nested lines: in a branch that counts it keeps the first
      branches, in a skipped one nothing. */
  ghost predicate KeepsFirst(flags: seq<bool>, lines: seq<Line>, first: seq<Line>) {
    && FlagsAfter(flags, lines) == flags
    && Kept(flags, lines) == if Counts(flags) then first else []
  }

  lemma CountsPushed(flags: seq<bool>, inside: seq<bool>)
    requires inside == flags + [false]
    ensures Counts(inside) <==> Counts(flags)
  {
    assert forall i :: 0 <= i < |flags| ==> inside[i] == flags[i];
  }

  lemma {:induction false} PartsKeep(flags: seq<bool>, parts: seq<Part>)
    requires WellNested(parts)
    ensures KeepsFirst(flags, Lines(parts), FirstBranches(parts))
    decreases parts, 1
  {
    if parts != [] {
      PartKeeps(flags, parts[0]);
      PartsKeep(flags, parts[1..]);
      KeptAppend(flags, PartLines(parts[0]), Lines(parts[1..]));
    }
  }

  lemma {:induction false} PartKeeps(flags: seq<bool>, p: Part)
    requires WellNestedPart(p)
    ensures KeepsFirst(flags, PartLines(p), FirstBranch(p))
    decreases p, 0
  {
    match p
    case Ordinary(line) => KeptOne(flags, line);
    case Conditional(open, body, branches, close) =>
      var inside := flags + [false];
      KeptOne(flags, open);
      PartsKeep(inside, body);
      BranchesKeep(flags, inside, branches);
      var last := FlagsAfter(inside, BranchLines(branches));
      KeptOne(last, close);
      assert Flags(last, Endif) == flags;
      KeptAppend(flags, [open], Lines(body));
      KeptAppend(flags, [open] + Lines(body), BranchLines(branches));
      KeptAppend(flags, [open] + Lines(body) + BranchLines(branches), [close]);
      CountsPushed(flags, inside);
      assert [open] + FirstBranches(body) + [] == [open] + FirstBranches(body);
  }

  /** The branches after the first keep nothing. */
  lemma {:induction false} BranchesKeep(flags: seq<bool>, inside: seq<bool>, branches: seq<Branch>)
    requires |inside| == |flags| + 1 && inside[..|flags|] == flags
    requires forall i :: 0 <= i < |branches| ==> branches[i].line.directive.Else? && WellNested(branches[i].body)
    ensures Kept(inside, BranchLines(branches)) == []
    ensures var last := FlagsAfter(inside, BranchLines(branches)); |last| == |flags| + 1 && last[..|flags|] == flags
    decreases branches, 0
  {
    if branches != [] {
      var next := flags + [true];
      var b := branches[0];
      assert Flags(inside, Else) == next;
      KeptOne(inside, b.line);
      assert next[|flags|];
      PartsKeep(next, b.body);
      BranchesKeep(flags, next, branches[1..]);
      KeptAppend(inside, [b.line], Lines(b.body));
      KeptAppend(inside, [b.line] + Lines(b.body), BranchLines(branches[1..]));
    }
  }

  /** The stack after a well-nested file is that of the file with, in every conditional, all lines
      from the first `#else` or `#elif` up to the `#endif` taken out. */
  lemma WellNestedFile(parts: seq<Part>)
    requires WellNested(parts)
    ensures Run(START, Lines(parts)) == Run(START, FirstBranches(parts))
  {
    var s := Run(START, Lines(parts));
    AnyFile(Lines(parts));
    PartsKeep([], parts);
    FlagsOfRun(START, Lines(parts));
    assert FlagsOf(START) == [];
    assert FlagsOf(s) == [];
    CountedAll(s, 0);
  }

  lemma {:induction false} FlagsOfRun(s: State, lines: seq<Line>)
    requires Tidy(s)
    ensures FlagsOf(Run(s, lines)) == FlagsAfter(FlagsOf(s), lines)
    decreases |lines|
  {
    if lines != [] {
      TidyStep(s, lines[0]);
      FlagsOfRun(Step(s, lines[0]), lines[1..]);
    }
  }

  // ----- what a skipped branch starts from

  /** Well-nested lines leave the saved stacks of the conditionals around them alone. */
  lemma {:induction false} PartsKeepFrames(s: State, parts: seq<Part>)
    requires WellNested(parts)
    ensures Run(s, Lines(parts)).frames == s.frames
    decreases parts, 1
  {
    if parts != [] {
      PartKeepsFrames(s, parts[0]);
      RunAppend(s, PartLines(parts[0]), Lines(parts[1..]));
      PartsKeepFrames(Run(s, PartLines(parts[0])), parts[1..]);
    }
  }

  lemma RunOne(s: State, line: Line)
    ensures Run(s, [line]) == Step(s, line)
  {
    assert [line][1..] == [];
    assert Run(s, [line]) == Run(Step(s, line), []);
  }

  /** Inside the conditional opened in `s`. */
  ghost predicate InsideOf(t: State, s: State) {
    |t.frames| == |s.frames| + 1 && t.frames[..|s.frames|] == s.frames && t.frames[|s.frames|].beforeIf == s.stack
  }

  lemma OpenFrames(s: State, open: Line, t: State)
    requires open.directive.If? && t.frames == Step(s, open).frames
    ensures InsideOf(t, s)
  {
  }

  lemma CloseFrames(last: State, close: Line, s: State)
    requires close.directive.Endif? && InsideOf(last, s)
    ensures Step(last, close).frames == s.frames
  {
  }

  /** A conditional read in turn. */
  lemma RunConditional(s: State, open: Line, body: seq<Line>, branches: seq<Line>, close: Line)
    ensures Run(s, [open] + body + branches + [close]) == Step(Run(Run(Step(s, open), body), branches), close)
  {
    RunOne(s, open);
    RunAppend(s, [open], body);
    RunAppend(s, [open] + body, branches);
    RunAppend(s, [open] + body + branches, [close]);
    RunOne(Run(s, [open] + body + branches), close);
  }

  lemma {:induction false} PartKeepsFrames(s: State, p: Part)
    requires WellNestedPart(p)
    ensures Run(s, PartLines(p)).frames == s.frames
    decreases p, 0
  {
    match p
    case Ordinary(line) => RunOne(s, line);
    case Conditional(open, body, branches, close) =>
      RunConditional(s, open, Lines(body), BranchLines(branches), close);
      PartsKeepFrames(Step(s, open), body);
      var inner := Run(Step(s, open), Lines(body));
      OpenFrames(s, open, inner);
      BranchesKeepFrames(inner, s, branches);
      CloseFrames(Run(inner, BranchLines(branches)), close, s);
  }

  lemma {:induction false} BranchesKeepFrames(t: State, s: State, branches: seq<Branch>)
    requires InsideOf(t, s)
    requires forall i :: 0 <= i < |branches| ==> branches[i].line.directive.Else? && WellNested(branches[i].body)
    ensures InsideOf(Run(t, BranchLines(branches)), s)
    decreases branches, 0
  {
    if branches != [] {
      var b := branches[0];
      RunOne(t, b.line);
      RunAppend(t, [b.line], Lines(b.body));
      RunAppend(t, [b.line] + Lines(b.body), BranchLines(branches[1..]));
      PartsKeepFrames(Step(t, b.line), b.body);
      BranchesKeepFrames(Run(t, [b.line] + Lines(b.body)), s, branches[1..]);
    }
  }

  /** Every branch is read with the stack from before the `#if`, however many precede it and
      whatever they hold. */
  lemma {:induction false} BranchStartsBeforeIf(s: State, open: Line, body: seq<Part>, branches: seq<Branch>, else_: Line)
    requires open.directive.If? && else_.directive.Else? && WellNested(body)
    requires forall i :: 0 <= i < |branches| ==> branches[i].line.directive.Else? && WellNested(branches[i].body)
    ensures Run(s, [open] + Lines(body) + BranchLines(branches) + [else_]).stack == Body(s.stack, else_)
  {
    var upTo := [open] + Lines(body);
    RunOne(s, open);
    RunAppend(s, [open], Lines(body));
    PartsKeepFrames(Step(s, open), body);
    RunAppend(s, upTo, BranchLines(branches));
    BranchesKeepFrames(Run(s, upTo), s, branches);
    RunAppend(s, upTo + BranchLines(branches), [else_]);
    RunOne(Run(s, upTo + BranchLines(branches)), else_);
  }
}
