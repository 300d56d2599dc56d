/** What one line does to the nesting stack, feature by feature: which blocks it pushes, marks and pops,
    and with what in them. */
module NestingLaws {
  import opened Nesting
  import opened Strings

  /** A line with nothing in it that matters. */
  function Empty(n: nat): Line {
    Line(n, NoDirective, 0, false, false, [], None, Tail("", []), Tail("", []))
  }

  function WithTokens(n: nat, tokens: seq<Token>): Line {
    Empty(n).(whole := Tail("", tokens))
  }

  /** No assembly statement is open or has just ended. */
  predicate Calm(stack: Stack) {
    forall i :: 0 <= i < |stack| ==> stack[i].inlineAsm.NoAsm? || stack[i].inlineAsm.BlockAsm?
  }

  lemma Quiet(stack: Stack, line: Line)
    requires Calm(stack) && line.parentheses == 0
    ensures Parentheses(stack, line) == stack
  {
    if stack != [] {
      var top := stack[|stack| - 1];
      assert NextAsm(top.inlineAsm, 0, top.openParentheses, line.asm) == top.inlineAsm;
    }
  }

  lemma BodyOfTokens(stack: Stack, n: nat, tokens: seq<Token>)
    requires Calm(stack)
    ensures Body(stack, WithTokens(n, tokens)) == Tokens(stack, tokens, n)
  {
    Quiet(stack, WithTokens(n, tokens));
  }

  lemma BodyOfToken(stack: Stack, n: nat, token: Token)
    requires Calm(stack)
    ensures Body(stack, WithTokens(n, [token])) == OneToken(stack, token, n)
  {
    BodyOfTokens(stack, n, [token]);
    OnlyToken(stack, n, token);
  }

  lemma OnlyToken(stack: Stack, n: nat, token: Token)
    ensures Tokens(stack, [token], n) == OneToken(stack, token, n)
  {
    assert [token][1..] == [];
  }

  /** A line with nothing in it changes nothing. */
  lemma EmptyLaw(stack: Stack, n: nat)
    requires Calm(stack)
    ensures Body(stack, Empty(n)) == stack
  {
    Quiet(stack, Empty(n));
  }

  // ----- heads of classes and namespaces

  /** A class head outside parentheses pushes a class that is open if a brace follows.  Its access is
      `public` for a struct and `private` for a class, unless a specifier follows; a bare colon says that
      it is derived.  What the line says as a whole does not matter then. */
  lemma ClassLaw(stack: Stack, n: nat, name: string, isStruct: bool, indent: nat, last: nat,
                 colon: bool, whole: Tail, access: string, brace: Token)
    requires Calm(stack) && (stack == [] || stack[|stack| - 1].openParentheses == 0) && brace.Open?
    ensures var head := Line(n, NoDirective, 0, false, colon, [],
                             Some(ClassDecl(name, isStruct, indent, last, false)), whole, Tail(access, []));
      var now := if access != "" then access else if isStruct then "public" else "private";
      && Body(stack, head) ==
           stack + [BlockValue(Class(name, isStruct, indent, last), n, false, 0, NoAsm, colon, now)]
      && Body(stack, head.(rest := Tail(access, [brace]))) ==
           stack + [BlockValue(Class(name, isStruct, indent, last), n, true, 0, NoAsm, colon, now)]
  {
    var kind := Class(name, isStruct, indent, last);
    var line := Line(n, NoDirective, 0, false, colon, [],
                     Some(ClassDecl(name, isStruct, indent, last, false)), whole, Tail(access, []));
    var now := if access != "" then access else if isStruct then "public" else "private";
    var block := BlockValue(kind, n, false, 0, NoAsm, colon, now);
    HeadPushed(stack, line, kind);
    HeadPushed(stack, line.(rest := Tail(access, [brace])), kind);
    OnlyToken(stack + [block], n, brace);
    Replaced(stack, block, block.(seenOpenBrace := true));
  }

  lemma Replaced(stack: Stack, block: BlockValue, after: BlockValue)
    ensures SetTop(stack + [block], after) == stack + [after]
  {
  }

  /** The new block after colon and access, before the tokens. */
  lemma HeadPushed(stack: Stack, line: Line, kind: Kind)
    requires Calm(stack) && (stack == [] || stack[|stack| - 1].openParentheses == 0)
    requires line.parentheses == 0 && line.namespaces == [] && line.decl.Some? && !line.decl.value.templateArgument
    requires kind == Class(line.decl.value.name, line.decl.value.isStruct, line.decl.value.indent, line.decl.value.lastLine)
    ensures var now := if line.rest.access != "" then line.rest.access else if kind.isStruct then "public" else "private";
      var block := BlockValue(kind, line.number, false, 0, NoAsm, line.bareColon, now);
      Body(stack, line) == Tokens(stack + [block], line.rest.tokens, line.number)
  {
    Quiet(stack, line);
    var pushed := BlockValue(kind, line.number, false, 0, NoAsm, false, if kind.isStruct then "public" else "private");
    assert Heads(stack, line) == stack + [pushed];
    HeadMarked(stack, pushed, line.bareColon, line.rest.access);
  }

  lemma HeadMarked(stack: Stack, block: BlockValue, colon: bool, access: string)
    requires block.kind.Class? && !block.seenOpenBrace && !block.isDerived
    ensures Access(LookForColon(stack + [block], colon), access) ==
              stack + [block.(isDerived := colon, access := if access != "" then access else block.access)]
  {
    var derived := block.(isDerived := colon);
    Replaced(stack, block, derived);
    assert LookForColon(stack + [block], colon) == stack + [derived];
    Replaced(stack, derived, derived.(access := access));
  }

  /** A head that is a template argument, or stands inside open parentheses, counts for nothing: the line
      does what it does without it. */
  lemma NoClassLaw(stack: Stack, line: Line)
    ensures line.decl.Some? && line.decl.value.templateArgument ==>
              Body(stack, line) == Body(stack, line.(decl := None))
    ensures stack != [] && line.namespaces == [] && stack[|stack| - 1].openParentheses + line.parentheses != 0 ==>
              Body(stack, line) == Body(stack, line.(decl := None))
  {
    assert Parentheses(stack, line) == Parentheses(stack, line.(decl := None));
  }

  function NamespaceBlocks(decls: seq<NamespaceDecl>, n: nat): (blocks: Stack)
    ensures |blocks| == |decls|
    ensures forall k :: 0 <= k < |decls| ==>
              blocks[k] == BlockValue(Namespace(decls[k].name), n, decls[k].open, 0, NoAsm, false, "private")
  {
    seq(|decls|, k requires 0 <= k < |decls| =>
      BlockValue(Namespace(decls[k].name), n, decls[k].open, 0, NoAsm, false, "private"))
  }

  lemma {:induction false} NamespacesPushed(stack: Stack, decls: seq<NamespaceDecl>, n: nat)
    ensures Namespaces(stack, decls, n) == stack + NamespaceBlocks(decls, n)
    decreases |decls|
  {
    if decls == [] {
      assert stack + NamespaceBlocks(decls, n) == stack;
    } else {
      var block := NewBlock(Namespace(decls[0].name), n, decls[0].open, NoAsm);
      NamespacesPushed(stack + [block], decls[1..], n);
      FirstBlock(decls, n);
      Regroup(stack, block, NamespaceBlocks(decls[1..], n));
    }
  }

  lemma FirstBlock(decls: seq<NamespaceDecl>, n: nat)
    requires decls != []
    ensures NamespaceBlocks(decls, n) ==
              [NewBlock(Namespace(decls[0].name), n, decls[0].open, NoAsm)] + NamespaceBlocks(decls[1..], n)
  {
  }

  lemma Regroup(stack: Stack, block: BlockValue, blocks: Stack)
    ensures (stack + [block]) + blocks == stack + ([block] + blocks)
  {
  }

  /** The namespaces of a line are pushed in their order, each open if its brace is on the line. */
  lemma NamespaceLaw(stack: Stack, n: nat, decls: seq<NamespaceDecl>)
    requires Calm(stack)
    ensures Body(stack, Empty(n).(namespaces := decls)) == stack + NamespaceBlocks(decls, n)
  {
    var line := Empty(n).(namespaces := decls);
    Quiet(stack, line);
    NamespacesPushed(stack, decls, n);
  }

  // ----- braces, semicolons and closing parentheses

  /** `{` opens a head that is not open yet; otherwise `extern "C" {` pushes a block of its own, and other
      braces push plain blocks, those of `asm` marked as such. */
  lemma OpenLaw(stack: Stack, n: nat, externC: bool, asm: bool)
    requires Calm(stack)
    ensures var after := Body(stack, WithTokens(n, [Open(externC, asm)]));
      if stack != [] && !stack[|stack| - 1].seenOpenBrace then
        after == stack[..|stack| - 1] + [stack[|stack| - 1].(seenOpenBrace := true)]
      else if externC then
        after == stack + [BlockValue(ExternC, n, true, 0, NoAsm, false, "private")]
      else
        after == stack + [BlockValue(Plain, n, true, 0, if asm then BlockAsm else NoAsm, false, "private")]
  {
    BodyOfToken(stack, n, Open(externC, asm));
  }

  /** `}` pops the innermost block if there is one; `;` and `)` pop a head that is not open. */
  lemma PopLaw(stack: Stack, n: nat, token: Token)
    requires Calm(stack) && !token.Open?
    ensures Body(stack, WithTokens(n, [token])) ==
              if stack != [] && (token.Close? || !stack[|stack| - 1].seenOpenBrace) then stack[..|stack| - 1] else stack
  {
    BodyOfToken(stack, n, token);
  }

  lemma {:induction false} TokensAppend(stack: Stack, a: seq<Token>, b: seq<Token>, n: nat)
    ensures Tokens(stack, a + b, n) == Tokens(Tokens(stack, a, n), b, n)
    decreases |a|
  {
    if a == [] {
      assert a + b == b;
    } else {
      assert (a + b)[1..] == a[1..] + b;
      TokensAppend(OneToken(stack, a[0], n), a[1..], b, n);
    }
  }

  lemma {:induction false} TokensKeepCalm(stack: Stack, tokens: seq<Token>, n: nat)
    requires Calm(stack)
    ensures Calm(Tokens(stack, tokens, n))
    decreases |tokens|
  {
    if tokens != [] { TokensKeepCalm(OneToken(stack, tokens[0], n), tokens[1..], n); }
  }

  /** Tokens act one after another. */
  lemma TokensLaw(stack: Stack, n: nat, a: seq<Token>, b: seq<Token>)
    requires Calm(stack)
    ensures Body(stack, WithTokens(n, a + b)) == Body(Body(stack, WithTokens(n, a)), WithTokens(n, b))
  {
    BodyOfTokens(stack, n, a + b);
    BodyOfTokens(stack, n, a);
    TokensKeepCalm(stack, a, n);
    BodyOfTokens(Tokens(stack, a, n), n, b);
    TokensAppend(stack, a, b, n);
  }

  // ----- access, colons and parentheses

  /** An access specifier is remembered by the innermost block if that is a class. */
  lemma AccessLaw(stack: Stack, n: nat, access: string)
    requires Calm(stack) && access != ""
    ensures Body(stack, Empty(n).(whole := Tail(access, []))) ==
              if stack != [] && stack[|stack| - 1].kind.Class?
              then stack[..|stack| - 1] + [stack[|stack| - 1].(access := access)] else stack
  {
    Quiet(stack, Empty(n).(whole := Tail(access, [])));
  }

  /** A bare colon makes a class derived as long as its head is not open. */
  lemma ColonLaw(stack: Stack, n: nat)
    requires Calm(stack)
    ensures Body(stack, Empty(n).(bareColon := true)) ==
              if stack != [] && stack[|stack| - 1].kind.Class? && !stack[|stack| - 1].seenOpenBrace
              then stack[..|stack| - 1] + [stack[|stack| - 1].(isDerived := true)] else stack
  {
    Quiet(stack, Empty(n).(bareColon := true));
  }

  /** Parentheses are counted in the innermost block, and assembly follows them: it is entered when the
      first opens on a line of `asm`, has ended once all are closed again, and is past one line later. */
  lemma ParenthesesLaw(stack: Stack, n: nat, change: int, asm: bool)
    requires stack != []
    ensures var top := stack[|stack| - 1];
      var now := top.openParentheses + change;
      var next :=
        if top.inlineAsm == NoAsm || top.inlineAsm == EndAsm then
          (if change != 0 && now == 1 && asm then InsideAsm else NoAsm)
        else if top.inlineAsm == InsideAsm && now == 0 then EndAsm
        else top.inlineAsm;
      Body(stack, Empty(n).(parentheses := change, asm := asm)) ==
        stack[..|stack| - 1] + [top.(openParentheses := now, inlineAsm := next)]
  {
  }

  // ----- in which order

  /** What a line without assembly does is done in turn: its parentheses, its namespaces, its class head
      with colon and access, and then its tokens, those after the head if there is one that counts. */
  lemma OrderLaw(stack: Stack, line: Line)
    requires Calm(stack) && !line.asm
    ensures var n := line.number;
      var counted := Body(stack, Empty(n).(parentheses := line.parentheses));
      var spaced := Body(counted, Empty(n).(namespaces := line.namespaces));
      var head := Empty(n).(bareColon := line.bareColon, decl := line.decl,
                            whole := Tail(line.whole.access, []), rest := Tail(line.rest.access, []));
      var counts := line.decl.Some? && !line.decl.value.templateArgument &&
        (spaced == [] || spaced[|spaced| - 1].openParentheses == 0);
      Body(stack, line) ==
        Body(Body(spaced, head), WithTokens(n, if counts then line.rest.tokens else line.whole.tokens))
  {
    var n := line.number;
    var counted := Parentheses(stack, line);
    CountedIsCalm(stack, line);
    NamespacesPushed(counted, line.namespaces, n);
    var spaced := Namespaces(counted, line.namespaces, n);
    assert Calm(spaced);
    SpacedBody(counted, n, line.namespaces);
    HeadBody(spaced, line);
  }

  lemma CountedIsCalm(stack: Stack, line: Line)
    requires Calm(stack) && !line.asm
    ensures Calm(Parentheses(stack, line))
    ensures Body(stack, Empty(line.number).(parentheses := line.parentheses)) == Parentheses(stack, line)
  {
  }

  lemma SpacedBody(stack: Stack, n: nat, decls: seq<NamespaceDecl>)
    requires Calm(stack)
    ensures Body(stack, Empty(n).(namespaces := decls)) == Namespaces(stack, decls, n)
  {
    Quiet(stack, Empty(n).(namespaces := decls));
  }

  /** The rest of a line, given the stack with its namespaces. */
  lemma HeadBody(spaced: Stack, line: Line)
    requires Calm(spaced)
    ensures var n := line.number;
      var head := Empty(n).(bareColon := line.bareColon, decl := line.decl,
                            whole := Tail(line.whole.access, []), rest := Tail(line.rest.access, []));
      var tail := if Declares(spaced, line) then line.rest else line.whole;
      Body(Body(spaced, head), WithTokens(n, tail.tokens)) == Rest(OpenClass(spaced, line), line, tail)
  {
    var n := line.number;
    var head := Empty(n).(bareColon := line.bareColon, decl := line.decl,
                          whole := Tail(line.whole.access, []), rest := Tail(line.rest.access, []));
    var tail := if Declares(spaced, line) then line.rest else line.whole;
    Quiet(spaced, head);
    var marked := Access(LookForColon(OpenClass(spaced, line), line.bareColon), tail.access);
    assert Body(spaced, head) == marked;
    assert Calm(marked);
    BodyOfTokens(marked, n, tail.tokens);
  }

  // ----- assembly and the rest

  /** The stack with no assembly statement open. */
  function Calmed(stack: Stack): (calm: Stack)
    ensures |calm| == |stack| && Calm(calm)
  {
    seq(|stack|, i requires 0 <= i < |stack| => CalmedBlock(stack[i]))
  }

  function CalmedBlock(block: BlockValue): BlockValue {
    if block.inlineAsm.BlockAsm? then block else block.(inlineAsm := NoAsm)
  }

  lemma CalmedTop(stack: Stack, block: BlockValue)
    ensures Calmed(stack + [block]) == Calmed(stack) + [CalmedBlock(block)]
  {
  }

  /** Assembly statements keep nothing else from being done: but for their marks, a line leaves what it
      leaves where none is open. */
  lemma AsmLaw(stack: Stack, line: Line)
    ensures Calmed(Body(stack, line)) == Body(Calmed(stack), line.(asm := false))
  {
    var calm := line.(asm := false);
    var counted := Parentheses(stack, line);
    CalmedParentheses(stack, line);
    CalmedNamespaces(counted, line.namespaces, line.number);
    var spaced := Namespaces(counted, line.namespaces, line.number);
    CalmedHead(spaced, line);
    CalmedTokens(Access(LookForColon(OpenClass(spaced, line), line.bareColon), TailOf(stack, line).access),
                 TailOf(stack, line).tokens, line.number);
  }

  lemma Split(stack: Stack) returns (below: Stack, top: BlockValue)
    requires stack != []
    ensures stack == below + [top] && top == stack[|stack| - 1] && below == stack[..|stack| - 1]
    ensures Calmed(stack) == Calmed(below) + [CalmedBlock(top)]
  {
    below, top := stack[..|stack| - 1], stack[|stack| - 1];
    assert stack == below + [top];
    CalmedTop(below, top);
  }

  lemma CalmedParentheses(stack: Stack, line: Line)
    ensures Calmed(Parentheses(stack, line)) == Parentheses(Calmed(stack), line.(asm := false))
  {
    if stack != [] {
      var below, top := Split(stack);
      var open := top.openParentheses + line.parentheses;
      var after := top.(openParentheses := open, inlineAsm := NextAsm(top.inlineAsm, line.parentheses, open, line.asm));
      Replaced(below, top, after);
      Replaced(Calmed(below), CalmedBlock(top), CalmedBlock(after));
      CalmedTop(below, after);
    }
  }

  lemma {:induction false} CalmedNamespaces(stack: Stack, decls: seq<NamespaceDecl>, n: nat)
    ensures Calmed(Namespaces(stack, decls, n)) == Namespaces(Calmed(stack), decls, n)
    decreases |decls|
  {
    if decls != [] {
      var block := NewBlock(Namespace(decls[0].name), n, decls[0].open, NoAsm);
      CalmedTop(stack, block);
      CalmedNamespaces(stack + [block], decls[1..], n);
    }
  }

  lemma CalmedHead(stack: Stack, line: Line)
    ensures Declares(Calmed(stack), line.(asm := false)) == Declares(stack, line)
    ensures var tail := if Declares(stack, line) then line.rest else line.whole;
      Calmed(Access(LookForColon(OpenClass(stack, line), line.bareColon), tail.access)) ==
        Access(LookForColon(OpenClass(Calmed(stack), line.(asm := false)), line.bareColon), tail.access)
  {
    if Declares(stack, line) {
      CalmedTop(stack, NewBlock(ClassOf(line.decl.value), line.number, false, NoAsm));
    }
    var pushed := OpenClass(stack, line);
    CalmedColon(pushed, line.bareColon);
    CalmedAccess(LookForColon(pushed, line.bareColon), (if Declares(stack, line) then line.rest else line.whole).access);
  }

  lemma CalmedColon(stack: Stack, colon: bool)
    ensures Calmed(LookForColon(stack, colon)) == LookForColon(Calmed(stack), colon)
  {
    if stack != [] {
      var below, top := Split(stack);
      var after := top.(isDerived := true);
      Replaced(below, top, after);
      Replaced(Calmed(below), CalmedBlock(top), CalmedBlock(after));
      CalmedTop(below, after);
    }
  }

  lemma CalmedAccess(stack: Stack, access: string)
    ensures Calmed(Access(stack, access)) == Access(Calmed(stack), access)
  {
    if stack != [] {
      var below, top := Split(stack);
      var after := top.(access := access);
      Replaced(below, top, after);
      Replaced(Calmed(below), CalmedBlock(top), CalmedBlock(after));
      CalmedTop(below, after);
    }
  }

  lemma CalmedToken(stack: Stack, token: Token, n: nat)
    ensures Calmed(OneToken(stack, token, n)) == OneToken(Calmed(stack), token, n)
  {
    if token.Open? && !SeenOpenBrace(stack) { CalmedOpen(stack); }
    else if token.Open? { CalmedPush(stack, token, n); }
    else if stack != [] { CalmedPop(stack); }
  }

  lemma CalmedOpen(stack: Stack)
    requires stack != []
    ensures var top := stack[|stack| - 1].(seenOpenBrace := true);
      Calmed(SetTop(stack, top)) == SetTop(Calmed(stack), CalmedBlock(top))
  {
    var below, top := Split(stack);
    var after := top.(seenOpenBrace := true);
    Replaced(below, top, after);
    Replaced(Calmed(below), CalmedBlock(top), CalmedBlock(after));
    CalmedTop(below, after);
  }

  lemma CalmedPush(stack: Stack, token: Token, n: nat)
    requires token.Open? && SeenOpenBrace(stack)
    ensures Calmed(OneToken(stack, token, n)) == OneToken(Calmed(stack), token, n)
  {
    CalmedTop(stack, NewBlock(ExternC, n, true, NoAsm));
    CalmedTop(stack, NewBlock(Plain, n, true, if token.asm then BlockAsm else NoAsm));
  }

  lemma CalmedPop(stack: Stack)
    requires stack != []
    ensures Calmed(Pop(stack)) == Pop(Calmed(stack))
  {
  }

  lemma {:induction false} CalmedTokens(stack: Stack, tokens: seq<Token>, n: nat)
    ensures Calmed(Tokens(stack, tokens, n)) == Tokens(Calmed(stack), tokens, n)
    decreases |tokens|
  {
    if tokens != [] {
      CalmedToken(stack, tokens[0], n);
      CalmedTokens(OneToken(stack, tokens[0], n), tokens[1..], n);
    }
  }

  function Closers(tokens: seq<Token>): nat {
    if tokens == [] then 0 else (if tokens[0].Open? then 0 else 1) + Closers(tokens[1..])
  }

  /** The mark of a block that a line cannot reach by popping is the one its parentheses give it. */
  lemma MarksLaw(stack: Stack, line: Line, i: nat)
    requires i + Closers(line.whole.tokens) + Closers(line.rest.tokens) < |stack|
    ensures var counted := Body(stack, Empty(line.number).(parentheses := line.parentheses, asm := line.asm));
      |counted| == |stack| && i < |Body(stack, line)| && Body(stack, line)[i].inlineAsm == counted[i].inlineAsm
  {
    var counted := Parentheses(stack, line);
    var tail := TailOf(stack, line);
    var marked := Access(LookForColon(Heads(stack, line), line.bareColon), tail.access);
    NamespacesPushed(counted, line.namespaces, line.number);
    HeadKeepsMarks(counted + NamespaceBlocks(line.namespaces, line.number), line, tail.access, i);
    MarksKept(marked, tail.tokens, line.number, i);
  }

  lemma HeadKeepsMarks(stack: Stack, line: Line, access: string, i: nat)
    requires i < |stack|
    ensures var marked := Access(LookForColon(OpenClass(stack, line), line.bareColon), access);
      |marked| >= |stack| && marked[i].inlineAsm == stack[i].inlineAsm
  {
  }

  lemma {:induction false} MarksKept(stack: Stack, tokens: seq<Token>, n: nat, i: nat)
    requires i + Closers(tokens) < |stack|
    ensures i < |Tokens(stack, tokens, n)| && Tokens(stack, tokens, n)[i].inlineAsm == stack[i].inlineAsm
    decreases |tokens|
  {
    if tokens != [] {
      MarksKept(OneToken(stack, tokens[0], n), tokens[1..], n, i);
    }
  }
}
