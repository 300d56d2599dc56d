/** `NestingState`: the nesting stack as objects that are updated in place, with deep copies of it
    in the checkpoints of open conditionals. */
module NestingStates {
  import opened Strings
  import opened Nesting

  class Block {
    const kind: Kind
    const line: nat
    var seenOpenBrace: bool
    var openParentheses: int
    var inlineAsm: Asm
    var isDerived: bool
    var access: string

    constructor (kind: Kind, line: nat, seenOpenBrace: bool, inlineAsm: Asm)
      ensures Value() == NewBlock(kind, line, seenOpenBrace, inlineAsm)
    {
      this.kind, this.line, this.seenOpenBrace, this.inlineAsm := kind, line, seenOpenBrace, inlineAsm;
      openParentheses, isDerived := 0, false;
      access := if kind.Class? && kind.isStruct then "public" else "private";
    }

    constructor Copy(b: Block)
      ensures Value() == b.Value()
    {
      kind, line, seenOpenBrace, openParentheses := b.kind, b.line, b.seenOpenBrace, b.openParentheses;
      inlineAsm, isDerived, access := b.inlineAsm, b.isDerived, b.access;
    }

    function Value(): BlockValue
      reads this
    {
      BlockValue(kind, line, seenOpenBrace, openParentheses, inlineAsm, isDerived, access)
    }

    /** The parentheses of a line, and whether it starts or ends an assembly block. */
    method CountParentheses(change: int, asmLine: bool)
      modifies this
      ensures var open := old(openParentheses) + change;
        Value() == old(Value()).(openParentheses := open, inlineAsm := NextAsm(old(inlineAsm), change, open, asmLine))
    {
      openParentheses := openParentheses + change;
      if inlineAsm.NoAsm? || inlineAsm.EndAsm? {
        if change != 0 && openParentheses == 1 && asmLine {
          inlineAsm := InsideAsm;
        } else {
          inlineAsm := NoAsm;
        }
      } else if inlineAsm.InsideAsm? && openParentheses == 0 {
        inlineAsm := EndAsm;
      }
    }
  }

  ghost predicate Shows(blocks: seq<Block>, values: Stack)
    reads blocks
  {
    |blocks| == |values| && forall i :: 0 <= i < |blocks| ==> blocks[i].Value() == values[i]
  }

  ghost predicate Distinct(blocks: seq<Block>) {
    forall i, j :: 0 <= i < j < |blocks| ==> blocks[i] != blocks[j]
  }

  ghost predicate Within(blocks: seq<Block>, held: set<Block>) {
    forall i :: 0 <= i < |blocks| ==> blocks[i] in held
  }

  /** `copy.deepcopy` of a stack: new blocks with the old values. */
  method DeepCopy(blocks: seq<Block>, ghost values: Stack) returns (copy: seq<Block>, ghost copies: set<Block>)
    requires Shows(blocks, values)
    ensures Shows(copy, values) && Distinct(copy) && Within(copy, copies) && fresh(copies)
  {
    copy, copies := [], {};
    for i := 0 to |blocks|
      invariant |copy| == i && Distinct(copy) && Within(copy, copies) && fresh(copies)
      invariant forall j :: 0 <= j < i ==> copy[j].Value() == values[j]
    {
      var b := new Block.Copy(blocks[i]);
      copy := copy + [b];
      copies := copies + {b};
    }
  }

  class Checkpoint {
    const beforeIf: seq<Block>
    var beforeElse: seq<Block>
    var seenElse: bool
    ghost var owned: set<Block>

    constructor (beforeIf: seq<Block>, ghost copies: set<Block>)
      ensures this.beforeIf == beforeIf && beforeElse == [] && !seenElse && owned == copies
    {
      this.beforeIf := beforeIf;
      beforeElse, seenElse, owned := [], false, copies;
    }

    /** Its stacks have the values of `frame` and hold no block twice. */
    ghost predicate Valid(frame: Frame)
      reads this, owned
    {
      && Within(beforeIf, owned) && Within(beforeElse, owned)
      && Distinct(beforeIf) && Distinct(beforeElse)
      && Shows(beforeIf, frame.beforeIf) && Shows(beforeElse, frame.beforeElse) && seenElse == frame.seenElse
    }

    /** The first `#else` or `#elif` saves the stack; later ones find it saved. */
    method RememberElse(stack: seq<Block>, ghost values: Stack, ghost frame: Frame) returns (ghost copies: set<Block>)
      requires Valid(frame) && Shows(stack, values)
      modifies this
      ensures fresh(copies) && owned == old(owned) + copies
      ensures Valid(if frame.seenElse then frame else Frame(frame.beforeIf, values, true))
    {
      copies := {};
      if !seenElse {
        var copy, blocks := DeepCopy(stack, values);
        seenElse := true;
        beforeElse, copies := copy, blocks;
        owned := owned + copies;
      }
    }
  }

  ghost predicate AllValid(cs: seq<Checkpoint>, held: set<Block>, frames: seq<Frame>)
    reads cs, held
  {
    |cs| == |frames| && forall i :: 0 <= i < |cs| ==> cs[i].owned <= held && cs[i].Valid(frames[i])
  }

  ghost predicate Separate(cs: seq<Checkpoint>)
    reads cs
  {
    forall i, j :: 0 <= i < j < |cs| ==> cs[i] != cs[j] && cs[i].owned !! cs[j].owned
  }

  ghost predicate AllClear(cs: seq<Checkpoint>, blocks: set<Block>)
    reads cs
  {
    forall i :: 0 <= i < |cs| ==> cs[i].owned !! blocks
  }

  lemma AddCheckpoint(cs: seq<Checkpoint>, c: Checkpoint, held: set<Block>, live: set<Block>, more: set<Block>,
                      frames: seq<Frame>, frame: Frame)
    requires AllValid(cs, held, frames) && Separate(cs) && AllClear(cs, live) && live <= held
    requires c !in cs && c.Valid(frame) && c.owned == more && more !! held
    ensures AllValid(cs + [c], held + more, frames + [frame]) && Separate(cs + [c]) && AllClear(cs + [c], live)
  {
  }

  /** The last checkpoint has taken on new blocks, `copies`. */
  lemma LastGrows(cs: seq<Checkpoint>, n: nat, held: set<Block>, live: set<Block>, was: set<Block>, copies: set<Block>,
                  frames: seq<Frame>, frame: Frame)
    requires |cs| == |frames| == n + 1 && live <= held && was <= held && copies !! held
    requires forall i :: 0 <= i < n ==> cs[i].owned <= held && cs[i].Valid(frames[i])
    requires forall i :: 0 <= i < n ==> cs[i] != cs[n] && cs[i].owned !! was && cs[i].owned !! live
    requires forall i, j :: 0 <= i < j < n ==> cs[i] != cs[j] && cs[i].owned !! cs[j].owned
    requires cs[n].owned == was + copies && cs[n].Valid(frame) && was !! live
    ensures AllValid(cs, held + copies, frames[n := frame]) && Separate(cs) && AllClear(cs, live)
  {
  }

  ghost function Saved(s: State): State
    requires s.frames != []
  {
    var n := |s.frames| - 1;
    if s.frames[n].seenElse then s else s.(frames := s.frames[n := Frame(s.frames[n].beforeIf, s.stack, true)])
  }

  method SaveStack(stack: seq<Block>, ghost values: Stack) returns (c: Checkpoint, ghost copies: set<Block>)
    requires Shows(stack, values)
    ensures fresh(c) && fresh(copies) && c.Valid(Frame(values, [], false)) && c.owned == copies
  {
    var copy, blocks := DeepCopy(stack, values);
    c := new Checkpoint(copy, blocks);
    copies := blocks;
  }

  class NestingState {
    var stack: seq<Block>
    var previousTop: Block?
    var checkpoints: seq<Checkpoint>
    /** The blocks of `stack`, all blocks in use, and the value of the whole state. */
    ghost var live: set<Block>
    ghost var held: set<Block>
    ghost var view: State

    constructor ()
      ensures Valid() && view == START && fresh(held)
    {
      stack, previousTop, checkpoints := [], null, [];
      live, held, view := {}, {}, START;
    }

    /** The fields have the value of `view`, and no block is held twice: not in one stack, not by the
        stack and a checkpoint, and not by two checkpoints. */
    ghost predicate Valid()
      reads this, checkpoints, held
    {
      && live <= held && Within(stack, live) && Distinct(stack) && Shows(stack, view.stack)
      && AllValid(checkpoints, held, view.frames) && Separate(checkpoints) && AllClear(checkpoints, live)
    }

    // ----- conditionals

    method OpenConditional()
      requires Valid()
      modifies `checkpoints, `held, `view
      ensures Valid() && view == Directed(old(view), If)
      ensures fresh(held - old(held))
      ensures forall c :: c in checkpoints ==> c in old(checkpoints) || fresh(c)
    {
      var c, copies := SaveStack(stack, view.stack);
      AddCheckpoint(checkpoints, c, held, live, copies, view.frames, Frame(view.stack, [], false));
      checkpoints := checkpoints + [c];
      held, view := held + copies, Directed(view, If);
    }

    method SaveBeforeElse()
      requires Valid() && checkpoints != []
      modifies `held, `view, checkpoints[|checkpoints| - 1]
      ensures Valid() && fresh(held - old(held))
      ensures view == Saved(old(view))
    {
      var n := |checkpoints| - 1;
      ghost var was, frames := checkpoints[n].owned, view.frames;
      ghost var copies := checkpoints[n].RememberElse(stack, view.stack, frames[n]);
      LastGrows(checkpoints, n, held, live, was, copies, frames,
                if frames[n].seenElse then frames[n] else Frame(frames[n].beforeIf, view.stack, true));
      assert frames[n := frames[n]] == frames;
      held, view := held + copies, Saved(view);
    }

    method RestoreBeforeIf()
      requires Valid() && checkpoints != []
      modifies `stack, `live, `held, `view
      ensures Valid() && fresh(held - old(held))
      ensures view == old(view).(stack := old(view).frames[|checkpoints| - 1].beforeIf)
    {
      ghost var before := view.frames[|checkpoints| - 1].beforeIf;
      var copy, copies := DeepCopy(checkpoints[|checkpoints| - 1].beforeIf, before);
      stack, live := copy, copies;
      held, view := held + copies, view.(stack := before);
    }

    method CloseConditional()
      requires Valid()
      modifies `stack, `checkpoints, `live, `view
      ensures Valid() && view == Directed(old(view), Endif)
      ensures forall c :: c in checkpoints ==> c in old(checkpoints)
    {
      view := Directed(view, Endif);
      if checkpoints == [] { return; }
      var n := |checkpoints| - 1;
      var top := checkpoints[n];
      if top.seenElse { stack, live := top.beforeElse, top.owned; }
      checkpoints := checkpoints[..n];
    }

    method UpdatePreprocessor(directive: Directive)
      requires Valid()
      modifies this, checkpoints
      ensures Valid() && view == Directed(old(view), directive)
      ensures fresh(held - old(held)) && previousTop == old(previousTop)
      ensures forall c :: c in checkpoints ==> c in old(checkpoints) || fresh(c)
    {
      match directive
      case NoDirective =>
      case If => OpenConditional();
      case Else =>
        if checkpoints != [] {
          SaveBeforeElse();
          RestoreBeforeIf();
        }
      case Endif => CloseConditional();
    }

    // ----- the blocks of one line

    /** Nothing but the stack and its own blocks may change, in place or by push and pop. */
    twostate predicate OnlyStack(after: Stack)
      reads this
    {
      && view == old(view).(stack := after)
      && fresh(live - old(live)) && fresh(held - old(held))
    }

    function Seen(): bool
      reads this, stack
    {
      stack == [] || stack[|stack| - 1].seenOpenBrace
    }

    method PushBlock(kind: Kind, line: nat, seen: bool, asm: Asm)
      requires Valid()
      modifies `stack, `live, `held, `view
      ensures Valid() && OnlyStack(Push(old(view).stack, kind, line, seen, asm))
    {
      var b := new Block(kind, line, seen, asm);
      stack := stack + [b];
      live, held := live + {b}, held + {b};
      view := view.(stack := Push(view.stack, kind, line, seen, asm));
    }

    method PopBlock()
      requires Valid() && stack != []
      modifies `stack, `view
      ensures Valid() && OnlyStack(Pop(old(view).stack))
    {
      stack := stack[..|stack| - 1];
      view := view.(stack := Pop(view.stack));
    }

    method CountParentheses(line: Line)
      requires Valid()
      modifies `view, live
      ensures Valid() && OnlyStack(Parentheses(old(view).stack, line))
    {
      if stack == [] { return; }
      view := view.(stack := Parentheses(view.stack, line));
      stack[|stack| - 1].CountParentheses(line.parentheses, line.asm);
    }

    method OpenNamespaces(decls: seq<NamespaceDecl>, line: nat)
      requires Valid()
      modifies `stack, `live, `held, `view
      ensures Valid() && OnlyStack(Namespaces(old(view).stack, decls, line))
    {
      for i := 0 to |decls|
        invariant Valid() && OnlyStack(view.stack)
        invariant Namespaces(old(view).stack, decls, line) == Namespaces(view.stack, decls[i..], line)
      {
        assert decls[i..][0] == decls[i] && decls[i..][1..] == decls[i + 1..];
        PushBlock(Namespace(decls[i].name), line, decls[i].open, NoAsm);
      }
    }

    method PushClass(line: Line) returns (tail: Tail)
      requires Valid()
      modifies `stack, `live, `held, `view
      ensures Valid() && OnlyStack(OpenClass(old(view).stack, line))
      ensures tail == if Declares(old(view).stack, line) then line.rest else line.whole
    {
      tail := line.whole;
      if line.decl.Some? && (stack == [] || stack[|stack| - 1].openParentheses == 0) && !line.decl.value.templateArgument {
        PushBlock(ClassOf(line.decl.value), line.number, false, NoAsm);
        tail := line.rest;
      }
    }

    method CheckBegin(bareColon: bool)
      requires Valid()
      modifies `view, live
      ensures Valid() && OnlyStack(LookForColon(old(view).stack, bareColon))
    {
      if !Seen() {
        var top := stack[|stack| - 1];
        if top.kind.Class? && bareColon {
          view := view.(stack := SetTop(view.stack, top.Value().(isDerived := true)));
          top.isDerived := true;
        }
      }
    }

    method UpdateAccess(access: string)
      requires Valid()
      modifies `view, live
      ensures Valid() && OnlyStack(Access(old(view).stack, access))
    {
      view := view.(stack := Access(view.stack, access));
      if stack != [] && stack[|stack| - 1].kind.Class? && access != "" {
        stack[|stack| - 1].access := access;
      }
    }

    method ConsumeToken(token: Token, line: nat)
      requires Valid()
      modifies `stack, `live, `held, `view, live
      ensures Valid() && OnlyStack(OneToken(old(view).stack, token, line))
    {
      match token
      case Open(externC, asm) =>
        if !Seen() {
          var top := stack[|stack| - 1];
          top.seenOpenBrace := true;
          view := view.(stack := SetTop(view.stack, top.Value()));
        } else if externC {
          PushBlock(ExternC, line, true, NoAsm);
        } else {
          PushBlock(Plain, line, true, if asm then BlockAsm else NoAsm);
        }
      case Close =>
        if stack != [] { PopBlock(); }
      case _ =>
        if !Seen() { PopBlock(); }
    }

    method ConsumeTokens(tokens: seq<Token>, line: nat)
      requires Valid()
      modifies `stack, `live, `held, `view, live
      ensures Valid() && OnlyStack(Tokens(old(view).stack, tokens, line))
    {
      for i := 0 to |tokens|
        invariant Valid() && OnlyStack(view.stack)
        invariant Tokens(old(view).stack, tokens, line) == Tokens(view.stack, tokens[i..], line)
      {
        assert tokens[i..][0] == tokens[i] && tokens[i..][1..] == tokens[i + 1..];
        ConsumeToken(tokens[i], line);
      }
    }

    method UpdateHeads(line: Line) returns (tail: Tail)
      requires Valid()
      modifies `stack, `live, `held, `view, live
      ensures Valid() && OnlyStack(Heads(old(view).stack, line)) && tail == TailOf(old(view).stack, line)
    {
      CountParentheses(line);
      OpenNamespaces(line.namespaces, line.number);
      tail := PushClass(line);
    }

    method UpdateRest(line: Line, tail: Tail)
      requires Valid()
      modifies `stack, `live, `held, `view, live
      ensures Valid() && OnlyStack(Rest(old(view).stack, line, tail))
    {
      CheckBegin(line.bareColon);
      UpdateAccess(tail.access);
      ConsumeTokens(tail.tokens, line.number);
    }

    method UpdateBlocks(line: Line)
      requires Valid()
      modifies `stack, `live, `held, `view, live
      ensures Valid() && OnlyStack(Body(old(view).stack, line))
    {
      var tail := UpdateHeads(line);
      UpdateRest(line, tail);
    }

    /** `Update`.  Blocks of the stack change in place, and still every saved stack keeps its value:
        `view` holds them all. */
    method Update(line: Line)
      requires Valid()
      modifies this, checkpoints, held
      ensures Valid() && view == Step(old(view), line)
      ensures previousTop == if old(stack) == [] then null else old(stack[|stack| - 1])
      ensures fresh(held - old(held))
      ensures forall c :: c in checkpoints ==> c in old(checkpoints) || fresh(c)
    {
      previousTop := if stack == [] then null else stack[|stack| - 1];
      UpdatePreprocessor(line.directive);
      UpdateBlocks(line);
    }
  }

  /** The loop over a file. For well-nested conditionals the blocks left are those of the lines
      outside skipped branches. */
  method ProcessFile(lines: seq<Line>) returns (state: NestingState)
    ensures fresh(state) && state.Valid() && state.view == Run(START, lines)
    ensures Shows(state.stack, Run(START, lines).stack)
    ensures forall parts :: WellNested(parts) && Lines(parts) == lines ==>
              Shows(state.stack, Run(START, FirstBranches(parts)).stack)
  {
    state := new NestingState();
    for i := 0 to |lines|
      invariant state.Valid() && fresh(state) && fresh(state.held)
      invariant fresh(set c | c in state.checkpoints)
      invariant Run(START, lines) == Run(state.view, lines[i..])
    {
      assert lines[i..][0] == lines[i] && lines[i..][1..] == lines[i + 1..];
      assert forall c :: c in state.checkpoints ==> c in (set c | c in state.checkpoints);
      state.Update(lines[i]);
    }
    forall parts | WellNested(parts) && Lines(parts) == lines
      ensures Shows(state.stack, Run(START, FirstBranches(parts)).stack)
    {
      WellNestedFile(parts);
    }
  }
}
