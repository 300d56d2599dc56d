/** The token edit of `AddVar`: tokens are objects, mutated in place while the dictionary that
    is keyed by their positions is rebuilt. */
module Tokens {

  datatype Pos = Pos(line: int, col: int)

  /** What a token holds. */
  datatype Tok = Tok(text: string, start: Pos, end: Pos)

  function Moved(p: Pos, delta: int, start: int): Pos {
    if p.line >= start then Pos(p.line + delta, p.col) else p
  }

  function MovedTok(t: Tok, delta: int, start: int): Tok {
    if t.start.line >= start
    then Tok(t.text, Pos(t.start.line + delta, t.start.col), Pos(t.end.line + delta, t.end.col))
    else t
  }

  class Token {
    var text: string
    var start: Pos
    var end: Pos

    function Value(): Tok
      reads this
    {
      Tok(text, start, end)
    }

    method ShiftBy(delta: int, from: int)
      modifies this
      ensures Value() == MovedTok(old(Value()), delta, from)
    {
      if start.line >= from {
        start := Pos(start.line + delta, start.col);
        end := Pos(end.line + delta, end.col);
      }
    }
  }

  /** Every token sits under its own position; hence no token sits under two. */
  ghost predicate Keyed(tokens: map<Pos, Token>)
    reads tokens.Values
  {
    forall p :: p in tokens ==> tokens[p].start == p
  }

  ghost predicate KeyedValues(m: map<Pos, Tok>) {
    forall p :: p in m ==> m[p].start == p
  }

  ghost function Snapshot(tokens: map<Pos, Token>): map<Pos, Tok>
    reads tokens.Values
  {
    map p | p in tokens :: tokens[p].Value()
  }

  // ----- shifted token maps

  /** Every entry of `m` is in `result` under its new position, moved. */
  ghost predicate MovesInto(m: map<Pos, Tok>, result: map<Pos, Tok>, delta: int, start: int) {
    forall p {:trigger Moved(p, delta, start)} :: p in m ==>
      Moved(p, delta, start) in result && result[Moved(p, delta, start)] == MovedTok(m[p], delta, start)
  }

  /** Every position of `result` is the new one of an entry of `m`. */
  ghost predicate Covered(m: map<Pos, Tok>, result: map<Pos, Tok>, delta: int, start: int) {
    forall q {:trigger q in result} :: q in result ==> exists p :: p in m && q == Moved(p, delta, start)
  }

  /** `result` holds exactly the entries of `m`, moved. */
  ghost predicate IsShift(m: map<Pos, Tok>, result: map<Pos, Tok>, delta: int, start: int) {
    MovesInto(m, result, delta, start) && Covered(m, result, delta, start)
  }

  /** Every token of `before` is in `after`, under the place where it starts now.  If it started on line
      `from` or below, its start and its end are both `delta` lines further down, with text and columns
      as they were; otherwise it is as it was. */
  ghost predicate Raised(before: map<Pos, Tok>, after: map<Pos, Tok>, delta: int, from: int) {
    forall p :: RaisedAt(before, p, after, delta, from)
  }

  ghost predicate RaisedAt(before: map<Pos, Tok>, p: Pos, after: map<Pos, Tok>, delta: int, from: int) {
    p in before ==>
    var t := before[p];
    var down := if t.start.line >= from then delta else 0;
    var start, end := Pos(t.start.line + down, t.start.col), Pos(t.end.line + down, t.end.col);
    start in after && after[start] == Tok(t.text, start, end)
  }

  lemma ShiftRaises(before: map<Pos, Tok>, after: map<Pos, Tok>, delta: int, from: int)
    requires KeyedValues(before) && MovesInto(before, after, delta, from)
    ensures Raised(before, after, delta, from)
  {
    forall p ensures RaisedAt(before, p, after, delta, from) {
      if p in before { assert Moved(p, delta, from) in after; }
    }
  }

  ghost predicate Injective(positions: set<Pos>, delta: int, start: int) {
    forall p, q :: p in positions && q in positions && Moved(p, delta, start) == Moved(q, delta, start) ==> p == q
  }

  /** Shifting down never makes two positions collide. */
  lemma ShiftIsInjective(positions: set<Pos>, delta: int, start: int)
    requires delta >= 0
    ensures Injective(positions, delta, start)
  {
  }

  /** The tokens at the positions `done` moved, the others not. */
  ghost function PartlyMoved(m: map<Pos, Tok>, done: set<Pos>, delta: int, start: int): map<Pos, Tok> {
    map p | p in m :: if p in done then MovedTok(m[p], delta, start) else m[p]
  }

  lemma MoveMore(m: map<Pos, Tok>, done: set<Pos>, p: Pos, delta: int, start: int)
    requires p in m && p !in done
    ensures p in PartlyMoved(m, done, delta, start) && PartlyMoved(m, done, delta, start)[p] == m[p]
    ensures PartlyMoved(m, done, delta, start)[p := MovedTok(m[p], delta, start)] == PartlyMoved(m, done + {p}, delta, start)
  {
  }

  ghost predicate Unshared(tokens: map<Pos, Token>) {
    forall p, q :: p in tokens && q in tokens && p != q ==> tokens[p] != tokens[q]
  }

  /** Moves one token where it is; no other changes. */
  method MoveToken(tokens: map<Pos, Token>, p: Pos, delta: int, start: int) returns (token: Token, at: Pos)
    requires Unshared(tokens) && p in tokens && tokens[p].start == p
    modifies tokens[p]
    ensures token == tokens[p] && at == Moved(p, delta, start) == token.start
    ensures Snapshot(tokens) == old(Snapshot(tokens))[p := MovedTok(old(Snapshot(tokens))[p], delta, start)]
  {
    token := tokens[p];
    token.ShiftBy(delta, start);
    at := token.start;
  }

  lemma AllMoved(tokens: map<Pos, Token>, before: map<Pos, Tok>, delta: int, start: int)
    requires before.Keys == tokens.Keys && Snapshot(tokens) == PartlyMoved(before, tokens.Keys, delta, start)
    ensures forall p :: p in tokens ==> tokens[p].Value() == MovedTok(before[p], delta, start)
  {
    forall p | p in tokens ensures tokens[p].Value() == MovedTok(before[p], delta, start) {
      assert Snapshot(tokens)[p] == tokens[p].Value();
    }
  }

  /** `shifted` holds exactly the tokens of `done`, each under its new position. */
  ghost predicate Rebuilt(tokens: map<Pos, Token>, shifted: map<Pos, Token>, done: set<Pos>, delta: int, start: int)
    requires done <= tokens.Keys
  {
    && (forall p :: p in done ==> Moved(p, delta, start) in shifted && shifted[Moved(p, delta, start)] == tokens[p])
    && (forall q :: q in shifted ==> exists p :: p in done && q == Moved(p, delta, start))
  }

  lemma RebuiltMore(tokens: map<Pos, Token>, shifted: map<Pos, Token>, done: set<Pos>, p: Pos, delta: int, start: int)
    requires done <= tokens.Keys && p in tokens && Rebuilt(tokens, shifted, done, delta, start)
    requires Injective(tokens.Keys, delta, start)
    ensures Rebuilt(tokens, shifted[Moved(p, delta, start) := tokens[p]], done + {p}, delta, start)
  {
    var next := shifted[Moved(p, delta, start) := tokens[p]];
    forall q | q in next ensures exists o :: o in done + {p} && q == Moved(o, delta, start) {
      if q in shifted {
        var o :| o in done && q == Moved(o, delta, start);
        assert o in done + {p};
      } else {
        assert p in done + {p};
      }
    }
    assert forall o :: o in done && Moved(o, delta, start) == Moved(p, delta, start) ==> o == p;
  }

  lemma RebuiltValues(tokens: map<Pos, Token>, shifted: map<Pos, Token>, delta: int, start: int)
    requires Rebuilt(tokens, shifted, tokens.Keys, delta, start)
    ensures shifted.Values == tokens.Values
  {
    forall t | t in tokens.Values ensures t in shifted.Values {
      var p :| p in tokens && tokens[p] == t;
      assert shifted[Moved(p, delta, start)] == t;
    }
    forall t | t in shifted.Values ensures t in tokens.Values {
      var q :| q in shifted && shifted[q] == t;
      var p :| p in tokens.Keys && q == Moved(p, delta, start);
      assert tokens[p] == t;
    }
  }

  lemma RebuiltSnapshot(tokens: map<Pos, Token>, shifted: map<Pos, Token>, before: map<Pos, Tok>, delta: int, start: int)
    requires Rebuilt(tokens, shifted, tokens.Keys, delta, start) && before.Keys == tokens.Keys
    requires KeyedValues(before)
    requires forall p :: p in tokens ==> tokens[p].Value() == MovedTok(before[p], delta, start)
    ensures Keyed(shifted) && IsShift(before, Snapshot(shifted), delta, start)
  {
    forall q | q in shifted ensures shifted[q].start == q {
      var p :| p in tokens.Keys && q == Moved(p, delta, start);
      assert shifted[q] == tokens[p] && before[p].start == p;
    }
    var result := Snapshot(shifted);
    forall p {:trigger Moved(p, delta, start)} | p in before
      ensures Moved(p, delta, start) in result && result[Moved(p, delta, start)] == MovedTok(before[p], delta, start)
    {
      assert shifted[Moved(p, delta, start)] == tokens[p];
    }
  }

  /** The loop of `_ShiftLinesInTokens`. */
  method MoveTokens(tokens: map<Pos, Token>, delta: int, start: int) returns (shifted: map<Pos, Token>)
    requires Unshared(tokens) && KeyedValues(Snapshot(tokens)) && Injective(tokens.Keys, delta, start)
    modifies tokens.Values
    ensures Snapshot(tokens) == PartlyMoved(old(Snapshot(tokens)), tokens.Keys, delta, start)
    ensures Rebuilt(tokens, shifted, tokens.Keys, delta, start)
  {
    ghost var before := Snapshot(tokens);
    shifted := map[];
    var todo := tokens.Keys;
    ghost var done: set<Pos> := {};
    while todo != {}
      invariant done !! todo && done + todo == tokens.Keys
      invariant Snapshot(tokens) == PartlyMoved(before, done, delta, start)
      invariant Rebuilt(tokens, shifted, done, delta, start)
      decreases todo
    {
      var p :| p in todo;
      MoveMore(before, done, p, delta, start);
      var token, at := MoveToken(tokens, p, delta, start);
      RebuiltMore(tokens, shifted, done, p, delta, start);
      shifted := shifted[at := token];
      todo, done := todo - {p}, done + {p};
    }
    assert done == tokens.Keys;
  }

  /** `_ShiftLinesInTokens`: the same token objects, moved, under their new positions. */
  method ShiftLinesInTokens(tokens: map<Pos, Token>, delta: int, start: int) returns (shifted: map<Pos, Token>)
    requires Keyed(tokens) && Injective(tokens.Keys, delta, start)
    modifies tokens.Values
    ensures shifted.Values == tokens.Values
    ensures Keyed(shifted) && IsShift(old(Snapshot(tokens)), Snapshot(shifted), delta, start)
    ensures Raised(old(Snapshot(tokens)), Snapshot(shifted), delta, start)
  {
    ghost var before := Snapshot(tokens);
    assert Unshared(tokens) && KeyedValues(before);
    shifted := MoveTokens(tokens, delta, start);
    RebuiltValues(tokens, shifted, delta, start);
    AllMoved(tokens, before, delta, start);
    RebuiltSnapshot(tokens, shifted, before, delta, start);
    ShiftRaises(before, Snapshot(shifted), delta, start);
  }

  // ----- inserting a line

  ghost function WithoutLine(m: map<Pos, Tok>, line: int): map<Pos, Tok> {
    map p | p in m && p.line != line :: m[p]
  }

  ghost function OnlyLine(m: map<Pos, Tok>, line: int): map<Pos, Tok> {
    map p | p in m && p.line == line :: m[p]
  }

  /** What is not on `line` is exactly what was there before, with `line` vacated; what is on
      `line` is exactly what was added, moved there from line 2. */
  ghost predicate InsertsLine(before: map<Pos, Tok>, added: map<Pos, Tok>, after: map<Pos, Tok>, line: int) {
    && IsShift(before, WithoutLine(after, line), 1, line)
    && IsShift(added, OnlyLine(after, line), line - 2, 0)
  }

  lemma LeavesLine(before: map<Pos, Tok>, shifted: map<Pos, Tok>, line: int)
    requires Covered(before, shifted, 1, line)
    ensures forall q :: q in shifted ==> q.line != line
  {
  }

  lemma ReachesLine(added: map<Pos, Tok>, shifted: map<Pos, Tok>, line: int)
    requires line >= 2 && Covered(added, shifted, line - 2, 0) && forall p :: p in added ==> p.line == 2
    ensures forall q :: q in shifted ==> q.line == line
  {
  }

  lemma MergeIsInsertion(before: map<Pos, Tok>, added: map<Pos, Tok>, first: map<Pos, Tok>, second: map<Pos, Tok>, line: int)
    requires line >= 2 && forall p :: p in added ==> p.line == 2
    requires IsShift(before, first, 1, line) && IsShift(added, second, line - 2, 0)
    ensures first.Keys !! second.Keys
    ensures InsertsLine(before, added, first + second, line)
  {
    LeavesLine(before, first, line);
    ReachesLine(added, second, line);
    assert WithoutLine(first + second, line) == first;
    assert OnlyLine(first + second, line) == second;
  }

  lemma MovesBack(before: map<Pos, Tok>, rest: map<Pos, Tok>, line: int, q: Pos)
    requires KeyedValues(before) && IsShift(before, rest, 1, line) && q in rest
    ensures Moved(q, -1, line + 1) in before
    ensures before[Moved(q, -1, line + 1)] == MovedTok(rest[q], -1, line + 1)
  {
    var p :| p in before && q == Moved(p, 1, line);
    assert Moved(q, -1, line + 1) == p && rest[q] == MovedTok(before[p], 1, line) && before[p].start == p;
  }

  lemma AllMoveBack(before: map<Pos, Tok>, rest: map<Pos, Tok>, line: int)
    requires KeyedValues(before) && IsShift(before, rest, 1, line)
    ensures MovesInto(rest, before, -1, line + 1)
  {
    forall q {:trigger Moved(q, -1, line + 1)} | q in rest
      ensures Moved(q, -1, line + 1) in before
      ensures before[Moved(q, -1, line + 1)] == MovedTok(rest[q], -1, line + 1)
    {
      MovesBack(before, rest, line, q);
    }
  }

  lemma AllAreReached(before: map<Pos, Tok>, rest: map<Pos, Tok>, line: int)
    requires MovesInto(before, rest, 1, line)
    ensures Covered(rest, before, -1, line + 1)
  {
    forall p {:trigger p in before} | p in before ensures exists q :: q in rest && p == Moved(q, -1, line + 1) {
      var q := Moved(p, 1, line);
      assert q in rest && p == Moved(q, -1, line + 1);
    }
  }

  /** Deleting the inserted line and shifting back gives exactly the tokens of before. */
  lemma InsertionUndone(before: map<Pos, Tok>, added: map<Pos, Tok>, after: map<Pos, Tok>, line: int)
    requires KeyedValues(before) && InsertsLine(before, added, after, line)
    ensures IsShift(WithoutLine(after, line), before, -1, line + 1)
  {
    AllMoveBack(before, WithoutLine(after, line), line);
    AllAreReached(before, WithoutLine(after, line), line);
  }

  /** A shift has one result only. */
  lemma ShiftUnique(m: map<Pos, Tok>, x: map<Pos, Tok>, y: map<Pos, Tok>, delta: int, start: int)
    requires IsShift(m, x, delta, start) && IsShift(m, y, delta, start)
    ensures x == y
  {
    forall q | q in x ensures q in y && x[q] == y[q] {
      var p :| p in m && q == Moved(p, delta, start);
    }
    forall q | q in y ensures q in x {
      var p :| p in m && q == Moved(p, delta, start);
    }
  }

  // ----- the operation

  lemma SnapshotMerge(x: map<Pos, Token>, y: map<Pos, Token>)
    ensures Snapshot(x + y) == Snapshot(x) + Snapshot(y)
  {
  }

  /** Merging dictionaries whose positions do not meet keeps every token of both. */
  lemma MergeDisjoint(x: map<Pos, Token>, y: map<Pos, Token>)
    requires x.Keys !! y.Keys
    ensures (x + y).Values == x.Values + y.Values
    ensures Snapshot(x + y) == Snapshot(x) + Snapshot(y)
  {
    SnapshotMerge(x, y);
    forall t | t in x.Values + y.Values ensures t in (x + y).Values {
      if t in x.Values {
        var p :| p in x && x[p] == t;
        assert (x + y)[p] == t;
      } else {
        var p :| p in y && y[p] == t;
        assert (x + y)[p] == t;
      }
    }
  }

  /** What inserting a line does to every token, in terms of lines. */
  lemma InsertionRaises(before: map<Pos, Tok>, added: map<Pos, Tok>, after: map<Pos, Tok>, line: int)
    requires KeyedValues(before) && KeyedValues(added) && (forall p :: p in added ==> p.line == 2)
    requires InsertsLine(before, added, after, line)
    ensures Raised(before, after, 1, line) && Raised(added, after, line - 2, 2)
  {
    ShiftRaises(before, WithoutLine(after, line), 1, line);
    ShiftRaises(added, OnlyLine(after, line), line - 2, 0);
    forall p ensures RaisedAt(before, p, after, 1, line) {
      assert RaisedAt(before, p, WithoutLine(after, line), 1, line);
    }
    var delta := line - 2;
    forall p ensures RaisedAt(added, p, after, delta, 2) {
      assert RaisedAt(added, p, OnlyLine(after, line), delta, 0);
    }
  }

  /** The two calls of `_ShiftLinesInTokens` in `AddVar`. */
  method ShiftBoth(tokens: map<Pos, Token>, added: map<Pos, Token>, line: int)
    returns (moved: map<Pos, Token>, inserted: map<Pos, Token>)
    requires line >= 2 && Keyed(tokens) && Keyed(added) && tokens.Values !! added.Values
    modifies tokens.Values, added.Values
    ensures moved.Values == tokens.Values && inserted.Values == added.Values
    ensures IsShift(old(Snapshot(tokens)), Snapshot(moved), 1, line)
    ensures IsShift(old(Snapshot(added)), Snapshot(inserted), line - 2, 0)
  {
    ghost var extra := Snapshot(added);
    ShiftIsInjective(tokens.Keys, 1, line);
    ShiftIsInjective(added.Keys, line - 2, 0);
    moved := ShiftLinesInTokens(tokens, 1, line);
    ghost var first := Snapshot(moved);
    assert Snapshot(added) == extra;
    inserted := ShiftLinesInTokens(added, line - 2, 0);
    assert Snapshot(moved) == first;
  }

  /** `dict.update` of the moved tokens with the inserted ones. */
  method Merge(moved: map<Pos, Token>, inserted: map<Pos, Token>,
               ghost before: map<Pos, Tok>, ghost extra: map<Pos, Tok>, line: int)
    returns (merged: map<Pos, Token>)
    requires line >= 2 && forall p :: p in extra ==> p.line == 2
    requires IsShift(before, Snapshot(moved), 1, line) && IsShift(extra, Snapshot(inserted), line - 2, 0)
    requires KeyedValues(before) && KeyedValues(extra)
    ensures merged.Values == moved.Values + inserted.Values
    ensures InsertsLine(before, extra, Snapshot(merged), line)
    ensures Raised(before, Snapshot(merged), 1, line) && Raised(extra, Snapshot(merged), line - 2, 2)
  {
    ghost var first, second := Snapshot(moved), Snapshot(inserted);
    assert moved.Keys == first.Keys && inserted.Keys == second.Keys;
    merged := moved + inserted;
    assert InsertsLine(before, extra, first + second, line) && first.Keys !! second.Keys by {
      MergeIsInsertion(before, extra, first, second, line);
    }
    MergeDisjoint(moved, inserted);
    InsertionRaises(before, extra, first + second, line);
  }

  /** The token part of `AddVar`. */
  method InsertLine(tokens: map<Pos, Token>, added: map<Pos, Token>, line: int) returns (merged: map<Pos, Token>)
    requires line >= 2 && Keyed(tokens) && Keyed(added) && tokens.Values !! added.Values
    requires forall p :: p in added ==> p.line == 2
    modifies tokens.Values, added.Values
    ensures merged.Values == tokens.Values + added.Values
    ensures InsertsLine(old(Snapshot(tokens)), old(Snapshot(added)), Snapshot(merged), line)
    ensures Raised(old(Snapshot(tokens)), Snapshot(merged), 1, line)
    ensures Raised(old(Snapshot(added)), Snapshot(merged), line - 2, 2)
  {
    ghost var before, extra := Snapshot(tokens), Snapshot(added);
    assert KeyedValues(before) && KeyedValues(extra);
    var moved, inserted := ShiftBoth(tokens, added, line);
    merged := Merge(moved, inserted, before, extra, line);
  }

  datatype Outcome = Done | ValueError | KeyError | TypeError

  /** The formatted dictionary that `AddVar` edits: its tokens, the names under `vars`, and where
      the node of the `vars` dictionary starts.  Any of them can be missing. */
  class GclientDict {
    const formatted: bool
    const varsLine: int
    const varsHasNode: bool
    var hasTokens: bool
    var hasVars: bool
    var vars: seq<string>
    var tokens: map<Pos, Token>

    constructor (formatted: bool, hasTokens: bool, hasVars: bool, vars: seq<string>,
                 varsHasNode: bool, varsLine: int, tokens: map<Pos, Token>)
      ensures this.formatted == formatted && this.hasTokens == hasTokens && this.hasVars == hasVars
      ensures this.vars == vars && this.varsHasNode == varsHasNode && this.varsLine == varsLine
      ensures this.tokens == tokens
    {
      this.formatted, this.hasTokens, this.hasVars, this.vars := formatted, hasTokens, hasVars, vars;
      this.varsHasNode, this.varsLine, this.tokens := varsHasNode, varsLine, tokens;
    }

    /** `added` are the tokens of `"name": "value",` as they come out of a dictionary on its own,
        where they sit on line 2. */
    method AddVar(name: string, added: map<Pos, Token>) returns (outcome: Outcome)
      requires Keyed(tokens) && Keyed(added) && tokens.Values !! added.Values
      requires varsLine >= 1 && forall p :: p in added ==> p.line == 2
      modifies this`tokens, tokens.Values, added.Values
      ensures outcome ==
                if !formatted || !hasTokens then ValueError
                else if !hasVars then KeyError
                else if name in vars || vars == [] then ValueError
                else if !varsHasNode then TypeError
                else Done
      ensures outcome != Done ==>
                tokens == old(tokens) && Snapshot(tokens) == old(Snapshot(tokens))
      ensures outcome == Done ==>
                && tokens.Values == old(tokens.Values) + added.Values
                && InsertsLine(old(Snapshot(tokens)), old(Snapshot(added)), Snapshot(tokens), varsLine + 1)
                && Raised(old(Snapshot(tokens)), Snapshot(tokens), 1, varsLine + 1)
                && Raised(old(Snapshot(added)), Snapshot(tokens), varsLine - 1, 2)
    {
      if !formatted || !hasTokens { return ValueError; }
      if !hasVars { return KeyError; }
      if name in vars { return ValueError; }
      if vars == [] { return ValueError; }
      if !varsHasNode { return TypeError; }
      Insert(added);
      outcome := Done;
    }

    /** The edit itself. */
    method Insert(added: map<Pos, Token>)
      requires Keyed(tokens) && Keyed(added) && tokens.Values !! added.Values
      requires varsLine >= 1 && forall p :: p in added ==> p.line == 2
      modifies this`tokens, tokens.Values, added.Values
      ensures tokens.Values == old(tokens.Values) + added.Values
      ensures InsertsLine(old(Snapshot(tokens)), old(Snapshot(added)), Snapshot(tokens), varsLine + 1)
      ensures Raised(old(Snapshot(tokens)), Snapshot(tokens), 1, varsLine + 1)
      ensures Raised(old(Snapshot(added)), Snapshot(tokens), varsLine - 1, 2)
    {
      var merged := InsertLine(tokens, added, varsLine + 1);
      ghost var after := Snapshot(merged);
      tokens := merged;
      assert Snapshot(tokens) == after;
    }
  }
}
