/** `CleansedLines`: four versions of a file, line by line. */
module CleansedLines {
  import opened Strings
  import opened Cleansing
  import opened Quotes

  function SkipSpace(s: string, i: nat): (r: nat)
    requires i <= |s|
    ensures i <= r <= |s|
    decreases |s| - i
  {
    if i < |s| && IsSpace(s[i]) then SkipSpace(s, i + 1) else i
  }

  /** An `#include` line. */
  predicate IsInclude(s: string) {
    var i := SkipSpace(s, 0);
    i < |s| && s[i] == '#' &&
    var j := SkipSpace(s, i + 1);
    At(s, "include", j) &&
    var k := SkipSpace(s, j + 7);
    k < |s| && (s[k] == '<' || s[k] == '"') && exists n :: k < n < |s| && (s[n] == '>' || s[n] == '"')
  }

  function RunLength(s: string, i: nat, p: char -> bool): (n: nat)
    requires i <= |s|
    ensures i + n <= |s|
    decreases |s| - i
  {
    if i < |s| && p(s[i]) then 1 + RunLength(s, i + 1, p) else 0
  }

  const ESCAPED := "abfnrtv?\"\\'"

  /** The length of the escape sequence at the start of `s`, 0 if there is none. */
  function EscapeLength(s: string): (n: nat)
    ensures n <= |s|
  {
    if |s| < 2 || s[0] != '\\' then 0
    else if s[1] in ESCAPED then 2
    else if IsDigit(s[1]) then 1 + RunLength(s, 1, c => IsDigit(c))
    else if s[1] == 'x' && |s| > 2 && IsHex(s[2]) then 2 + RunLength(s, 2, c => IsHex(c))
    else 0
  }

  function WithoutEscapes(s: string): (r: string)
    ensures |r| <= |s|
    decreases |s|
  {
    if s == [] then []
    else if EscapeLength(s) > 0 then WithoutEscapes(s[EscapeLength(s)..])
    else [s[0]] + WithoutEscapes(s[1..])
  }

  function Elided(line: string): string {
    if IsInclude(line) then line else Collapse(WithoutEscapes(line))
  }

  /** In a line that is no `#include` every closed quotation is empty. */
  lemma StringsAreCollapsed(line: string)
    requires !IsInclude(line)
    ensures Collapsed(Elided(line))
  {
    CollapseCollapses(WithoutEscapes(line));
  }

  method CollapseStrings(line: string) returns (elided: string)
    ensures IsInclude(line) ==> elided == line
    ensures !IsInclude(line) ==> Collapsed(elided)
    ensures elided == Elided(line)
  {
    if IsInclude(line) { return line; }
    elided := CollapseQuotes(WithoutEscapes(line));
    StringsAreCollapsed(line);
  }

  // ----- a string literal goes as a whole, whatever is escaped in it

  /** What can stand between the quotes of a string literal: every quote and backslash is escaped. */
  predicate StringBody(s: string)
    decreases |s|
  {
    s == [] ||
    if s[0] == '\\' then EscapeLength(s) > 0 && StringBody(s[EscapeLength(s)..])
    else s[0] != '"' && StringBody(s[1..])
  }

  predicate Without(s: string, c: char) {
    forall i :: 0 <= i < |s| ==> s[i] != c
  }

  predicate StartsWithQuote(t: string) {
    t != [] && t[0] == '"'
  }

  lemma {:induction false} RunStops(s: string, t: string, i: nat, p: char -> bool)
    requires i <= |s| && StartsWithQuote(t) && !p('"')
    ensures RunLength(s + t, i, p) == RunLength(s, i, p)
    decreases |s| - i
  {
    if i < |s| && p(s[i]) { RunStops(s, t, i + 1, p); }
  }

  lemma EscapeStops(s: string, t: string)
    requires EscapeLength(s) > 0 && StartsWithQuote(t)
    ensures EscapeLength(s + t) == EscapeLength(s)
  {
    RunStops(s, t, 1, c => IsDigit(c));
    if |s| > 2 { RunStops(s, t, 2, c => IsHex(c)); }
  }

  lemma PlainFirst(c: char, s: string)
    requires c != '\\'
    ensures WithoutEscapes([c] + s) == [c] + WithoutEscapes(s)
  {
    assert ([c] + s)[1..] == s;
  }

  lemma EscapeFirst(s: string, rest: string)
    requires EscapeLength(s) > 0 && rest == s[EscapeLength(s)..]
    ensures WithoutEscapes(s) == WithoutEscapes(rest)
  {
  }

  /** `a`, `b` and `ab` are what comes of `u`, `t` and `u + t`. */
  lemma PlainAt(c: char, u: string, ut: string, s: string, st: string, a: string, b: string)
    requires c != '\\' && s == [c] + u && st == [c] + ut
    requires WithoutEscapes(u) == a && WithoutEscapes(ut) == a + b
    ensures WithoutEscapes(s) == [c] + a && WithoutEscapes(st) == WithoutEscapes(s) + b
  {
    PlainFirst(c, u);
    PlainFirst(c, ut);
    Assoc([c], a, b);
  }

  lemma EscapeAt(s: string, rest: string, t: string, st: string, restT: string)
    requires EscapeLength(s) > 0 && rest == s[EscapeLength(s)..] && StartsWithQuote(t)
    requires st == s + t && restT == rest + t
    ensures WithoutEscapes(s) == WithoutEscapes(rest) && WithoutEscapes(st) == WithoutEscapes(restT)
  {
    EscapeStops(s, t);
    assert st[EscapeLength(s)..] == restT;
    EscapeFirst(s, rest);
    EscapeFirst(st, restT);
  }

  lemma {:induction false} EscapesInBody(s: string, t: string)
    requires StringBody(s) && StartsWithQuote(t)
    ensures WithoutEscapes(s + t) == WithoutEscapes(s) + WithoutEscapes(t)
    ensures Without(WithoutEscapes(s), '"')
    decreases |s|
  {
    if s == [] {
      assert s + t == t;
    } else if s[0] == '\\' {
      var rest := s[EscapeLength(s)..];
      EscapesInBody(rest, t);
      EscapeAt(s, rest, t, s + t, rest + t);
    } else {
      var rest := s[1..];
      EscapesInBody(rest, t);
      PlainAt(s[0], rest, rest + t, s, s + t, WithoutEscapes(rest), WithoutEscapes(t));
    }
  }

  lemma {:induction false} EscapesAfter(h: string, t: string)
    requires Without(h, '\\')
    ensures WithoutEscapes(h + t) == h + WithoutEscapes(t)
    decreases |h|
  {
    if h == [] {
      assert h + t == t;
    } else {
      EscapesAfter(h[1..], t);
      assert h + t == [h[0]] + (h[1..] + t) && h == [h[0]] + h[1..];
      PlainFirst(h[0], h[1..] + t);
      Assoc([h[0]], h[1..], WithoutEscapes(t));
    }
  }

  lemma {:induction false} PositionAt(w: string, q: char, t: string)
    requires Without(w, q)
    ensures Position(w + [q] + t, q) == Some(|w|)
    decreases |w|
  {
    if w != [] {
      PositionAt(w[1..], q, t);
      assert (w + [q] + t)[1..] == w[1..] + [q] + t;
    }
  }

  lemma ClosedPair(head: string, w: string, rest: string)
    requires NoQuotes(head) && Without(w, '"')
    ensures Collapse(head + ['"'] + (w + ['"'] + rest)) == head + Pair('"') + Collapse(rest)
  {
    var inner := w + ['"'] + rest;
    RoundAt(head, '"', inner);
    PositionAt(w, '"', rest);
    assert inner[|w| + 1..] == rest;
  }

  /** A string literal becomes `""` as a whole: no escaped quote in it ends it early. */
  lemma LiteralIsEmptied(head: string, body: string, tail: string)
    requires NoQuotes(head) && Without(head, '\\') && StringBody(body)
    ensures Collapse(WithoutEscapes(head + (['"'] + (body + (['"'] + tail))))) ==
              head + Pair('"') + Collapse(WithoutEscapes(tail))
  {
    var close := ['"'] + tail;
    var w, rest := WithoutEscapes(body), WithoutEscapes(tail);
    EscapesAfter(head, ['"'] + (body + close));
    PlainFirst('"', body + close);
    EscapesInBody(body, close);
    PlainFirst('"', tail);
    Assoc(w, ['"'], rest);
    Assoc(head, ['"'], w + ['"'] + rest);
    ClosedPair(head, w, rest);
  }

  /** The loop over the lines. */
  method Derive(withoutRawStrings: seq<string>, cleanseComments: string -> string)
    returns (lines: seq<string>, elided: seq<string>)
    ensures |lines| == |elided| == |withoutRawStrings|
    ensures forall i :: 0 <= i < |lines| ==> lines[i] == cleanseComments(withoutRawStrings[i])
    ensures forall i :: 0 <= i < |lines| ==> elided[i] == cleanseComments(Elided(withoutRawStrings[i]))
  {
    lines, elided := [], [];
    for linenum := 0 to |withoutRawStrings|
      invariant |lines| == |elided| == linenum
      invariant forall i :: 0 <= i < linenum ==> lines[i] == cleanseComments(withoutRawStrings[i])
      invariant forall i :: 0 <= i < linenum ==> elided[i] == cleanseComments(Elided(withoutRawStrings[i]))
    {
      lines := lines + [cleanseComments(withoutRawStrings[linenum])];
      var collapsed := CollapseStrings(withoutRawStrings[linenum]);
      elided := elided + [cleanseComments(collapsed)];
    }
  }

  class CleansedLines {
    var elided: seq<string>
    var lines: seq<string>
    var rawLines: seq<string>
    var numLines: nat
    var linesWithoutRawStrings: seq<string>

    /** `commented` recognizes a `//` comment, `cleanseComments` takes the comments off a line. */
    constructor (raw: seq<string>, commented: string -> bool, cleanseComments: string -> string)
      ensures numLines == |raw| == |elided| == |lines| == |rawLines| == |linesWithoutRawStrings|
      ensures rawLines == raw && linesWithoutRawStrings == Cleanse(raw, None, commented)
      ensures forall i :: 0 <= i < numLines ==> lines[i] == cleanseComments(linesWithoutRawStrings[i])
      ensures forall i :: 0 <= i < numLines ==>
                elided[i] == cleanseComments(Elided(linesWithoutRawStrings[i]))
    {
      elided, lines, rawLines, numLines := [], [], raw, |raw|;
      new;
      linesWithoutRawStrings := CleanseRawStrings(raw, commented);
      lines, elided := Derive(linesWithoutRawStrings, cleanseComments);
    }
  }
}
