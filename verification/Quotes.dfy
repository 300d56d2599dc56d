/** `CleansedLines._CollapseStrings`: quoted text becomes `""` or `''`, digit separators go. */
module Quotes {
  import opened Strings

  predicate IsQuote(c: char) {
    c == '"' || c == '\''
  }

  predicate NoQuotes(s: string) {
    forall i :: 0 <= i < |s| ==> !IsQuote(s[i])
  }

  function FirstQuote(s: string): (n: nat)
    ensures n <= |s| && NoQuotes(s[..n]) && (n < |s| ==> IsQuote(s[n]))
  {
    if s == [] || IsQuote(s[0]) then 0
    else
      var n := FirstQuote(s[1..]);
      assert s[..n + 1] == [s[0]] + s[1..][..n];
      n + 1
  }

  predicate IsDigit(c: char) {
    '0' <= c <= '9'
  }

  predicate IsHex(c: char) {
    IsDigit(c) || 'a' <= c <= 'f' || 'A' <= c <= 'F'
  }

  predicate HexFrom(s: string, i: nat) {
    forall j :: i <= j < |s| ==> IsHex(s[j])
  }

  /** A number starts at `i` and goes on to the end. */
  predicate NumberFrom(s: string, i: nat)
    requires i < |s|
  {
    && (i == 0 || !IsWord(s[i - 1]))
    && ( || (IsDigit(s[i]) && HexFrom(s, i + 1))
         || ( && s[i] == '0' && i + 1 < |s|
              && (s[i + 1] == 'b' || s[i + 1] == 'B' || s[i + 1] == 'x' || s[i + 1] == 'X')
              && HexFrom(s, i + 2)))
  }

  predicate EndsInNumber(s: string) {
    exists i :: 0 <= i < |s| && NumberFrom(s, i)
  }

  /** The length of what `('?[0-9a-zA-Z_])*` matches. */
  function LiteralLength(s: string): (n: nat)
    ensures n <= |s|
  {
    if s != [] && IsWord(s[0]) then 1 + LiteralLength(s[1..])
    else if |s| > 1 && s[0] == '\'' && IsWord(s[1]) then 2 + LiteralLength(s[2..])
    else 0
  }

  /** Without the single quotes. */
  function Unseparated(s: string): (r: string)
    ensures |r| <= |s|
  {
    if s == [] then [] else (if s[0] == '\'' then [] else [s[0]]) + Unseparated(s[1..])
  }

  function Position(s: string, c: char): (r: Option<nat>)
    ensures r.Some? ==> r.value < |s| && s[r.value] == c
  {
    if s == [] then None
    else if s[0] == c then Some(0)
    else
      var r := Position(s[1..], c);
      if r.None? then None else Some(r.value + 1)
  }

  function Pair(q: char): string {
    [q, q]
  }

  /** One round of the loop: the last one, or text that is done and text that is left. */
  datatype Round = Last | More(done: string, left: string)

  /** With `head` before the quote and `tail` after it. */
  function RoundOf(head: string, q: char, tail: string): Round {
    if q == '\'' && EndsInNumber(head) then
      var m := LiteralLength([q] + tail);
      More(head + Unseparated(([q] + tail)[..m]), ([q] + tail)[m..])
    else
      match Position(tail, q)
      case None => Last
      case Some(k) => More(head + Pair(q), tail[k + 1..])
  }

  /** What is left is always shorter: where a number precedes the quote, by that number even if no
      separator is found. */
  function NextRound(s: string): (r: Round)
    ensures r.More? ==> |r.left| < |s|
  {
    var n := FirstQuote(s);
    if n == |s| then Last else RoundOf(s[..n], s[n], s[n + 1..])
  }

  function Collapse(s: string): string
    decreases |s|
  {
    match NextRound(s)
    case Last => s
    case More(done, left) => done + Collapse(left)
  }

  method CollapseQuotes(text: string) returns (collapsed: string)
    ensures collapsed == Collapse(text)
  {
    var elided := text;
    collapsed := "";
    while true
      invariant collapsed + Collapse(elided) == Collapse(text)
      decreases |elided|
    {
      var n := FirstQuote(elided);
      if n == |elided| { break; }
      var head, q, tail := elided[..n], elided[n], elided[n + 1..];
      ghost var round := NextRound(elided);
      ghost var before := collapsed;
      if q == '"' {
        var second := Position(tail, q);
        if second.None? { break; }
        collapsed := collapsed + (head + Pair(q));
        elided := tail[second.value + 1..];
      } else if EndsInNumber(head) {
        var literal := [q] + tail;
        var m := LiteralLength(literal);
        collapsed := collapsed + (head + Unseparated(literal[..m]));
        elided := literal[m..];
      } else {
        var second := Position(tail, q);
        if second.None? { break; }
        collapsed := collapsed + (head + Pair(q));
        elided := tail[second.value + 1..];
      }
      assert round == More(round.done, elided) && collapsed == before + round.done;
      Assoc(before, round.done, Collapse(elided));
    }
    assert NextRound(elided).Last?;
    collapsed := collapsed + elided;
  }

  // ----- what is left

  lemma Assoc<T>(a: seq<T>, b: seq<T>, c: seq<T>)
    ensures a + (b + c) == (a + b) + c
  {
  }

  lemma PairSplits(x: string, h: string, q: char, r: string)
    ensures x + (h + Pair(q) + r) == (x + h) + [q] + ([q] + r)
    ensures x + (h + Pair(q) + r) == (x + h) + Pair(q) + r
  {
    Assoc(x, h + Pair(q), r);
    Assoc(x, h, Pair(q));
    assert Pair(q) == [q] + [q];
    Assoc((x + h), [q], [q]);
    Assoc((x + h) + [q], [q], r);
  }

  lemma CutAt<T>(s: seq<T>, n: nat)
    requires n < |s|
    ensures s == s[..n] + [s[n]] + s[n + 1..]
  {
  }

  lemma {:induction false} FirstQuoteIs(s: string, n: nat)
    requires n <= |s| && (forall i :: 0 <= i < n ==> !IsQuote(s[i])) && (n < |s| ==> IsQuote(s[n]))
    ensures FirstQuote(s) == n
  {
    if n > 0 { FirstQuoteIs(s[1..], n - 1); }
  }

  lemma FirstQuoteAt(h: string, q: char, t: string)
    requires NoQuotes(h) && IsQuote(q)
    ensures var s := h + [q] + t; FirstQuote(s) == |h| && s[..|h|] == h && s[|h|] == q && s[|h| + 1..] == t
  {
    var s := h + [q] + t;
    assert s[|h|] == q && forall i :: 0 <= i < |h| ==> s[i] == h[i];
    FirstQuoteIs(s, |h|);
  }

  lemma RoundAt(h: string, q: char, t: string)
    requires NoQuotes(h) && IsQuote(q)
    ensures NextRound(h + [q] + t) == RoundOf(h, q, t)
  {
    FirstQuoteAt(h, q, t);
  }

  /** Every quotation that is closed is empty, up to a quote that is not. */
  predicate Collapsed(s: string)
    decreases |s|
  {
    var n := FirstQuote(s);
    if n == |s| then true
    else
      var tail := s[n + 1..];
      match Position(tail, s[n])
      case None => true
      case Some(k) => k == 0 && Collapsed(tail[1..])
  }

  lemma CollapsedAt(h: string, q: char, t: string)
    requires NoQuotes(h) && IsQuote(q)
    ensures Collapsed(h + [q] + t) <==>
              match Position(t, q) case None => true case Some(k) => k == 0 && Collapsed(t[1..])
  {
    FirstQuoteAt(h, q, t);
  }

  lemma NoQuotesCollapsed(s: string)
    requires NoQuotes(s)
    ensures Collapsed(s) && Collapse(s) == s && NextRound(s).Last?
  {
    FirstQuoteIs(s, |s|);
  }

  lemma {:induction false} LiteralHasNoQuotes(s: string)
    ensures NoQuotes(Unseparated(s[..LiteralLength(s)]))
    decreases |s|
  {
    var m := LiteralLength(s);
    if m > 0 {
      var k := if IsWord(s[0]) then 1 else 2;
      LiteralHasNoQuotes(s[k..]);
      assert s[..m][1..] == s[1..m];
      assert s[k..][..m - k] == s[k..m];
      if k == 2 { assert s[1..m][1..] == s[2..m]; }
    }
  }

  lemma MoreIsCollapsed(x: string, head: string, q: char, tail: string)
    requires NoQuotes(x) && NoQuotes(head) && IsQuote(q) && !(q == '\'' && EndsInNumber(head))
    requires Position(tail, q).Some? && Collapsed(Collapse(tail[Position(tail, q).value + 1..]))
    ensures Collapsed(x + Collapse(head + [q] + tail))
  {
    RoundAt(head, q, tail);
    var rest := Collapse(tail[Position(tail, q).value + 1..]);
    var after := [q] + rest;
    PairSplits(x, head, q, rest);
    CollapsedAt(x + head, q, after);
    assert after[1..] == rest;
  }

  lemma LastIsCollapsed(x: string, head: string, q: char, tail: string)
    requires NoQuotes(x) && NoQuotes(head) && IsQuote(q) && Position(tail, q).None?
    ensures Collapsed(x + (head + [q] + tail))
  {
    CollapsedAt(x + head, q, tail);
    Assoc(x, head + [q], tail);
    Assoc(x, head, [q]);
  }

  lemma {:induction false} PrefixedIsCollapsed(x: string, s: string)
    requires NoQuotes(x)
    ensures Collapsed(x + Collapse(s))
    decreases |s|
  {
    var n, round := FirstQuote(s), NextRound(s);
    if n == |s| {
      NoQuotesCollapsed(x + s);
    } else {
      var head, q, tail := s[..n], s[n], s[n + 1..];
      CutAt(s, n);
      if q == '\'' && EndsInNumber(head) {
        LiteralHasNoQuotes([q] + tail);
        PrefixedIsCollapsed(x + round.done, round.left);
        Assoc(x, round.done, Collapse(round.left));
      } else if round.Last? {
        LastIsCollapsed(x, head, q, tail);
      } else {
        PrefixedIsCollapsed([], round.left);
        assert [] + Collapse(round.left) == Collapse(round.left);
        MoreIsCollapsed(x, head, q, tail);
      }
    }
  }

  /** After collapsing, every closed quotation is empty. */
  lemma CollapseCollapses(s: string)
    ensures Collapsed(Collapse(s))
  {
    PrefixedIsCollapsed([], s);
    assert [] + Collapse(s) == Collapse(s);
  }

  // ----- collapsing twice

  /** Text in front of `s` that a number at the start of `s` cannot be taken together with. */
  predicate Apart(x: string, s: string) {
    x == [] || s == [] || !(IsWord(s[0]) || (|s| > 1 && s[0] == '\'' && IsWord(s[1])))
  }

  lemma {:induction false} LiteralIsMaximal(x: string, s: string)
    ensures Apart(x, s[LiteralLength(s)..])
    decreases |s|
  {
    var m := LiteralLength(s);
    if m > 0 {
      var k := if IsWord(s[0]) then 1 else 2;
      LiteralIsMaximal(x, s[k..]);
      assert s[k..][m - k..] == s[m..];
    }
  }

  lemma NumberInHead(x: string, h: string)
    requires h != [] && !IsWord(h[0]) && EndsInNumber(x + h)
    ensures EndsInNumber(h)
  {
    var i :| 0 <= i < |x + h| && NumberFrom(x + h, i);
    assert (x + h)[|x|] == h[0];
    assert i > |x|;
    var j := i - |x|;
    assert forall k :: 0 <= k < |h| ==> h[k] == (x + h)[|x| + k];
    assert h[j] == (x + h)[i] && h[j - 1] == (x + h)[i - 1];
    assert NumberFrom(h, j);
  }

  /** At a quote that no number can go on after, nothing is taken together with the text before. */
  lemma NoSeparator(h: string, q: char, t: string)
    requires NoQuotes(h) && IsQuote(q) && !(t != [] && IsWord(t[0]))
    ensures Collapse(h + [q] + t) == h + Collapse([q] + t)
  {
    RoundAt(h, q, t);
    RoundAt([], q, t);
    var s := [q] + t;
    assert [] + [q] + t == s;
    if q == '\'' && EndsInNumber(h) {
      assert LiteralLength(s) == 0;
      assert s[..0] == [] && s[0..] == s && h + [] == h;
    } else if Position(t, q).None? {
      Assoc(h, [q], t);
    } else {
      var rest := Collapse(t[Position(t, q).value + 1..]);
      assert ([] + Pair(q)) == Pair(q);
      Assoc(h, Pair(q), rest);
    }
  }

  /** A pair stays a pair. */
  lemma PairStays(h: string, q: char, t: string)
    requires NoQuotes(h) && IsQuote(q)
    ensures Collapse(h + [q] + ([q] + t)) == h + Pair(q) + Collapse(t)
  {
    var after := [q] + t;
    NoSeparator(h, q, after);
    RoundAt([], q, after);
    assert [] + [q] + after == [q] + after;
    assert Position(after, q) == Some(0) && after[1..] == t;
    assert [] + Pair(q) == Pair(q);
    Assoc(h, Pair(q), Collapse(t));
  }

  /** A quote that is not closed stays, too. */
  lemma OpenStays(x: string, h: string, q: char, t: string)
    requires NoQuotes(x) && NoQuotes(h) && IsQuote(q) && Position(t, q).None?
    requires Apart(x, h + [q] + t) && !(q == '\'' && EndsInNumber(h))
    ensures Collapse(x + (h + [q] + t)) == x + (h + [q] + t)
  {
    var xh := x + h;
    Assoc(x, h + [q], t);
    Assoc(x, h, [q]);
    RoundAt(xh, q, t);
    if q == '\'' && EndsInNumber(xh) {
      assert x != [] by { assert [] + h == h; }
      if h != [] {
        assert (h + [q] + t)[0] == h[0];
        NumberInHead(x, h);
      }
      var s := [q] + t;
      assert h + [q] + t == s;
      assert t != [] ==> s[1] == t[0];
      NoSeparator(xh, q, t);
      RoundAt([], q, t);
      assert [] + [q] + t == s;
      Assoc(xh, [q], t);
    }
  }

  lemma PairedStays(x: string, head: string, q: char, rest: string)
    requires NoQuotes(x) && NoQuotes(head) && IsQuote(q) && Collapse(rest) == rest
    ensures Collapse(x + (head + Pair(q) + rest)) == x + (head + Pair(q) + rest)
  {
    PairSplits(x, head, q, rest);
    PairStays(x + head, q, rest);
  }

  lemma {:induction false} PrefixedStays(x: string, s: string)
    requires NoQuotes(x) && Apart(x, s)
    ensures Collapse(x + Collapse(s)) == x + Collapse(s)
    decreases |s|
  {
    var n, round := FirstQuote(s), NextRound(s);
    if n == |s| {
      NoQuotesCollapsed(s);
      NoQuotesCollapsed(x + s);
    } else {
      var head, q, tail := s[..n], s[n], s[n + 1..];
      CutAt(s, n);
      if q == '\'' && EndsInNumber(head) {
        LiteralHasNoQuotes([q] + tail);
        LiteralIsMaximal(x + round.done, [q] + tail);
        PrefixedStays(x + round.done, round.left);
        Assoc(x, round.done, Collapse(round.left));
      } else if round.Last? {
        OpenStays(x, head, q, tail);
      } else {
        PrefixedStays([], round.left);
        assert [] + Collapse(round.left) == Collapse(round.left);
        PairedStays(x, head, q, Collapse(round.left));
      }
    }
  }

  /** Collapsing twice is collapsing once. */
  lemma CollapseIsIdempotent(s: string)
    ensures Collapse(Collapse(s)) == Collapse(s)
  {
    PrefixedStays([], s);
    assert [] + Collapse(s) == Collapse(s);
  }
}
