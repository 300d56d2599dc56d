/** `RemoveMultiLineComments`: whole-line C comments, blanked in place. */
module Comments {
  import opened Strings
  import opened Cleansing

  function Strip(s: string): string {
    TrimRight(s[Indent(s)..])
  }

  /** A comment starts the line and does not end on it. */
  predicate Opens(line: string) {
    At(Strip(line), "/*", 0) && Find(Strip(line), "*/", 2).None?
  }

  predicate Closes(line: string) {
    EndsWith(Strip(line), "*/")
  }

  const BLANK := "/**/"

  /** What starts and what ends a comment. */
  datatype Marks = Marks(opens: string -> bool, closes: string -> bool)

  const C_COMMENTS := Marks(line => Opens(line), line => Closes(line))

  // ----- which lines are blanked

  /** Reading one line at a time: line `k` starts inside a comment. */
  predicate Inside(lines: seq<string>, k: nat, m: Marks)
    requires k <= |lines|
  {
    if k == 0 then false
    else if Inside(lines, k - 1, m) then !m.closes(lines[k - 1])
    else m.opens(lines[k - 1]) && !m.closes(lines[k - 1])
  }

  predicate IsComment(lines: seq<string>, k: nat, m: Marks)
    requires k < |lines|
  {
    Inside(lines, k, m) || m.opens(lines[k])
  }

  predicate ClosesFrom(lines: seq<string>, k: nat, m: Marks) {
    exists e :: k <= e < |lines| && m.closes(lines[e])
  }

  /** A line is blanked when it belongs to a comment and that comment ends, there or later. */
  function RemovedLine(lines: seq<string>, k: nat, m: Marks): string
    requires k < |lines|
  {
    if IsComment(lines, k, m) && ClosesFrom(lines, k, m) then BLANK else lines[k]
  }

  function Removed(lines: seq<string>, m: Marks): (r: seq<string>)
    ensures |r| == |lines|
  {
    seq(|lines|, k requires 0 <= k < |lines| => RemovedLine(lines, k, m))
  }

  // ----- the loops

  method FindNextMultiLineCommentStart(lines: array<string>, from: nat) returns (lineix: nat)
    requires from <= lines.Length
    ensures from <= lineix <= lines.Length
    ensures forall j :: from <= j < lineix ==> !C_COMMENTS.opens(lines[j])
    ensures lineix < lines.Length ==> C_COMMENTS.opens(lines[lineix])
  {
    lineix := from;
    while lineix < lines.Length
      invariant from <= lineix <= lines.Length
      invariant forall j :: from <= j < lineix ==> !C_COMMENTS.opens(lines[j])
    {
      if Opens(lines[lineix]) { return; }
      lineix := lineix + 1;
    }
  }

  method FindNextMultiLineCommentEnd(lines: array<string>, from: nat) returns (lineix: nat)
    requires from <= lines.Length
    ensures from <= lineix <= lines.Length
    ensures forall j :: from <= j < lineix ==> !C_COMMENTS.closes(lines[j])
    ensures lineix < lines.Length ==> C_COMMENTS.closes(lines[lineix])
  {
    lineix := from;
    while lineix < lines.Length
      invariant from <= lineix <= lines.Length
      invariant forall j :: from <= j < lineix ==> !C_COMMENTS.closes(lines[j])
    {
      if Closes(lines[lineix]) { return; }
      lineix := lineix + 1;
    }
  }

  method RemoveMultiLineCommentsFromRange(lines: array<string>, begin: nat, end: nat)
    requires begin <= end <= lines.Length
    modifies lines
    ensures forall k :: 0 <= k < lines.Length ==> lines[k] == if begin <= k < end then BLANK else old(lines[k])
  {
    for i := begin to end
      invariant forall k :: 0 <= k < lines.Length ==> lines[k] == if begin <= k < i then BLANK else old(lines[k])
    {
      lines[i] := BLANK;
    }
  }

  /** The lines before `n` are done, the others as they were. */
  function Partly(was: seq<string>, n: nat, m: Marks): (r: seq<string>)
    ensures |r| == |was|
  {
    seq(|was|, k requires 0 <= k < |was| => if k < n then RemovedLine(was, k, m) else was[k])
  }

  lemma {:induction false} OutsideUpTo(was: seq<string>, n: nat, k: nat, m: Marks)
    requires n <= k <= |was| && !Inside(was, n, m) && forall j :: n <= j < k ==> !m.opens(was[j])
    ensures !Inside(was, k, m)
  {
    if k > n { OutsideUpTo(was, n, k - 1, m); }
  }

  lemma {:induction false} InsideUpTo(was: seq<string>, b: nat, k: nat, m: Marks)
    requires b < k <= |was| && m.opens(was[b]) && !Inside(was, b, m) && forall j :: b <= j < k ==> !m.closes(was[j])
    ensures Inside(was, k, m)
  {
    if k > b + 1 { InsideUpTo(was, b, k - 1, m); }
  }

  /** Lines in which no comment starts stay. */
  lemma SkipLines(was: seq<string>, n: nat, b: nat, m: Marks)
    requires n <= b <= |was| && !Inside(was, n, m)
    requires forall j :: n <= j < b ==> !m.opens(Partly(was, n, m)[j])
    ensures Partly(was, b, m) == Partly(was, n, m) && !Inside(was, b, m)
    ensures b < |was| ==> Partly(was, n, m)[b] == was[b]
  {
    assert forall j :: n <= j < |was| ==> Partly(was, n, m)[j] == was[j];
    forall k | n <= k <= b ensures !Inside(was, k, m) { OutsideUpTo(was, n, k, m); }
  }

  /** A comment starts on line `b` and never ends. */
  ghost predicate OpenFrom(was: seq<string>, b: nat, m: Marks) {
    && b < |was| && !Inside(was, b, m) && m.opens(was[b])
    && forall j :: b <= j < |was| ==> !m.closes(was[j])
  }

  /** The error is reported exactly when the lines end inside a comment, with the number of the line
      that starts it. */
  ghost predicate Reported(was: seq<string>, unterminated: Option<nat>, m: Marks) {
    match unterminated
    case None => !Inside(was, |was|, m)
    case Some(line) => Inside(was, |was|, m) && line >= 1 && OpenFrom(was, line - 1, m)
  }

  /** From a comment that does not end on, all lines stay. */
  lemma NothingBlanked(was: seq<string>, b: nat, m: Marks)
    requires OpenFrom(was, b, m)
    ensures Partly(was, b, m) == Removed(was, m)
  {
    forall k | b <= k < |was| ensures RemovedLine(was, k, m) == was[k] { assert !ClosesFrom(was, k, m); }
  }

  lemma EndsInside(was: seq<string>, b: nat, m: Marks)
    requires OpenFrom(was, b, m)
    ensures Reported(was, Some(b + 1), m)
  {
    InsideUpTo(was, b, |was|, m);
    var line: nat := b + 1;
    assert line - 1 == b;
  }

  lemma Unterminated(was: seq<string>, b: nat, m: Marks)
    requires b < |was| && !Inside(was, b, m) && m.opens(was[b])
    requires forall j :: b <= j < |was| ==> !m.closes(Partly(was, b, m)[j])
    ensures Partly(was, b, m) == Removed(was, m) && Reported(was, Some(b + 1), m)
  {
    assert OpenFrom(was, b, m) by {
      assert forall j :: b <= j < |was| ==> Partly(was, b, m)[j] == was[j];
    }
    NothingBlanked(was, b, m);
    EndsInside(was, b, m);
  }

  /** A comment from `b` to before `n` is blanked, and reading goes on outside. */
  lemma SkipComment(after: seq<string>, was: seq<string>, b: nat, n: nat, m: Marks)
    requires b < n <= |was| == |after| && !Inside(was, b, m) && m.opens(was[b])
    requires m.closes(Partly(was, b, m)[n - 1]) && forall j :: b <= j < n - 1 ==> !m.closes(Partly(was, b, m)[j])
    requires forall k :: 0 <= k < |was| ==> after[k] == if b <= k < n then BLANK else Partly(was, b, m)[k]
    ensures after == Partly(was, n, m) && !Inside(was, n, m)
  {
    assert forall j :: b <= j < |was| ==> Partly(was, b, m)[j] == was[j];
    forall k | b < k < n ensures Inside(was, k, m) { InsideUpTo(was, b, k, m); }
    forall k | b <= k < n ensures RemovedLine(was, k, m) == BLANK { assert m.closes(was[n - 1]); }
  }

  /** Where the next comment is; `end` is only looked for if one starts. */
  method FindComment(lines: array<string>, lineix: nat, ghost was: seq<string>, ghost m: Marks) returns (begin: nat, end: nat)
    requires lineix < lines.Length == |was| && m == C_COMMENTS && !Inside(was, lineix, m)
    requires lines[..] == Partly(was, lineix, m)
    ensures lineix <= begin <= end <= |was| && !Inside(was, begin, m) && lines[..] == Partly(was, begin, m)
    ensures begin < |was| ==> m.opens(was[begin]) && forall j :: begin <= j < end ==> !m.closes(Partly(was, begin, m)[j])
    ensures end < |was| ==> m.closes(Partly(was, begin, m)[end])
  {
    begin := FindNextMultiLineCommentStart(lines, lineix);
    assert lines[..] == Partly(was, lineix, m);
    SkipLines(was, lineix, begin, m);
    end := begin;
    if begin < lines.Length {
      end := FindNextMultiLineCommentEnd(lines, begin);
      assert lines[..] == Partly(was, begin, m);
    }
  }

  lemma AllRead(was: seq<string>, b: nat, m: Marks)
    requires b == |was| && !Inside(was, b, m)
    ensures Partly(was, b, m) == Removed(was, m) && Reported(was, None, m)
  {
  }

  /** Blanks the comment that was found. */
  method BlankComment(lines: array<string>, begin: nat, next: nat, ghost was: seq<string>, ghost m: Marks)
    requires begin < next <= lines.Length == |was| && !Inside(was, begin, m) && m.opens(was[begin])
    requires m.closes(Partly(was, begin, m)[next - 1])
    requires forall j :: begin <= j < next - 1 ==> !m.closes(Partly(was, begin, m)[j])
    requires lines[..] == Partly(was, begin, m)
    modifies lines
    ensures lines[..] == Partly(was, next, m) && !Inside(was, next, m)
  {
    RemoveMultiLineCommentsFromRange(lines, begin, next);
    SkipComment(lines[..], was, begin, next, m);
  }

  /** One round of the loop. */
  method RemoveNext(lines: array<string>, lineix: nat, ghost was: seq<string>, ghost m: Marks)
    returns (finished: bool, next: nat, unterminated: Option<nat>)
    requires lineix < lines.Length == |was| && m == C_COMMENTS && !Inside(was, lineix, m)
    requires lines[..] == Partly(was, lineix, m)
    modifies lines
    ensures finished ==> lines[..] == Removed(was, m) && Reported(was, unterminated, m)
    ensures !finished ==> lineix < next <= lines.Length && lines[..] == Partly(was, next, m) && !Inside(was, next, m)
  {
    finished, next, unterminated := true, lineix, None;
    var begin, end := FindComment(lines, lineix, was, m);
    if begin >= lines.Length {
      AllRead(was, begin, m);
      return;
    }
    if end >= lines.Length {
      Unterminated(was, begin, m);
      unterminated := Some(begin + 1);
      return;
    }
    finished, next := false, end + 1;
    BlankComment(lines, begin, next, was, m);
  }

  method RemoveMultiLineComments(lines: array<string>) returns (unterminated: Option<nat>)
    modifies lines
    ensures lines[..] == Removed(old(lines[..]), C_COMMENTS)
    ensures Reported(old(lines[..]), unterminated, C_COMMENTS)
  {
    ghost var was, m := lines[..], C_COMMENTS;
    var lineix := 0;
    while lineix < lines.Length
      invariant 0 <= lineix <= lines.Length
      invariant lines[..] == Partly(was, lineix, m) && !Inside(was, lineix, m)
    {
      var finished;
      finished, lineix, unterminated := RemoveNext(lines, lineix, was, m);
      if finished { return; }
    }
    AllRead(was, lineix, m);
    return None;
  }

  // ----- removing twice

  lemma BlankDoesNotOpen()
    ensures !C_COMMENTS.opens(BLANK)
  {
    var s := "/**/";
    assert Indent(s) == 0 && s[0..] == s;
    assert TrimRight(s) == s;
    assert s[2..4] == "*/";
    assert At(s, "*/", 2);
  }

  /** What is left has no comment with both its ends. */
  lemma NothingLeft(lines: seq<string>, b: nat, e: nat, m: Marks)
    requires b <= e < |lines| && !m.opens(BLANK)
    ensures var r := Removed(lines, m); !(m.opens(r[b]) && m.closes(r[e]))
  {
    var r := Removed(lines, m);
    assert r[b] == RemovedLine(lines, b, m) && r[e] == RemovedLine(lines, e, m);
    assert m.opens(r[b]) ==> !ClosesFrom(lines, b, m);
    assert !ClosesFrom(lines, b, m) ==> !ClosesFrom(lines, e, m);
  }

  lemma {:induction false} InsideHasOpened(lines: seq<string>, k: nat, m: Marks) returns (b: nat)
    requires k <= |lines| && Inside(lines, k, m)
    ensures b < k && m.opens(lines[b])
  {
    if Inside(lines, k - 1, m) { b := InsideHasOpened(lines, k - 1, m); } else { b := k - 1; }
  }

  /** Removing comments twice is removing them once. */
  lemma RemoveIsIdempotent(lines: seq<string>)
    ensures Removed(Removed(lines, C_COMMENTS), C_COMMENTS) == Removed(lines, C_COMMENTS)
  {
    var m := C_COMMENTS;
    var r := Removed(lines, m);
    BlankDoesNotOpen();
    forall k | 0 <= k < |r| ensures RemovedLine(r, k, m) == r[k] {
      if IsComment(r, k, m) && ClosesFrom(r, k, m) {
        var e :| k <= e < |r| && m.closes(r[e]);
        var b := k;
        if !m.opens(r[k]) { b := InsideHasOpened(r, k, m); }
        NothingLeft(lines, b, e, m);
      }
    }
  }
}
