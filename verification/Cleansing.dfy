/** How cpplint blanks raw strings, multi-line comments and quoted text before its checks look at a
    line.  Lines hold no line feed. */
module Cleansing {
  import opened Strings

  predicate At(s: string, t: string, i: nat) {
    i + |t| <= |s| && s[i..i + |t|] == t
  }

  /** `s.find(t, from)`. */
  function Find(s: string, t: string, from: nat): (r: Option<nat>)
    ensures r.Some? ==> from <= r.value && At(s, t, r.value)
    decreases |s| - from
  {
    if At(s, t, from) then Some(from) else if from >= |s| then None else Find(s, t, from + 1)
  }

  lemma {:induction false} FindIsFirst(s: string, t: string, from: nat, i: nat)
    requires from <= i && At(s, t, i)
    ensures Find(s, t, from).Some? && Find(s, t, from).value <= i
    decreases |s| - from
  {
    if from < i { FindIsFirst(s, t, from + 1, i); }
  }

  // ----- raw strings

  predicate InDelimiter(c: char) {
    !IsSpace(c) && c != '\\' && c != '(' && c != ')'
  }

  /** The end of the run of delimiter characters. */
  function DelimiterEnd(s: string, i: nat): (r: nat)
    requires i <= |s|
    ensures i <= r <= |s| && (r < |s| ==> !InDelimiter(s[r])) && forall j :: i <= j < r ==> InDelimiter(s[j])
    decreases |s| - i
  {
    if i < |s| && InDelimiter(s[i]) then DelimiterEnd(s, i + 1) else i
  }

  predicate Has(s: string, i: nat, c: char) {
    i < |s| && s[i] == c
  }

  /** The position after `R"`, `u8R"`, `uR"`, `UR"` or `LR"`. */
  function PrefixEnd(s: string, i: nat): (r: Option<nat>)
    ensures r.Some? ==> i + 2 <= r.value <= |s| && r.value <= i + 4
  {
    if Has(s, i, 'R') then (if Has(s, i + 1, '"') then Some(i + 2) else None)
    else if Has(s, i, 'u') && Has(s, i + 1, '8') then
      if Has(s, i + 2, 'R') && Has(s, i + 3, '"') then Some(i + 4) else None
    else if Has(s, i, 'u') || Has(s, i, 'U') || Has(s, i, 'L') then
      if Has(s, i + 1, 'R') && Has(s, i + 2, '"') then Some(i + 3) else None
    else None
  }

  /** A raw string that starts at `start`, its delimiter at `text`, and its parenthesis at `open`. */
  datatype Raw = Raw(start: nat, text: nat, open: nat)

  predicate IsRaw(s: string, m: Raw) {
    m.start < m.text <= m.open < |s|
  }

  function RawAt(s: string, i: nat): (r: Option<Raw>)
    ensures r.Some? ==> IsRaw(s, r.value) && r.value.start == i
  {
    var prefix := PrefixEnd(s, i);
    if prefix.None? || (0 < i <= |s| && IsWord(s[i - 1])) then None
    else
      var open := DelimiterEnd(s, prefix.value);
      if open < |s| && s[open] == '(' then Some(Raw(i, prefix.value, open)) else None
  }

  /** The first raw string at or after `i`. */
  function FirstRaw(s: string, i: nat): (r: Option<Raw>)
    ensures r.Some? ==> IsRaw(s, r.value) && i <= r.value.start && RawAt(s, r.value.start) == r
    decreases |s| - i
  {
    if i >= |s| then None
    else if RawAt(s, i).Some? then RawAt(s, i)
    else FirstRaw(s, i + 1)
  }

  lemma {:induction false} FirstRawIsFirst(s: string, i: nat, j: nat)
    requires i <= j && RawAt(s, j).Some?
    ensures FirstRaw(s, i).Some? && FirstRaw(s, i).value.start <= j
    decreases |s| - i
  {
    if i < j { FirstRawIsFirst(s, i + 1, j); }
  }

  function Delimiter(s: string, m: Raw): (d: string)
    requires IsRaw(s, m)
    ensures |d| == m.open - m.text + 2 && d[0] == ')'
  {
    ")" + s[m.text..m.open] + "\""
  }

  /** Where the raw string ends on its line, if it does. */
  function RawEnd(s: string, m: Raw): (r: Option<nat>)
    requires IsRaw(s, m)
    ensures r.Some? ==> m.open < r.value && At(s, Delimiter(s, m), r.value)
  {
    Find(s, Delimiter(s, m), m.open + 1)
  }

  function Cut(s: string, m: Raw): string
    requires IsRaw(s, m)
  {
    s[..m.start] + "\"\""
  }

  function Joined(s: string, m: Raw): (r: string)
    requires IsRaw(s, m) && RawEnd(s, m).Some?
    ensures |r| < |s|
  {
    Cut(s, m) + s[RawEnd(s, m).value + |Delimiter(s, m)|..]
  }

  /** A line and, if it ends inside a raw string, the delimiter to look for. */
  datatype Cleansed = Cleansed(line: string, delimiter: Option<string>)

  /** No raw string starts in the line, or the first one stands after `//`: `commented` says of the
      text before it whether a comment starts there. */
  predicate Clean(line: string, commented: string -> bool) {
    var m := FirstRaw(line, 0);
    m.None? || commented(line[..m.value.start])
  }

  function CleanLine(line: string, commented: string -> bool): Cleansed
    decreases |line|
  {
    if Clean(line, commented) then Cleansed(line, None)
    else
      var m := FirstRaw(line, 0).value;
      if RawEnd(line, m).None? then Cleansed(Cut(line, m), Some(Delimiter(line, m)))
      else CleanLine(Joined(line, m), commented)
  }

  function Indent(line: string): (n: nat)
    ensures n <= |line| && (forall i :: 0 <= i < n ==> IsSpace(line[i])) && (n < |line| ==> !IsSpace(line[n]))
  {
    if line == [] || !IsSpace(line[0]) then 0 else 1 + Indent(line[1..])
  }

  /** The line that ends a raw string: its indentation, `""`, and what follows the delimiter. */
  function Resumed(line: string, delimiter: string): string
    requires Find(line, delimiter, 0).Some?
  {
    line[..Indent(line)] + "\"\"" + line[Find(line, delimiter, 0).value + |delimiter|..]
  }

  function ResumeLine(line: string, delimiter: Option<string>, commented: string -> bool): Cleansed {
    if delimiter.None? then CleanLine(line, commented)
    else if Find(line, delimiter.value, 0).None? then Cleansed("\"\"", delimiter)
    else CleanLine(Resumed(line, delimiter.value), commented)
  }

  function Cleanse(lines: seq<string>, delimiter: Option<string>, commented: string -> bool): (r: seq<string>)
    ensures |r| == |lines|
    decreases |lines|
  {
    if lines == [] then []
    else
      var first := ResumeLine(lines[0], delimiter, commented);
      [first.line] + Cleanse(lines[1..], first.delimiter, commented)
  }

  lemma CleanLineRound(line: string, commented: string -> bool, m: Raw)
    requires FirstRaw(line, 0) == Some(m) && !commented(line[..m.start])
    ensures CleanLine(line, commented) ==
            if RawEnd(line, m).None? then Cleansed(Cut(line, m), Some(Delimiter(line, m)))
            else CleanLine(Joined(line, m), commented)
  {
  }

  lemma CleanLineEnd(line: string, commented: string -> bool)
    requires Clean(line, commented)
    ensures CleanLine(line, commented) == Cleansed(line, None)
  {
  }

  /** What the inner loop still has to do. */
  predicate CleansTo(line: string, delimiter: Option<string>, commented: string -> bool, r: Cleansed) {
    r == if delimiter.None? then CleanLine(line, commented) else Cleansed(line, delimiter)
  }

  /** The inner loop: every round makes the line shorter, or ends in an open raw string. */
  method CleanseLine(text: string, commented: string -> bool) returns (line: string, delimiter: Option<string>)
    ensures CleanLine(text, commented) == Cleansed(line, delimiter)
    ensures delimiter.Some? ==> delimiter.value != [] && delimiter.value[0] == ')'
  {
    line, delimiter := text, None;
    while delimiter.None?
      invariant CleansTo(line, delimiter, commented, CleanLine(text, commented))
      invariant delimiter.Some? ==> delimiter.value != [] && delimiter.value[0] == ')'
      decreases delimiter.None?, |line|
    {
      var match_ := FirstRaw(line, 0);
      if match_.None? || commented(line[..match_.value.start]) { break; }
      var m := match_.value;
      var d := Delimiter(line, m);
      var end := RawEnd(line, m);
      CleanLineRound(line, commented, m);
      if end.Some? {
        line := Joined(line, m);
      } else {
        line, delimiter := Cut(line, m), Some(d);
      }
    }
    if delimiter.None? { CleanLineEnd(line, commented); }
  }

  lemma CleanseRound(lines: seq<string>, delimiter: Option<string>, commented: string -> bool)
    requires lines != []
    ensures var first := ResumeLine(lines[0], delimiter, commented);
      Cleanse(lines, delimiter, commented) == [first.line] + Cleanse(lines[1..], first.delimiter, commented)
  {
  }

  /** One line.  The match for its leading space succeeds where the line ends a raw string, because
      a delimiter starts with no space. */
  method CleanseNext(rawLine: string, open: Option<string>, commented: string -> bool)
    returns (line: string, delimiter: Option<string>)
    requires open.Some? ==> open.value != [] && open.value[0] == ')'
    ensures Cleansed(line, delimiter) == ResumeLine(rawLine, open, commented)
    ensures delimiter.Some? ==> delimiter.value != [] && delimiter.value[0] == ')'
  {
    line := rawLine;
    if open.Some? {
      var end := Find(line, open.value, 0);
      if end.None? { return "\"\"", open; }
      assert line[end.value] == line[end.value..end.value + |open.value|][0] == open.value[0];
      assert Indent(line) <= end.value < |line|;
      line := Resumed(line, open.value);
    }
    line, delimiter := CleanseLine(line, commented);
  }

  method CleanseRawStrings(rawLines: seq<string>, commented: string -> bool) returns (cleansed: seq<string>)
    ensures cleansed == Cleanse(rawLines, None, commented) && |cleansed| == |rawLines|
  {
    var delimiter: Option<string> := None;
    cleansed := [];
    for i := 0 to |rawLines|
      invariant delimiter.Some? ==> delimiter.value != [] && delimiter.value[0] == ')'
      invariant Cleanse(rawLines, None, commented) == cleansed + Cleanse(rawLines[i..], delimiter, commented)
    {
      assert rawLines[i..][0] == rawLines[i] && rawLines[i..][1..] == rawLines[i + 1..];
      CleanseRound(rawLines[i..], delimiter, commented);
      var line;
      line, delimiter := CleanseNext(rawLines[i], delimiter, commented);
      ghost var rest := Cleanse(rawLines[i + 1..], delimiter, commented);
      assert cleansed + ([line] + rest) == (cleansed + [line]) + rest;
      cleansed := cleansed + [line];
    }
  }

  lemma DelimiterEndIs(s: string, i: nat, r: nat)
    requires i <= r < |s| && !InDelimiter(s[r]) && forall j :: i <= j < r ==> InDelimiter(s[j])
    ensures DelimiterEnd(s, i) == r
  {
  }

  /** A raw string that starts before `n` in a line is one in every line with the same first `n`
      characters, as long as its parenthesis is among them. */
  lemma SameRaw(cut: string, line: string, n: nat, i: nat)
    requires n <= |line| && n <= |cut| && cut[..n] == line[..n]
    requires RawAt(cut, i).Some? && RawAt(cut, i).value.open < n
    ensures RawAt(line, i) == RawAt(cut, i)
  {
    var r := RawAt(cut, i).value;
    assert forall k :: 0 <= k < n ==> cut[k] == cut[..n][k] == line[..n][k] == line[k];
    DelimiterEndIs(line, r.text, r.open);
  }

  /** What precedes the first raw string holds none, also when it is cut there and closed. */
  lemma CutBeforeRaw(line: string, m: Raw)
    requires FirstRaw(line, 0) == Some(m)
    ensures FirstRaw(Cut(line, m), 0).None?
  {
    var cut := Cut(line, m);
    var first := FirstRaw(cut, 0);
    if first.Some? {
      var r := first.value;
      assert cut[r.open] == '(';
      assert r.open < m.start;
      assert cut[..m.start] == line[..m.start];
      SameRaw(cut, line, m.start, r.start);
      FirstRawIsFirst(line, 0, r.start);
    }
  }

  lemma {:induction false} LineIsClean(line: string, commented: string -> bool)
    ensures Clean(CleanLine(line, commented).line, commented)
    decreases |line|
  {
    if !Clean(line, commented) {
      var m := FirstRaw(line, 0).value;
      if RawEnd(line, m).None? { CutBeforeRaw(line, m); } else { LineIsClean(Joined(line, m), commented); }
    }
  }

  lemma BlankIsClean(commented: string -> bool)
    ensures Clean("\"\"", commented)
  {
  }

  /** After cleansing, no line has a raw string outside a `//` comment. */
  lemma {:induction false} NoRawStringsLeft(lines: seq<string>, delimiter: Option<string>, commented: string -> bool, i: nat)
    requires i < |lines|
    ensures Clean(Cleanse(lines, delimiter, commented)[i], commented)
    decreases |lines|
  {
    var first := ResumeLine(lines[0], delimiter, commented);
    if i > 0 {
      NoRawStringsLeft(lines[1..], first.delimiter, commented, i - 1);
    } else if delimiter.None? {
      LineIsClean(lines[0], commented);
    } else {
      BlankIsClean(commented);
      if Find(lines[0], delimiter.value, 0).Some? { LineIsClean(Resumed(lines[0], delimiter.value), commented); }
    }
  }

  lemma {:induction false} CleanLinesStay(lines: seq<string>, commented: string -> bool)
    requires forall i :: 0 <= i < |lines| ==> Clean(lines[i], commented)
    ensures Cleanse(lines, None, commented) == lines
    decreases |lines|
  {
    if lines != [] { CleanLinesStay(lines[1..], commented); }
  }

  /** Cleansing twice is cleansing once. */
  lemma CleansingIsIdempotent(lines: seq<string>, commented: string -> bool)
    ensures var once := Cleanse(lines, None, commented); Cleanse(once, None, commented) == once
  {
    var once := Cleanse(lines, None, commented);
    forall i | 0 <= i < |once| ensures Clean(once[i], commented) {
      NoRawStringsLeft(lines, None, commented, i);
    }
    CleanLinesStay(once, commented);
  }

  /** A raw string over several lines: the lines between its two ends become `""`, and the line that
      ends it keeps its indentation and what follows. */
  lemma {:induction false} InsideIsBlank(lines: seq<string>, delimiter: string, commented: string -> bool, n: nat)
    requires n < |lines|
    requires forall i :: 0 <= i < n ==> Find(lines[i], delimiter, 0).None?
    requires Find(lines[n], delimiter, 0).Some?
    ensures var r := Cleanse(lines, Some(delimiter), commented);
      && (forall i :: 0 <= i < n ==> r[i] == "\"\"")
      && r[n..] == Cleanse([Resumed(lines[n], delimiter)] + lines[n + 1..], None, commented)
    decreases n
  {
    if n > 0 {
      InsideIsBlank(lines[1..], delimiter, commented, n - 1);
      assert lines[1..][n..] == lines[n + 1..];
      assert Cleanse(lines, Some(delimiter), commented)[n..] == Cleanse(lines[1..], Some(delimiter), commented)[n - 1..];
    } else {
      var l := Resumed(lines[0], delimiter);
      assert ([l] + lines[1..])[1..] == lines[1..];
    }
  }
}
