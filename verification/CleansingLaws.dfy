/** What cleansing does to lines that are written out: raw strings, escapes, quotations, digit separators
    and comments, each with the text around it. */
module CleansingLaws {
  import opened Strings
  import opened Cleansing
  import opened Quotes
  import opened Comments
  import Lines = CleansedLines

  // ----- searching

  /** Which characters are spaces, belong to words, and are hexadecimal digits. */
  lemma CharacterLaw(c: char)
    ensures IsSpace(c) <==> c in " \t\n\r\U{000B}\U{000C}"
    ensures IsWord(c) <==>
              97 <= c as int <= 122 || 65 <= c as int <= 90 || 48 <= c as int <= 57 || c as int == 95
    ensures IsHex(c) <==> c in "abcdefABCDEF0123456789"
  {
  }

  predicate Occurs(t: string, s: string, k: int) {
    0 <= k <= |s| - |t| && s[k..k + |t|] == t
  }

  /** `t` is nowhere in `s`. */
  ghost predicate Lacks(s: string, t: string) {
    forall k :: !Occurs(t, s, k)
  }

  predicate Spaces(s: string) {
    forall i :: 0 <= i < |s| ==> IsSpace(s[i])
  }

  /** `Find` returns the first occurrence, if there is one. */
  lemma FindIs(s: string, t: string, from: nat, i: nat)
    requires from <= i && Occurs(t, s, i) && forall k :: from <= k < i ==> !Occurs(t, s, k)
    ensures Find(s, t, from) == Some(i)
  {
    FindIsFirst(s, t, from, i);
    assert Occurs(t, s, Find(s, t, from).value);
  }

  lemma NotFound(s: string, t: string, from: nat)
    requires forall k :: from <= k ==> !Occurs(t, s, k)
    ensures Find(s, t, from) == None
  {
    FoundOccurs(s, t, from);
  }

  lemma FoundOccurs(s: string, t: string, from: nat)
    ensures Find(s, t, from).Some? ==> from <= Find(s, t, from).value && Occurs(t, s, Find(s, t, from).value)
  {
  }

  // ----- raw strings

  const PREFIXES := ["R", "u8R", "uR", "UR", "LR"]

  /** A raw string starts at `i` exactly where one of the five prefixes and a quote stand at the start of
      a word, and delimiter characters and a parenthesis follow. */
  lemma RawAtIff(s: string, i: nat, text: nat, open: nat)
    ensures RawAt(s, i) == Some(Raw(i, text, open)) <==>
            && (exists p: nat :: p < |PREFIXES| && text == i + |PREFIXES[p]| + 1 <= |s|
                                 && s[i..text] == PREFIXES[p] + "\"")
            && (i == 0 || !IsWord(s[i - 1]))
            && text <= open < |s| && s[open] == '('
            && forall j :: text <= j < open ==> !IsSpace(s[j]) && s[j] !in "\\()"
  {
    PrefixIff(s, i, text);
    if text <= open < |s| && s[open] == '(' && forall j :: text <= j < open ==> !IsSpace(s[j]) && s[j] !in "\\()" {
      DelimiterEndIs(s, text, open);
    }
  }

  lemma PrefixIff(s: string, i: nat, text: nat)
    ensures PrefixEnd(s, i) == Some(text) <==>
            exists p: nat :: p < |PREFIXES| && text == i + |PREFIXES[p]| + 1 <= |s| && s[i..text] == PREFIXES[p] + "\""
  {
    if PrefixEnd(s, i) == Some(text) {
      var p := if s[i] == 'R' then 0 else if s[i + 1] == '8' then 1 else if s[i] == 'u' then 2 else if s[i] == 'U' then 3 else 4;
      assert s[i..text] == PREFIXES[p] + "\"";
    }
    forall p: nat | p < |PREFIXES| && text == i + |PREFIXES[p]| + 1 <= |s| && s[i..text] == PREFIXES[p] + "\""
      ensures PrefixEnd(s, i) == Some(text)
    {
      assert forall k :: 0 <= k < |PREFIXES[p]| + 1 ==> s[i + k] == s[i..text][k];
    }
  }

  /** The name between the quote and the parenthesis of a raw string. */
  predicate IsName(name: string) {
    forall j :: 0 <= j < |name| ==> !IsSpace(name[j]) && name[j] !in "\\()"
  }

  function Start(before: string, prefix: string, name: string): string {
    before + (prefix + "\"" + name + "(")
  }

  /** The first raw string of a line, not in a comment, does not end on the line: the line is cut there and
      ends with `""`, and the delimiter is looked for from the next line on. */
  lemma OpenRawStringLaw(before: string, prefix: string, name: string, text: string, commented: string -> bool)
    requires prefix in PREFIXES && (before == "" || !IsWord(before[|before| - 1])) && !commented(before)
    requires IsName(name) && Lacks(text, ")" + name + "\"")
    requires forall i :: 0 <= i < |before| ==> RawAt(before + (prefix + "\"" + name + "(") + text, i).None?
    ensures CleanLine(before + (prefix + "\"" + name + "(") + text, commented) ==
              Cleansed(before + "\"\"", Some(")" + name + "\""))
  {
    var start := Start(before, prefix, name);
    var m := FirstIs(before, prefix, name, text);
    NoEnd(start, text, ")" + name + "\"");
    OpenRound(start + text, before, m, ")" + name + "\"", commented);
  }

  lemma NoEnd(start: string, text: string, closing: string)
    requires Lacks(text, closing)
    ensures Find(start + text, closing, |start|) == None
  {
    forall k | |start| <= k ensures !Occurs(closing, start + text, k) { NotLater(start, text, closing, k); }
    NotFound(start + text, closing, |start|);
  }

  lemma OpenRound(line: string, before: string, m: Raw, closing: string, commented: string -> bool)
    requires FirstRaw(line, 0) == Some(m) && line[..m.start] == before && !commented(before)
    requires Delimiter(line, m) == closing && Find(line, closing, m.open + 1).None?
    ensures CleanLine(line, commented) == Cleansed(before + "\"\"", Some(closing))
  {
    CleanLineRound(line, commented, m);
  }

  lemma ClosedRound(line: string, before: string, m: Raw, closing: string, end: nat, after: string, commented: string -> bool)
    requires FirstRaw(line, 0) == Some(m) && line[..m.start] == before && !commented(before)
    requires Delimiter(line, m) == closing && Find(line, closing, m.open + 1) == Some(end)
    requires line[end + |closing|..] == after
    ensures CleanLine(line, commented) == CleanLine(before + "\"\"" + after, commented)
  {
    assert RawEnd(line, m) == Some(end);
    JoinedIs(line, before, m, end, after);
    RoundTo(line, m, before + "\"\"" + after, commented);
  }

  lemma RoundTo(line: string, m: Raw, joined: string, commented: string -> bool)
    requires FirstRaw(line, 0) == Some(m) && !commented(line[..m.start])
    requires RawEnd(line, m).Some? && Joined(line, m) == joined
    ensures CleanLine(line, commented) == CleanLine(joined, commented)
  {
    CleanLineRound(line, commented, m);
  }

  lemma JoinedIs(line: string, before: string, m: Raw, end: nat, after: string)
    requires IsRaw(line, m) && RawEnd(line, m) == Some(end)
    requires line[..m.start] == before && line[end + |Delimiter(line, m)|..] == after
    ensures Joined(line, m) == before + "\"\"" + after
  {
  }

  /** It ends on the line: `""` takes its place, with what precedes and what follows it unchanged, and
      cleansing goes on with that. */
  lemma RawStringLaw(before: string, prefix: string, name: string, text: string, after: string, commented: string -> bool)
    requires prefix in PREFIXES && (before == "" || !IsWord(before[|before| - 1])) && !commented(before)
    requires IsName(name) && Lacks(text, ")" + name + "\"")
    requires forall i :: 0 <= i < |before| ==>
               RawAt(before + (prefix + "\"" + name + "(") + (text + (")" + name + "\"") + after), i).None?
    ensures CleanLine(before + (prefix + "\"" + name + "(") + (text + (")" + name + "\"") + after), commented) ==
              CleanLine(before + "\"\"" + after, commented)
  {
    var start, closing := Start(before, prefix, name), ")" + name + "\"";
    var m := FirstIs(before, prefix, name, text + closing + after);
    ClosedRaw(start + (text + closing + after), start, before, m, text, closing, after, commented);
  }

  lemma ClosedRaw(line: string, start: string, before: string, m: Raw, text: string, closing: string, after: string,
                  commented: string -> bool)
    requires line == start + (text + closing + after) && FirstRaw(line, 0) == Some(m) && m.open + 1 == |start|
    requires line[..m.start] == before && Delimiter(line, m) == closing && !commented(before)
    requires Lacks(text, closing) && forall j :: 0 < j < |closing| ==> closing[j] != ')'
    ensures CleanLine(line, commented) == CleanLine(before + "\"\"" + after, commented)
  {
    EndIs(line, start, text, closing, after);
    ClosedRound(line, before, m, closing, |start| + |text|, after, commented);
  }

  lemma EndIs(line: string, start: string, text: string, closing: string, after: string)
    requires closing != "" && closing[0] == ')' && forall j :: 0 < j < |closing| ==> closing[j] != ')'
    requires Lacks(text, closing) && line == start + (text + closing + after)
    ensures Find(line, closing, |start|) == Some(|start| + |text|) && line[|start| + |text| + |closing|..] == after
  {
    Parts(start, text, closing, after);
    NoneBefore(line, start, text, closing, after);
    FindIs(line, closing, |start|, |start| + |text|);
  }

  lemma Parts(a: string, b: string, c: string, d: string)
    ensures var all := a + (b + c + d); Occurs(c, all, |a| + |b|) && all[|a| + |b| + |c|..] == d
  {
  }

  lemma NoneBefore(line: string, start: string, text: string, closing: string, after: string)
    requires Lacks(text, closing) && line == start + (text + closing + after)
    requires closing != "" && closing[0] == ')' && forall j :: 0 < j < |closing| ==> closing[j] != ')'
    ensures forall k :: |start| <= k < |start| + |text| ==> !Occurs(closing, line, k)
  {
    forall k | |start| <= k < |start| + |text| ensures !Occurs(closing, line, k) {
      NotBefore(start, text, closing, after, k);
    }
  }

  /** The first raw string of a line, and its delimiter. */
  lemma FirstIs(before: string, prefix: string, name: string, rest: string) returns (m: Raw)
    requires prefix in PREFIXES && (before == "" || !IsWord(before[|before| - 1])) && IsName(name)
    requires forall i :: 0 <= i < |before| ==> RawAt(Start(before, prefix, name) + rest, i).None?
    ensures var start := Start(before, prefix, name);
      && FirstRaw(start + rest, 0) == Some(m) && (start + rest)[..m.start] == before && m.open + 1 == |start|
      && Delimiter(start + rest, m) == ")" + name + "\""
  {
    var line := Start(before, prefix, name) + rest;
    m := RawIs(before, prefix, name, rest);
    FirstRawIsFirst(line, 0, |before|);
    NameIs(before, prefix, name, rest);
  }

  lemma NameIs(before: string, prefix: string, name: string, rest: string)
    ensures var start := Start(before, prefix, name);
      && (start + rest)[|before| + |prefix| + 1..|start| - 1] == name && (start + rest)[..|before|] == before
  {
  }

  lemma RawIs(before: string, prefix: string, name: string, rest: string) returns (m: Raw)
    requires prefix in PREFIXES && (before == "" || !IsWord(before[|before| - 1])) && IsName(name)
    ensures var start := Start(before, prefix, name);
      m == Raw(|before|, |before| + |prefix| + 1, |start| - 1) && RawAt(start + rest, |before|) == Some(m)
  {
    var line := Start(before, prefix, name) + rest;
    var i, text := |before|, |before| + |prefix| + 1;
    m := Raw(i, text, text + |name|);
    var p: nat :| p < |PREFIXES| && PREFIXES[p] == prefix;
    assert line[i..text] == prefix + "\"";
    assert i > 0 ==> line[i - 1] == before[i - 1];
    assert forall j :: text <= j < m.open ==> line[j] == name[j - text];
    RawAtIff(line, i, text, m.open);
  }

  lemma NotLater(start: string, text: string, closing: string, k: int)
    requires |start| <= k && Lacks(text, closing)
    ensures !Occurs(closing, start + text, k)
  {
    if Occurs(closing, start + text, k) {
      assert text[k - |start|..k - |start| + |closing|] == (start + text)[k..k + |closing|];
      assert Occurs(closing, text, k - |start|);
    }
  }

  lemma NthOf(t: string, s: string, k: int, i: nat)
    requires Occurs(t, s, k) && i < |t|
    ensures s[k + i] == t[i]
  {
    assert s[k..k + |t|][i] == s[k + i];
  }

  /** A delimiter cannot start in the text and end behind it: only its first character is `)`. */
  lemma NotBefore(start: string, text: string, closing: string, after: string, k: int)
    requires |start| <= k < |start| + |text| && Lacks(text, closing)
    requires closing != "" && closing[0] == ')' && forall j :: 0 < j < |closing| ==> closing[j] != ')'
    ensures !Occurs(closing, start + (text + closing + after), k)
  {
    var line := start + (text + closing + after);
    assert text + closing + after == text + (closing + after);
    if k + |closing| <= |start| + |text| { Shifted(start, text, closing + after, closing, k); }
    assert line[|start| + |text|] == ')';
    if Occurs(closing, line, k) {
      var i := |start| + |text| - k;
      if i < |closing| { NthOf(closing, line, k, i); }
    }
  }

  lemma Shifted(start: string, text: string, rest: string, t: string, k: int)
    requires |start| <= k && k + |t| <= |start| + |text|
    ensures Occurs(t, start + (text + rest), k) ==> Occurs(t, text, k - |start|)
  {
    assert text[k - |start|..k - |start| + |t|] == (start + (text + rest))[k..k + |t|];
  }

  /** A line inside a raw string becomes `""`. */
  lemma InsideLaw(text: string, delimiter: string, commented: string -> bool)
    requires Lacks(text, delimiter)
    ensures ResumeLine(text, Some(delimiter), commented) == Cleansed("\"\"", Some(delimiter))
  {
    NotFound(text, delimiter, 0);
  }

  /** The line on which a raw string ends keeps its indentation and what follows the delimiter. */
  lemma ResumeLaw(indent: string, text: string, delimiter: string, after: string, commented: string -> bool)
    requires Spaces(indent) && (text == "" || !IsSpace(text[0]))
    requires delimiter != "" && delimiter[0] == ')' && forall j :: 0 < j < |delimiter| ==> delimiter[j] != ')'
    requires Lacks(indent + text, delimiter)
    ensures ResumeLine(indent + text + delimiter + after, Some(delimiter), commented) ==
              CleanLine(indent + "\"\"" + after, commented)
  {
    ResumedIs(indent, text, delimiter, after);
  }

  lemma ResumedIs(indent: string, text: string, delimiter: string, after: string)
    requires Spaces(indent) && (text == "" || !IsSpace(text[0]))
    requires delimiter != "" && delimiter[0] == ')' && forall j :: 0 < j < |delimiter| ==> delimiter[j] != ')'
    requires Lacks(indent + text, delimiter)
    ensures var line := indent + text + delimiter + after;
      Find(line, delimiter, 0).Some? && Resumed(line, delimiter) == indent + "\"\"" + after
  {
    var line := indent + text + delimiter + after;
    assert line == [] + (indent + text + delimiter + after);
    EndIs(line, [], indent + text, delimiter, after);
    IndentOf(indent, text, delimiter, after);
    assert line[|indent + text| + |delimiter|..] == after;
  }

  lemma IndentOf(indent: string, text: string, delimiter: string, after: string)
    requires Spaces(indent) && (text == "" || !IsSpace(text[0]))
    requires delimiter != "" && delimiter[0] == ')'
    ensures var line := indent + text + delimiter + after;
      Indent(line) == |indent| && line[..|indent|] == indent
  {
    var line := indent + text + delimiter + after;
    assert line[|indent|] == (if text == "" then ')' else text[0]);
    assert line[..|indent|] == indent;
    IndentIs(line, |indent|);
  }

  lemma {:induction false} IndentIs(line: string, n: nat)
    requires n <= |line| && Spaces(line[..n]) && (n < |line| ==> !IsSpace(line[n]))
    ensures Indent(line) == n
  {
    if n > 0 {
      assert line[0] == line[..n][0];
      assert line[1..][..n - 1] == line[..n][1..];
      IndentIs(line[1..], n - 1);
    }
  }

  // ----- numbers and their separators

  /** A digit, or `0b` or `0x` of either case, at the start of a word, and then hexadecimal digits. */
  predicate Number(before: string, lead: string, digits: string) {
    && (before == "" || !IsWord(before[|before| - 1]))
    && lead in ["0", "1", "2", "3", "4", "5", "6", "7", "8", "9", "0b", "0B", "0x", "0X"]
    && forall j :: 0 <= j < |digits| ==> IsHex(digits[j])
  }

  /** A text ends in a number exactly when it can be split into some text, the start of a number, and its
      digits. */
  lemma NumberEnds(before: string, lead: string, digits: string)
    requires Number(before, lead, digits)
    ensures EndsInNumber(before + lead + digits)
  {
    LeadShape(lead);
    Behind(before, lead, digits);
    NumberStarts(before + lead + digits, |before|, lead, digits);
  }

  lemma Behind(a: string, b: string, c: string)
    ensures (a + b + c)[|a|..] == b + c && (a != "" ==> (a + b + c)[|a| - 1] == a[|a| - 1])
  {
  }

  lemma LeadShape(lead: string)
    requires lead in ["0", "1", "2", "3", "4", "5", "6", "7", "8", "9", "0b", "0B", "0x", "0X"]
    ensures 1 <= |lead| <= 2 && IsDigit(lead[0])
    ensures |lead| == 2 ==> lead[0] == '0' && (lead[1] == 'b' || lead[1] == 'B' || lead[1] == 'x' || lead[1] == 'X')
  {
  }

  lemma NumberStarts(s: string, i: nat, lead: string, digits: string)
    requires i <= |s| && s[i..] == lead + digits && (i == 0 || !IsWord(s[i - 1]))
    requires 1 <= |lead| <= 2 && IsDigit(lead[0])
    requires |lead| == 2 ==> lead[0] == '0' && (lead[1] == 'b' || lead[1] == 'B' || lead[1] == 'x' || lead[1] == 'X')
    requires forall j :: 0 <= j < |digits| ==> IsHex(digits[j])
    ensures EndsInNumber(s)
  {
    forall j | i + |lead| <= j < |s| ensures IsHex(s[j]) { assert s[j] == s[i..][j - i] == digits[j - i - |lead|]; }
    assert s[i] == s[i..][0];
    assert |lead| == 2 ==> s[i + 1] == s[i..][1];
    assert NumberFrom(s, i);
  }

  lemma NumberOf(s: string) returns (before: string, lead: string, digits: string)
    requires EndsInNumber(s)
    ensures s == before + lead + digits && Number(before, lead, digits)
  {
    var i :| 0 <= i < |s| && NumberFrom(s, i);
    var n := if IsDigit(s[i]) && HexFrom(s, i + 1) then 1 else 2;
    before, lead, digits := s[..i], s[i..i + n], s[i + n..];
    if n == 1 {
      assert lead == [s[i]];
      LeadIs(s[i]);
    } else {
      assert lead == ['0', s[i + 1]];
    }
    DigitsAreHex(s, i + n);
  }

  lemma DigitsAreHex(s: string, k: nat)
    requires k <= |s| && HexFrom(s, k)
    ensures forall j :: 0 <= j < |s[k..]| ==> IsHex(s[k..][j])
  {
  }

  lemma LeadIs(c: char)
    requires IsDigit(c)
    ensures [c] in ["0", "1", "2", "3", "4", "5", "6", "7", "8", "9"]
  {
    assert c == "0123456789"[c as int - '0' as int];
    assert [c] == ["0", "1", "2", "3", "4", "5", "6", "7", "8", "9"][c as int - '0' as int];
  }

  /** One character of a number as it is written, after a separator or not. */
  datatype Written = Written(separated: bool, c: char)

  function WrittenOut(ws: seq<Written>): string {
    if ws == [] then "" else (if ws[0].separated then ['\'', ws[0].c] else [ws[0].c]) + WrittenOut(ws[1..])
  }

  function Characters(ws: seq<Written>): string {
    if ws == [] then "" else [ws[0].c] + Characters(ws[1..])
  }

  /** A separator after a number: the number goes on as long as it can, its separators go, and what
      follows is read afresh. */
  lemma SeparatorLaw(head: string, ws: seq<Written>, rest: string)
    requires NoQuotes(head) && EndsInNumber(head) && ws != [] && ws[0].separated
    requires forall k :: 0 <= k < |ws| ==> IsWord(ws[k].c)
    requires rest == "" || (!IsWord(rest[0]) && !(rest[0] == '\'' && |rest| > 1 && IsWord(rest[1])))
    ensures Collapse(head + (WrittenOut(ws) + rest)) == head + Characters(ws) + Collapse(rest)
  {
    var literal := WrittenOut(ws);
    var tail := (literal + rest)[1..];
    assert literal + rest == ['\''] + tail;
    Assoc(head, ['\''], tail);
    RoundAt(head, '\'', tail);
    LiteralIs(ws, rest);
    SeparatorsGo(ws);
    assert (literal + rest)[..|literal|] == literal && (literal + rest)[|literal|..] == rest;
  }

  lemma {:induction false} LiteralIs(ws: seq<Written>, rest: string)
    requires forall k :: 0 <= k < |ws| ==> IsWord(ws[k].c)
    requires rest == "" || (!IsWord(rest[0]) && !(rest[0] == '\'' && |rest| > 1 && IsWord(rest[1])))
    ensures LiteralLength(WrittenOut(ws) + rest) == |WrittenOut(ws)|
  {
    var all := WrittenOut(ws) + rest;
    if ws == [] {
      assert all == rest;
    } else {
      LiteralIs(ws[1..], rest);
      var k := if ws[0].separated then 2 else 1;
      assert all[k..] == WrittenOut(ws[1..]) + rest;
    }
  }

  lemma {:induction false} SeparatorsGo(ws: seq<Written>)
    requires forall k :: 0 <= k < |ws| ==> IsWord(ws[k].c)
    ensures Unseparated(WrittenOut(ws)) == Characters(ws)
  {
    if ws != [] {
      var all := WrittenOut(ws);
      SeparatorsGo(ws[1..]);
      if ws[0].separated { assert all[1..] == [ws[0].c] + WrittenOut(ws[1..]) && all[1..][1..] == WrittenOut(ws[1..]); }
      else { assert all[1..] == WrittenOut(ws[1..]); }
    }
  }

  /** A quotation that no number precedes becomes a pair of quotes, and what follows is read afresh; a quote
      with no second one leaves the text as it is. */
  lemma QuotationLaw(head: string, q: char, inside: string, rest: string)
    requires NoQuotes(head) && (q == '"' || (q == '\'' && !EndsInNumber(head))) && q !in inside
    ensures Collapse(head + [q] + (inside + [q] + rest)) == head + [q, q] + Collapse(rest)
    ensures Collapse(head + [q] + inside) == head + [q] + inside
  {
    RoundAt(head, q, inside + [q] + rest);
    PositionIs(inside, q, rest);
    assert (inside + [q] + rest)[|inside| + 1..] == rest;
    RoundAt(head, q, inside);
    NoPosition(inside, q);
  }

  lemma {:induction false} PositionIs(inside: string, q: char, rest: string)
    requires q !in inside
    ensures Position(inside + [q] + rest, q) == Some(|inside|)
  {
    var all := inside + [q] + rest;
    if inside != "" {
      assert all[1..] == inside[1..] + [q] + rest;
      PositionIs(inside[1..], q, rest);
    }
  }

  lemma {:induction false} NoPosition(s: string, q: char)
    requires q !in s
    ensures Position(s, q) == None
  {
    if s != "" { NoPosition(s[1..], q); }
  }

  // ----- escapes and includes

  /** An escaped character goes with its backslash, and so do all the digits after a backslash and all the
      hexadecimal digits after a backslash and an `x`. */
  lemma EscapeLaw(c: char, digits: string, rest: string)
    ensures c in "abfnrtv?\"\\'" ==> Lines.WithoutEscapes(['\\', c] + rest) == Lines.WithoutEscapes(rest)
    ensures digits != "" && (forall i :: 0 <= i < |digits| ==> '0' <= digits[i] <= '9')
            && (rest == "" || !('0' <= rest[0] <= '9')) ==>
              Lines.WithoutEscapes("\\" + digits + rest) == Lines.WithoutEscapes(rest)
    ensures digits != "" && (forall i :: 0 <= i < |digits| ==> IsHex(digits[i])) && (rest == "" || !IsHex(rest[0])) ==>
              Lines.WithoutEscapes("\\x" + digits + rest) == Lines.WithoutEscapes(rest)
  {
    assert (['\\', c] + rest)[2..] == rest;
    if digits != "" && (forall i :: 0 <= i < |digits| ==> '0' <= digits[i] <= '9') && (rest == "" || !('0' <= rest[0] <= '9')) {
      DigitsGo(digits, rest);
    }
    if digits != "" && (forall i :: 0 <= i < |digits| ==> IsHex(digits[i])) && (rest == "" || !IsHex(rest[0])) {
      HexGo(digits, rest);
    }
  }

  lemma DigitsGo(digits: string, rest: string)
    requires digits != "" && (forall i :: 0 <= i < |digits| ==> IsDigit(digits[i])) && (rest == "" || !IsDigit(rest[0]))
    ensures Lines.WithoutEscapes("\\" + digits + rest) == Lines.WithoutEscapes(rest)
  {
    var s := "\\" + digits + rest;
    RunIs(s, 1, |digits|, c => IsDigit(c));
    assert s[1] == digits[0];
    DigitIsNot(s[1]);
    assert Lines.EscapeLength(s) == 1 + |digits|;
    assert s[1 + |digits|..] == rest;
    Lines.EscapeFirst(s, rest);
  }

  lemma DigitIsNot(c: char)
    requires IsDigit(c)
    ensures c !in Lines.ESCAPED
  {
    var e := Lines.ESCAPED;
    assert |e| == 11;
    assert forall i :: 0 <= i < |e| ==> e[i] != c;
  }

  lemma HexGo(digits: string, rest: string)
    requires digits != "" && (forall i :: 0 <= i < |digits| ==> IsHex(digits[i])) && (rest == "" || !IsHex(rest[0]))
    ensures Lines.WithoutEscapes("\\x" + digits + rest) == Lines.WithoutEscapes(rest)
  {
    var s := "\\x" + digits + rest;
    RunIs(s, 2, |digits|, c => IsHex(c));
    assert s[1] == 'x' && s[2] == digits[0];
    XIsNot();
    assert Lines.EscapeLength(s) == 2 + |digits|;
    assert s[2 + |digits|..] == rest;
    Lines.EscapeFirst(s, rest);
  }

  lemma {:induction false} RunIs(s: string, i: nat, n: nat, p: char -> bool)
    requires i + n <= |s| && (forall j :: i <= j < i + n ==> p(s[j])) && (i + n < |s| ==> !p(s[i + n]))
    ensures Lines.RunLength(s, i, p) == n
    decreases n
  {
    if n > 0 { RunIs(s, i + 1, n - 1, p); }
  }

  /** Everything else stays: other characters, and a backslash with none of these after it. */
  lemma PlainLaw(c: char, rest: string)
    requires c != '\\' || rest == "" || rest[0] !in "abfnrtv?\"\\'0123456789x"
             || (rest[0] == 'x' && (|rest| == 1 || !IsHex(rest[1])))
    ensures Lines.WithoutEscapes([c] + rest) == [c] + Lines.WithoutEscapes(rest)
  {
    var s := [c] + rest;
    assert s[1..] == rest && s[0] == c;
    if c == '\\' && rest != "" {
      assert s[1] == rest[0];
      if rest[0] == 'x' {
        assert |rest| > 1 ==> s[2] == rest[1];
        XIsNot();
      } else {
        NoDigit(rest[0]);
      }
    }
    assert Lines.EscapeLength(s) == 0;
  }

  lemma XIsNot()
    ensures 'x' !in Lines.ESCAPED && !IsDigit('x')
  {
    var e := Lines.ESCAPED;
    assert |e| == 11;
    assert forall i :: 0 <= i < |e| ==> e[i] != 'x';
  }

  lemma NoDigit(c: char)
    requires c !in "abfnrtv?\"\\'0123456789x"
    ensures !IsDigit(c) && c !in Lines.ESCAPED && c != 'x'
  {
    if IsDigit(c) { LeadIs(c); }
  }

  /** Only spaces from `i` to before `j`. */
  predicate Blank(s: string, i: nat, j: nat) {
    i <= j <= |s| && forall k :: i <= k < j ==> IsSpace(s[k])
  }

  /** An `#include` line: `#` at `hash`, the word at `word`, an opening mark and later a closing one, with
      spaces allowed before and between. */
  predicate Include(s: string, hash: nat, word: nat, mark: nat, close: nat) {
    && Blank(s, 0, hash) && hash < |s| && s[hash] == '#'
    && Blank(s, hash + 1, word) && Occurs("include", s, word)
    && Blank(s, word + 7, mark) && mark < close < |s| && s[mark] in "<\"" && s[close] in ">\""
  }

  lemma IncludeOf(s: string) returns (hash: nat, word: nat, mark: nat, close: nat)
    requires Lines.IsInclude(s)
    ensures Include(s, hash, word, mark, close)
  {
    hash := Lines.SkipSpace(s, 0);
    word := Lines.SkipSpace(s, hash + 1);
    mark := Lines.SkipSpace(s, word + 7);
    SkipBlank(s, 0);
    SkipBlank(s, hash + 1);
    SkipBlank(s, word + 7);
    var n :| mark < n < |s| && (s[n] == '>' || s[n] == '"');
    close := n;
  }

  lemma {:induction false} SkipBlank(s: string, i: nat)
    requires i <= |s|
    ensures Blank(s, i, Lines.SkipSpace(s, i))
    decreases |s| - i
  {
    if i < |s| && IsSpace(s[i]) { SkipBlank(s, i + 1); }
  }

  /** An `#include` line stays as it is, and no other line is taken for one. */
  lemma IncludeLaw(s: string, hash: nat, word: nat, mark: nat, close: nat)
    ensures Include(s, hash, word, mark, close) ==> Lines.Elided(s) == s
    ensures (forall h, w, m, c :: !Include(s, h, w, m, c)) ==> Lines.Elided(s) == Collapse(Lines.WithoutEscapes(s))
  {
    if Include(s, hash, word, mark, close) { IncludeIs(s, hash, word, mark, close); }
    if Lines.IsInclude(s) { var h, w, m, c := IncludeOf(s); }
  }

  lemma IncludeIs(s: string, hash: nat, word: nat, mark: nat, close: nat)
    requires Include(s, hash, word, mark, close)
    ensures Lines.IsInclude(s)
  {
    assert s[word..word + 7][0] == 'i' == s[word];
    SkipIs(s, 0, hash);
    SkipIs(s, hash + 1, word);
    SkipIs(s, word + 7, mark);
  }

  lemma {:induction false} SkipIs(s: string, i: nat, n: nat)
    requires i <= n <= |s| && (forall j :: i <= j < n ==> IsSpace(s[j])) && (n < |s| ==> !IsSpace(s[n]))
    ensures Lines.SkipSpace(s, i) == n
    decreases n - i
  {
    if i < n { SkipIs(s, i + 1, n); }
  }

  // ----- comments

  /** Every line is spaces, a text that has none at its ends, and spaces. */
  predicate Framed(line: string, left: string, text: string, right: string) {
    && line == left + text + right && Spaces(left) && Spaces(right)
    && (text == "" || (!IsSpace(text[0]) && !IsSpace(text[|text| - 1])))
  }

  lemma Frame(line: string) returns (left: string, text: string, right: string)
    ensures Framed(line, left, text, right)
  {
    var n := Indent(line);
    Indented(line);
    var rest := line[n..];
    TrimIs(rest);
    left, text, right := line[..n], TrimRight(rest), rest[|TrimRight(rest)|..];
    Reframed(line, n, text, right);
  }

  lemma Reframed(line: string, n: nat, text: string, right: string)
    requires n <= |line| && text <= line[n..] && right == line[n..][|text|..]
    ensures line == line[..n] + text + right && (text != "" ==> text[0] == line[n..][0])
  {
  }

  lemma Indented(line: string)
    ensures Spaces(line[..Indent(line)])
    ensures var rest := line[Indent(line)..]; rest == "" || !IsSpace(rest[0])
  {
  }

  lemma {:induction false} TrimIs(s: string)
    ensures TrimRight(s) <= s && Spaces(s[|TrimRight(s)|..])
    ensures TrimRight(s) != "" ==> !IsSpace(TrimRight(s)[|TrimRight(s)| - 1])
  {
    if s != "" && IsSpace(s[|s| - 1]) {
      var init := s[..|s| - 1];
      TrimIs(init);
      var n := |TrimRight(init)|;
      assert s[n..] == init[n..] + [s[|s| - 1]];
    }
  }

  lemma {:induction false} Trimmed(text: string, right: string)
    requires Spaces(right) && (text == "" || !IsSpace(text[|text| - 1]))
    ensures TrimRight(text + right) == text
    decreases |right|
  {
    var s := text + right;
    if right == "" {
      assert s == text;
    } else {
      assert s[..|s| - 1] == text + right[..|right| - 1];
      Trimmed(text, right[..|right| - 1]);
    }
  }

  lemma Stripped(line: string, left: string, text: string, right: string)
    requires Framed(line, left, text, right)
    ensures Strip(line) == text
  {
    if text == "" {
      assert line == "" + (left + right) && Spaces(left + right);
      assert line[..|line|] == line;
      IndentIs(line, |line|);
      assert line[|line|..] == "";
    } else {
      assert line[..|left|] == left && line[|left|] == text[0];
      IndentIs(line, |left|);
      assert line[|left|..] == text + right;
      Trimmed(text, right);
    }
  }

  /** A line starts a comment exactly when its text starts with the opening mark and holds the closing mark
      nowhere behind it, and ends one exactly when its text ends with the closing mark. */
  lemma CommentIff(line: string, left: string, text: string, right: string)
    requires Framed(line, left, text, right)
    ensures C_COMMENTS.opens(line) <==>
            |text| >= 2 && text[0] == '/' && text[1] == '*' && forall k :: 2 <= k < |text| - 1 ==> !(text[k] == '*' && text[k + 1] == '/')
    ensures C_COMMENTS.closes(line) <==> |text| >= 2 && text[|text| - 2] == '*' && text[|text| - 1] == '/'
  {
    Stripped(line, left, text, right);
    ClosingBehind(text);
    TwoAt(text, '/', '*', 0);
    TwoAt(text, '*', '/', |text| - 2);
  }

  lemma ClosingBehind(text: string)
    ensures Find(text, "*/", 2).None? <==> forall k :: 2 <= k < |text| - 1 ==> !(text[k] == '*' && text[k + 1] == '/')
  {
    if k :| 2 <= k < |text| - 1 && text[k] == '*' && text[k + 1] == '/' {
      TwoAt(text, '*', '/', k);
      FindIsFirst(text, "*/", 2, k);
    } else {
      forall k | 2 <= k ensures !Occurs("*/", text, k) { TwoAt(text, '*', '/', k); }
      NotFound(text, "*/", 2);
    }
  }

  lemma TwoAt(s: string, a: char, b: char, k: int)
    ensures Occurs([a, b], s, k) <==> 0 <= k < |s| - 1 && s[k] == a && s[k + 1] == b
  {
    if 0 <= k < |s| - 1 { assert s[k..k + 2] == [s[k], s[k + 1]]; }
  }

  /** A comment: its first line starts it, and of its lines only the last one ends one. */
  predicate IsWhole(comment: seq<string>, m: Marks) {
    && comment != [] && m.opens(comment[0]) && m.closes(comment[|comment| - 1])
    && forall k :: 0 <= k < |comment| - 1 ==> !m.closes(comment[k])
  }

  /** Lines in which no comment starts stay, every line of the first comment becomes an empty one, and
      what follows is read afresh. */
  lemma FirstCommentLaw(before: seq<string>, comment: seq<string>, rest: seq<string>, m: Marks)
    requires (forall k :: 0 <= k < |before| ==> !m.opens(before[k])) && IsWhole(comment, m)
    ensures Removed(before + comment + rest, m) == before + seq(|comment|, _ => "/**/") + Removed(rest, m)
  {
    var all := before + comment + rest;
    var b, e := |before|, |before| + |comment|;
    BeforeAndIn(before, comment, rest);
    Unchanged(all, b, m);
    assert all[..b] == before;
    Blanked(all, b, e, m);
    ReadAfresh(before + comment, rest, m);
    Pieces(Removed(all, m), before, seq(|comment|, _ => "/**/"), Removed(rest, m));
  }

  lemma BeforeAndIn(before: seq<string>, comment: seq<string>, rest: seq<string>)
    ensures var all := before + comment + rest;
      && (forall k :: 0 <= k < |before| ==> all[k] == before[k])
      && forall k :: |before| <= k < |before| + |comment| ==> all[k] == comment[k - |before|]
  {
  }

  lemma Pieces(all: seq<string>, a: seq<string>, b: seq<string>, c: seq<string>)
    requires |all| == |a| + |b| + |c| && all[..|a|] == a && all[|a|..|a| + |b|] == b && all[|a| + |b|..] == c
    ensures all == a + b + c
  {
  }

  lemma Unchanged(all: seq<string>, b: nat, m: Marks)
    requires b <= |all| && forall k :: 0 <= k < b ==> !m.opens(all[k])
    ensures !Inside(all, b, m) && Removed(all, m)[..b] == all[..b]
  {
    forall k | 0 <= k <= b ensures !Inside(all, k, m) { OutsideUpTo(all, 0, k, m); }
  }

  lemma Blanked(all: seq<string>, b: nat, e: nat, m: Marks)
    requires b < e <= |all| && !Inside(all, b, m) && m.opens(all[b]) && m.closes(all[e - 1])
    requires forall k :: b <= k < e - 1 ==> !m.closes(all[k])
    ensures !Inside(all, e, m) && Removed(all, m)[b..e] == seq(e - b, _ => "/**/")
  {
    forall k | b < k < e ensures Inside(all, k, m) { InsideUpTo(all, b, k, m); }
    forall k | b <= k < e ensures ClosesFrom(all, k, m) { assert m.closes(all[e - 1]); }
  }

  lemma ReadAfresh(done: seq<string>, rest: seq<string>, m: Marks)
    requires !Inside(done + rest, |done|, m)
    ensures Removed(done + rest, m)[|done|..] == Removed(rest, m)
  {
    forall k | 0 <= k < |rest| ensures RemovedLine(done + rest, |done| + k, m) == RemovedLine(rest, k, m) {
      Afresh(done, rest, k, m);
    }
  }

  lemma {:induction false} InsideAfresh(done: seq<string>, rest: seq<string>, k: nat, m: Marks)
    requires k <= |rest| && !Inside(done + rest, |done|, m)
    ensures Inside(done + rest, |done| + k, m) == Inside(rest, k, m)
  {
    if k > 0 {
      InsideAfresh(done, rest, k - 1, m);
      assert (done + rest)[|done| + k - 1] == rest[k - 1];
    }
  }

  lemma Afresh(done: seq<string>, rest: seq<string>, k: nat, m: Marks)
    requires k < |rest| && !Inside(done + rest, |done|, m)
    ensures RemovedLine(done + rest, |done| + k, m) == RemovedLine(rest, k, m)
  {
    var all := done + rest;
    InsideAfresh(done, rest, k, m);
    assert all[|done| + k] == rest[k];
    if ClosesFrom(all, |done| + k, m) {
      var e :| |done| + k <= e < |all| && m.closes(all[e]);
      assert all[e] == rest[e - |done|];
    }
    if ClosesFrom(rest, k, m) {
      var e :| k <= e < |rest| && m.closes(rest[e]);
      assert all[|done| + e] == rest[e];
    }
  }

  /** Lines that start no comment stay, and so do those of a comment that never ends. */
  lemma OpenCommentLaw(before: seq<string>, comment: seq<string>, m: Marks)
    requires forall k :: 0 <= k < |before| ==> !m.opens(before[k])
    requires forall k :: 0 <= k < |comment| ==> !m.closes(comment[k])
    ensures Removed(before + comment, m) == before + comment
  {
    var all := before + comment;
    forall k | 0 <= k < |all| ensures RemovedLine(all, k, m) == all[k] {
      if k < |before| {
        OutsideUpTo(all, 0, k, m);
      } else {
        forall e | k <= e < |all| ensures !m.closes(all[e]) { assert all[e] == comment[e - |before|]; }
      }
    }
  }
}
