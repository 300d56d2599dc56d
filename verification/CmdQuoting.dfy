/** `_quote_for_cmd`, and the two parsers it has to survive: cmd's carets, then the backslash and
    quote rules of CommandLineToArgvW. */
module CmdQuoting {

  function Repeat(c: char, n: nat): (s: string)
    ensures |s| == n && forall i :: 0 <= i < n ==> s[i] == c
  {
    seq(n, _ => c)
  }

  predicate Unsafe(c: char) {
    c == '^' || c == '<' || c == '>' || c == '&' || c == '|' || c == '(' || c == ')' || c == '%'
  }

  predicate Meta(c: char) {
    Unsafe(c) || c == '"'
  }

  // ----- quoting

  predicate NeedsQuotes(arg: string) {
    arg == "" || ' ' in arg || '"' in arg
  }

  /** The substitution: every run of backslashes before a quote is doubled, and the quote gets a
      backslash of its own.  `n` backslashes have been read and not yet written. */
  function Escape(s: string, n: nat): string {
    if s == "" then Repeat('\\', n)
    else if s[0] == '\\' then Escape(s[1..], n + 1)
    else if s[0] == '"' then Repeat('\\', 2 * n + 1) + "\"" + Escape(s[1..], 0)
    else Repeat('\\', n) + [s[0]] + Escape(s[1..], 0)
  }

  function QuoteForArgv(arg: string): string {
    if NeedsQuotes(arg) then "\"" + Escape(arg, 0) + "\"" else arg
  }

  function Carets(s: string): string {
    if s == "" then "" else (if Meta(s[0]) then ['^', s[0]] else [s[0]]) + Carets(s[1..])
  }

  function QuoteForCmd(arg: string): string {
    var quoted := QuoteForArgv(arg);
    if exists i :: 0 <= i < |quoted| && Unsafe(quoted[i]) then Carets(quoted) else quoted
  }

  // ----- what Windows does with the text

  /** cmd: outside quotes a caret makes the next character literal. */
  function CmdUnescape(s: string, inQuotes: bool): string {
    if s == "" then ""
    else if s[0] == '^' && !inQuotes then
      if |s| == 1 then "" else [s[1]] + CmdUnescape(s[2..], false)
    else [s[0]] + CmdUnescape(s[1..], if s[0] == '"' then !inQuotes else inQuotes)
  }

  /** What CommandLineToArgvW is in the middle of. */
  datatype Reader = Reader(args: seq<string>, current: string, started: bool, inQuotes: bool)

  function Add(r: Reader, s: string): Reader {
    r.(current := r.current + s, started := r.started || s != "")
  }

  function Finish(r: Reader): seq<string> {
    if r.started then r.args + [r.current] else r.args
  }

  /** CommandLineToArgvW with `n` backslashes read and not yet written: before a quote every two
      of them are one and an odd one makes the quote literal, elsewhere they stand for themselves;
      a doubled quote inside quotes is a literal quote; blanks outside quotes end an argument. */
  function Parse(s: string, n: nat, r: Reader): seq<string> {
    if s == "" then Finish(Add(r, Repeat('\\', n)))
    else if s[0] == '\\' then Parse(s[1..], n + 1, r)
    else if s[0] == '"' then
      var q := Add(r, Repeat('\\', n / 2)).(started := true);
      if n % 2 == 1 then Parse(s[1..], 0, Add(q, "\""))
      else if r.inQuotes && |s| > 1 && s[1] == '"'
      then Parse(s[2..], 0, Add(q, "\"").(inQuotes := false))
      else Parse(s[1..], 0, q.(inQuotes := !r.inQuotes))
    else
      var q := Add(r, Repeat('\\', n));
      if (s[0] == ' ' || s[0] == '\t') && !r.inQuotes
      then Parse(s[1..], 0, Reader(Finish(q), "", false, false))
      else Parse(s[1..], 0, Add(q, [s[0]]))
  }

  function Argv(commandLine: string): seq<string> {
    Parse(commandLine, 0, Reader([], "", false, false))
  }

  // ----- carets

  lemma {:induction false} CaretsUndone(s: string)
    ensures CmdUnescape(Carets(s), false) == s
  {
    if s != "" {
      CaretsUndone(s[1..]);
      var rest := Carets(s[1..]);
      if Meta(s[0]) {
        assert Carets(s)[2..] == rest;
      } else {
        assert Carets(s)[1..] == rest;
      }
    }
  }

  lemma {:induction false} NoCarets(s: string, inQuotes: bool)
    requires '^' !in s
    ensures CmdUnescape(s, inQuotes) == s
  {
    if s != "" { NoCarets(s[1..], if s[0] == '"' then !inQuotes else inQuotes); }
  }

  lemma CmdUndone(arg: string)
    ensures CmdUnescape(QuoteForCmd(arg), false) == QuoteForArgv(arg)
  {
    var quoted := QuoteForArgv(arg);
    CaretsUndone(quoted);
    if !exists i :: 0 <= i < |quoted| && Unsafe(quoted[i]) {
      assert '^' !in quoted;
      NoCarets(quoted, false);
    }
  }

  /** Read from the left, no character that means something to cmd comes without a caret before it. */
  predicate AllTaken(s: string)
    decreases |s|
  {
    s == "" ||
    if s[0] == '^' then |s| > 1 && AllTaken(s[2..]) else s[0] !in "<>&|()%\"" && AllTaken(s[1..])
  }

  lemma {:induction false} CaretsTaken(s: string)
    ensures AllTaken(Carets(s))
  {
    if s != "" {
      CaretsTaken(s[1..]);
      assert if Meta(s[0]) then Carets(s)[2..] == Carets(s[1..]) else Carets(s)[1..] == Carets(s[1..]);
    }
  }

  /** An argument with one of cmd's characters in it has a caret before all of them, quotes included; one with
      none gets no carets. */
  lemma CaretLaw(arg: string)
    ensures (exists i :: 0 <= i < |arg| && arg[i] in "^<>&|()%") ==> AllTaken(QuoteForCmd(arg))
    ensures (forall i :: 0 <= i < |arg| ==> arg[i] !in "^<>&|()%") ==>
              QuoteForCmd(arg) == QuoteForArgv(arg) && '^' !in QuoteForCmd(arg)
  {
    var quoted := QuoteForArgv(arg);
    CaretsTaken(quoted);
    EscapeAdds(arg, 0);
    if i: nat :| i < |arg| && arg[i] in "^<>&|()%" {
      assert arg[i] in quoted && Unsafe(arg[i]);
      var j :| 0 <= j < |quoted| && quoted[j] == arg[i];
      assert Unsafe(quoted[j]);
    } else {
      forall j | 0 <= j < |quoted| ensures !Unsafe(quoted[j]) {
        assert quoted[j] in quoted && (quoted[j] in arg || quoted[j] == '\\' || quoted[j] == '"');
      }
    }
  }

  /** Escaping adds backslashes alone. */
  lemma {:induction false} EscapeAdds(s: string, n: nat)
    ensures forall c :: c in s && c != '\\' ==> c in Escape(s, n)
    ensures forall c :: c in Escape(s, n) ==> c in s || c == '\\'
    decreases |s|
  {
    if s != "" { EscapeAdds(s[1..], if s[0] == '\\' then n + 1 else 0); }
  }

  // ----- inside quotes

  lemma {:induction false} BackslashRun(m: nat, t: string, n: nat, r: Reader)
    ensures Parse(Repeat('\\', m) + t, n, r) == Parse(t, n + m, r)
    decreases m
  {
    var s := Repeat('\\', m) + t;
    if m == 0 {
      assert s == t;
    } else {
      assert s[1..] == Repeat('\\', m - 1) + t;
      BackslashRun(m - 1, t, n + 1, r);
    }
  }

  /** What comes back for `n` backslashes and `s`: all of it, but for backslashes at the end, which
      the closing quote takes for its own. */
  function Read(s: string, n: nat): string {
    if s == "" then Repeat('\\', n / 2) + (if n % 2 == 1 then "\"" else "")
    else if s[0] == '\\' then Read(s[1..], n + 1)
    else Repeat('\\', n) + [s[0]] + Read(s[1..], 0)
  }

  lemma ParseEnd(n: nat, r: Reader)
    requires r.inQuotes && r.started
    ensures Parse(Repeat('\\', n) + "\"", 0, r) == r.args + [r.current + Read("", n)]
  {
    BackslashRun(n, "\"", 0, r);
    assert "\""[1..] == "";
    var q := Add(r, Repeat('\\', n / 2));
    assert q.current + "\"" == r.current + (Repeat('\\', n / 2) + "\"");
    assert Repeat('\\', 0) == "" && q.current + "" == q.current;
    assert r.current + (Repeat('\\', n / 2) + "") == q.current;
    assert q.current + "\"" + "" == q.current + "\"";
  }

  /** One character that is no backslash, with the backslashes before it. */
  lemma ParseOne(c: char, n: nat, rest: string, r: Reader)
    requires r.inQuotes && r.started && c != '\\'
    ensures var m := if c == '"' then 2 * n + 1 else n;
      Parse(Repeat('\\', m) + ([c] + rest), 0, r) == Parse(rest, 0, Add(Add(r, Repeat('\\', n)), [c]))
  {
    BackslashRun(if c == '"' then 2 * n + 1 else n, [c] + rest, 0, r);
    assert ([c] + rest)[1..] == rest;
  }

  lemma {:induction false} ParseEscape(s: string, n: nat, r: Reader)
    requires r.inQuotes && r.started
    ensures Parse(Escape(s, n) + "\"", 0, r) == r.args + [r.current + Read(s, n)]
    decreases |s|
  {
    if s == "" {
      ParseEnd(n, r);
    } else if s[0] == '\\' {
      ParseEscape(s[1..], n + 1, r);
    } else {
      var c, m, rest := s[0], if s[0] == '"' then 2 * n + 1 else n, Escape(s[1..], 0) + "\"";
      assert Escape(s, n) + "\"" == Repeat('\\', m) + ([c] + rest);
      ParseOne(c, n, rest, r);
      var q := Add(Add(r, Repeat('\\', n)), [c]);
      ParseEscape(s[1..], 0, q);
      assert q.current + Read(s[1..], 0) == r.current + (Repeat('\\', n) + [c] + Read(s[1..], 0));
    }
  }

  predicate EndsInBackslash(s: string) {
    s != "" && s[|s| - 1] == '\\'
  }

  /** Nothing changes behind a head that does not end in a backslash. */
  lemma BehindHead(head: string, x: string, y: string)
    requires head != "" && !EndsInBackslash(head)
    ensures head + x == head + y <==> x == y
    ensures EndsInBackslash(head + y) <==> EndsInBackslash(y)
  {
    assert (head + x)[|head|..] == x && (head + y)[|head|..] == y;
  }

  lemma ReadNothing(n: nat)
    ensures Read("", n) == Repeat('\\', n) <==> !EndsInBackslash(Repeat('\\', n))
  {
    if n == 1 {
      assert Read("", n)[0] == '"' && Repeat('\\', n)[0] == '\\';
    } else if n > 1 {
      assert |Read("", n)| < n == |Repeat('\\', n)|;
    }
  }

  lemma {:induction false} ReadExactly(s: string, n: nat)
    ensures Read(s, n) == Repeat('\\', n) + s <==> !EndsInBackslash(Repeat('\\', n) + s)
    decreases |s|
  {
    var full := Repeat('\\', n) + s;
    if s == "" {
      assert full == Repeat('\\', n);
      ReadNothing(n);
    } else if s[0] == '\\' {
      assert full == Repeat('\\', n + 1) + s[1..];
      ReadExactly(s[1..], n + 1);
    } else {
      var head := Repeat('\\', n) + [s[0]];
      ReadExactly(s[1..], 0);
      assert Repeat('\\', 0) + s[1..] == s[1..];
      assert full == head + s[1..];
      BehindHead(head, Read(s[1..], 0), s[1..]);
    }
  }

  // ----- without quotes

  lemma {:induction false} ParsePlain(s: string, n: nat, r: Reader)
    requires '"' !in s && ' ' !in s && '\t' !in s && !r.inQuotes
    ensures Parse(s, n, r) == Finish(Add(r, Repeat('\\', n) + s))
    decreases |s|
  {
    if s == "" {
      assert Repeat('\\', n) + s == Repeat('\\', n);
    } else if s[0] == '\\' {
      ParsePlain(s[1..], n + 1, r);
      assert Repeat('\\', n + 1) + s[1..] == Repeat('\\', n) + s;
    } else {
      var q := Add(Add(r, Repeat('\\', n)), [s[0]]);
      ParsePlain(s[1..], 0, q);
      assert q.current + (Repeat('\\', 0) + s[1..]) == r.current + (Repeat('\\', n) + s);
    }
  }

  ghost predicate NoTabs(args: seq<string>) {
    forall k :: 0 <= k < |args| ==> '\t' !in args[k]
  }

  lemma {:induction false} ParseDropsTabs(s: string, n: nat, r: Reader)
    requires '"' !in s && !r.inQuotes && NoTabs(r.args) && '\t' !in r.current
    ensures NoTabs(Parse(s, n, r))
    decreases |s|
  {
    var q := Add(r, Repeat('\\', n));
    if s != "" {
      if s[0] == '\\' {
        ParseDropsTabs(s[1..], n + 1, r);
      } else if s[0] == ' ' || s[0] == '\t' {
        ParseDropsTabs(s[1..], 0, Reader(Finish(q), "", false, false));
      } else {
        ParseDropsTabs(s[1..], 0, Add(q, [s[0]]));
      }
    }
  }

  // ----- the main result

  /** Exactly when an argument survives: one that is quoted, because it is empty or holds a blank or a quote,
      must not end in a backslash, and one that is not must not hold a tab. */
  predicate Survives(arg: string) {
    if arg == "" || ' ' in arg || '"' in arg then arg == "" || arg[|arg| - 1] != '\\' else '\t' !in arg
  }

  lemma QuotedTrip(arg: string)
    requires NeedsQuotes(arg)
    ensures Argv("\"" + Escape(arg, 0) + "\"") == [arg] <==> !EndsInBackslash(arg)
  {
    var text := "\"" + Escape(arg, 0) + "\"";
    var r := Reader([], "" + Repeat('\\', 0), true, true);
    assert text[1..] == Escape(arg, 0) + "\"";
    assert Argv(text) == Parse(text[1..], 0, r);
    ParseEscape(arg, 0, r);
    ReadExactly(arg, 0);
    assert Repeat('\\', 0) + arg == arg && r.current + Read(arg, 0) == Read(arg, 0);
    if Argv(text) == [arg] { assert Argv(text)[0] == arg; }
  }

  lemma UnquotedTrip(arg: string)
    requires !NeedsQuotes(arg)
    ensures Argv(arg) == [arg] <==> '\t' !in arg
  {
    var start := Reader([], "", false, false);
    if '\t' in arg {
      ParseDropsTabs(arg, 0, start);
      assert !NoTabs([arg]) by { assert '\t' in [arg][0]; }
    } else {
      ParsePlain(arg, 0, start);
      assert "" + (Repeat('\\', 0) + arg) == arg;
    }
  }

  lemma QuoteRoundTrip(arg: string)
    ensures Argv(CmdUnescape(QuoteForCmd(arg), false)) == [arg] <==> Survives(arg)
  {
    CmdUndone(arg);
    if NeedsQuotes(arg) { QuotedTrip(arg); } else { UnquotedTrip(arg); }
  }
}
