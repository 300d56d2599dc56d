/** `GitWrapper.GetSubmoduleDiff`: reading modified gitlinks off a git diff. */
module SubmoduleDiff {
  import opened Strings

  type Diff = map<string, (string, string)>

  const DIFF := "diff --git"
  const INDEX := "index"
  const GITLINK := "160000"
  const NEW_PATH := "+++ "
  const WAS := "-Subproject commit "
  const NOW := "+Subproject commit "

  function NoCommit(): string {
    seq(40, _ => '0')
  }

  /** `line.split(' ')[-1]`. */
  function LastWord(line: string): string {
    if line == "" then ""
    else if ' ' in line then LastWord(line[1..])
    else line
  }

  predicate IsGitlinkIndex(line: string) {
    INDEX <= line && EndsWith(line, GITLINK)
  }

  // ----- the state machine

  datatype Machine = Machine(state: nat, filepath: string, committed: string, diff: Diff)

  function Record(diff: Diff, path: string, was: string, now: string): Diff {
    if was == NoCommit() || now == NoCommit() then diff else diff[path := (was, now)]
  }

  function Step(m: Machine, line: string): Machine {
    if DIFF <= line then m.(state := 1)
    else if m.state == 1 && IsGitlinkIndex(line) then m.(state := 2)
    else if m.state == 2 && NEW_PATH <= line then m.(filepath := line[4..], state := 3)
    else if m.state == 3 && WAS <= line then m.(committed := LastWord(line), state := 4)
    else if m.state == 4 && NOW <= line then
      m.(diff := Record(m.diff, m.filepath, m.committed, LastWord(line)), state := 0)
    else m
  }

  function Run(m: Machine, lines: seq<string>): Machine
    decreases |lines|
  {
    if lines == [] then m else Run(Step(m, lines[0]), lines[1..])
  }

  const START := Machine(0, "", "", map[])

  lemma {:induction false} RunConcat(m: Machine, xs: seq<string>, ys: seq<string>)
    ensures Run(m, xs + ys) == Run(Run(m, xs), ys)
    decreases |xs|
  {
    if xs == [] {
      assert xs + ys == ys;
    } else {
      assert (xs + ys)[1..] == xs[1..] + ys;
      RunConcat(Step(m, xs[0]), xs[1..], ys);
    }
  }

  method GetSubmoduleDiff(lines: seq<string>) returns (diff: Diff)
    ensures diff == Run(START, lines).diff
  {
    var state, filepath, committed := 0, "", "";
    diff := map[];
    for i := 0 to |lines|
      invariant Run(Machine(state, filepath, committed, diff), lines[i..]) == Run(START, lines)
    {
      var l := lines[i];
      assert lines[i..][1..] == lines[i + 1..];
      if DIFF <= l {
        state := 1;
      } else if state == 1 && INDEX <= l && EndsWith(l, GITLINK) {
        state := 2;
      } else if state == 2 && NEW_PATH <= l {
        filepath := l[4..];
        state := 3;
      } else if state == 3 && WAS <= l {
        committed := LastWord(l);
        state := 4;
      } else if state == 4 && NOW <= l {
        var checked := LastWord(l);
        if committed != NoCommit() && checked != NoCommit() {
          diff := diff[filepath := (committed, checked)];
        }
        state := 0;
      }
    }
  }

  // ----- rendering

  /** One file's part of a git diff.  `abbreviated` is what the index line holds before the mode. */
  datatype Section =
    | Ordinary(head: string, lines: seq<string>)
    | Added(path: string, abbreviated: string, hash: string)
    | Removed(path: string, abbreviated: string, hash: string)
    | Modified(path: string, abbreviated: string, was: string, now: string)

  /** In the `---` and `+++` lines git ends a path that holds a blank with a tab. */
  function Written(path: string): string {
    if ' ' in path then path + "\t" else path
  }

  function Render(s: Section): seq<string> {
    match s
    case Ordinary(head, lines) => ["diff --git" + head] + lines
    case Added(path, abbreviated, hash) =>
      ["diff --git " + path + " " + path, "new file mode 160000", "index " + abbreviated, "--- /dev/null",
       "+++ " + Written(path), "@@ -0,0 +1 @@", "+Subproject commit " + hash]
    case Removed(path, abbreviated, hash) =>
      ["diff --git " + path + " " + path, "deleted file mode 160000", "index " + abbreviated, "--- " + Written(path),
       "+++ /dev/null", "@@ -1 +0,0 @@", "-Subproject commit " + hash]
    case Modified(path, abbreviated, was, now) =>
      ["diff --git " + path + " " + path, "index " + abbreviated + " 160000", "--- " + Written(path),
       "+++ " + Written(path), "@@ -1 +1 @@", "-Subproject commit " + was, "+Subproject commit " + now]
  }

  function RenderAll(sections: seq<Section>): seq<string> {
    if sections == [] then [] else Render(sections[0]) + RenderAll(sections[1..])
  }

  /** Hashes hold no blanks.  The lines of an ordinary file start no new section, and they do not
      both look like a gitlink's index line and hold both lines of a modified gitlink. */
  ghost predicate WellFormed(s: Section) {
    match s
    case Ordinary(_, lines) =>
      && (forall i :: 0 <= i < |lines| ==> !(DIFF <= lines[i]))
      && ( || (forall i :: 0 <= i < |lines| ==> !IsGitlinkIndex(lines[i]))
           || (forall i :: 0 <= i < |lines| ==> !(WAS <= lines[i]))
           || (forall i :: 0 <= i < |lines| ==> !(NOW <= lines[i])))
    case Added(_, _, hash) => ' ' !in hash
    case Removed(_, _, hash) => ' ' !in hash
    case Modified(_, _, was, now) => ' ' !in was && ' ' !in now
  }

  function Next(diff: Diff, s: Section): Diff {
    if s.Modified? then Record(diff, Written(s.path), s.was, s.now) else diff
  }

  /** The modified gitlinks whose two commits are real, later sections winning; under the path as it is
      written. */
  function Gitlinks(sections: seq<Section>, diff: Diff): Diff {
    if sections == [] then diff
    else
      var s := sections[0];
      Gitlinks(sections[1..], Next(diff, s))
  }

  // ----- reading undoes rendering

  lemma {:induction false} LastWordAfter(head: string, word: string)
    requires ' ' !in word
    ensures LastWord(head + " " + word) == word
    decreases |head|
  {
    var line := head + " " + word;
    assert line[|head|] == ' ';
    if head == "" {
      assert line[1..] == word;
      if word != "" { assert ' ' !in word; }
    } else {
      assert line[1..] == head[1..] + " " + word;
      LastWordAfter(head[1..], word);
    }
  }

  /** Lines that lack a step of the ladder 1, 2, 3, 4 never record anything. */
  lemma {:induction false} LadderBroken(m: Machine, lines: seq<string>, missing: nat)
    requires forall i :: 0 <= i < |lines| ==> !(DIFF <= lines[i])
    requires 1 <= m.state <= missing
    requires missing == 1 ==> forall i :: 0 <= i < |lines| ==> !IsGitlinkIndex(lines[i])
    requires missing == 3 ==> forall i :: 0 <= i < |lines| ==> !(WAS <= lines[i])
    requires missing == 4 ==> forall i :: 0 <= i < |lines| ==> !(NOW <= lines[i])
    requires missing == 1 || missing == 3 || missing == 4
    ensures Run(m, lines).diff == m.diff
    decreases |lines|
  {
    if lines != [] { LadderBroken(Step(m, lines[0]), lines[1..], missing); }
  }

  lemma RunStep(m: Machine, line: string, rest: seq<string>)
    ensures Run(m, [line] + rest) == Run(Step(m, line), rest)
  {
    assert ([line] + rest)[1..] == rest;
  }

  lemma Mismatch(line: string, prefix: string, k: nat)
    requires k < |line| && k < |prefix| && line[k] != prefix[k]
    ensures !(prefix <= line)
  {
  }

  lemma RunSeven(m: Machine, l: seq<string>)
    requires |l| == 7
    ensures Run(m, l) == Step(Step(Step(Step(Step(Step(Step(m, l[0]), l[1]), l[2]), l[3]), l[4]), l[5]), l[6])
  {
    assert l == [l[0]] + ([l[1]] + ([l[2]] + ([l[3]] + ([l[4]] + ([l[5]] + ([l[6]] + []))))));
    RunStep(m, l[0], l[1..]);
    var m1 := Step(m, l[0]);
    RunStep(m1, l[1], l[2..]);
    var m2 := Step(m1, l[1]);
    RunStep(m2, l[2], l[3..]);
    var m3 := Step(m2, l[2]);
    RunStep(m3, l[3], l[4..]);
    var m4 := Step(m3, l[3]);
    RunStep(m4, l[4], l[5..]);
    var m5 := Step(m4, l[4]);
    RunStep(m5, l[5], l[6..]);
    RunStep(Step(m5, l[5]), l[6], []);
    assert l[..] == [l[0]] + l[1..] && l[1..] == [l[1]] + l[2..] && l[2..] == [l[2]] + l[3..];
    assert l[3..] == [l[3]] + l[4..] && l[4..] == [l[4]] + l[5..] && l[5..] == [l[5]] + l[6..] && l[6..] == [l[6]] + [];
  }

  /** The index line of a modified gitlink, and the lines the machine passes over. */
  lemma HeadersRead(m: Machine, path: string, abbreviated: string)
    ensures Step(m.(state := 1), INDEX + " " + abbreviated + " 160000") == m.(state := 2)
    ensures Step(m.(state := 2), "--- " + path) == m.(state := 2)
    ensures Step(m.(state := 2), NEW_PATH + path) == m.(state := 3, filepath := path)
    ensures Step(m.(state := 3), "@@ -1 +1 @@") == m.(state := 3)
  {
    var index := INDEX + " " + abbreviated + " 160000";
    assert index[|index| - 6..] == GITLINK;
    Mismatch(index, DIFF, 0);
    Mismatch("--- " + path, DIFF, 0);
    Mismatch("--- " + path, NEW_PATH, 0);
    Mismatch(NEW_PATH + path, DIFF, 0);
    assert (NEW_PATH + path)[4..] == path;
    Mismatch("@@ -1 +1 @@", DIFF, 0);
    Mismatch("@@ -1 +1 @@", WAS, 0);
  }

  /** A line that ends in a commit, after one of the two heads. */
  lemma CommitLine(prefix: string, head: string, word: string)
    requires prefix == head + " " && head != "" && head[0] != 'd' && ' ' !in word
    ensures LastWord(prefix + word) == word && prefix <= prefix + word && !(DIFF <= prefix + word)
  {
    LastWordAfter(head, word);
    Mismatch(prefix + word, DIFF, 0);
  }

  lemma CommitsRead(m: Machine, was: string, now: string)
    requires ' ' !in was && ' ' !in now
    ensures Step(m.(state := 3), WAS + was) == m.(state := 4, committed := was)
    ensures Step(m.(state := 4), NOW + now) == m.(state := 0, diff := Record(m.diff, m.filepath, m.committed, now))
  {
    CommitLine(WAS, "-Subproject commit", was);
    CommitLine(NOW, "+Subproject commit", now);
  }

  /** The heads of the lines. */
  lemma HeadsAre(abbreviated: string)
    ensures INDEX + " " + abbreviated == "index " + abbreviated && DIFF <= "diff --git "
  {
    assert INDEX + " " == "index ";
  }

  lemma ModifiedRead(m: Machine, s: Section)
    requires s.Modified? && WellFormed(s)
    ensures Run(m, Render(s)).diff == Record(m.diff, Written(s.path), s.was, s.now)
  {
    var lines, path := Render(s), Written(s.path);
    HeadsAre(s.abbreviated);
    assert DIFF <= lines[0];
    assert lines[1] == INDEX + " " + s.abbreviated + " 160000";
    HeadersRead(m, path, s.abbreviated);
    var m4 := m.(state := 3, filepath := path);
    HeadersRead(m4, path, s.abbreviated);
    CommitsRead(m4, s.was, s.now);
    CommitsRead(m4.(committed := s.was), s.was, s.now);
    RunSeven(m, lines);
  }

  lemma AddedLines(s: Section)
    requires s.Added?
    ensures var body := Render(s)[1..];
      forall i :: 0 <= i < |body| ==> !(DIFF <= body[i]) && !(WAS <= body[i])
  {
    var body := Render(s)[1..];
    Mismatch(body[0], DIFF, 0);
    Mismatch(body[0], WAS, 0);
    Mismatch(body[1], DIFF, 0);
    Mismatch(body[1], WAS, 0);
    Mismatch(body[2], DIFF, 0);
    Mismatch(body[2], WAS, 1);
    Mismatch(body[3], DIFF, 0);
    Mismatch(body[3], WAS, 0);
    Mismatch(body[4], DIFF, 0);
    Mismatch(body[4], WAS, 0);
    Mismatch(body[5], DIFF, 0);
    Mismatch(body[5], WAS, 0);
  }

  lemma RemovedLines(s: Section)
    requires s.Removed?
    ensures var body := Render(s)[1..];
      forall i :: 0 <= i < |body| ==> !(DIFF <= body[i]) && !(NOW <= body[i])
  {
    var body := Render(s)[1..];
    Mismatch(body[0], DIFF, 1);
    Mismatch(body[0], NOW, 0);
    Mismatch(body[1], DIFF, 0);
    Mismatch(body[1], NOW, 0);
    Mismatch(body[2], DIFF, 0);
    Mismatch(body[2], NOW, 0);
    Mismatch(body[3], DIFF, 0);
    Mismatch(body[3], NOW, 1);
    Mismatch(body[4], DIFF, 0);
    Mismatch(body[4], NOW, 0);
    Mismatch(body[5], DIFF, 0);
    Mismatch(body[5], NOW, 0);
  }

  /** Anything but a modified gitlink leaves the result alone. */
  lemma OtherRead(m: Machine, s: Section)
    requires !s.Modified? && WellFormed(s)
    ensures Run(m, Render(s)).diff == m.diff
  {
    var lines := Render(s);
    var body := lines[1..];
    assert DIFF <= lines[0] && lines == [lines[0]] + body;
    RunStep(m, lines[0], body);
    var m1 := Step(m, lines[0]);
    if s.Added? {
      AddedLines(s);
      LadderBroken(m1, body, 3);
    } else if s.Removed? {
      RemovedLines(s);
      LadderBroken(m1, body, 4);
    } else {
      assert body == s.lines;
      LadderBroken(m1, body,
                   if forall i :: 0 <= i < |body| ==> !IsGitlinkIndex(body[i]) then 1
                   else if forall i :: 0 <= i < |body| ==> !(WAS <= body[i]) then 3 else 4);
    }
  }

  lemma {:induction false} SectionsRead(m: Machine, sections: seq<Section>)
    requires forall i :: 0 <= i < |sections| ==> WellFormed(sections[i])
    ensures Run(m, RenderAll(sections)).diff == Gitlinks(sections, m.diff)
    decreases |sections|
  {
    if sections != [] {
      var s, rest := sections[0], sections[1..];
      RunConcat(m, Render(s), RenderAll(rest));
      if s.Modified? { ModifiedRead(m, s); } else { OtherRead(m, s); }
      SectionsRead(Run(m, Render(s)), rest);
    }
  }

  lemma EmptyLast(m: Machine)
    ensures Run(m, [""]).diff == m.diff
  {
    RunStep(m, "", []);
    assert [""] + [] == [""];
  }

  /** On the diff text of any sections, split at line feeds, `GetSubmoduleDiff` returns exactly
      the modified gitlinks with two real commits. */
  lemma DiffReadsBack(sections: seq<Section>)
    requires forall i :: 0 <= i < |sections| ==> WellFormed(sections[i])
    ensures Run(START, RenderAll(sections) + [""]).diff == Gitlinks(sections, map[])
  {
    SectionsRead(START, sections);
    RunConcat(START, RenderAll(sections), [""]);
    EmptyLast(Run(START, RenderAll(sections)));
  }

  /** The path itself comes back if and only if it holds no blank: the tab is never taken off. */
  lemma PathReadsBack(s: Section)
    requires s.Modified? && WellFormed(s) && s.was != NoCommit() && s.now != NoCommit()
    ensures Run(START, Render(s)).diff == map[Written(s.path) := (s.was, s.now)]
    ensures s.path in Run(START, Render(s)).diff <==> ' ' !in s.path
  {
    ModifiedRead(START, s);
  }

  // ----- the result, entry by entry

  const ZEROS := "0000000000000000000000000000000000000000"

  lemma NoCommitIsZeros()
    ensures NoCommit() == ZEROS && |ZEROS| == 40
  {
    assert |ZEROS| == 40;
    assert forall k :: 0 <= k < 40 ==> ZEROS[k] == '0';
  }

  /** The section changes a gitlink between two commits, and its written path is `key`. */
  predicate Changes(s: Section, key: string) {
    s.Modified? && s.was != ZEROS && s.now != ZEROS && key == s.path + (if ' ' in s.path then "\t" else "")
  }

  lemma OneSection(diff: Diff, s: Section, key: string)
    ensures Changes(s, key) ==> key in Next(diff, s) && Next(diff, s)[key] == (s.was, s.now)
    ensures !Changes(s, key) ==>
              (key in Next(diff, s) <==> key in diff) && (key in diff ==> Next(diff, s)[key] == diff[key])
  {
    NoCommitIsZeros();
    assert s.Modified? ==> s.path + "" == s.path;
  }

  lemma {:induction false} GitlinksKept(sections: seq<Section>, diff: Diff, key: string)
    requires forall i :: 0 <= i < |sections| ==> !Changes(sections[i], key)
    ensures (key in Gitlinks(sections, diff) <==> key in diff) && (key in diff ==> Gitlinks(sections, diff)[key] == diff[key])
    decreases |sections|
  {
    if sections != [] {
      OneSection(diff, sections[0], key);
      GitlinksKept(sections[1..], Next(diff, sections[0]), key);
    }
  }

  lemma {:induction false} GitlinksLast(sections: seq<Section>, diff: Diff, key: string, i: nat)
    requires i < |sections| && Changes(sections[i], key)
    requires forall j :: i < j < |sections| ==> !Changes(sections[j], key)
    ensures key in Gitlinks(sections, diff) && Gitlinks(sections, diff)[key] == (sections[i].was, sections[i].now)
    decreases |sections|
  {
    var next := Next(diff, sections[0]);
    if i > 0 {
      GitlinksLast(sections[1..], next, key, i - 1);
    } else {
      OneSection(diff, sections[0], key);
      GitlinksKept(sections[1..], next, key);
    }
  }

  /** A path is in the result exactly when some section changes its gitlink between two commits, neither of
      which is forty zeros, and then with the commits of the last such section. */
  lemma DiffEntries(sections: seq<Section>, key: string)
    requires forall i :: 0 <= i < |sections| ==> WellFormed(sections[i])
    ensures var diff := Run(START, RenderAll(sections) + [""]).diff;
      && (key in diff <==> exists i :: 0 <= i < |sections| && Changes(sections[i], key))
      && forall i :: 0 <= i < |sections| && Changes(sections[i], key)
                     && (forall j :: i < j < |sections| ==> !Changes(sections[j], key)) ==>
           diff[key] == (sections[i].was, sections[i].now)
  {
    DiffReadsBack(sections);
    forall i | 0 <= i < |sections| && Changes(sections[i], key) && forall j :: i < j < |sections| ==> !Changes(sections[j], key)
      ensures key in Gitlinks(sections, map[]) && Gitlinks(sections, map[])[key] == (sections[i].was, sections[i].now)
    {
      GitlinksLast(sections, map[], key, i);
    }
    if i: nat :| i < |sections| && Changes(sections[i], key) {
      var last := LastChange(sections, key, i);
    } else {
      GitlinksKept(sections, map[], key);
    }
  }

  lemma LastChange(sections: seq<Section>, key: string, i: nat) returns (last: nat)
    requires i < |sections| && Changes(sections[i], key)
    ensures last < |sections| && Changes(sections[last], key) && forall j :: last < j < |sections| ==> !Changes(sections[j], key)
    decreases |sections| - i
  {
    if j: nat :| i < j < |sections| && Changes(sections[j], key) { last := LastChange(sections, key, j); } else { last := i; }
  }
}
