/** How conditions are combined: `UpdateCondition`, `_MergeDepsOs`, `merge_conditions`, and the
    conditions that a dependency file inherits. */
module DepsConditions {
  import opened Conditions
  import Strings

  /** A stored condition: no entry, the empty string, or text with its syntax tree. */
  datatype Cond = Absent | Empty | Text(e: Expr)

  datatype Join = AndJoin | OrJoin

  /** `'(%s) op (%s)'`: the operands are parenthesized, so they stay operands. */
  function Combine(op: Join, x: Expr, y: Expr): Expr {
    if op.AndJoin? then And([x, y]) else Or([x, y])
  }

  /** `UpdateCondition` on the condition of one entry. */
  function Updated(curr: Cond, op: Join, new_: Cond): Cond {
    if curr.Text? && new_.Text? then Text(Combine(op, curr.e, new_.e))
    else if op.AndJoin? && (curr.Text? || new_.Text?) then (if curr.Text? then curr else new_)
    else if curr.Text? then Absent
    else curr
  }

  // ----- meaning

  /** The condition has a boolean value. */
  ghost predicate IsBool(c: Cond, vars: Vars) {
    c.Text? ==> var r := EvaluateCondition(c.e, vars); r.Ok? && r.value.VBool?
  }

  /** Absent and empty conditions hold. */
  ghost predicate Holds(c: Cond, vars: Vars) {
    c.Text? ==> EvaluateCondition(c.e, vars) == Ok(VBool(true))
  }

  lemma CombineMeaning(op: Join, x: Expr, y: Expr, vars: Vars)
    ensures IsBool(Text(Combine(op, x, y)), vars) <==> IsBool(Text(x), vars) && IsBool(Text(y), vars)
    ensures IsBool(Text(x), vars) && IsBool(Text(y), vars) ==>
              (Holds(Text(Combine(op, x, y)), vars) <==>
                 if op.AndJoin? then Holds(Text(x), vars) && Holds(Text(y), vars)
                 else Holds(Text(x), vars) || Holds(Text(y), vars))
  {
    var both := [x, y];
    assert both[0] == x && both[1..] == [y] && [y][0] == y && [y][1..] == [];
    var rx, ry := Eval(x, vars, {}, false), Eval(y, vars, {}, false);
    var tail := EvalList([y], vars, {}, true);
    assert EvalList([], vars, {}, true) == Ok([]);
    if rx.Err? || !rx.value.VBool? {
      assert EvalList(both, vars, {}, true).Err?;
    } else if ry.Err? || !ry.value.VBool? {
      assert tail.Err?;
      assert EvalList(both, vars, {}, true).Err?;
    } else {
      assert [ry.value] + [] == [ry.value];
      assert tail == Ok([ry.value]);
      assert [rx.value] + [ry.value] == [rx.value, ry.value];
      var vs := [rx.value, ry.value];
      assert EvalList(both, vars, {}, true) == Ok(vs);
      assert vs[0] == rx.value && vs[1] == ry.value;
    }
  }

  /** Updating with `and` conjoins and updating with `or` disjoins, absent meaning true. */
  lemma UpdatedMeaning(curr: Cond, op: Join, new_: Cond, vars: Vars)
    requires IsBool(curr, vars) && IsBool(new_, vars)
    ensures IsBool(Updated(curr, op, new_), vars)
    ensures Holds(Updated(curr, op, new_), vars) <==>
              if op.AndJoin? then Holds(curr, vars) && Holds(new_, vars) else Holds(curr, vars) || Holds(new_, vars)
  {
    if curr.Text? && new_.Text? { CombineMeaning(op, curr.e, new_.e, vars); }
  }

  // ----- merge_conditions

  function Merged(conditions: seq<Cond>): Cond {
    if conditions == [] then Absent
    else
      var n := |conditions| - 1;
      var before, last := Merged(conditions[..n]), conditions[n];
      if !last.Text? then before
      else if !before.Text? then last
      else Text(And([before.e, last.e]))
  }

  method MergeConditions(conditions: seq<Cond>) returns (condition: Cond)
    ensures condition == Merged(conditions)
  {
    condition := Absent;
    for i := 0 to |conditions|
      invariant condition == Merged(conditions[..i])
    {
      assert conditions[..i + 1][..i] == conditions[..i];
      var current := conditions[i];
      if !current.Text? { continue; }
      if !condition.Text? {
        condition := current;
        continue;
      }
      condition := Text(And([condition.e, current.e]));
    }
    assert conditions[..|conditions|] == conditions;
  }

  /** `merge_conditions` is the conjunction of its arguments. */
  lemma {:induction false} MergedMeaning(conditions: seq<Cond>, vars: Vars)
    requires forall i :: 0 <= i < |conditions| ==> IsBool(conditions[i], vars)
    ensures IsBool(Merged(conditions), vars)
    ensures Holds(Merged(conditions), vars) <==> forall i :: 0 <= i < |conditions| ==> Holds(conditions[i], vars)
    decreases |conditions|
  {
    if conditions != [] {
      var n := |conditions| - 1;
      MergedMeaning(conditions[..n], vars);
      var before, last := Merged(conditions[..n]), conditions[n];
      if before.Text? && last.Text? { CombineMeaning(AndJoin, before.e, last.e, vars); }
      assert forall i :: 0 <= i < n ==> conditions[..n][i] == conditions[i];
    }
  }

  // ----- deps_os

  /** The `url` of an entry; entries that are no git dependencies have none. */
  datatype Url = NoUrl | Null | Git(url: string)

  datatype Dep = Dep(url: Url, cond: Cond)

  datatype Entry = Entry(name: string, dep: Dep)

  datatype Section = Section(os: string, entries: seq<Entry>)

  datatype Failure = KeyError | Conflict

  datatype Outcome<T> = Success(value: T) | Failed(failure: Failure)

  function CheckoutOf(os: string): Cond {
    Text(Name("checkout_" + if os == "unix" then "linux" else os))
  }

  function MergeEntry(deps: map<string, Dep>, entry: Entry, os: string): Outcome<map<string, Dep>> {
    var dep := entry.dep;
    if dep.url.NoUrl? then Failed(KeyError)
    else if dep.url.Null? then Success(deps)
    else
      var cond := Updated(dep.cond, AndJoin, CheckoutOf(os));
      if entry.name !in deps then Success(deps[entry.name := Dep(dep.url, cond)])
      else
        var known := deps[entry.name];
        if known.url.NoUrl? then Failed(KeyError)
        else if known.url != dep.url then Failed(Conflict)
        else Success(deps[entry.name := Dep(dep.url, Updated(cond, OrJoin, known.cond))])
  }

  function MergeEntries(deps: map<string, Dep>, entries: seq<Entry>, os: string): Outcome<map<string, Dep>>
    decreases |entries|
  {
    if entries == [] then Success(deps)
    else
      var next := MergeEntry(deps, entries[0], os);
      if next.Failed? then next else MergeEntries(next.value, entries[1..], os)
  }

  function MergeSections(deps: map<string, Dep>, sections: seq<Section>): Outcome<map<string, Dep>>
    decreases |sections|
  {
    if sections == [] then Success(deps)
    else
      var next := MergeEntries(deps, sections[0].entries, sections[0].os);
      if next.Failed? then next else MergeSections(next.value, sections[1..])
  }

  /** An entry as the code has it: a dictionary that is updated in place. */
  class DepInfo {
    const url: Url
    var condition: Cond

    constructor (url: Url, condition: Cond)
      ensures Value() == Dep(url, condition)
    {
      this.url, this.condition := url, condition;
    }

    function Value(): Dep
      reads this
    {
      Dep(url, condition)
    }

    method UpdateCondition(op: Join, newCondition: Cond)
      modifies this
      ensures Value() == old(Value()).(cond := Updated(old(condition), op, newCondition))
    {
      if condition.Text? && newCondition.Text? {
        condition := Text(Combine(op, condition.e, newCondition.e));
      } else if op.AndJoin? && (condition.Text? || newCondition.Text?) {
        condition := if condition.Text? then condition else newCondition;
      } else if condition.Text? {
        condition := Absent;
      }
    }
  }

  ghost function Values(deps: map<string, DepInfo>): map<string, Dep>
    reads deps.Values
  {
    map name | name in deps :: deps[name].Value()
  }

  datatype Item = Item(name: string, info: DepInfo)

  ghost function Infos(items: seq<Item>): set<DepInfo> {
    set i | 0 <= i < |items| :: items[i].info
  }

  ghost function Entries(items: seq<Item>): (entries: seq<Entry>)
    reads Infos(items)
    ensures |entries| == |items|
    ensures forall i :: 0 <= i < |items| ==> entries[i] == Entry(items[i].name, items[i].info.Value())
  {
    seq(|items|, i requires 0 <= i < |items| reads Infos(items) => Entry(items[i].name, items[i].info.Value()))
  }

  ghost predicate Separate(items: seq<Item>) {
    forall i, j :: 0 <= i < j < |items| ==> items[i].info != items[j].info
  }

  /** The `deps` of one parsed file. */
  class DepsFile {
    var deps: map<string, DepInfo>

    constructor (deps: map<string, DepInfo>)
      ensures this.deps == deps
    {
      this.deps := deps;
    }

    /** One round of `_MergeDepsOs`. */
    method MergeOne(name: string, info: DepInfo, os: string) returns (outcome: Outcome<()>)
      requires info !in deps.Values
      modifies `deps, info
      ensures deps.Values <= old(deps.Values) + {info}
      ensures match MergeEntry(old(Values(deps)), Entry(name, old(info.Value())), os)
              case Success(merged) => outcome == Success(()) && Values(deps) == merged
              case Failed(failure) => outcome == Failed(failure)
    {
      ghost var before := Values(deps);
      if info.url.NoUrl? { return Failed(KeyError); }
      if info.url.Null? { return Success(()); }
      info.UpdateCondition(AndJoin, CheckoutOf(os));
      if name in deps {
        if deps[name].url.NoUrl? { return Failed(KeyError); }
        if deps[name].url != info.url { return Failed(Conflict); }
        info.UpdateCondition(OrJoin, deps[name].condition);
      }
      assert Values(deps) == before;
      deps := deps[name := info];
      assert Values(deps) == before[name := info.Value()];
      return Success(());
    }

    /** `_MergeDepsOs`.  It changes the entries of the operating system alone, each before it is
        put into `deps`; an entry that is already there is replaced, never written to. */
    method MergeDepsOs(items: seq<Item>, os: string) returns (outcome: Outcome<()>)
      requires Separate(items) && Infos(items) !! deps.Values
      modifies `deps, Infos(items)
      ensures deps.Values <= old(deps.Values) + Infos(items)
      ensures match MergeEntries(old(Values(deps)), old(Entries(items)), os)
              case Success(merged) => outcome == Success(()) && Values(deps) == merged
              case Failed(failure) => outcome == Failed(failure)
    {
      ghost var entries := Entries(items);
      for i := 0 to |items|
        invariant deps.Values <= old(deps.Values) + Infos(items[..i])
        invariant forall j :: i <= j < |items| ==> items[j].info.Value() == entries[j].dep
        invariant MergeEntries(old(Values(deps)), entries, os) == MergeEntries(Values(deps), entries[i..], os)
      {
        assert entries[i..][0] == entries[i] && entries[i..][1..] == entries[i + 1..];
        InfosGrow(items, i);
        var one := MergeOne(items[i].name, items[i].info, os);
        if one.Failed? {
          assert Infos(items[..i + 1]) <= Infos(items);
          return one;
        }
      }
      assert items[..|items|] == items;
      return Success(());
    }
  }

  lemma InfosGrow(items: seq<Item>, i: nat)
    requires i < |items| && Separate(items)
    ensures Infos(items[..i + 1]) == Infos(items[..i]) + {items[i].info} && items[i].info !in Infos(items[..i])
    ensures Infos(items[..i + 1]) <= Infos(items)
  {
    assert forall j :: 0 <= j < i ==> items[..i + 1][j] == items[..i][j] == items[j];
    assert items[..i + 1][i] == items[i];
    forall info | info in Infos(items[..i + 1]) ensures info in Infos(items[..i]) + {items[i].info} && info in Infos(items) {
      var j :| 0 <= j < i + 1 && items[..i + 1][j].info == info;
      if j < i { assert items[..i][j].info == info; }
      assert items[j].info == info;
    }
    forall info | info in Infos(items[..i]) + {items[i].info} ensures info in Infos(items[..i + 1]) {
      if info != items[i].info {
        var j :| 0 <= j < i && items[..i][j].info == info;
        assert items[..i + 1][j].info == info;
      } else {
        assert items[..i + 1][i].info == info;
      }
    }
  }

  // ----- what merging means

  ghost predicate Enabled(deps: map<string, Dep>, name: string, vars: Vars) {
    name in deps && Holds(deps[name].cond, vars)
  }

  ghost predicate BoolDeps(deps: map<string, Dep>, vars: Vars) {
    forall name :: name in deps ==> IsBool(deps[name].cond, vars)
  }

  /** One entry of one section. */
  datatype Listing = Listing(os: string, entry: Entry)

  function Listings(sections: seq<Section>): seq<Listing> {
    if sections == [] then [] else SectionListings(sections[0]) + Listings(sections[1..])
  }

  function SectionListings(s: Section): seq<Listing> {
    seq(|s.entries|, i requires 0 <= i < |s.entries| => Listing(s.os, s.entries[i]))
  }

  ghost predicate BoolListings(ls: seq<Listing>, vars: Vars) {
    forall i :: 0 <= i < |ls| ==> IsBool(ls[i].entry.dep.cond, vars) && IsBool(CheckoutOf(ls[i].os), vars)
  }

  /** The listing turns `name` on: it gives a url, and the system and its own condition hold. */
  ghost predicate Enables(l: Listing, name: string, vars: Vars) {
    && l.entry.name == name
    && l.entry.dep.url.Git?
    && Holds(CheckoutOf(l.os), vars)
    && Holds(l.entry.dep.cond, vars)
  }

  function MergeListings(deps: map<string, Dep>, ls: seq<Listing>): Outcome<map<string, Dep>>
    decreases |ls|
  {
    if ls == [] then Success(deps)
    else
      var next := MergeEntry(deps, ls[0].entry, ls[0].os);
      if next.Failed? then next else MergeListings(next.value, ls[1..])
  }

  lemma {:induction false} ListingsAppend(deps: map<string, Dep>, a: seq<Listing>, b: seq<Listing>)
    ensures MergeListings(deps, a + b) ==
            var first := MergeListings(deps, a);
            if first.Failed? then first else MergeListings(first.value, b)
    decreases |a|
  {
    if a == [] {
      assert a + b == b;
    } else {
      assert (a + b)[1..] == a[1..] + b;
      var next := MergeEntry(deps, a[0].entry, a[0].os);
      if next.Success? { ListingsAppend(next.value, a[1..], b); }
    }
  }

  lemma {:induction false} SectionIsListings(deps: map<string, Dep>, s: Section)
    ensures MergeEntries(deps, s.entries, s.os) == MergeListings(deps, SectionListings(s))
    decreases |s.entries|
  {
    if s.entries != [] {
      var rest := s.(entries := s.entries[1..]);
      assert SectionListings(s)[1..] == SectionListings(rest);
      var next := MergeEntry(deps, s.entries[0], s.os);
      if next.Success? { SectionIsListings(next.value, rest); }
    }
  }

  lemma {:induction false} SectionsAreListings(deps: map<string, Dep>, sections: seq<Section>)
    ensures MergeSections(deps, sections) == MergeListings(deps, Listings(sections))
    decreases |sections|
  {
    if sections != [] {
      SectionIsListings(deps, sections[0]);
      ListingsAppend(deps, SectionListings(sections[0]), Listings(sections[1..]));
      var next := MergeEntries(deps, sections[0].entries, sections[0].os);
      if next.Success? { SectionsAreListings(next.value, sections[1..]); }
    }
  }

  lemma EntryMeaning(deps: map<string, Dep>, l: Listing, name: string, vars: Vars)
    requires MergeEntry(deps, l.entry, l.os).Success?
    requires BoolDeps(deps, vars) && BoolListings([l], vars)
    ensures var merged := MergeEntry(deps, l.entry, l.os).value;
      && BoolDeps(merged, vars)
      && (Enabled(merged, name, vars) <==> Enabled(deps, name, vars) || Enables(l, name, vars))
  {
    var dep := l.entry.dep;
    assert [l][0] == l;
    assert IsBool(dep.cond, vars) && IsBool(CheckoutOf(l.os), vars);
    UpdatedMeaning(dep.cond, AndJoin, CheckoutOf(l.os), vars);
    if dep.url.Git? && l.entry.name in deps {
      var cond := Updated(dep.cond, AndJoin, CheckoutOf(l.os));
      UpdatedMeaning(cond, OrJoin, deps[l.entry.name].cond, vars);
    }
  }

  lemma {:induction false} ListingsMeaning(deps: map<string, Dep>, ls: seq<Listing>, name: string, vars: Vars)
    requires MergeListings(deps, ls).Success?
    requires BoolDeps(deps, vars) && BoolListings(ls, vars)
    ensures var merged := MergeListings(deps, ls).value;
      && BoolDeps(merged, vars)
      && (Enabled(merged, name, vars) <==>
            Enabled(deps, name, vars) || exists i :: 0 <= i < |ls| && Enables(ls[i], name, vars))
    decreases |ls|
  {
    if ls != [] {
      EntryMeaning(deps, ls[0], name, vars);
      ListingsMeaning(MergeEntry(deps, ls[0].entry, ls[0].os).value, ls[1..], name, vars);
      assert forall i :: 1 <= i < |ls| ==> ls[i] == ls[1..][i - 1];
    }
  }

  /** Folding the sections into `deps` keeps the meaning: a dependency is enabled exactly when its
      own entry was, or some section lists it with a url and both `checkout_<os>` and the
      condition it has there hold. */
  lemma MergingKeepsMeaning(deps: map<string, Dep>, sections: seq<Section>, name: string, vars: Vars)
    requires MergeSections(deps, sections).Success?
    requires BoolDeps(deps, vars) && BoolListings(Listings(sections), vars)
    ensures var ls := Listings(sections);
      Enabled(MergeSections(deps, sections).value, name, vars) <==>
        Enabled(deps, name, vars) || exists i :: 0 <= i < |ls| && Enables(ls[i], name, vars)
  {
    SectionsAreListings(deps, sections);
    ListingsMeaning(deps, Listings(sections), name, vars);
  }

  /** The listing can be merged, as far as `deps` goes. */
  ghost predicate Fits(deps: map<string, Dep>, entry: Entry) {
    && !entry.dep.url.NoUrl?
    && (entry.dep.url.Git? && entry.name in deps ==> deps[entry.name].url == entry.dep.url)
  }

  ghost predicate Agree(a: Entry, b: Entry) {
    a.name == b.name && a.dep.url.Git? && b.dep.url.Git? ==> a.dep.url == b.dep.url
  }

  ghost predicate AllAgree(deps: map<string, Dep>, ls: seq<Listing>) {
    && (forall i :: 0 <= i < |ls| ==> Fits(deps, ls[i].entry))
    && forall i, j :: 0 <= i < j < |ls| ==> Agree(ls[i].entry, ls[j].entry)
  }

  lemma {:induction false} ListingsSucceed(deps: map<string, Dep>, ls: seq<Listing>)
    ensures MergeListings(deps, ls).Success? <==> AllAgree(deps, ls)
    decreases |ls|
  {
    if ls != [] {
      var next, rest := MergeEntry(deps, ls[0].entry, ls[0].os), ls[1..];
      assert forall i :: 1 <= i < |ls| ==> ls[i] == rest[i - 1];
      if next.Success? {
        ListingsSucceed(next.value, rest);
        if AllAgree(deps, ls) {
          forall i | 0 <= i < |rest| ensures Fits(next.value, rest[i].entry) {
            assert Fits(deps, ls[i + 1].entry) && Agree(ls[0].entry, ls[i + 1].entry);
          }
        }
        if AllAgree(next.value, rest) {
          forall i | 0 <= i < |ls| ensures Fits(deps, ls[i].entry) {
            if i > 0 { assert Fits(next.value, rest[i - 1].entry); }
          }
          forall i, j | 0 <= i < j < |ls| ensures Agree(ls[i].entry, ls[j].entry) {
            assert Fits(next.value, rest[j - 1].entry);
            if i > 0 { assert Agree(rest[i - 1].entry, rest[j - 1].entry); }
          }
        }
      } else {
        assert !Fits(deps, ls[0].entry);
      }
    }
  }

  /** Merging goes through exactly when every entry has a url (or none on purpose) and all the urls
      given for one name are the same. */
  lemma MergingSucceeds(deps: map<string, Dep>, sections: seq<Section>)
    ensures MergeSections(deps, sections).Success? <==> AllAgree(deps, Listings(sections))
  {
    SectionsAreListings(deps, sections);
    ListingsSucceed(deps, Listings(sections));
  }

  // ----- conditions that are inherited

  datatype CustomDep = NoneDep | Custom(url: string)

  /** A custom dependency that is added, or overrides one. */
  predicate Applies(c: CustomDep) {
    c.Custom? && c.url != "" && !Strings.EndsWith(c.url, "@unmanaged")
  }

  /** The entries of one dependency that are looked at, before their conditions are completed. */
  function Chosen(deps: map<string, Dep>, custom: map<string, CustomDep>, shouldSync: bool): map<string, Dep> {
    map name | name in deps.Keys + custom.Keys &&
        ((shouldSync && name in deps) || (name in custom && Applies(custom[name]))) ::
      if name in deps then deps[name] else Dep(Git(custom[name].url), Absent)
  }

  /** `_postprocess_deps`, up to the renaming for relative paths. */
  function Processed(deps: map<string, Dep>, custom: map<string, CustomDep>, shouldSync: bool, parent: Cond)
    : map<string, Dep>
  {
    var chosen := Chosen(deps, custom, shouldSync);
    map name | name in chosen ::
      if parent.Text? then chosen[name].(cond := Updated(chosen[name].cond, AndJoin, parent)) else chosen[name]
  }

  ghost predicate Unshared(deps: map<string, DepInfo>) {
    forall m, n :: m in deps && n in deps && m != n ==> deps[m] != deps[n]
  }

  /** `chosen` holds entries of `deps` under their names, and new ones. */
  twostate predicate Takes(deps: map<string, DepInfo>, new chosen: map<string, DepInfo>) {
    && Unshared(chosen)
    && forall name :: name in chosen ==> if name in deps then chosen[name] == deps[name] else fresh(chosen[name])
  }

  /** One custom dependency. */
  method ChooseOne(deps: map<string, DepInfo>, name: string, custom: CustomDep, known: map<string, DepInfo>)
    returns (chosen: map<string, DepInfo>)
    requires Unshared(deps) && Unshared(known)
    requires forall n :: n in known && n in deps ==> known[n] == deps[n]
    requires forall n :: n in known && n !in deps ==> known[n] !in deps.Values
    ensures Unshared(chosen)
    ensures forall n :: n in chosen && n in deps ==> chosen[n] == deps[n]
    ensures forall n :: n in chosen && n !in deps ==> (n in known && chosen[n] == known[n]) || fresh(chosen[n])
    ensures Values(chosen) ==
            if !Applies(custom) then Values(known)
            else Values(known)[name := if name in deps then Values(deps)[name] else Dep(Git(custom.url), Absent)]
  {
    chosen := known;
    if Applies(custom) {
      if name in deps {
        chosen := known[name := deps[name]];
      } else {
        var info := new DepInfo(Git(custom.url), Absent);
        chosen := known[name := info];
      }
    }
  }

  method ChooseNext(deps: map<string, DepInfo>, custom: map<string, CustomDep>, shouldSync: bool,
                    ghost names: set<string>, name: string, known: map<string, DepInfo>)
    returns (chosen: map<string, DepInfo>)
    requires Unshared(deps) && Unshared(known) && name in names && name in custom
    requires forall n :: n in known && n in deps ==> known[n] == deps[n]
    requires forall n :: n in known && n !in deps ==> known[n] !in deps.Values
    requires Values(known) == Chosen(Values(deps), custom - names, shouldSync)
    ensures Unshared(chosen)
    ensures forall n :: n in chosen && n in deps ==> chosen[n] == deps[n]
    ensures forall n :: n in chosen && n !in deps ==> (n in known && chosen[n] == known[n]) || fresh(chosen[n])
    ensures Values(chosen) == Chosen(Values(deps), custom - (names - {name}), shouldSync)
  {
    ChosenMore(Values(deps), custom, names, name, shouldSync);
    chosen := ChooseOne(deps, name, custom[name], known);
  }

  /** The first half of `_postprocess_deps`: which entries. */
  method Choose(deps: map<string, DepInfo>, custom: map<string, CustomDep>, shouldSync: bool)
    returns (chosen: map<string, DepInfo>)
    requires Unshared(deps)
    ensures Values(chosen) == Chosen(Values(deps), custom, shouldSync)
    ensures Unshared(chosen) && forall name :: name in chosen ==> chosen[name] in deps.Values || fresh(chosen[name])
  {
    chosen := if shouldSync then deps else map[];
    var names := custom.Keys;
    while names != {}
      invariant names <= custom.Keys
      invariant Takes(deps, chosen)
      invariant Values(chosen) == Chosen(Values(deps), custom - names, shouldSync)
      decreases names
    {
      var name :| name in names;
      chosen := ChooseNext(deps, custom, shouldSync, names, name, chosen);
      names := names - {name};
    }
    assert custom - names == custom;
  }

  lemma ChosenMore(deps: map<string, Dep>, custom: map<string, CustomDep>, names: set<string>, name: string, shouldSync: bool)
    requires name in names && name in custom
    ensures var before, after := Chosen(deps, custom - names, shouldSync), Chosen(deps, custom - (names - {name}), shouldSync);
      after == if !Applies(custom[name]) then before
               else before[name := if name in deps then deps[name] else Dep(Git(custom[name].url), Absent)]
  {
  }

  /** The conditions under `names` completed with that of the parent. */
  function Completed(deps: map<string, Dep>, names: set<string>, parent: Cond): map<string, Dep> {
    map name | name in deps ::
      if name in names then deps[name].(cond := Updated(deps[name].cond, AndJoin, parent)) else deps[name]
  }

  method CompleteOne(deps: map<string, DepInfo>, name: string, parent: Cond)
    requires Unshared(deps) && name in deps
    modifies deps[name]
    ensures Values(deps) == Completed(old(Values(deps)), {name}, parent)
  {
    deps[name].UpdateCondition(AndJoin, parent);
  }

  lemma CompletedMore(deps: map<string, Dep>, names: set<string>, name: string, parent: Cond)
    requires name !in names
    ensures Completed(Completed(deps, names, parent), {name}, parent) == Completed(deps, names + {name}, parent)
  {
  }

  /** The second half: the loop over the values, in any order. */
  method Complete(deps: map<string, DepInfo>, parent: Cond)
    requires Unshared(deps)
    modifies deps.Values
    ensures Values(deps) == Completed(old(Values(deps)), deps.Keys, parent)
  {
    var names := deps.Keys;
    while names != {}
      invariant names <= deps.Keys
      invariant Values(deps) == Completed(old(Values(deps)), deps.Keys - names, parent)
      decreases names
    {
      var name :| name in names;
      CompletedMore(old(Values(deps)), deps.Keys - names, name, parent);
      assert deps.Keys - names + {name} == deps.Keys - (names - {name});
      CompleteOne(deps, name, parent);
      names := names - {name};
    }
    assert deps.Keys - names == deps.Keys;
  }

  method PostprocessDeps(deps: map<string, DepInfo>, custom: map<string, CustomDep>, shouldSync: bool, parent: Cond)
    returns (processed: map<string, DepInfo>)
    requires Unshared(deps)
    modifies deps.Values
    ensures Values(processed) == Processed(old(Values(deps)), custom, shouldSync, parent)
  {
    processed := Choose(deps, custom, shouldSync);
    if parent.Text? { Complete(processed, parent); }
  }

  /** One level down in the tree: what the file of a dependency says, and the entry taken. */
  datatype Level = Level(deps: map<string, Dep>, custom: map<string, CustomDep>, shouldSync: bool, name: string)

  ghost predicate IsPath(path: seq<Level>) {
    forall i :: 0 <= i < |path| ==> path[i].name in Chosen(path[i].deps, path[i].custom, path[i].shouldSync)
  }

  /** The condition an entry was declared with. */
  function Declared(l: Level): Cond
    requires l.name in Chosen(l.deps, l.custom, l.shouldSync)
  {
    Chosen(l.deps, l.custom, l.shouldSync)[l.name].cond
  }

  /** The condition that is stored for the dependency at the end of the path. */
  function Stored(root: Cond, path: seq<Level>): Cond
    requires IsPath(path)
    decreases |path|
  {
    if path == [] then root
    else
      var n := |path| - 1;
      var above, l := Stored(root, path[..n]), path[n];
      Processed(l.deps, l.custom, l.shouldSync, above)[l.name].cond
  }

  lemma StoredStep(root: Cond, path: seq<Level>)
    requires IsPath(path) && path != []
    ensures IsPath(path[..|path| - 1])
    ensures var above, declared := Stored(root, path[..|path| - 1]), Declared(path[|path| - 1]);
      Stored(root, path) == if above.Text? then Updated(declared, AndJoin, above) else declared
  {
  }

  ghost predicate AllBool(path: seq<Level>, vars: Vars)
    requires IsPath(path)
  {
    forall i :: 0 <= i < |path| ==> IsBool(Declared(path[i]), vars)
  }

  ghost predicate AllHold(path: seq<Level>, vars: Vars)
    requires IsPath(path)
  {
    forall i :: 0 <= i < |path| ==> Holds(Declared(path[i]), vars)
  }

  lemma LastLevel(path: seq<Level>, vars: Vars)
    requires IsPath(path) && path != []
    ensures var n := |path| - 1;
      && IsPath(path[..n])
      && (AllBool(path, vars) <==> AllBool(path[..n], vars) && IsBool(Declared(path[n]), vars))
      && (AllHold(path, vars) <==> AllHold(path[..n], vars) && Holds(Declared(path[n]), vars))
  {
    var n := |path| - 1;
    assert forall i :: 0 <= i < n ==> path[..n][i] == path[i];
  }

  /** At every depth the stored condition is the conjunction of the declared one and of those of
      all ancestors. */
  lemma {:induction false} StoredIsConjunction(root: Cond, path: seq<Level>, vars: Vars)
    requires IsPath(path) && IsBool(root, vars) && AllBool(path, vars)
    ensures IsBool(Stored(root, path), vars)
    ensures Holds(Stored(root, path), vars) <==> Holds(root, vars) && AllHold(path, vars)
    decreases |path|
  {
    if path != [] {
      var n := |path| - 1;
      StoredStep(root, path);
      LastLevel(path, vars);
      StoredIsConjunction(root, path[..n], vars);
      UpdatedMeaning(Declared(path[n]), AndJoin, Stored(root, path[..n]), vars);
    }
  }

  /** The condition of one object of a bucket: merged with that of its dependency. */
  lemma ObjectCondition(root: Cond, path: seq<Level>, object_: Cond, vars: Vars)
    requires IsPath(path) && IsBool(root, vars) && IsBool(object_, vars) && AllBool(path, vars)
    ensures Holds(Merged([Stored(root, path), object_]), vars) <==>
              Holds(root, vars) && Holds(object_, vars) && AllHold(path, vars)
  {
    StoredIsConjunction(root, path, vars);
    var both := [Stored(root, path), object_];
    MergedMeaning(both, vars);
    assert both[0] == Stored(root, path) && both[1] == object_;
  }
}
