/** `flush` uses its slots: with one free, main by itself starts the first queued item that nothing
    keeps from starting. */
module SchedulerWork {
  import opened Scheduler

  /** All that the item requires has run, or requirements are ignored, and no running item uses
      any of its resources. */
  ghost predicate NothingKeeps(c: Config, s: State, item: Item) {
    && (c.ignoreRequirements || forall r :: item.name in s.reqs && r in s.reqs[item.name] ==> r in s.ran)
    && forall w, x :: 0 <= w < |s.running| && x in s.running[w].item.resources ==> x !in item.resources
  }

  lemma StartableIff(c: Config, s: State, item: Item)
    ensures Startable(c, s, item) <==> NothingKeeps(c, s, item)
  {
    if !Conflict(s.running, item) && RequirementsRan(c, s, item) {
      forall w, x | 0 <= w < |s.running| && x in s.running[w].item.resources ensures x !in item.resources {
        assert s.running[w].item.resources !! item.resources;
      }
    }
  }

  /** Steps of main alone. */
  function MainSteps(n: nat): (actions: seq<Action>)
    ensures |actions| == n && (n > 0 ==> actions[0] == MainStep && actions[1..] == MainSteps(n - 1))
  {
    if n == 0 then [] else [MainStep] + MainSteps(n - 1)
  }

  /** Item `k` has been started and nothing else has changed. */
  ghost predicate StartedItem(c: Config, s: State, k: nat, t: State)
    requires k < |s.queued|
  {
    && t.queued == s.queued[..k] + s.queued[k + 1..]
    && |t.log| == |s.log| + 1 && t.log[|s.log|].item == s.queued[k] && t.ran == s.ran
    && (if c.jobs == 1 then t.running == s.running && t.main.Inline? && t.main.item == s.queued[k]
        else |t.running| == |s.running| + 1 && t.running[..|s.running|] == s.running
             && t.running[|s.running|].item == s.queued[k] && t.running[|s.running|].phase == Body)
  }

  lemma StartsNow(c: Config, s: State, i: nat)
    requires c.jobs >= 1 && s.main == Scanning(i) && i < |s.queued| && NothingKeeps(c, s, s.queued[i])
    ensures StartedItem(c, s, i, Apply(c, s, MainStep))
  {
    StartableIff(c, s, s.queued[i]);
  }

  lemma PassesOver(c: Config, s: State, i: nat)
    requires s.main == Scanning(i) && i < |s.queued| && !NothingKeeps(c, s, s.queued[i])
    ensures Apply(c, s, MainStep) == s.(main := Scanning(i + 1))
  {
    StartableIff(c, s, s.queued[i]);
  }

  /** Where main is does not matter for what keeps an item. */
  lemma MainDoesNotMatter(c: Config, s: State, main: Main, t: State)
    requires t == s.(main := main)
    ensures forall item :: NothingKeeps(c, t, item) <==> NothingKeeps(c, s, item)
    ensures forall k: nat, u :: k < |s.queued| ==> (StartedItem(c, t, k, u) <==> StartedItem(c, s, k, u))
  {
  }

  lemma OneMore(c: Config, s: State, t: State, n: nat, m: nat)
    requires Enabled(s, MainStep) && Apply(c, s, MainStep) == t && IsRun(c, t, MainSteps(n)) && m == n + 1
    ensures IsRun(c, s, MainSteps(m)) && Exec(c, s, MainSteps(m)) == Exec(c, t, MainSteps(n))
  {
    assert MainSteps(m)[1..] == MainSteps(n);
  }

  lemma {:induction false} ScanStarts(c: Config, s: State, i: nat, k: nat, n: nat)
    requires c.jobs >= 1 && s.main == Scanning(i) && i <= k < |s.queued| && NothingKeeps(c, s, s.queued[k])
    requires (forall j :: i <= j < k ==> !NothingKeeps(c, s, s.queued[j])) && n == k - i + 1
    ensures IsRun(c, s, MainSteps(n)) && StartedItem(c, s, k, Exec(c, s, MainSteps(n)))
    decreases k - i
  {
    if i < k {
      PassesOver(c, s, i);
      var t := s.(main := Scanning(i + 1));
      MainDoesNotMatter(c, s, Scanning(i + 1), t);
      ScanStarts(c, t, i + 1, k, n - 1);
      OneMore(c, s, t, n - 1, n);
    } else {
      StartsNow(c, s, i);
      OneMore(c, s, Apply(c, s, MainStep), 0, n);
    }
  }

  lemma ScanBegins(c: Config, s: State)
    requires s.main.Testing? && |s.running| < c.jobs && s.queued != []
    ensures Apply(c, s, MainStep) == s.(main := Scanning(0))
  {
  }

  /** While a slot is free, the first item that nothing keeps from starting is started, by steps of
      main alone: whatever else is running. */
  lemma FreeSlotIsUsed(c: Config, s: State, k: nat)
    requires s.main.Testing? && |s.running| < c.jobs && k < |s.queued| && NothingKeeps(c, s, s.queued[k])
    requires forall j :: 0 <= j < k ==> !NothingKeeps(c, s, s.queued[j])
    ensures IsRun(c, s, MainSteps(k + 2)) && StartedItem(c, s, k, Exec(c, s, MainSteps(k + 2)))
  {
    ScanBegins(c, s);
    var t := s.(main := Scanning(0));
    MainDoesNotMatter(c, s, Scanning(0), t);
    ScanStarts(c, t, 0, k, k + 1);
    OneMore(c, s, t, k + 1, k + 2);
  }
}
