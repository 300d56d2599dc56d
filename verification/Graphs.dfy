/** Finite directed graphs: the nodes can be ranked if and only if there is no cycle. */
module Graphs {

  /** A closed walk inside `nodes`. */
  ghost predicate Cycle(edge: (nat, nat) -> bool, nodes: set<nat>, walk: seq<nat>) {
    && walk != []
    && Walk(edge, nodes, walk)
    && edge(walk[|walk| - 1], walk[0])
  }

  ghost predicate Walk(edge: (nat, nat) -> bool, nodes: set<nat>, walk: seq<nat>) {
    && (forall k :: 0 <= k < |walk| ==> walk[k] in nodes)
    && forall k :: 0 < k < |walk| ==> Step(edge, walk, k)
  }

  ghost predicate Step(edge: (nat, nat) -> bool, walk: seq<nat>, k: nat)
    requires 0 < k < |walk|
  {
    edge(walk[k - 1], walk[k])
  }

  /** Ranks fall along every edge. */
  ghost predicate Ranks(edge: (nat, nat) -> bool, nodes: set<nat>, rank: map<nat, nat>) {
    && nodes <= rank.Keys
    && forall i, j :: i in nodes && j in nodes && edge(i, j) ==> rank[j] < rank[i]
  }

  lemma {:induction false} RankFalls(edge: (nat, nat) -> bool, nodes: set<nat>, rank: map<nat, nat>, walk: seq<nat>, k: nat)
    requires Ranks(edge, nodes, rank) && Walk(edge, nodes, walk) && k < |walk|
    ensures rank[walk[k]] <= rank[walk[0]]
  {
    if k > 0 {
      assert Step(edge, walk, k);
      RankFalls(edge, nodes, rank, walk, k - 1);
    }
  }

  lemma RankedHasNoCycle(edge: (nat, nat) -> bool, nodes: set<nat>, rank: map<nat, nat>, walk: seq<nat>)
    requires Ranks(edge, nodes, rank)
    ensures !Cycle(edge, nodes, walk)
  {
    if Cycle(edge, nodes, walk) { RankFalls(edge, nodes, rank, walk, |walk| - 1); }
  }

  /** More positions than nodes: some node comes twice. */
  lemma {:induction false} Pigeonhole(nodes: set<nat>, s: seq<nat>) returns (i: nat, j: nat)
    requires |s| > |nodes| && forall k :: 0 <= k < |s| ==> s[k] in nodes
    ensures i < j < |s| && s[i] == s[j]
    decreases |s|
  {
    var n := |s| - 1;
    if k: nat :| k < n && s[k] == s[n] {
      i, j := k, n;
    } else {
      i, j := Pigeonhole(nodes - {s[n]}, s[..n]);
    }
  }

  ghost predicate HasSuccessor(edge: (nat, nat) -> bool, nodes: set<nat>, i: nat) {
    exists j :: j in nodes && edge(i, j)
  }

  /** Where every node has a successor, walks can have any length. */
  lemma {:induction false} LongWalk(edge: (nat, nat) -> bool, nodes: set<nat>, start: nat, n: nat) returns (walk: seq<nat>)
    requires start in nodes && forall i :: i in nodes ==> HasSuccessor(edge, nodes, i)
    ensures |walk| == n + 1 && Walk(edge, nodes, walk)
  {
    if n == 0 {
      walk := [start];
    } else {
      var rest := LongWalk(edge, nodes, start, n - 1);
      assert HasSuccessor(edge, nodes, rest[n - 1]);
      var j: nat :| j in nodes && edge(rest[n - 1], j);
      walk := rest + [j];
      forall k | 0 < k < |walk| ensures Step(edge, walk, k) {
        if k < n { assert Step(edge, rest, k); }
      }
    }
  }

  lemma CutIsCycle(edge: (nat, nat) -> bool, nodes: set<nat>, long: seq<nat>, i: nat, j: nat, walk: seq<nat>)
    requires Walk(edge, nodes, long) && i < j < |long| && long[i] == long[j] && walk == long[i..j]
    ensures Cycle(edge, nodes, walk)
  {
    assert Step(edge, long, j);
    forall k | 0 < k < |walk| ensures Step(edge, walk, k) {
      var n := i + k;
      assert Step(edge, long, n) && walk[k] == long[n] && walk[k - 1] == long[n - 1];
    }
  }

  lemma NoSinkHasCycle(edge: (nat, nat) -> bool, nodes: set<nat>) returns (walk: seq<nat>)
    requires nodes != {} && forall i :: i in nodes ==> HasSuccessor(edge, nodes, i)
    ensures Cycle(edge, nodes, walk)
  {
    var start :| start in nodes;
    var long := LongWalk(edge, nodes, start, |nodes|);
    var i, j := Pigeonhole(nodes, long);
    walk := long[i..j];
    CutIsCycle(edge, nodes, long, i, j, walk);
  }

  lemma CycleInMore(edge: (nat, nat) -> bool, nodes: set<nat>, more: set<nat>, walk: seq<nat>)
    requires nodes <= more && Cycle(edge, nodes, walk)
    ensures Cycle(edge, more, walk)
  {
  }

  ghost predicate IsSink(edge: (nat, nat) -> bool, nodes: set<nat>, sink: nat) {
    sink in nodes && !HasSuccessor(edge, nodes, sink)
  }

  lemma FewerAcyclic(edge: (nat, nat) -> bool, nodes: set<nat>, fewer: set<nat>)
    requires fewer <= nodes && forall walk :: !Cycle(edge, nodes, walk)
    ensures forall walk :: !Cycle(edge, fewer, walk)
  {
    forall walk ensures !Cycle(edge, fewer, walk) {
      if Cycle(edge, fewer, walk) { CycleInMore(edge, fewer, nodes, walk); }
    }
  }

  /** A sink goes below all others. */
  lemma AddSink(edge: (nat, nat) -> bool, nodes: set<nat>, sink: nat, below: map<nat, nat>) returns (rank: map<nat, nat>)
    requires IsSink(edge, nodes, sink) && Ranks(edge, nodes - {sink}, below)
    ensures Ranks(edge, nodes, rank)
  {
    rank := map i | i in nodes :: if i == sink then 0 else below[i] + 1;
    forall i, j | i in nodes && j in nodes && edge(i, j) ensures rank[j] < rank[i] {
      if j != sink { assert below[j] < below[i]; }
    }
  }

  lemma AcyclicHasSink(edge: (nat, nat) -> bool, nodes: set<nat>) returns (sink: nat)
    requires nodes != {} && forall walk :: !Cycle(edge, nodes, walk)
    ensures IsSink(edge, nodes, sink)
  {
    if forall i :: i in nodes ==> HasSuccessor(edge, nodes, i) {
      var walk := NoSinkHasCycle(edge, nodes);
      assert false;
    }
    sink :| sink in nodes && !HasSuccessor(edge, nodes, sink);
  }

  lemma {:induction false} AcyclicIsRanked(edge: (nat, nat) -> bool, nodes: set<nat>) returns (rank: map<nat, nat>)
    requires forall walk :: !Cycle(edge, nodes, walk)
    ensures Ranks(edge, nodes, rank)
    decreases |nodes|
  {
    if nodes == {} {
      rank := map[];
    } else {
      var sink := AcyclicHasSink(edge, nodes);
      FewerAcyclic(edge, nodes, nodes - {sink});
      var below := AcyclicIsRanked(edge, nodes - {sink});
      rank := AddSink(edge, nodes, sink, below);
    }
  }

  /** Ranking and having no cycle are the same. */
  lemma RankedIffAcyclic(edge: (nat, nat) -> bool, nodes: set<nat>)
    ensures (exists rank :: Ranks(edge, nodes, rank)) <==> forall walk :: !Cycle(edge, nodes, walk)
  {
    if rank :| Ranks(edge, nodes, rank) {
      forall walk ensures !Cycle(edge, nodes, walk) { RankedHasNoCycle(edge, nodes, rank, walk); }
    }
    if forall walk :: !Cycle(edge, nodes, walk) {
      var rank := AcyclicIsRanked(edge, nodes);
    }
  }
}
