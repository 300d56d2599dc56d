/** `Dependency.requirements`, and exactly when its relation can be ranked.

    The dependency tree is kept in the order in which dependencies were added: element 0 is the
    root and a parent always precedes its children, so a tree only ever grows at its end. */
module Requirements {
  import opened Graphs

  datatype Dep = Dep(name: string, parent: nat, process: bool)

  ghost predicate IsTree(tree: seq<Dep>) {
    && tree != []
    && tree[0].name == ""
    && forall i :: 0 < i < |tree| ==> tree[i].parent < i
  }

  function Depth(tree: seq<Dep>, i: nat): nat
    requires IsTree(tree) && i < |tree|
  {
    if i == 0 then 0 else 1 + Depth(tree, tree[i].parent)
  }

  predicate Within(tree: seq<Dep>, deps: seq<nat>, low: nat) {
    forall k :: 0 <= k < |deps| ==> low < deps[k] < |tree|
  }

  /** The `dependencies` of `i`, in order, from position `k` on. */
  function Dependencies(tree: seq<Dep>, i: nat, k: nat): (children: seq<nat>)
    requires IsTree(tree) && k <= |tree|
    ensures Within(tree, children, i)
    ensures forall j :: j in children <==> k <= j < |tree| && j != 0 && tree[j].parent == i
    decreases |tree| - k
  {
    if k == |tree| then []
    else if k != 0 && tree[k].parent == i then [k] + Dependencies(tree, i, k + 1)
    else Dependencies(tree, i, k + 1)
  }

  function Processed(tree: seq<Dep>, deps: seq<nat>, all: bool): (r: seq<nat>)
    requires Within(tree, deps, 0)
    ensures forall j :: j in r <==> j in deps && (tree[j].process || all)
  {
    if deps == [] then []
    else if tree[deps[0]].process || all then [deps[0]] + Processed(tree, deps[1..], all)
    else Processed(tree, deps[1..], all)
  }

  /** The generator `subtree`: the dependencies themselves, then the subtree of each. */
  function Subtree(tree: seq<Dep>, i: nat, all: bool): seq<nat>
    requires IsTree(tree) && i < |tree|
    decreases |tree| - i, 0
  {
    var deps := Dependencies(tree, i, 0);
    Processed(tree, deps, all) + Subtrees(tree, i, deps, all)
  }

  function Subtrees(tree: seq<Dep>, i: nat, deps: seq<nat>, all: bool): seq<nat>
    requires IsTree(tree) && i < |tree|
    requires Within(tree, deps, i)
    decreases |tree| - i - 1, 1, |deps|
  {
    if deps == [] then []
    else Subtree(tree, deps[0], all) + Subtrees(tree, i, deps[1..], all)
  }

  predicate Below(tree: seq<Dep>, i: nat, j: nat)
    requires IsTree(tree) && j < |tree|
  {
    j != 0 && (tree[j].parent == i || Below(tree, i, tree[j].parent))
  }

  lemma {:induction false} SubtreesMember(tree: seq<Dep>, i: nat, deps: seq<nat>, all: bool, j: nat)
    requires IsTree(tree) && i < |tree| && Within(tree, deps, i)
    ensures j in Subtrees(tree, i, deps, all) <==>
              exists k :: 0 <= k < |deps| && j in Subtree(tree, deps[k], all)
    decreases |deps|
  {
    if deps != [] {
      var rest := deps[1..];
      SubtreesMember(tree, i, rest, all, j);
      if k :| 0 <= k < |deps| && j in Subtree(tree, deps[k], all) {
        if k > 0 { assert rest[k - 1] == deps[k]; }
      }
      if k :| 0 <= k < |rest| && j in Subtree(tree, rest[k], all) {
        assert deps[k + 1] == rest[k];
      }
    }
  }

  /** `subtree` yields exactly the descendants (only those to process, unless all are asked for). */
  lemma {:induction false} SubtreeMember(tree: seq<Dep>, i: nat, all: bool, j: nat)
    requires IsTree(tree) && i < |tree|
    ensures j in Subtree(tree, i, all) <==>
              j < |tree| && Below(tree, i, j) && (tree[j].process || all)
    decreases |tree| - i
  {
    var deps := Dependencies(tree, i, 0);
    SubtreesMember(tree, i, deps, all, j);
    forall k | 0 <= k < |deps|
      ensures j in Subtree(tree, deps[k], all) <==>
                j < |tree| && Below(tree, deps[k], j) && (tree[j].process || all)
    {
      SubtreeMember(tree, deps[k], all, j);
    }
    if j < |tree| {
      BelowThroughChild(tree, i, j);
      if k: nat :| k in deps && Below(tree, k, j) {
        var n :| 0 <= n < |deps| && deps[n] == k;
      }
    }
  }

  /** Being below is being a child, or below a child. */
  lemma {:induction false} BelowThroughChild(tree: seq<Dep>, i: nat, j: nat)
    requires IsTree(tree) && i < |tree| && j < |tree|
    ensures Below(tree, i, j) <==>
              j != 0 && (tree[j].parent == i || exists k :: k in Dependencies(tree, i, 0) && Below(tree, k, j))
    decreases j
  {
    if j != 0 && tree[j].parent != i {
      var p := tree[j].parent;
      BelowThroughChild(tree, i, p);
      if Below(tree, i, p) {
        if p != 0 && tree[p].parent == i {
          assert p in Dependencies(tree, i, 0) && Below(tree, p, j);
        } else {
          var k :| k in Dependencies(tree, i, 0) && Below(tree, k, p);
          assert Below(tree, k, j);
        }
      }
      if k :| k in Dependencies(tree, i, 0) && Below(tree, k, j) {
        if tree[j].parent == k { assert Below(tree, i, p); }
        else { assert Below(tree, k, p); }
      }
    }
  }

  lemma {:induction false} AllBelowRoot(tree: seq<Dep>, j: nat)
    requires IsTree(tree) && 0 < j < |tree|
    ensures Below(tree, 0, j)
  {
    if tree[j].parent != 0 { AllBelowRoot(tree, tree[j].parent); }
  }

  /** `posixpath.join(name, '')`. */
  function AsDirectory(name: string): string {
    if name == "" || name[|name| - 1] == '/' then name else name + "/"
  }

  /** `other` is checked out at a directory above `i`'s path. */
  predicate Above(tree: seq<Dep>, other: nat, i: nat)
    requires other < |tree| && i < |tree|
  {
    other != i && tree[other].name != "" && AsDirectory(tree[other].name) <= tree[i].name
  }

  function RequirementsOf(tree: seq<Dep>, i: nat): set<string>
    requires IsTree(tree) && i < |tree|
  {
    if i == 0 then {}
    else
      var parent := tree[i].parent;
      var fromParent := if tree[parent].name != "" then {tree[parent].name} else {};
      var secondLevel := parent != 0 && tree[parent].parent == 0;
      var fromRoot :=
        if secondLevel
        then set d | d in Dependencies(tree, 0, 0) && tree[d].name != "" :: tree[d].name
        else {};
      var fromPaths :=
        if tree[i].name != ""
        then
          (var nodes := Subtree(tree, 0, false);
           set d | d in nodes && d < |tree| && Above(tree, d, i) :: tree[d].name)
        else {};
      fromParent + fromRoot + fromPaths
  }

  // ----- what is read while a queue runs

  /** These are the `requirements` of every processed dependency. */
  ghost predicate Reads(reqs: map<string, set<string>>, tree: seq<Dep>)
    requires IsTree(tree)
  {
    forall i :: i in Nodes(tree) ==> ReadsNode(reqs, tree, i)
  }

  ghost predicate ReadsNode(reqs: map<string, set<string>>, tree: seq<Dep>, i: nat)
    requires IsTree(tree) && i < |tree|
  {
    tree[i].name in reqs && reqs[tree[i].name] == RequirementsOf(tree, i)
  }

  // ----- which dependencies are required

  /** What adding dependencies keeps: names are given, solutions are processed, what is processed has
      a processed parent, and no two processed dependencies share a name. */
  ghost predicate ValidTree(tree: seq<Dep>) {
    && IsTree(tree)
    && (forall i :: 0 < i < |tree| ==> ValidDep(tree, i))
    && forall i, j :: 0 < i < j < |tree| && tree[i].process && tree[j].process ==> tree[i].name != tree[j].name
  }

  ghost predicate ValidDep(tree: seq<Dep>, i: nat)
    requires IsTree(tree) && 0 < i < |tree|
  {
    && tree[i].name != ""
    && (tree[i].parent == 0 ==> tree[i].process)
    && (tree[i].process && tree[i].parent != 0 ==> tree[tree[i].parent].process)
  }

  /** The processed dependency of this name: there is at most one. */
  ghost predicate IsNode(tree: seq<Dep>, i: nat, name: string) {
    0 < i < |tree| && tree[i].process && tree[i].name == name
  }

  /** The dependencies that are processed, without the root. */
  ghost function Nodes(tree: seq<Dep>): set<nat> {
    set i: nat | 0 < i < |tree| && tree[i].process
  }

  /** `j` is what `i` requires under the name of `j`. */
  ghost predicate Requires(tree: seq<Dep>, i: nat, j: nat)
    requires IsTree(tree) && i < |tree| && j < |tree|
  {
    0 < j && tree[j].name in RequirementsOf(tree, i)
  }

  lemma ProcessedNodes(tree: seq<Dep>, d: nat)
    requires IsTree(tree)
    ensures d in Subtree(tree, 0, false) <==> 0 < d < |tree| && tree[d].process
  {
    SubtreeMember(tree, 0, false, d);
    if 0 < d < |tree| { AllBelowRoot(tree, d); }
  }

  lemma Levels(tree: seq<Dep>, i: nat)
    requires IsTree(tree) && 0 < i < |tree|
    ensures Depth(tree, i) == 1 <==> tree[i].parent == 0
    ensures Depth(tree, i) == 2 <==> tree[i].parent != 0 && tree[tree[i].parent].parent == 0
  {
    var p := tree[i].parent;
    assert Depth(tree, i) == 1 + Depth(tree, p);
    if p != 0 { assert Depth(tree, p) == 1 + Depth(tree, tree[p].parent); }
  }

  /** Whatever a processed dependency requires is the name of a processed one. */
  lemma RequirementIsNode(tree: seq<Dep>, i: nat, r: string) returns (j: nat)
    requires ValidTree(tree) && i in Nodes(tree) && r in RequirementsOf(tree, i)
    ensures IsNode(tree, j, r) && Requires(tree, i, j)
  {
    var parent := tree[i].parent;
    assert ValidDep(tree, i);
    if tree[parent].name == r && parent != 0 {
      j := parent;
    } else if d: nat :| d in Dependencies(tree, 0, 0) && tree[d].name == r {
      j := d;
      assert ValidDep(tree, d);
    } else {
      j :| j in Subtree(tree, 0, false) && j < |tree| && Above(tree, j, i) && tree[j].name == r;
      ProcessedNodes(tree, j);
    }
  }

  /** Directories are told by a slash: `src` is above `src/base`, and not above `src-internal`. */
  lemma AboveIsSlash(tree: seq<Dep>, j: nat, i: nat)
    requires j < |tree| && i < |tree| && tree[j].name != ""
    ensures Above(tree, j, i) <==>
              || (i != j && exists rest: string :: tree[i].name == tree[j].name + "/" + rest)
              || (i != j && tree[j].name[|tree[j].name| - 1] == '/'
                  && exists rest: string :: tree[i].name == tree[j].name + rest)
  {
    var above, name := tree[j].name, tree[i].name;
    if AsDirectory(above) <= name {
      var rest := name[|AsDirectory(above)|..];
      if above[|above| - 1] == '/' {
        assert name == above + rest;
      } else {
        assert name == above + "/" + rest;
      }
    }
    if rest: string :| name == above + "/" + rest {
      assert name[..|above| + 1] == above + "/";
    }
  }

  /** Which processed dependencies a processed one requires: its parent, the first level if it is on
      the second, and whatever is checked out above. */
  lemma RequiresWhat(tree: seq<Dep>, i: nat, j: nat)
    requires ValidTree(tree) && i in Nodes(tree) && j in Nodes(tree)
    ensures Requires(tree, i, j) <==>
              || tree[i].parent == j
              || (Depth(tree, i) == 2 && Depth(tree, j) == 1)
              || Above(tree, j, i)
    ensures Requires(tree, i, j) <==>
              || tree[i].parent == j
              || (tree[i].parent != 0 && tree[tree[i].parent].parent == 0 && tree[j].parent == 0)
              || (i != j && exists rest: string :: tree[i].name == tree[j].name + "/" + rest)
              || (i != j && tree[j].name != "" && tree[j].name[|tree[j].name| - 1] == '/'
                  && exists rest: string :: tree[i].name == tree[j].name + rest)
  {
    assert ValidDep(tree, j);
    AboveIsSlash(tree, j, i);
    var name := tree[j].name;
    assert ValidDep(tree, i) && ValidDep(tree, j);
    Levels(tree, i);
    Levels(tree, j);
    assert OnlyNode(tree, name, j);
    forall d: nat | d in Dependencies(tree, 0, 0) && tree[d].name == name ensures d == j {
      assert ValidDep(tree, d) && IsNode(tree, d, name);
    }
    var nodes := Subtree(tree, 0, false);
    ProcessedNodes(tree, j);
    forall d: nat | d in nodes && d < |tree| && Above(tree, d, i) && tree[d].name == name ensures d == j {
      ProcessedNodes(tree, d);
    }
    var fromPaths := set d | d in nodes && d < |tree| && Above(tree, d, i) :: tree[d].name;
    assert name in fromPaths <==> Above(tree, j, i);
  }

  ghost predicate OnlyNode(tree: seq<Dep>, name: string, j: nat) {
    forall d :: IsNode(tree, d, name) ==> d == j
  }

  lemma AboveIsShorter(tree: seq<Dep>, j: nat, i: nat)
    requires ValidTree(tree) && i in Nodes(tree) && j in Nodes(tree) && Above(tree, j, i)
    ensures |tree[j].name| < |tree[i].name|
  {
    var above, name := tree[j].name, tree[i].name;
    assert above != name;
    assert AsDirectory(above) <= name && |above| >= |name| ==> above == name;
  }

  // ----- when requirements can be ranked

  ghost function Edges(tree: seq<Dep>): (nat, nat) -> bool
    requires IsTree(tree)
  {
    (i: nat, j: nat) => i in Nodes(tree) && j in Nodes(tree) && Requires(tree, i, j)
  }

  /** Ranks fall along every requirement. */
  ghost predicate Rankable(tree: seq<Dep>)
    requires IsTree(tree)
  {
    exists rank :: Ranks(Edges(tree), Nodes(tree), rank)
  }

  ghost function DeepNodes(tree: seq<Dep>): set<nat>
    requires IsTree(tree)
  {
    set i | i in Nodes(tree) && Depth(tree, i) >= 2
  }

  /** Below the first level: to the parent, and to what is checked out above. */
  ghost function DeepEdges(tree: seq<Dep>): (nat, nat) -> bool
    requires IsTree(tree)
  {
    (i: nat, j: nat) =>
      i in DeepNodes(tree) && j in DeepNodes(tree) && (tree[i].parent == j || Above(tree, j, i))
  }

  /** Above a solution only solutions are checked out. */
  ghost predicate NoDeepAboveFirst(tree: seq<Dep>)
    requires IsTree(tree)
  {
    forall i, j :: i in Nodes(tree) && j in Nodes(tree) && Depth(tree, i) == 1 && Above(tree, j, i) ==>
      Depth(tree, j) == 1
  }

  lemma ProcessedParent(tree: seq<Dep>, i: nat)
    requires ValidTree(tree) && i in Nodes(tree) && Depth(tree, i) >= 2
    ensures tree[i].parent in Nodes(tree) && Depth(tree, tree[i].parent) == Depth(tree, i) - 1
  {
    assert ValidDep(tree, i);
    Levels(tree, i);
  }

  /** The ancestor on the second level is ranked no higher. */
  lemma {:induction false} SecondLevelAncestor(tree: seq<Dep>, rank: map<nat, nat>, i: nat) returns (d: nat)
    requires ValidTree(tree) && Ranks(Edges(tree), Nodes(tree), rank) && i in DeepNodes(tree)
    ensures d in Nodes(tree) && Depth(tree, d) == 2 && rank[d] <= rank[i]
    decreases i
  {
    if Depth(tree, i) == 2 {
      d := i;
    } else {
      var p := tree[i].parent;
      ProcessedParent(tree, i);
      RequiresWhat(tree, i, p);
      RankFallsTo(tree, rank, i, p);
      d := SecondLevelAncestor(tree, rank, p);
    }
  }

  lemma RankFallsTo(tree: seq<Dep>, rank: map<nat, nat>, i: nat, j: nat)
    requires IsTree(tree) && Ranks(Edges(tree), Nodes(tree), rank)
    requires i in Nodes(tree) && j in Nodes(tree) && Requires(tree, i, j)
    ensures rank[j] < rank[i]
  {
    assert Edges(tree)(i, j);
  }

  /** A deeper dependency above a solution leaves no rank: its ancestor on the second level requires
      the solution, and the solution requires it. */
  lemma DeepAboveFirstHasNoRank(tree: seq<Dep>, rank: map<nat, nat>, i: nat, j: nat)
    requires ValidTree(tree) && i in Nodes(tree) && j in Nodes(tree)
    requires Depth(tree, i) == 1 && Above(tree, j, i) && Depth(tree, j) >= 2
    ensures !Ranks(Edges(tree), Nodes(tree), rank)
  {
    if Ranks(Edges(tree), Nodes(tree), rank) {
      var d := SecondLevelAncestor(tree, rank, j);
      RequiresWhat(tree, i, j);
      RequiresWhat(tree, d, i);
      RankFallsTo(tree, rank, i, j);
      RankFallsTo(tree, rank, d, i);
    }
  }

  lemma DeepEdgeIsEdge(tree: seq<Dep>, i: nat, j: nat)
    requires ValidTree(tree) && DeepEdges(tree)(i, j)
    ensures Edges(tree)(i, j)
  {
    assert i in DeepNodes(tree) && j in DeepNodes(tree);
    assert i in Nodes(tree) && j in Nodes(tree);
    RequiresWhat(tree, i, j);
  }

  lemma RankedBelow(tree: seq<Dep>, rank: map<nat, nat>)
    requires ValidTree(tree) && Ranks(Edges(tree), Nodes(tree), rank)
    ensures Ranks(DeepEdges(tree), DeepNodes(tree), rank)
  {
    forall i, j | i in DeepNodes(tree) && j in DeepNodes(tree) && DeepEdges(tree)(i, j) ensures rank[j] < rank[i] {
      DeepEdgeIsEdge(tree, i, j);
    }
  }

  function MaxName(tree: seq<Dep>): (m: nat)
    ensures forall i :: 0 <= i < |tree| ==> |tree[i].name| <= m
  {
    if tree == [] then 0
    else
      var n := |tree| - 1;
      var m := MaxName(tree[..n]);
      if |tree[n].name| > m then |tree[n].name| else m
  }

  /** Solutions by the lengths of their names, and above them the rest as it is ranked. */
  lemma RankTogether(tree: seq<Dep>, deep: map<nat, nat>) returns (rank: map<nat, nat>)
    requires ValidTree(tree) && NoDeepAboveFirst(tree) && Ranks(DeepEdges(tree), DeepNodes(tree), deep)
    ensures Ranks(Edges(tree), Nodes(tree), rank)
  {
    var base := MaxName(tree) + 1;
    rank := map i | i in Nodes(tree) :: if i in DeepNodes(tree) then base + deep[i] else |tree[i].name|;
    forall i, j | i in Nodes(tree) && j in Nodes(tree) && Edges(tree)(i, j) ensures rank[j] < rank[i] {
      RequiresWhat(tree, i, j);
      Levels(tree, i);
      if i in DeepNodes(tree) {
        if j in DeepNodes(tree) { assert DeepEdges(tree)(i, j); }
      } else {
        AboveIsShorter(tree, j, i);
      }
    }
  }

  /** The exact condition.  Requirements can be ranked if and only if above a solution only solutions
      are checked out, and among the other dependencies no cycle leads from each to its parent or to
      one checked out above it. */
  lemma WhenRankable(tree: seq<Dep>)
    requires ValidTree(tree)
    ensures Rankable(tree) <==>
              NoDeepAboveFirst(tree) && forall walk :: !Cycle(DeepEdges(tree), DeepNodes(tree), walk)
  {
    RankedIffAcyclic(DeepEdges(tree), DeepNodes(tree));
    if rank :| Ranks(Edges(tree), Nodes(tree), rank) {
      RankedBelow(tree, rank);
      forall i, j | i in Nodes(tree) && j in Nodes(tree) && Depth(tree, i) == 1 && Above(tree, j, i)
        ensures Depth(tree, j) == 1
      {
        if Depth(tree, j) >= 2 { DeepAboveFirstHasNoRank(tree, rank, i, j); }
      }
    }
    if NoDeepAboveFirst(tree) && exists deep :: Ranks(DeepEdges(tree), DeepNodes(tree), deep) {
      var deep :| Ranks(DeepEdges(tree), DeepNodes(tree), deep);
      var rank := RankTogether(tree, deep);
    }
  }

  // ----- a sufficient condition: depth and name length

  /** Lexicographic on (depth in the tree, length of the name). */
  predicate Smaller(tree: seq<Dep>, j: nat, i: nat)
    requires IsTree(tree) && i < |tree| && j < |tree|
  {
    || Depth(tree, j) < Depth(tree, i)
    || (Depth(tree, j) == Depth(tree, i) && |tree[j].name| < |tree[i].name|)
  }

  /** No dependency is checked out above the path of one that is less deep. */
  ghost predicate NoDeeperAbove(tree: seq<Dep>)
    requires IsTree(tree)
  {
    forall i, j :: i in Nodes(tree) && j in Nodes(tree) && Above(tree, j, i) ==> Depth(tree, j) <= Depth(tree, i)
  }

  /** (depth, name length) falls along every requirement exactly then. */
  lemma RequirementsDecrease(tree: seq<Dep>)
    requires ValidTree(tree)
    ensures NoDeeperAbove(tree) <==>
              forall i, j :: i in Nodes(tree) && j in Nodes(tree) && Requires(tree, i, j) ==> Smaller(tree, j, i)
  {
    forall i, j | i in Nodes(tree) && j in Nodes(tree)
      ensures Requires(tree, i, j) && NoDeeperAbove(tree) ==> Smaller(tree, j, i)
      ensures Above(tree, j, i) ==> Requires(tree, i, j)
    {
      RequiresWhat(tree, i, j);
      if Above(tree, j, i) { AboveIsShorter(tree, j, i); }
    }
  }

  /** (depth, name length) packed into one number. */
  function NodeRank(tree: seq<Dep>, i: nat): nat
    requires IsTree(tree) && i < |tree|
  {
    Depth(tree, i) * (MaxName(tree) + 1) + |tree[i].name|
  }

  lemma Packed(x: nat, y: nat, n: nat, m: nat)
    requires n < m
    ensures x < y ==> x * m + n < y * m
  {
    if x < y {
      var d := y - x;
      assert y * m == x * m + d * m;
      assert d * m >= m by { assert d * m == m + (d - 1) * m; }
    }
  }

  lemma RankOrder(tree: seq<Dep>, j: nat, i: nat)
    requires IsTree(tree) && i < |tree| && j < |tree| && Smaller(tree, j, i)
    ensures NodeRank(tree, j) < NodeRank(tree, i)
  {
    Packed(Depth(tree, j), Depth(tree, i), |tree[j].name|, MaxName(tree) + 1);
  }

  /** It is a rank, but not the only one there may be. */
  lemma NoDeeperAboveIsRankable(tree: seq<Dep>)
    requires ValidTree(tree) && NoDeeperAbove(tree)
    ensures Rankable(tree)
  {
    RequirementsDecrease(tree);
    var rank := map i | i in Nodes(tree) :: NodeRank(tree, i);
    forall i, j | i in Nodes(tree) && j in Nodes(tree) && Edges(tree)(i, j) ensures rank[j] < rank[i] {
      RankOrder(tree, j, i);
    }
    assert Ranks(Edges(tree), Nodes(tree), rank);
  }
}
