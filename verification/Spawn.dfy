/** Detection of cycles between workflows that spawn each other
    (internal/graph/spawn.go:16-81): a depth-first search with three colours. */
module Spawn {
  import opened Definitions

  type Graph = map<string, seq<string>>

  // ---- The spawn graph ------------------------------------------------------------------------------

  predicate SpawnsBy(tr: TransitionDef, w: string) {
    && w != ""
    && ((tr.childWorkflow.Some? && tr.childWorkflow.value == w)
        || (tr.childrenDef.Some? && tr.childrenDef.value.workflowType == w))
  }

  ghost predicate DefSpawns(def: Definition, a: string, b: string) {
    def.workflowType == a && exists n :: n in def.transitions && SpawnsBy(def.transitions[n], b)
  }

  /** Some definition of workflow type `a` spawns workflow type `b`. */
  ghost predicate Spawns(defs: seq<Definition>, a: string, b: string) {
    exists d :: d in defs && DefSpawns(d, a, b)
  }

  function Next(g: Graph, a: string): seq<string> {
    if a in g then g[a] else []
  }

  /** A walk of at least one step that ends where it began. */
  predicate IsClosedWalk(g: Graph, w: seq<string>) {
    |w| >= 2 && w[0] == w[|w| - 1] && IsWalk(g, w)
  }

  predicate IsWalk(g: Graph, w: seq<string>) {
    forall i :: 0 <= i < |w| - 1 ==> StepAt(g, w, i)
  }

  predicate StepAt(g: Graph, w: seq<string>, i: nat)
    requires i < |w| - 1
  {
    w[i + 1] in Next(g, w[i])
  }

  ghost predicate IsAcyclic(g: Graph) {
    forall w :: !IsClosedWalk(g, w)
  }

  /** A cycle stated on the definitions rather than on the adjacency lists. */
  ghost predicate HasSpawnCycle(defs: seq<Definition>) {
    exists w :: IsSpawnCycle(defs, w)
  }

  ghost predicate IsSpawnCycle(defs: seq<Definition>, w: seq<string>) {
    |w| >= 2 && w[0] == w[|w| - 1] && IsSpawnWalk(defs, w)
  }

  ghost predicate IsSpawnWalk(defs: seq<Definition>, w: seq<string>) {
    forall i :: 0 <= i < |w| - 1 ==> SpawnStepAt(defs, w, i)
  }

  ghost predicate SpawnStepAt(defs: seq<Definition>, w: seq<string>, i: nat)
    requires i < |w| - 1
  {
    Spawns(defs, w[i], w[i + 1])
  }

  // ---- Building the adjacency lists -------------------------------------------------------------------

  function Append(g: Graph, a: string, b: string): Graph {
    g[a := Next(g, a) + [b]]
  }

  method AddTransitions(g: Graph, def: Definition) returns (r: Graph)
    ensures forall a, b :: b in Next(r, a) <==> b in Next(g, a) || DefSpawns(def, a, b)
  {
    r := if def.workflowType in g then g else g[def.workflowType := []];
    var todo := def.transitions.Keys;
    while todo != {}
      invariant todo <= def.transitions.Keys
      invariant forall a, b ::
        b in Next(r, a) <==> b in Next(g, a) || SpawnedSoFar(def, def.transitions.Keys - todo, a, b)
      decreases todo
    {
      var n :| n in todo;
      var tr := def.transitions[n];
      if tr.childWorkflow.Some? && tr.childWorkflow.value != "" {
        r := Append(r, def.workflowType, tr.childWorkflow.value);
      }
      if tr.childrenDef.Some? && tr.childrenDef.value.workflowType != "" {
        r := Append(r, def.workflowType, tr.childrenDef.value.workflowType);
      }
      assert def.transitions.Keys - (todo - {n}) == def.transitions.Keys - todo + {n};
      todo := todo - {n};
    }
    assert forall a, b :: SpawnedSoFar(def, def.transitions.Keys - todo, a, b) <==> DefSpawns(def, a, b);
  }

  ghost predicate SpawnedSoFar(def: Definition, done: set<string>, a: string, b: string) {
    def.workflowType == a && exists n :: n in done && n in def.transitions && SpawnsBy(def.transitions[n], b)
  }

  method BuildGraph(defs: seq<Definition>) returns (g: Graph)
    ensures forall a, b :: b in Next(g, a) <==> Spawns(defs, a, b)
  {
    g := map[];
    for i := 0 to |defs|
      invariant forall a, b :: b in Next(g, a) <==> Spawns(defs[..i], a, b)
    {
      g := AddTransitions(g, defs[i]);
      assert defs[..i + 1] == defs[..i] + [defs[i]];
    }
    assert defs[..|defs|] == defs;
  }

  // ---- Depth-first search -------------------------------------------------------------------------------

  datatype Colour = Grey | Black

  /** Every node of the graph. */
  ghost function Nodes(g: Graph): set<string> {
    g.Keys + set a, b | a in g && b in g[a] :: b
  }

  ghost predicate GreyIsPath(colour: map<string, Colour>, path: seq<string>) {
    && (forall x :: x in colour && colour[x] == Grey <==> x in path)
    && NoDuplicates(path)
  }

  ghost predicate BlackIsRanked(colour: map<string, Colour>, rank: map<string, nat>) {
    && (forall x :: x in rank <==> x in colour && colour[x] == Black)
    && (forall x :: x in rank ==> rank[x] < |rank|)
  }

  ghost predicate RankFallsAlongEdges(g: Graph, rank: map<string, nat>) {
    forall x, y :: x in rank && y in Next(g, x) ==> y in rank && rank[y] < rank[x]
  }

  ghost predicate FirstRanked(next: seq<string>, n: nat, rank: map<string, nat>)
    requires n <= |next|
  {
    forall k :: 0 <= k < n ==> next[k] in rank
  }

  lemma MoreRanked(next: seq<string>, n: nat, before: map<string, nat>, rank: map<string, nat>)
    requires n < |next| && FirstRanked(next, n, before) && before.Keys <= rank.Keys && next[n] in rank
    ensures FirstRanked(next, n + 1, rank)
  {}

  lemma EnterPath(g: Graph, colour: map<string, Colour>, path: seq<string>, node: string)
    requires GreyIsPath(colour, path) && IsWalk(g, path) && node !in colour
    requires path != [] ==> node in Next(g, path[|path| - 1])
    ensures GreyIsPath(colour[node := Grey], path + [node]) && IsWalk(g, path + [node])
  {
    var longer := path + [node];
    assert forall x :: x in longer <==> x in path || x == node;
    forall i | 0 <= i < |longer| - 1 ensures StepAt(g, longer, i) {
      if i < |path| - 1 { assert StepAt(g, path, i); }
    }
  }

  lemma LeavePath(g: Graph, colour: map<string, Colour>, path: seq<string>, node: string)
    requires GreyIsPath(colour, path + [node]) && IsWalk(g, path + [node])
    ensures GreyIsPath(colour[node := Black], path) && IsWalk(g, path)
  {
    var full := path + [node];
    assert forall x :: x in full <==> x in path || x == node;
    forall k | 0 <= k < |path| ensures path[k] != node { assert full[k] != full[|path|]; }
    forall i | 0 <= i < |path| - 1 ensures StepAt(g, path, i) { assert StepAt(g, full, i); }
    forall i, j | 0 <= i < j < |path| ensures path[i] != path[j] { assert full[i] != full[j]; }
  }

  lemma LeaveRank(g: Graph, colour: map<string, Colour>, rank: map<string, nat>, node: string)
    requires BlackIsRanked(colour, rank) && RankFallsAlongEdges(g, rank)
    requires node in colour && colour[node] == Grey
    requires forall y :: y in Next(g, node) ==> y in rank
    ensures BlackIsRanked(colour[node := Black], rank[node := |rank|])
    ensures RankFallsAlongEdges(g, rank[node := |rank|])
  {
    assert node !in rank;
    var rank' := rank[node := |rank|];
    assert |rank'| == |rank| + 1;
    forall x | x in rank' ensures rank'[x] < |rank'| { if x != node { assert rank[x] < |rank|; } }
    forall x, y | x in rank' && y in Next(g, x) ensures y in rank' && rank'[y] < rank'[x] {
      if x != node { assert y in rank && rank[y] < rank[x]; } else { assert rank[y] < |rank|; }
    }
  }

  lemma UntouchedGraph(adj: Graph)
    ensures GreyIsPath(map[], []) && IsWalk(adj, []) && BlackIsRanked(map[], map[]) && RankFallsAlongEdges(adj, map[])
  {}

  class Detector {
    const adj: Graph
    ghost const nodes: set<string>
    var colour: map<string, Colour>   // a missing key is white
    var path: seq<string>
    ghost var rank: map<string, nat>  // the order in which nodes turned black

    /** Grey nodes are exactly the path, the path is a walk, and every edge out of a black node
        leads to a black node that finished earlier. */
    ghost predicate Valid() reads this {
      && colour.Keys <= nodes
      && (forall a, b :: b in Next(adj, a) ==> b in nodes)
      && GreyIsPath(colour, path)
      && IsWalk(adj, path)
      && BlackIsRanked(colour, rank)
      && RankFallsAlongEdges(adj, rank)
    }

    constructor (adj: Graph)
      ensures this.adj == adj && Valid() && colour == map[] && path == [] && adj.Keys <= nodes
    {
      this.adj := adj;
      nodes := Nodes(adj);
      colour := map[];
      path := [];
      rank := map[];
      UntouchedGraph(adj);
    }

    /** The position of a grey node on the path: the -1 of the source's scan cannot remain. */
    method CycleStart(node: string) returns (start: int)
      requires node in path
      ensures 0 <= start < |path| && path[start] == node
    {
      start := -1;
      for i := 0 to |path|
        invariant start == -1 && exists k :: i <= k < |path| && path[k] == node
      {
        if path[i] == node { start := i; break; }
      }
    }

    method ReportCycle(neighbour: string) returns (cycle: seq<string>)
      requires Valid() && path != [] && neighbour in path && neighbour in Next(adj, path[|path| - 1])
      ensures IsClosedWalk(adj, cycle)
    {
      var start := CycleStart(neighbour);
      cycle := path[start..] + [neighbour];
      forall i | 0 <= i < |cycle| - 1 ensures StepAt(adj, cycle, i) {
        if i < |cycle| - 2 { assert StepAt(adj, path, start + i); }
      }
    }

    /** White to grey: the node joins the path. */
    method Enter(node: string)
      requires Valid() && node !in colour && node in nodes
      requires path != [] ==> node in Next(adj, path[|path| - 1])
      modifies this`colour, this`path
      ensures Valid() && path == old(path) + [node]
      ensures colour == old(colour)[node := Grey]
    {
      EnterPath(adj, colour, path, node);
      colour := colour[node := Grey];
      path := path + [node];
    }

    /** Grey to black: the last node of the path is finished. */
    method Leave(node: string)
      requires Valid() && path != [] && path[|path| - 1] == node
      requires forall y :: y in Next(adj, node) ==> y in rank
      modifies this
      ensures Valid() && path == old(path)[..|old(path)| - 1]
      ensures colour == old(colour)[node := Black]
      ensures rank == old(rank)[node := |old(rank)|]
    {
      assert path == path[..|path| - 1] + [node];
      LeavePath(adj, colour, path[..|path| - 1], node);
      LeaveRank(adj, colour, rank, node);
      path := path[..|path| - 1];
      colour := colour[node := Black];
      rank := rank[node := |rank|];
    }

    method Visit(node: string) returns (cycle: Option<seq<string>>)
      requires Valid() && node !in colour && node in nodes
      requires path != [] ==> node in Next(adj, path[|path| - 1])
      modifies this
      ensures cycle.Some? ==> IsClosedWalk(adj, cycle.value)
      ensures cycle.None? ==> Valid() && path == old(path) && old(colour.Keys) <= colour.Keys
                              && node in rank && old(rank.Keys) <= rank.Keys
      decreases nodes - colour.Keys, 0
    {
      Enter(node);
      cycle := FollowAll(node);
      if cycle.None? { Leave(node); }
    }

    method FollowAll(node: string) returns (cycle: Option<seq<string>>)
      requires Valid() && path != [] && path[|path| - 1] == node
      modifies this
      ensures cycle.Some? ==> IsClosedWalk(adj, cycle.value)
      ensures cycle.None? ==> Valid() && path == old(path) && old(colour.Keys) <= colour.Keys
                              && old(rank.Keys) <= rank.Keys && forall y :: y in Next(adj, node) ==> y in rank
      decreases nodes - colour.Keys, 2
    {
      var next := Next(adj, node);
      for i := 0 to |next|
        invariant Valid() && path == old(path)
        invariant old(colour.Keys) <= colour.Keys && old(rank.Keys) <= rank.Keys
        invariant FirstRanked(next, i, rank)
      {
        ghost var before := rank;
        cycle := Follow(node, next[i]);
        if cycle.Some? { return; }
        MoreRanked(next, i, before, rank);
      }
      return None;
    }

    /** One neighbour: a back edge is a cycle, a white neighbour is visited, a black one is done. */
    method Follow(node: string, neighbour: string) returns (cycle: Option<seq<string>>)
      requires Valid() && path != [] && path[|path| - 1] == node && neighbour in Next(adj, node)
      modifies this
      ensures cycle.Some? ==> IsClosedWalk(adj, cycle.value)
      ensures cycle.None? ==> Valid() && path == old(path) && old(colour.Keys) <= colour.Keys
                              && neighbour in rank && old(rank.Keys) <= rank.Keys
      decreases nodes - colour.Keys, 1
    {
      if neighbour !in colour {
        cycle := Visit(neighbour);
      } else if colour[neighbour] == Grey {
        var w := ReportCycle(neighbour);
        cycle := Some(w);
      } else {
        cycle := None;
      }
    }

    method Run() returns (cycle: Option<seq<string>>)
      requires Valid() && path == [] && adj.Keys <= nodes
      modifies this
      ensures cycle.Some? ==> IsClosedWalk(adj, cycle.value)
      ensures cycle.None? ==> IsAcyclic(adj)
    {
      var todo := adj.Keys;
      while todo != {}
        invariant Valid() && path == []
        invariant adj.Keys - todo <= colour.Keys
        decreases todo
      {
        var node :| node in todo;
        if node !in colour {
          cycle := Visit(node);
          if cycle.Some? { return; }
        }
        todo := todo - {node};
      }
      RankedIsAcyclic(adj, rank);
      return None;
    }
  }

  lemma {:induction false} RankFalls(g: Graph, rank: map<string, nat>, w: seq<string>, i: nat)
    requires g.Keys <= rank.Keys
    requires RankFallsAlongEdges(g, rank)
    requires IsWalk(g, w) && i < |w| && |w| >= 2
    ensures w[0] in rank && w[i] in rank && (i > 0 ==> rank[w[i]] < rank[w[0]])
  {
    assert StepAt(g, w, 0);
    if i > 0 {
      RankFalls(g, rank, w, i - 1);
      assert StepAt(g, w, i - 1);
    }
  }

  /** A numbering that falls along every edge rules out closed walks. */
  lemma RankedIsAcyclic(g: Graph, rank: map<string, nat>)
    requires g.Keys <= rank.Keys
    requires RankFallsAlongEdges(g, rank)
    ensures IsAcyclic(g)
  {
    forall w | IsClosedWalk(g, w) ensures false {
      RankFalls(g, rank, w, |w| - 1);
    }
  }

  /** Exact: a cycle is reported if and only if there is one, and the report is a genuine closed walk. */
  method DetectSpawnCycles(defs: seq<Definition>) returns (cycle: Option<seq<string>>)
    ensures cycle.Some? <==> HasSpawnCycle(defs)
    ensures cycle.Some? ==> IsSpawnCycle(defs, cycle.value)
  {
    var adj := BuildGraph(defs);
    var d := new Detector(adj);
    cycle := d.Run();
    GraphCycles(adj, defs);
  }

  lemma GraphCycles(g: Graph, defs: seq<Definition>)
    requires forall a, b :: b in Next(g, a) <==> Spawns(defs, a, b)
    ensures forall w :: IsClosedWalk(g, w) <==> IsSpawnCycle(defs, w)
  {
    forall w: seq<string> ensures IsWalk(g, w) <==> IsSpawnWalk(defs, w) {
      WalkOnDefinitions(g, defs, w);
    }
  }

  lemma WalkOnDefinitions(g: Graph, defs: seq<Definition>, w: seq<string>)
    requires forall a, b :: b in Next(g, a) <==> Spawns(defs, a, b)
    ensures IsWalk(g, w) <==> IsSpawnWalk(defs, w)
  {
    if IsWalk(g, w) {
      forall i | 0 <= i < |w| - 1 ensures SpawnStepAt(defs, w, i) { assert StepAt(g, w, i); }
    }
    if IsSpawnWalk(defs, w) {
      forall i | 0 <= i < |w| - 1 ensures StepAt(g, w, i) { assert SpawnStepAt(defs, w, i); }
    }
  }

  // ---- Set-level facts used by the registry -----------------------------------------------------------

  /** Fewer definitions, fewer cycles. */
  lemma FewerDefinitions(few: seq<Definition>, many: seq<Definition>)
    requires forall d :: d in few ==> d in many
    requires HasSpawnCycle(few)
    ensures HasSpawnCycle(many)
  {
    var w :| IsSpawnCycle(few, w);
    forall i | 0 <= i < |w| - 1 ensures SpawnStepAt(many, w, i) { assert SpawnStepAt(few, w, i); }
    assert IsSpawnCycle(many, w);
  }
}
