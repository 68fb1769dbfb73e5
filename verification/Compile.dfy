/** Compilation of a definition (internal/graph/compiled.go:77-191): memoised ancestor chains with
    cycle detection, memoised initial leaves, and the index of transitions by source state. */
module Compile {
  import opened Definitions
  import opened Hierarchy

  // ---- What a compilable definition looks like --------------------------------------------------

  /** checkOrphanedChildren (internal/graph/validate.go:68-80). */
  predicate ParentsExist(def: Definition) {
    forall s :: s in def.states && def.states[s].parent != "" ==> def.states[s].parent in def.states
  }

  /** checkCompoundStates (internal/graph/validate.go:132-154). */
  predicate CompoundsHaveInitial(def: Definition) {
    forall s :: s in def.states && IsPlainCompound(def, s) ==>
                  def.states[s].initialChild != "" && def.states[s].initialChild in def.states[s].children
  }

  ghost predicate Acyclic(def: Definition) {
    forall s: string :: HasChain(def, s)
  }

  ghost predicate HasChain(def: Definition, s: string) {
    exists c :: IsChain(def, s, c)
  }

  ghost function ChainOf(def: Definition, s: string): (c: seq<string>)
    requires HasChain(def, s)
    ensures IsChain(def, s, c)
  {
    var c :| IsChain(def, s, c); c
  }

  /** The shape compilation assumes of its input: validated, and wired by the builder. */
  ghost predicate Assembled(def: Definition) {
    Wired(def) && ParentsExist(def) && CompoundsHaveInitial(def)
  }

  // ---- Initial leaves -----------------------------------------------------------------------------

  lemma ChainStaysInStates(def: Definition, s: string, c: seq<string>)
    requires ParentsExist(def) && IsChain(def, s, c)
    ensures Elements(c) <= def.states.Keys
    decreases c
  {
    if c != [] {
      ChainStaysInStates(def, c[0], c[1..]);
      assert c == [c[0]] + c[1..];
    }
  }

  lemma {:induction false} ChainNoDuplicates(def: Definition, s: string, c: seq<string>)
    requires IsChain(def, s, c)
    ensures s !in c && NoDuplicates(c)
  {
    forall i, j | 0 <= i < j < |c| ensures c[i] != c[j] {
      ChainSuffix(def, s, c, i);
      ChainSuffix(def, s, c, j);
      if c[i] == c[j] { ChainUnique(def, c[i], c[i + 1..], c[j + 1..]); }
    }
    forall i | 0 <= i < |c| ensures c[i] != s {
      ChainSuffix(def, s, c, i);
      if c[i] == s { ChainUnique(def, s, c, c[i + 1..]); }
    }
  }

  /** How much deeper than `s` a hierarchy can still go. */
  ghost function Room(def: Definition, s: string): (n: nat)
    requires Acyclic(def) && ParentsExist(def)
  {
    var c := ChainOf(def, s);
    ChainStaysInStates(def, s, c);
    ChainNoDuplicates(def, s, c);
    SizeOfDistinct(c);
    SubsetSize(Elements(c), def.states.Keys);
    |def.states| - |c|
  }

  lemma SubsetSize<T>(a: set<T>, b: set<T>)
    requires a <= b
    ensures |a| <= |b|
  {
    assert |b| == |a| + |b - a| by { assert b == a + (b - a); }
  }

  lemma ChildHasLessRoom(def: Definition, s: string, child: string)
    requires Acyclic(def) && ParentsExist(def) && ParentOf(def, child) == s && s != ""
    ensures Room(def, child) < Room(def, s)
  {
    var c, p := ChainOf(def, child), ChainOf(def, s);
    ChainUnique(def, s, c[1..], p);
  }

  /** Following InitialChild until a state that is not a plain compound. */
  function InitialLeaf(def: Definition, s: string): (leaf: string)
    requires Acyclic(def) && Assembled(def)
    ensures !IsPlainCompound(def, leaf)
    ensures s in def.states ==> leaf in def.states
    ensures leaf == s || s in ChainOf(def, leaf)
    decreases Room(def, s)
  {
    if s !in def.states || !def.states[s].isCompound || def.states[s].initialChild == "" then
      assert s in def.states ==> WiredState(def, s);
      s
    else
      var child := def.states[s].initialChild;
      assert IsPlainCompound(def, s) && WiredState(def, s);
      ChildHasLessRoom(def, s, child);
      var leaf := InitialLeaf(def, child);
      AboveChildAboveLeaf(def, s, child, leaf);
      leaf
  }

  lemma AboveChildAboveLeaf(def: Definition, s: string, child: string, leaf: string)
    requires Acyclic(def) && ParentOf(def, child) == s && s != ""
    requires leaf == child || child in ChainOf(def, leaf)
    ensures s in ChainOf(def, leaf)
  {
    var c := ChainOf(def, leaf);
    if leaf != child {
      var i :| 0 <= i < |c| && c[i] == child;
      ChainSuffix(def, leaf, c, i);
      assert c[i + 1..][0] == s;
    }
  }

  /** The leaf of a plain compound is a state strictly inside it, and resolving again changes nothing. */
  lemma InitialLeafInside(def: Definition, s: string)
    requires Acyclic(def) && Assembled(def) && IsPlainCompound(def, s)
    ensures var leaf := InitialLeaf(def, s);
      leaf in def.states && leaf != s && s in ChainOf(def, leaf) && InitialLeaf(def, leaf) == leaf
  {
    var leaf := InitialLeaf(def, s);
    assert WiredState(def, leaf);
    if IsCompound(def, leaf) { assert def.states[leaf].initialChild == ""; }
  }

  // ---- The compiled machine -----------------------------------------------------------------------

  /** Everything Compile promises about its result. */
  ghost predicate Faithful(cm: CompiledMachine) {
    && Acyclic(cm.def) && Assembled(cm.def)
    && ChainsOk(cm)
    && (forall s :: s in cm.ancestry <==> s in cm.def.states && cm.def.states[s].parent != "")
    && cm.depth.Keys == cm.def.states.Keys
    && (forall s :: s in cm.depth ==> cm.depth[s] == |Anc(cm, s)|)
    && LeavesOk(cm)
    && RegionsOk(cm)
    && IndexOk(cm)
  }

  ghost predicate LeavesOk(cm: CompiledMachine)
    requires Acyclic(cm.def) && Assembled(cm.def)
  {
    && (forall s :: s in cm.initialLeaf <==> IsPlainCompound(cm.def, s))
    && (forall s :: s in cm.initialLeaf ==> cm.initialLeaf[s] == InitialLeaf(cm.def, s))
  }

  ghost predicate RegionsOk(cm: CompiledMachine) {
    && (forall s :: s in cm.regions <==> IsParallel(cm.def, s))
    && (forall s :: s in cm.regions ==> IsParallel(cm.def, s) && cm.regions[s] == cm.def.states[s].children)
  }

  ghost predicate IndexOk(cm: CompiledMachine) {
    && cm.def.states.Keys <= cm.byState.Keys
    && (forall s, tr :: s in cm.byState ==> (tr in cm.byState[s] <==> InIndex(cm.def, s, tr)))
  }

  ghost predicate InIndex(def: Definition, s: string, tr: TransitionDef) {
    s in tr.sources && exists n :: n in def.transitions && def.transitions[n] == tr
  }

  // ---- Ancestor chains with a shared memo -----------------------------------------------------------

  /** The memo and the visiting set that buildAncestry mutates. */
  class AncestryBuilder {
    const def: Definition
    var memo: map<string, seq<string>>
    var visiting: set<string>

    ghost predicate Valid() reads this {
      forall s :: s in memo ==> IsChain(def, s, memo[s])
    }

    constructor (def: Definition)
      ensures this.def == def && Valid() && memo == map[]
    {
      this.def := def;
      memo := map[];
      visiting := {};
    }

    /** `path` climbs parent by parent and ends just below `name`. */
    ghost predicate PathTo(path: seq<string>, name: string) reads this {
      && visiting == Elements(path) && visiting <= def.states.Keys
      && forall i :: 0 <= i < |path| ==> Climbs(def, path + [name], i)
    }

    lemma BackEdgeIsCycle(path: seq<string>, name: string)
      requires PathTo(path, name) && name in visiting
      ensures HasParentCycle(def)
    {
      var i :| 0 <= i < |path| && path[i] == name;
      var w := path[i..] + [name];
      forall k | 0 <= k < |w| - 1 ensures Climbs(def, w, k) {
        assert Climbs(def, path + [name], i + k);
      }
      assert IsParentCycle(def, w);
    }

    method Build(name: string, ghost path: seq<string>) returns (r: Result<seq<string>, ()>)
      requires Valid() && PathTo(path, name)
      modifies this`memo, this`visiting
      ensures Valid()
      ensures r.Err? ==> HasParentCycle(def)
      ensures r.Ok? ==> visiting == old(visiting) && IsChain(def, name, r.value)
      decreases def.states.Keys - visiting
    {
      if name in memo { return Ok(memo[name]); }
      if name !in def.states || def.states[name].parent == "" {
        memo := memo[name := []];
        return Ok([]);
      }
      var st := def.states[name];
      if name in visiting {
        BackEdgeIsCycle(path, name);
        return Err(());
      }
      visiting := visiting + {name};
      assert PathTo(path + [name], st.parent) by {
        var longer := path + [name];
        forall i | 0 <= i < |longer| ensures Climbs(def, longer + [st.parent], i) {
          if i < |path| { assert Climbs(def, path + [name], i); }
        }
      }
      var parentChain := Build(st.parent, path + [name]);
      if parentChain.Err? { return parentChain; }
      visiting := visiting - {name};
      var chain := [st.parent] + parentChain.value;
      assert chain[1..] == parentChain.value;
      memo := memo[name := chain];
      return Ok(chain);
    }
  }

  // ---- Initial leaves with a shared memo --------------------------------------------------------------

  class LeafResolver {
    const def: Definition
    var memo: map<string, string>

    ghost predicate Valid() reads this {
      && Acyclic(def) && Assembled(def)
      && forall s :: s in memo ==> memo[s] == InitialLeaf(def, s)
    }

    constructor (def: Definition)
      requires Acyclic(def) && Assembled(def)
      ensures this.def == def && Valid()
    {
      this.def := def;
      memo := map[];
    }

    method Resolve(name: string) returns (leaf: string)
      requires Valid() && name in def.states
      modifies this`memo
      ensures Valid()
      ensures leaf == InitialLeaf(def, name)
      decreases Room(def, name)
    {
      if name in memo { return memo[name]; }
      var st := def.states[name];
      if !st.isCompound || st.initialChild == "" { return name; }
      assert WiredState(def, name) && IsPlainCompound(def, name);
      ChildHasLessRoom(def, name, st.initialChild);
      leaf := Resolve(st.initialChild);
      memo := memo[name := leaf];
    }
  }

  // ---- Compile ------------------------------------------------------------------------------------------

  method BuildChains(def: Definition) returns (r: Result<map<string, seq<string>>, ()>, depth: map<string, nat>)
    ensures r.Err? ==> HasParentCycle(def)
    ensures r.Ok? ==> forall s :: s in r.value <==> s in def.states && def.states[s].parent != ""
    ensures r.Ok? ==> forall s :: s in r.value ==> IsChain(def, s, r.value[s])
    ensures r.Ok? ==> depth.Keys == def.states.Keys
    ensures r.Ok? ==> forall s :: s in depth ==> depth[s] == if s in r.value then |r.value[s]| else 0
  {
    var b := new AncestryBuilder(def);
    var ancestry: map<string, seq<string>> := map[];
    depth := map[];
    var todo := def.states.Keys;
    while todo != {}
      invariant b.def == def && b.Valid() && fresh(b)
      invariant todo <= def.states.Keys
      invariant forall s :: s in ancestry <==> s in def.states && s !in todo && def.states[s].parent != ""
      invariant forall s :: s in ancestry ==> IsChain(def, s, ancestry[s])
      invariant depth.Keys == def.states.Keys - todo
      invariant forall s :: s in depth ==> depth[s] == if s in ancestry then |ancestry[s]| else 0
      decreases todo
    {
      var name :| name in todo;
      b.visiting := {};
      var chain := b.Build(name, []);
      if chain.Err? { return Err(()), depth; }
      if |chain.value| > 0 { ancestry := ancestry[name := chain.value]; }
      depth := depth[name := |chain.value|];
      todo := todo - {name};
    }
    r := Ok(ancestry);
  }

  method BuildLeaves(def: Definition) returns (leaves: map<string, string>)
    requires Acyclic(def) && Assembled(def)
    ensures forall s :: s in leaves <==> IsPlainCompound(def, s)
    ensures forall s :: s in leaves ==> leaves[s] == InitialLeaf(def, s)
  {
    var resolver := new LeafResolver(def);
    leaves := map[];
    var todo := def.states.Keys;
    while todo != {}
      invariant resolver.def == def && resolver.Valid() && fresh(resolver)
      invariant todo <= def.states.Keys
      invariant forall s :: s in leaves <==> IsPlainCompound(def, s) && s !in todo
      invariant forall s :: s in leaves ==> leaves[s] == InitialLeaf(def, s)
      decreases todo
    {
      var name :| name in todo;
      var st := def.states[name];
      if st.isCompound && !st.isParallel && st.initialChild != "" {
        var leaf := resolver.Resolve(name);
        leaves := leaves[name := leaf];
      }
      todo := todo - {name};
    }
  }

  method BuildRegions(def: Definition) returns (regions: map<string, seq<string>>)
    ensures forall s :: s in regions <==> IsParallel(def, s)
    ensures forall s :: s in regions ==> IsParallel(def, s) && regions[s] == def.states[s].children
  {
    regions := map[];
    var todo := def.states.Keys;
    while todo != {}
      invariant todo <= def.states.Keys
      invariant forall s :: s in regions <==> IsParallel(def, s) && s !in todo
      invariant forall s :: s in regions ==> IsParallel(def, s) && regions[s] == def.states[s].children
      decreases todo
    {
      var name :| name in todo;
      if def.states[name].isParallel { regions := regions[name := def.states[name].children]; }
      todo := todo - {name};
    }
  }

  method BuildIndex(def: Definition) returns (byState: map<string, seq<TransitionDef>>)
    ensures def.states.Keys <= byState.Keys
    ensures forall s, tr :: s in byState ==> (tr in byState[s] <==> InIndex(def, s, tr))
  {
    byState := map[];
    var todo := def.transitions.Keys;
    while todo != {}
      invariant todo <= def.transitions.Keys
      invariant forall s, tr :: Indexed(byState, s, tr) <==> Added(def, def.transitions.Keys - todo, s, tr)
      decreases todo
    {
      var name :| name in todo;
      var tr := def.transitions[name];
      byState := AddSources(byState, tr);
      assert def.transitions.Keys - (todo - {name}) == def.transitions.Keys - todo + {name};
      todo := todo - {name};
    }
    assert forall s, tr :: Indexed(byState, s, tr) <==> InIndex(def, s, tr);
    todo := def.states.Keys;
    while todo != {}
      invariant def.states.Keys - todo <= byState.Keys
      invariant forall s, tr :: Indexed(byState, s, tr) <==> InIndex(def, s, tr)
      decreases todo
    {
      var name :| name in todo;
      if name !in byState { byState := byState[name := []]; }
      todo := todo - {name};
    }
    assert forall s, tr :: s in byState ==> (tr in byState[s] <==> Indexed(byState, s, tr));
  }

  ghost predicate Indexed(byState: map<string, seq<TransitionDef>>, s: string, tr: TransitionDef) {
    s in byState && tr in byState[s]
  }

  ghost predicate Added(def: Definition, done: set<string>, s: string, tr: TransitionDef) {
    s in tr.sources && exists n :: n in done && n in def.transitions && def.transitions[n] == tr
  }

  method AddSources(byState: map<string, seq<TransitionDef>>, tr: TransitionDef)
    returns (r: map<string, seq<TransitionDef>>)
    ensures forall s, t :: Indexed(r, s, t) <==> Indexed(byState, s, t) || (t == tr && s in tr.sources)
  {
    r := byState;
    for i := 0 to |tr.sources|
      invariant forall s, t :: Indexed(r, s, t) <==> Indexed(byState, s, t) || (t == tr && s in tr.sources[..i])
    {
      var src := tr.sources[i];
      var was := r;
      r := r[src := (if src in r then r[src] else []) + [tr]];
      assert tr.sources[..i + 1] == tr.sources[..i] + [src];
      forall s, t ensures Indexed(r, s, t) <==> Indexed(was, s, t) || (t == tr && s == src) {}
    }
    assert tr.sources[..|tr.sources|] == tr.sources;
  }

  /** Fails exactly on a cyclic parent relation; otherwise every part of the result is faithful. */
  method Compile(def: Definition) returns (r: Result<CompiledMachine, ()>)
    requires Assembled(def)
    ensures r.Err? <==> HasParentCycle(def)
    ensures r.Ok? ==> r.value.def == def && Faithful(r.value)
  {
    var chains, depth := BuildChains(def);
    if chains.Err? { return Err(()); }
    var ancestry := chains.value;
    ghost var draft := CompiledMachine(def, ancestry, depth, map[], map[], map[]);
    forall s: string ensures IsChain(def, s, Anc(draft, s)) {}
    forall s: string ensures HasChain(def, s) { assert IsChain(def, s, Anc(draft, s)); }
    AcyclicMeansNoCycle(def);
    var leaves := BuildLeaves(def);
    var regions := BuildRegions(def);
    var byState := BuildIndex(def);
    var cm := CompiledMachine(def, ancestry, depth, leaves, regions, byState);
    assert forall s: string :: Anc(cm, s) == Anc(draft, s);
    r := Ok(cm);
  }

  lemma AcyclicMeansNoCycle(def: Definition)
    requires Acyclic(def)
    ensures !HasParentCycle(def)
  {
    forall w | IsParentCycle(def, w) ensures false {
      assert HasChain(def, w[0]);
      ChainMeansNoCycle(def, w, ChainOf(def, w[0]));
    }
  }
}
