/** What the step function needs to know about a compiled machine, derived once from validation,
    wiring and compilation. */
module Machines {
  import opened Definitions
  import opened Hierarchy
  import opened Compile
  import opened Validate
  import opened Step

  /** What validation, wiring and compilation give, and that transitions lead somewhere. */
  ghost predicate Machine(cm: CompiledMachine) {
    Faithful(cm) && StatesKnown(cm.def) && ParallelStatesOk(cm.def) && Targeted(cm.def)
  }

  /** The consequences of `Machine` that the proofs about steps use. */
  ghost predicate Sane(cm: CompiledMachine) {
    ChainsOk(cm) && ParentsCompound(cm) && LeavesRest(cm) && RegionsProper(cm) && TransitionsProper(cm)
  }

  ghost predicate ParentsCompound(cm: CompiledMachine) {
    forall s :: ParentOf(cm.def, s) != "" ==> IsCompound(cm.def, ParentOf(cm.def, s))
  }

  ghost predicate LeavesRest(cm: CompiledMachine) {
    && cm.initialLeaf.Keys <= cm.def.states.Keys
    && forall s {:trigger LeafOf(cm, s)} :: s in cm.def.states ==> RestsAt(cm, s, LeafOf(cm, s))
  }

  /** `l` is a resting state at or below `s`, and `s` itself unless `s` is a plain compound. */
  predicate RestsAt(cm: CompiledMachine, s: string, l: string) {
    && l in cm.def.states && !IsPlainCompound(cm.def, l)
    && s in Config(cm, l)
    && (IsPlainCompound(cm.def, s) || l == s)
  }

  ghost predicate RegionsProper(cm: CompiledMachine) {
    && (forall p :: p in cm.regions <==> IsParallel(cm.def, p))
    && (forall p :: IsParallel(cm.def, p) ==>
        IsCompound(cm.def, p) && cm.regions[p] != [] && NoDuplicates(cm.regions[p]))
    && (forall p, r :: r in RegionsOf(cm, p) ==> IsRegion(cm, p, r))
  }

  predicate IsRegion(cm: CompiledMachine, p: string, r: string) {
    && IsParallel(cm.def, p) && IsPlainCompound(cm.def, r)
    && ParentOf(cm.def, r) == p && p != ""
  }

  ghost predicate TransitionsProper(cm: CompiledMachine) {
    forall n :: n in cm.def.transitions ==> TransitionProper(cm, n, cm.def.transitions[n])
  }

  ghost predicate TransitionProper(cm: CompiledMachine, n: string, tr: TransitionDef) {
    && tr.name == n
    && TargetsOf(tr) <= cm.def.states.Keys && "" !in TargetsOf(tr)
    && (forall s :: s in tr.sources ==> s in cm.def.states && FindNamed(TransitionsAt(cm, s), n) == Some(tr))
  }

  // ---- From the machine to these facts ------------------------------------------------------------------

  lemma LeafOfRests(cm: CompiledMachine, s: string)
    requires Acyclic(cm.def) && Assembled(cm.def) && ChainsOk(cm) && LeavesOk(cm) && s in cm.def.states
    ensures RestsAt(cm, s, LeafOf(cm, s))
  {
    if s in cm.initialLeaf {
      var l := InitialLeaf(cm.def, s);
      assert IsChain(cm.def, l, Anc(cm, l));
      ChainUnique(cm.def, l, ChainOf(cm.def, l), Anc(cm, l));
    }
  }

  lemma RegionIs(cm: CompiledMachine, p: string)
    requires Wired(cm.def) && ParallelStatesOk(cm.def) && RegionsOk(cm) && IsParallel(cm.def, p)
    ensures IsCompound(cm.def, p) && p in cm.regions && cm.regions[p] != [] && NoDuplicates(cm.regions[p])
    ensures forall r :: r in cm.regions[p] ==> IsRegion(cm, p, r)
  {
    assert WiredState(cm.def, p) && ParallelStateOk(cm.def, cm.def.states[p]);
    forall r | r in cm.regions[p] ensures IsRegion(cm, p, r) {
      assert r in cm.def.states[p].children;
    }
  }

  lemma {:induction false} FindNamedSound(list: seq<TransitionDef>, name: string)
    ensures FindNamed(list, name).Some? <==> exists i :: 0 <= i < |list| && list[i].name == name
    ensures FindNamed(list, name).Some? ==>
      FindNamed(list, name).value in list && FindNamed(list, name).value.name == name
  {
    if list != [] {
      FindNamedSound(list[1..], name);
      if i :| 0 <= i < |list| && list[i].name == name && list[0].name != name { assert list[1..][i - 1].name == name; }
    }
  }

  /** The index holds, under the name looked up, the very transition of the definition. */
  lemma IndexedIs(cm: CompiledMachine, s: string, n: string)
    requires Wired(cm.def) && IndexOk(cm) && n in cm.def.transitions
    requires s in cm.def.transitions[n].sources && s in cm.def.states
    ensures FindNamed(TransitionsAt(cm, s), n) == Some(cm.def.transitions[n])
  {
    var tr := cm.def.transitions[n];
    assert InIndex(cm.def, s, tr) && tr in cm.byState[s];
    FindNamedSound(cm.byState[s], n);
    var found := FindNamed(cm.byState[s], n);
    assert found.value in cm.byState[s];
    assert InIndex(cm.def, s, found.value);
  }

  lemma TransitionIs(cm: CompiledMachine, n: string)
    requires Wired(cm.def) && IndexOk(cm) && StatesKnown(cm.def) && Targeted(cm.def) && n in cm.def.transitions
    ensures TransitionProper(cm, n, cm.def.transitions[n])
  {
    var tr := cm.def.transitions[n];
    assert StatesKnownIn(cm.def, tr);
    forall s | s in tr.sources ensures FindNamed(TransitionsAt(cm, s), n) == Some(tr) { IndexedIs(cm, s, n); }
    assert "" !in TargetsOf(tr);
    if |tr.routes| > 0 {
      forall r | r in tr.routes ensures r.target in cm.def.states { assert r.target in TargetsOf(tr); }
    }
  }

  lemma ParentIsCompound(def: Definition, s: string)
    requires Wired(def) && ParentsExist(def) && ParentOf(def, s) != ""
    ensures IsCompound(def, ParentOf(def, s))
  {
    var p := ParentOf(def, s);
    assert WiredState(def, p);
    assert s in def.states[p].children;
  }

  lemma RegionsAre(cm: CompiledMachine)
    requires Wired(cm.def) && ParallelStatesOk(cm.def) && RegionsOk(cm)
    ensures RegionsProper(cm)
  {
    forall p | IsParallel(cm.def, p)
      ensures IsCompound(cm.def, p) && cm.regions[p] != [] && NoDuplicates(cm.regions[p])
      ensures forall r :: r in cm.regions[p] ==> IsRegion(cm, p, r)
    { RegionIs(cm, p); }
  }

  lemma MachineIsSane(cm: CompiledMachine)
    requires Machine(cm)
    ensures Sane(cm)
  {
    assert ParentsCompound(cm) by {
      forall s | ParentOf(cm.def, s) != "" ensures IsCompound(cm.def, ParentOf(cm.def, s)) {
        ParentIsCompound(cm.def, s);
      }
    }
    assert LeavesRest(cm) by {
      forall s | s in cm.def.states ensures RestsAt(cm, s, LeafOf(cm, s)) { LeafOfRests(cm, s); }
    }
    RegionsAre(cm);
    assert TransitionsProper(cm) by {
      forall n | n in cm.def.transitions ensures TransitionProper(cm, n, cm.def.transitions[n]) { TransitionIs(cm, n); }
    }
  }
}
