/** What the remaining checks of validation are for: where instances start, where they can end and where they wait
    (internal/graph/validate.go:156-255, internal/builder/builder.go:419-427). */
module Guarantees {
  import opened Definitions
  import opened Compile
  import opened Validate
  import opened Builder
  import opened Step
  import opened Machines
  import opened Configuration

  /** A definition that the builder assembles from options of distinct names and that validation accepts starts at the
      one state marked initial, and at rest. */
  lemma BuiltStartsAtRest(cm: CompiledMachine, defs: seq<StateDef>, collected: map<string, StateDef>, header: Header)
    requires Machine(cm) && Validated(cm.def)
    requires Collects(defs, collected) && Wires(collected, cm.def.states, collected.Keys)
    requires LastInitial(defs, cm.def.initialState)
    requires forall i, j :: 0 <= i < j < |defs| ==> defs[i].name != defs[j].name
    ensures StartsAtRest(cm) && NewInstance(cm, header).currentState == cm.def.initialState
    ensures InitialStates(cm.def) == {cm.def.initialState}
  {
    ValidatedGives(cm.def);
    assert Passes(cm.def, InitialState) && Passes(cm.def, CompoundInitial);
    MarkedIsInitial(cm.def, defs, collected);
    assert cm.def.initialState in InitialStates(cm.def);
    LeafStartsHere(cm, cm.def.initialState);
  }

  lemma MarkedIsInitial(def: Definition, defs: seq<StateDef>, collected: map<string, StateDef>)
    requires OneInitialState(def) && LastInitial(defs, def.initialState)
    requires Collects(defs, collected) && Wires(collected, def.states, collected.Keys)
    requires forall i, j :: 0 <= i < j < |defs| ==> defs[i].name != defs[j].name
    ensures InitialStates(def) == {def.initialState}
  {
    var s := def.initialState;
    var x := OnlyOf(InitialStates(def));
    assert WiresState(collected, def.states[x], x, collected.Keys) && LastNamed(defs, x, collected[x]);
    var i :| 0 <= i < |defs| && defs[i].isInitial && defs[i].name == s;
    assert LastNamed(defs, s, defs[i]);
    Keeps(defs, collected, defs[i]);
    assert WiresState(collected, def.states[s], s, collected.Keys);
    assert s in InitialStates(def);
  }

  lemma OnlyOf(s: set<string>) returns (x: string)
    requires |s| == 1
    ensures s == {x}
  {
    x :| x in s;
    assert |s - {x}| == 0;
  }

  lemma LeafStartsHere(cm: CompiledMachine, s: string)
    requires Machine(cm) && IsLeaf(cm.def, s)
    ensures LeafOf(cm, s) == s && !IsParallel(cm.def, s)
  {
    MachineIsSane(cm);
    assert RestsAt(cm, s, LeafOf(cm, s));
  }

  /** Only in a leaf has an instance ended: no step inside or out of a parallel state is refused for that. */
  lemma EveryRunEndsInLeaf(cm: CompiledMachine, header: Header, ops: seq<Op>)
    requires Machine(cm) && Validated(cm.def) && RegionLocal(cm) && StartsAtRest(cm)
    ensures var inst := Run(cm, NewInstance(cm, header), ops);
      IsTerminal(cm.def, inst.currentState) ==> IsLeaf(cm.def, inst.currentState) && inst.active == map[]
  {
    EveryRunRests(cm, header, ops);
    ValidatedGives(cm.def);
    assert Passes(cm.def, CompoundTerminal);
    MachineIsSane(cm);
  }

  /** Some terminal state can be reached, and whatever waits is a place where an instance can rest. */
  lemma EndsAndWaits(def: Definition)
    requires Validated(def) && def.initialState != ""
    ensures exists s :: IsTerminal(def, s) && Reachable(def, s)
    ensures forall s :: s in def.states && def.states[s].isWait ==> IsLeaf(def, s)
  {
    ValidatedGives(def);
    assert Passes(def, TerminalStates) && Passes(def, Unreachable) && Passes(def, CompoundWait);
    var s :| s in def.states && def.states[s].isTerminal;
    assert IsTerminal(def, s) && Reachable(def, s);
  }
}
