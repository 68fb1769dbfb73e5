/** Accepted, region-local definitions whose parallel state lies below a compound. In the first the only way out
    is sourced above the parallel state, where validation counts it and the step function does not look; the
    second has a transition of its own, and leaving through it does not record the compound. */
module NestedParallel {
  import opened Definitions
  import opened Hierarchy
  import opened Compile
  import opened Validate
  import opened Step
  import opened Machines
  import opened Configuration
  import opened Recall
  import opened Progress
  import opened Counterexamples

  /** `c` starts at the parallel state `p`, which has the region `r` with the leaf `x`. */
  datatype Burial = Burial(wait: string, c: string, p: string, r: string, x: string, end: string)

  predicate BurialApart(n: Burial) {
    && "" !in {n.wait, n.c, n.p, n.r, n.x, n.end}
    && n.wait !in {n.c, n.p, n.r, n.x, n.end} && n.c !in {n.p, n.r, n.x, n.end} && n.p !in {n.r, n.x, n.end}
    && n.r !in {n.x, n.end} && n.x != n.end
  }

  /** `s` enters `c`, `ee` leaves it; with `exits` there is also `ppp`, which leaves `p`. */
  ghost predicate IsBurial(n: Burial, def: Definition, exits: bool) {
    && def.states.Keys == {n.wait, n.c, n.p, n.r, n.x, n.end}
    && def.states[n.wait] == Plain(n.wait, "").(isInitial := true)
    && def.states[n.c] == Above(n.c, "", n.p, n.p, false)
    && def.states[n.p] == Above(n.p, n.c, n.r, "", true)
    && def.states[n.r] == Above(n.r, n.p, n.x, n.x, false)
    && def.states[n.x] == Plain(n.x, n.r)
    && def.states[n.end] == Plain(n.end, "").(isTerminal := true)
    && def.transitions.Keys == {"s", "ee"} + (if exits then {"ppp"} else {})
    && def.transitions["s"] == Go("s", n.wait, n.c) && def.transitions["ee"] == Go("ee", n.c, n.end)
    && (exits ==> def.transitions["ppp"] == Go("ppp", n.p, n.end))
    && def.initialState == n.wait
  }

  // ---- They are accepted --------------------------------------------------------------------------------

  lemma BurialIsWired(n: Burial, def: Definition, exits: bool)
    requires BurialApart(n) && IsBurial(n, def, exits)
    ensures Wired(def)
  {
    forall s | s in def.states ensures WiredState(def, s) {}
  }

  lemma BurialIsNested(n: Burial, def: Definition, exits: bool)
    requires BurialApart(n) && IsBurial(n, def, exits)
    ensures ParentsExist(def) && CompoundsHaveInitial(def) && ParallelStatesOk(def)
  {
    forall s | s in def.states && def.states[s].isParallel ensures ParallelStateOk(def, def.states[s]) {}
  }

  lemma BurialIsTargeted(n: Burial, def: Definition, exits: bool)
    requires BurialApart(n) && IsBurial(n, def, exits)
    ensures Targeted(def) && StatesKnown(def)
  {}

  lemma BurialEscapes(n: Burial, def: Definition, exits: bool)
    requires BurialApart(n) && IsBurial(n, def, exits)
    ensures NoDeadEnds(def)
  {
    assert n.wait in def.transitions["s"].sources && n.c in def.transitions["ee"].sources;
    assert LeavesAt(def, n.wait, 0);
    assert Up(def, n.x, 1) == n.r;
    assert Up(def, n.x, 2) == n.p;
    assert Up(def, n.x, 3) == n.c;
    assert LeavesAt(def, n.x, 3);
  }

  lemma BurialEdges(n: Burial, def: Definition, exits: bool)
    requires BurialApart(n) && IsBurial(n, def, exits)
    ensures Edge(def, n.wait, n.c) && Edge(def, n.c, n.end)
    ensures Edge(def, n.c, n.p) && Edge(def, n.p, n.r) && Edge(def, n.r, n.x)
  {
    assert "s" in def.transitions && "ee" in def.transitions;
    assert FiresTo(def, n.wait, n.c) && FiresTo(def, n.c, n.end);
  }

  lemma BurialReached(def: Definition, n: Burial)
    requires def.initialState == n.wait && Edge(def, n.wait, n.c) && Edge(def, n.c, n.end)
    requires Edge(def, n.c, n.p) && Edge(def, n.p, n.r) && Edge(def, n.r, n.x)
    requires def.states.Keys == {n.wait, n.c, n.p, n.r, n.x, n.end}
    ensures AllReachable(def)
  {
    StartReached(def);
    ReachableStep(def, n.wait, n.c);
    ReachableStep(def, n.c, n.end);
    ReachableStep(def, n.c, n.p);
    ReachableStep(def, n.p, n.r);
    ReachableStep(def, n.r, n.x);
  }

  lemma BurialStartsOnce(n: Burial, def: Definition, exits: bool)
    requires BurialApart(n) && IsBurial(n, def, exits)
    ensures OneInitialState(def) && HasTerminalState(def) && CompoundNotTerminal(def) && InitialNotCompound(def)
    ensures WaitLeafOnly(def)
  {
    assert InitialStates(def) == {n.wait};
    BurialEnds(n, def, exits);
  }

  lemma BurialEnds(n: Burial, def: Definition, exits: bool)
    requires BurialApart(n) && IsBurial(n, def, exits)
    ensures HasTerminalState(def) && CompoundNotTerminal(def) && InitialNotCompound(def) && WaitLeafOnly(def)
  {
    assert def.states[n.end].isTerminal;
  }

  lemma BurialIsAccepted(n: Burial, cm: CompiledMachine, exits: bool)
    requires BurialApart(n) && IsBurial(n, cm.def, exits) && Faithful(cm)
    ensures Wired(cm.def) && Validated(cm.def) && Machine(cm)
  {
    BurialIsWired(n, cm.def, exits);
    BurialIsNested(n, cm.def, exits);
    BurialIsTargeted(n, cm.def, exits);
    BurialEscapes(n, cm.def, exits);
    BurialEdges(n, cm.def, exits);
    BurialReached(cm.def, n);
    BurialStartsOnce(n, cm.def, exits);
  }

  lemma BurialLeaves(n: Burial, cm: CompiledMachine, exits: bool)
    requires BurialApart(n) && IsBurial(n, cm.def, exits) && Faithful(cm)
    ensures LeafOf(cm, n.wait) == n.wait && LeafOf(cm, n.c) == n.p && LeafOf(cm, n.p) == n.p
    ensures LeafOf(cm, n.end) == n.end && LeafOf(cm, n.r) == n.x && RegionsOf(cm, n.p) == [n.r]
  {
    assert InitialLeaf(cm.def, n.p) == n.p && InitialLeaf(cm.def, n.x) == n.x;
    assert InitialLeaf(cm.def, n.c) == n.p && InitialLeaf(cm.def, n.r) == n.x;
    assert IsPlainCompound(cm.def, n.c) && IsPlainCompound(cm.def, n.r);
  }

  lemma BurialChains(n: Burial, cm: CompiledMachine, exits: bool)
    requires BurialApart(n) && IsBurial(n, cm.def, exits) && ChainsOk(cm)
    ensures Anc(cm, n.c) == [] && Anc(cm, n.p) == [n.c] && Anc(cm, n.r) == [n.p, n.c] && Anc(cm, n.x) == [n.r, n.p, n.c]
    ensures Anc(cm, n.wait) == [] && Anc(cm, n.end) == []
  {
    AncUnfold(cm, n.wait);
    AncUnfold(cm, n.end);
    AncUnfold(cm, n.c);
    AncUnfold(cm, n.p);
    AncUnfold(cm, n.r);
    AncUnfold(cm, n.x);
  }

  lemma OneParallel(n: Burial, def: Definition, exits: bool, q: string)
    requires BurialApart(n) && IsBurial(n, def, exits)
    ensures IsParallel(def, q) <==> q == n.p
  {}

  lemma NoneInside(n: Burial, cm: CompiledMachine, exits: bool, t: string)
    requires BurialApart(n) && IsBurial(n, cm.def, exits) && ChainsOk(cm) && t in cm.def.transitions
    ensures !FiresInside(cm, cm.def.transitions[t], n.p, n.r)
  {
    BurialChains(n, cm, exits);
  }

  lemma ExitsToEnd(n: Burial, cm: CompiledMachine, exits: bool, t: string)
    requires BurialApart(n) && IsBurial(n, cm.def, exits) && LeafOf(cm, n.end) == n.end && t in cm.def.transitions
    ensures ExitAvoidsParallel(cm, cm.def.transitions[t])
  {
    var tr := cm.def.transitions[t];
    if q :| q in tr.sources && IsParallel(cm.def, q) {
      OneParallel(n, cm.def, exits, q);
      assert TargetsOf(tr) == {n.end};
    }
  }

  /** They are region-local and start at rest. */
  lemma BurialIsLocal(n: Burial, cm: CompiledMachine, exits: bool)
    requires BurialApart(n) && IsBurial(n, cm.def, exits) && ChainsOk(cm) && RegionsProper(cm)
    requires LeafOf(cm, n.wait) == n.wait && LeafOf(cm, n.end) == n.end && LeafOf(cm, n.r) == n.x
    requires RegionsOf(cm, n.p) == [n.r]
    ensures RegionLocal(cm) && StartsAtRest(cm)
  {
    forall t | t in cm.def.transitions ensures ExitAvoidsParallel(cm, cm.def.transitions[t]) {
      ExitsToEnd(n, cm, exits, t);
    }
    forall q, r | r in RegionsOf(cm, q) ensures StaysInRegion(cm, q, r) {
      assert IsRegion(cm, q, r);
      OneParallel(n, cm.def, exits, q);
      forall t | t in cm.def.transitions ensures !FiresInside(cm, cm.def.transitions[t], q, r) {
        NoneInside(n, cm, exits, t);
      }
    }
    forall q | IsParallel(cm.def, q) ensures RegionsStartAtLeaves(cm, q) {
      OneParallel(n, cm.def, exits, q);
      OneParallel(n, cm.def, exits, n.x);
    }
    OneParallel(n, cm.def, exits, n.wait);
  }

  // ---- The runs --------------------------------------------------------------------------------------------

  predicate Buried(n: Burial, inst: Instance) {
    inst.currentState == n.p && inst.active == map[n.r := n.x]
  }

  lemma BurialMoves(n: Burial, cm: CompiledMachine, inst: Instance, exits: bool)
    requires BurialApart(n) && IsBurial(n, cm.def, exits) && TransitionsProper(cm)
    requires inst.currentState == n.wait && inst.active == map[]
    requires LeafOf(cm, n.c) == n.p && RegionsOf(cm, n.p) == [n.r] && LeafOf(cm, n.r) == n.x
    ensures Buried(n, After(inst, Transition(cm, inst, "s", Smooth(1))))
  {
    var tr := Go("s", n.wait, n.c);
    assert TransitionProper(cm, "s", tr) && n.wait in tr.sources;
    assert ValidateTransition(cm, inst, "s", Smooth(1)) == Ok((tr, n.c));
    PlainArrives(cm, inst, tr, n.c, 1);
    assert InitialRegions(cm, n.p) == map[n.r := n.x];
  }

  lemma PlainArrives(cm: CompiledMachine, inst: Instance, tr: TransitionDef, target: string, now: int)
    ensures var e := CommitPlain(cm, inst, tr, target, Smooth(now));
      var plan := PlanFor(cm, inst, tr, target);
      && e.written.Some? && e.written.value.currentState == plan.resolved
      && e.written.value.active == InitialRegions(cm, plan.resolved)
  {}

  /** The first step of a new instance gets there. */
  lemma BurialStarts(n: Burial, cm: CompiledMachine, header: Header, exits: bool)
    requires BurialApart(n) && IsBurial(n, cm.def, exits) && Faithful(cm) && TransitionsProper(cm)
    ensures Buried(n, Run(cm, NewInstance(cm, header), [Fire("s", Smooth(1))]))
  {
    BurialLeaves(n, cm, exits);
    var a := NewInstance(cm, header);
    BurialMoves(n, cm, a, exits);
    OneStep(cm, a, Fire("s", Smooth(1)));
  }

  /** In the first definition nothing can fire there, although the leaf is not terminal. */
  lemma NothingFires(n: Burial, cm: CompiledMachine, inst: Instance, name: string)
    requires BurialApart(n) && IsBurial(n, cm.def, false) && ChainsOk(cm) && Buried(n, inst)
    ensures Unfinished(cm, inst) && !CanFireInside(cm, inst, name)
  {
    BurialChains(n, cm, false);
    assert n.r in inst.active && inst.active[n.r] == n.x;
    if name in cm.def.transitions {
      var tr := cm.def.transitions[name];
      assert Anc(cm, n.x)[0] == n.r && Anc(cm, n.x)[1] == n.p;
      assert BoundedSource(cm, tr, n.x, n.p) == "";
    }
  }

  /** So a run of an accepted, region-local definition stops for lack of a transition. */
  lemma BurialStops(n: Burial, cm: CompiledMachine, header: Header)
    requires BurialApart(n) && IsBurial(n, cm.def, false) && Faithful(cm)
    ensures Validated(cm.def) && Machine(cm) && RegionLocal(cm) && StartsAtRest(cm)
    ensures var inst := Run(cm, NewInstance(cm, header), [Fire("s", Smooth(1))]);
      Unfinished(cm, inst) && |inst.active| > 0 && forall name :: !CanFireInside(cm, inst, name)
  {
    BurialIsAccepted(n, cm, false);
    MachineIsSane(cm);
    BurialLeaves(n, cm, false);
    BurialIsLocal(n, cm, false);
    BurialStarts(n, cm, header, false);
    var inst := Run(cm, NewInstance(cm, header), [Fire("s", Smooth(1))]);
    assert n.r in inst.active;
    forall name ensures Unfinished(cm, inst) && !CanFireInside(cm, inst, name) { NothingFires(n, cm, inst, name); }
  }

  lemma ExitLeaves(n: Burial, cm: CompiledMachine, inst: Instance)
    requires BurialApart(n) && IsBurial(n, cm.def, true) && TransitionsProper(cm) && Buried(n, inst)
    ensures var e := Transition(cm, inst, "ppp", Smooth(2));
      e == CommitParallelExit(cm, inst, Go("ppp", n.p, n.end), n.end, Smooth(2)) && e.written.Some?
  {
    var tr := Go("ppp", n.p, n.end);
    assert TransitionProper(cm, "ppp", tr) && n.p in tr.sources && n.r in inst.active;
    assert ValidateTransition(cm, inst, "ppp", Smooth(2)) == Ok((tr, n.end));
  }

  lemma ExitSkips(cm: CompiledMachine, inst: Instance, tr: TransitionDef, target: string, call: Call, c: string)
    requires ChainsOk(cm) && RegionsProper(cm) && "" !in cm.def.states && RestsWell(cm, inst)
    requires IsParallel(cm.def, inst.currentState) && IsCompound(cm.def, c) && inst.currentState !in Anc(cm, c)
    requires CommitParallelExit(cm, inst, tr, target, call).written.Some?
    ensures var after := After(inst, CommitParallelExit(cm, inst, tr, target, call));
      after.currentState == LeafOf(cm, target) && SameAt(HistoryOf(inst), HistoryOf(after), c)
  {
    ExitOutcomes(cm, inst, tr, target, call);
    ParallelExitRecords(cm, inst, tr, target, call, c);
  }

  /** In the second definition the exit leaves the compound and does not record it. */
  lemma CompoundUnrecorded(n: Burial, cm: CompiledMachine, inst: Instance)
    requires BurialApart(n) && IsBurial(n, cm.def, true) && ChainsOk(cm) && RegionsProper(cm) && TransitionsProper(cm)
    requires RegionsOf(cm, n.p) == [n.r] && LeafOf(cm, n.end) == n.end && Buried(n, inst)
    ensures var after := After(inst, Transition(cm, inst, "ppp", Smooth(2)));
      && after.currentState == n.end && n.c in Config(cm, n.p) && n.c !in Config(cm, n.end)
      && SameAt(HistoryOf(inst), HistoryOf(after), n.c)
  {
    ExitLeaves(n, cm, inst);
    BuriedRests(n, cm, inst);
    BuriedAbove(n, cm);
    ExitSkips(cm, inst, Go("ppp", n.p, n.end), n.end, Smooth(2), n.c);
  }

  lemma BuriedAbove(n: Burial, cm: CompiledMachine)
    requires BurialApart(n) && IsBurial(n, cm.def, true) && ChainsOk(cm)
    ensures n.p !in Anc(cm, n.c) && n.c in Config(cm, n.p) && n.c !in Config(cm, n.end) && "" !in cm.def.states
  {
    BurialChains(n, cm, true);
  }

  lemma BuriedRests(n: Burial, cm: CompiledMachine, inst: Instance)
    requires BurialApart(n) && IsBurial(n, cm.def, true) && ChainsOk(cm) && RegionsOf(cm, n.p) == [n.r]
             && Buried(n, inst)
    ensures RestsWell(cm, inst) && IsParallel(cm.def, inst.currentState) && IsPlainCompound(cm.def, n.c)
  {
    BurialChains(n, cm, true);
    assert Elements(RegionsOf(cm, n.p)) == {n.r};
    assert InRegion(cm, n.x, n.r);
  }

  /** So in a run of two steps the history of the compound misses its exit. */
  lemma BurialForgets(n: Burial, cm: CompiledMachine, header: Header)
    requires BurialApart(n) && IsBurial(n, cm.def, true) && Faithful(cm)
    ensures Validated(cm.def) && Machine(cm) && RegionLocal(cm) && StartsAtRest(cm)
    ensures var start, o, p := NewInstance(cm, header), Fire("s", Smooth(1)), Fire("ppp", Smooth(2));
      Missed(cm, n.c, n.p, start, [o], p)
  {
    BurialIsAccepted(n, cm, true);
    MachineIsSane(cm);
    BurialLeaves(n, cm, true);
    BurialIsLocal(n, cm, true);
    BurialStarts(n, cm, header, true);
    CompoundUnrecorded(n, cm, Run(cm, NewInstance(cm, header), [Fire("s", Smooth(1))]));
    StepMisses(cm, n.c, n.p, NewInstance(cm, header), [Fire("s", Smooth(1))], Fire("ppp", Smooth(2)));
  }

  /** After one more operation `c` is no longer active and was last left from `leaf`, but its history is what it
      was before the operation. */
  ghost predicate Missed(cm: CompiledMachine, c: string, leaf: string, start: Instance, ops: seq<Op>, op: Op) {
    var end := Run(cm, start, ops + [op]);
    && c !in Config(cm, end.currentState) && LastLeaf(cm, Trace(cm, start, ops + [op]), c) == Some(leaf)
    && SameAt(HistoryOf(Run(cm, start, ops)), HistoryOf(end), c)
  }

  lemma StepMisses(cm: CompiledMachine, c: string, leaf: string, start: Instance, ops: seq<Op>, op: Op)
    requires op.Fire? && Run(cm, start, ops).currentState == leaf && c in Config(cm, leaf)
    requires var was := Run(cm, start, ops);
      var after := After(was, Perform(cm, was, op));
      c !in Config(cm, after.currentState) && SameAt(HistoryOf(was), HistoryOf(after), c)
    ensures Missed(cm, c, leaf, start, ops, op)
  {
    TraceEnds(cm, start, ops, op);
    var trace := Trace(cm, start, ops + [op]);
    assert trace[|trace| - 1].before == leaf;
  }

  lemma TraceEnds(cm: CompiledMachine, inst: Instance, ops: seq<Op>, op: Op)
    ensures var was := Run(cm, inst, ops);
      var after := After(was, Perform(cm, was, op));
      && Run(cm, inst, ops + [op]) == after
      && Trace(cm, inst, ops + [op]) == Trace(cm, inst, ops)
           + [Stride(was.currentState, after.currentState, op.Force? && Perform(cm, was, op).written.Some?)]
  {
    assert (ops + [op])[..|ops|] == ops;
  }

  // ---- There are such machines ------------------------------------------------------------------------------

  const BURIAL: Burial := Burial("1", "22", "333", "4444", "55555", "666666")

  lemma BurialExists()
    ensures BurialApart(BURIAL)
  {
    assert |BURIAL.wait| == 1 && |BURIAL.c| == 2 && |BURIAL.p| == 3 && |BURIAL.r| == 4;
    assert |BURIAL.x| == 5 && |BURIAL.end| == 6;
  }

  function BurialStates(n: Burial): map<string, StateDef> {
    map[n.wait := Plain(n.wait, "").(isInitial := true),
        n.c := Above(n.c, "", n.p, n.p, false),
        n.p := Above(n.p, n.c, n.r, "", true),
        n.r := Above(n.r, n.p, n.x, n.x, false),
        n.x := Plain(n.x, n.r),
        n.end := Plain(n.end, "").(isTerminal := true)]
  }

  function BurialTransitions(n: Burial, exits: bool): map<string, TransitionDef> {
    map["s" := Go("s", n.wait, n.c), "ee" := Go("ee", n.c, n.end)]
    + (if exits then map["ppp" := Go("ppp", n.p, n.end)] else map[])
  }

  lemma BurialIsOne(n: Burial, def: Definition, exits: bool)
    requires BurialApart(n) && def.states == BurialStates(n) && def.transitions == BurialTransitions(n, exits)
    requires def.initialState == n.wait
    ensures IsBurial(n, def, exits)
  {
    assert |"s"| == 1 && |"ee"| == 2 && |"ppp"| == 3;
    assert def.states.Keys == {n.wait, n.c, n.p, n.r, n.x, n.end};
  }

  lemma BurialHasChain(n: Burial, def: Definition, exits: bool, s: string) returns (c: seq<string>)
    requires BurialApart(n) && IsBurial(n, def, exits)
    ensures IsChain(def, s, c)
  {
    assert IsChain(def, n.c, []);
    assert IsChain(def, n.p, [n.c]);
    assert IsChain(def, n.r, [n.p, n.c]) by { assert [n.p, n.c][1..] == [n.c]; }
    c := if s == n.p then [n.c] else if s == n.r then [n.p, n.c] else if s == n.x then [n.r, n.p, n.c] else [];
    assert |c| == 3 ==> c[1..] == [n.p, n.c];
  }

  lemma BurialHasNoCycle(n: Burial, def: Definition, exits: bool)
    requires BurialApart(n) && IsBurial(n, def, exits)
    ensures !HasParentCycle(def)
  {
    forall w | |w| >= 1 ensures !IsParentCycle(def, w) {
      var c := BurialHasChain(n, def, exits, w[0]);
      ChainMeansNoCycle(def, w, c);
    }
  }

  /** Compiling either definition gives a machine that the lemmas above speak about. */
  method CompileBurial(exits: bool) returns (cm: CompiledMachine)
    ensures BurialApart(BURIAL) && IsBurial(BURIAL, cm.def, exits) && Faithful(cm)
  {
    BurialExists();
    var def := Definition("t", "w", 1, BurialStates(BURIAL), BurialTransitions(BURIAL, exits), BURIAL.wait);
    BurialIsOne(BURIAL, def, exits);
    BurialIsNested(BURIAL, def, exits);
    BurialIsWired(BURIAL, def, exits);
    BurialHasNoCycle(BURIAL, def, exits);
    var r := Compile.Compile(def);
    cm := r.value;
  }
}
