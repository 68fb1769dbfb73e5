/** A run that fails and then succeeds: the stuck mark of the failure outlives the success
    (internal/runtime/executor.go:315-380). */
module FailingEntry {
  import opened Definitions
  import opened Hierarchy
  import opened Compile
  import opened Validate
  import opened Step
  import opened Machines
  import opened Orthogonal
  import opened Counterexamples

  /** Two leaves; entering the second runs an activity. */
  datatype Pair = Pair(wait: string, end: string, activity: string)

  predicate PairApart(n: Pair) {
    "" !in {n.wait, n.end, n.activity} && n.wait != n.end
  }

  ghost predicate IsPair(n: Pair, def: Definition) {
    && def.states.Keys == {n.wait, n.end}
    && def.states[n.wait] == Plain(n.wait, "").(isInitial := true)
    && def.states[n.end] == Plain(n.end, "").(isTerminal := true, entryActivity := n.activity)
    && def.transitions.Keys == {"s"} && def.transitions["s"] == Go("s", n.wait, n.end) && def.initialState == n.wait
  }

  lemma PairIsWired(n: Pair, def: Definition)
    requires PairApart(n) && IsPair(n, def)
    ensures Wired(def) && ParentsExist(def) && CompoundsHaveInitial(def) && ParallelStatesOk(def)
  {
    forall s | s in def.states ensures WiredState(def, s) {}
  }

  lemma PairIsTargeted(n: Pair, def: Definition)
    requires PairApart(n) && IsPair(n, def)
    ensures Targeted(def) && StatesKnown(def)
  {}

  lemma PairEscapes(n: Pair, def: Definition)
    requires PairApart(n) && IsPair(n, def)
    ensures NoDeadEnds(def)
  {
    assert n.wait in def.transitions["s"].sources;
    assert LeavesAt(def, n.wait, 0);
  }

  lemma PairStartsOnce(n: Pair, def: Definition)
    requires PairApart(n) && IsPair(n, def)
    ensures OneInitialState(def) && HasTerminalState(def) && CompoundNotTerminal(def) && InitialNotCompound(def)
    ensures WaitLeafOnly(def)
  {
    assert InitialStates(def) == {n.wait};
    assert def.states[n.end].isTerminal;
  }

  lemma PairIsReachable(n: Pair, def: Definition)
    requires PairApart(n) && IsPair(n, def)
    ensures AllReachable(def)
  {
    assert IsPath(def, [n.wait]);
    assert "s" in def.transitions && FiresTo(def, n.wait, n.end);
    ReachableStep(def, n.wait, n.end);
  }

  lemma PairIsAccepted(n: Pair, cm: CompiledMachine)
    requires PairApart(n) && IsPair(n, cm.def) && Faithful(cm)
    ensures Wired(cm.def) && Validated(cm.def) && Machine(cm)
  {
    PairIsWired(n, cm.def);
    PairIsTargeted(n, cm.def);
    PairEscapes(n, cm.def);
    PairStartsOnce(n, cm.def);
    PairIsReachable(n, cm.def);
  }

  /** Every activity fails; there are no savepoints and the commit succeeds. */
  function Rough(now: int): Call {
    Smooth(now).(fails := k => true, savepoints := false)
  }

  lemma PairValid(n: Pair, cm: CompiledMachine, inst: Instance, call: Call)
    requires PairApart(n) && IsPair(n, cm.def) && TransitionsProper(cm) && inst.currentState == n.wait
    ensures ValidateTransition(cm, inst, "s", call) == Ok((Go("s", n.wait, n.end), n.end))
  {
    var tr := Go("s", n.wait, n.end);
    assert "s" in cm.def.transitions && cm.def.transitions["s"] == tr;
    assert TransitionProper(cm, "s", tr) && n.wait in tr.sources;
  }

  lemma OneAct(def: Definition, s: string)
    ensures ExitActs(def, [s]) == ExitActOf(def, s) && EntryActs(def, [s]) == EntryActOf(def, s)
  {
    assert [s][1..] == [];
  }

  lemma PairIsFlat(n: Pair, cm: CompiledMachine)
    requires PairApart(n) && IsPair(n, cm.def) && Faithful(cm)
    ensures Anc(cm, n.wait) == [] && Anc(cm, n.end) == [] && LeafOf(cm, n.end) == n.end && n.end !in cm.regions
  {
    AncUnfold(cm, n.wait);
    AncUnfold(cm, n.end);
    assert !IsPlainCompound(cm.def, n.end) && !IsParallel(cm.def, n.end);
  }

  lemma FlatPlan(cm: CompiledMachine, inst: Instance, tr: TransitionDef, target: string)
    requires Anc(cm, inst.currentState) == [] && Anc(cm, target) == [] && target !in cm.regions
    requires LeafOf(cm, target) == target && tr.historyMode == NoHistory
    ensures PlanFor(cm, inst, tr, target) == Plan(target, [inst.currentState], [target])
  {}

  /** Nothing runs on the way out, the activity on the way in. */
  lemma PairPlan(n: Pair, cm: CompiledMachine, inst: Instance)
    requires PairApart(n) && IsPair(n, cm.def) && Faithful(cm) && inst.currentState == n.wait
    ensures var tr := Go("s", n.wait, n.end);
      && PlanFor(cm, inst, tr, n.end).resolved == n.end
      && ExitActivities(cm, inst, tr, n.end) == []
        && EntryActivities(cm, inst, tr, n.end) == [EntryAct(n.end, n.activity)]
  {
    PairIsFlat(n, cm);
    FlatPlan(cm, inst, Go("s", n.wait, n.end), n.end);
    OneAct(cm.def, n.wait);
    OneAct(cm.def, n.end);
  }

  lemma Fails(n: Pair, cm: CompiledMachine, inst: Instance)
    requires PairApart(n) && IsPair(n, cm.def) && Faithful(cm) && TransitionsProper(cm)
    requires inst.currentState == n.wait && inst.active == map[]
    ensures var after := After(inst, Transition(cm, inst, "s", Rough(1)));
      after.currentState == n.wait && after.active == map[] && after.isStuck
  {
    PairValid(n, cm, inst, Rough(1));
    PairPlan(n, cm, inst);
    EntryFailureSticks(cm, inst, Go("s", n.wait, n.end), n.end, Rough(1), 0);
  }

  lemma Succeeds(n: Pair, cm: CompiledMachine, inst: Instance)
    requires PairApart(n) && IsPair(n, cm.def) && Faithful(cm) && TransitionsProper(cm)
    requires inst.currentState == n.wait && inst.active == map[]
    ensures var e := Transition(cm, inst, "s", Smooth(2));
      e.outcome.Done? && After(inst, e).currentState == n.end && After(inst, e).isStuck == inst.isStuck
  {
    PairValid(n, cm, inst, Smooth(2));
    PairPlan(n, cm, inst);
    SuccessMoves(cm, inst, Go("s", n.wait, n.end), n.end, Smooth(2));
  }

  /** The entry activity fails once and then succeeds: the instance has arrived, at a terminal state even, and is
      still marked stuck. */
  lemma SuccessLeavesMark(n: Pair, cm: CompiledMachine, header: Header)
    requires PairApart(n) && IsPair(n, cm.def) && Faithful(cm)
    ensures Validated(cm.def) && Machine(cm)
    ensures var inst := Run(cm, NewInstance(cm, header), [Fire("s", Rough(1)), Fire("s", Smooth(2))]);
      inst.currentState == n.end && inst.isStuck
  {
    PairIsAccepted(n, cm);
    MachineIsSane(cm);
    var a := NewInstance(cm, header);
    assert !IsPlainCompound(cm.def, n.wait);
    Fails(n, cm, a);
    Succeeds(n, cm, After(a, Transition(cm, a, "s", Rough(1))));
    TwoSteps(cm, a, Fire("s", Rough(1)), Fire("s", Smooth(2)));
  }

  lemma PairHasNoCycle(n: Pair, def: Definition)
    requires PairApart(n) && IsPair(n, def)
    ensures !HasParentCycle(def)
  {
    forall w | |w| >= 2 ensures !IsParentCycle(def, w) { assert !Climbs(def, w, 0); }
  }

  /** Such a machine, compiled. */
  method CompilePair() returns (n: Pair, cm: CompiledMachine)
    ensures PairApart(n) && IsPair(n, cm.def) && Faithful(cm)
  {
    n := Pair("1", "22", "333");
    assert |n.wait| == 1 && |n.end| == 2 && |n.activity| == 3;
    var states := map[n.wait := Plain(n.wait, "").(isInitial := true),
                      n.end := Plain(n.end, "").(isTerminal := true, entryActivity := n.activity)];
    var def := Definition("t", "w", 1, states, map["s" := Go("s", n.wait, n.end)], n.wait);
    assert def.states.Keys == {n.wait, n.end};
    forall s | s in def.states ensures WiredState(def, s) {}
    PairHasNoCycle(n, def);
    var r := Compile.Compile(def);
    cm := r.value;
  }
}
