/** What the history says about any compound, inside parallel states too: in every run it is the leaf of the
    last step that recorded an exit of it. Steps inside a parallel state record nothing, so a compound
    they leave keeps its earlier record (internal/runtime/executor.go:278-282,
    internal/runtime/parallel.go:163-291 and 309-323). */
module Recording {
  import opened Definitions
  import opened Hierarchy
  import opened Step
  import opened Machines
  import opened Configuration
  import opened Recall

  /** The leaf that a stored step records for `c`, if it records one: plain steps record the compounds on the
      way out, finished or stuck; leaving a parallel state those above its active leaves. */
  ghost function RecordedLeaf(cm: CompiledMachine, inst: Instance, name: string, call: Call,
                              c: string): Option<string> {
    if |inst.active| == 0 then
      var v := ValidateTransition(cm, inst, name, call);
      if v.Ok? && c in PlanFor(cm, inst, v.value.0, v.value.1).exits then Some(inst.currentState) else None
    else if name in cm.def.transitions && inst.currentState in cm.def.transitions[name].sources then
      LeafBelow(cm, inst, c)
    else None
  }

  /** The active leaf below `c` when `c` lies inside the current parallel state. */
  ghost function LeafBelow(cm: CompiledMachine, inst: Instance, c: string): Option<string> {
    if r :| r in inst.active && Between(cm, c, inst.active[r], inst.currentState) then Some(inst.active[r]) else None
  }

  ghost function NextRecord(cm: CompiledMachine, inst: Instance, op: Op, c: string,
                            last: Option<string>): Option<string> {
    if Perform(cm, inst, op).written.None? then last
    else match op
      case Force(_, _) => None
      case Fire(name, call) =>
        var leaf := RecordedLeaf(cm, inst, name, call, c);
        if leaf.Some? then leaf else last
  }

  ghost function LastRecorded(cm: CompiledMachine, inst: Instance, ops: seq<Op>, c: string): Option<string>
    decreases |ops|
  {
    if ops == [] then None
    else
      var n := |ops| - 1;
      NextRecord(cm, Run(cm, inst, ops[..n]), ops[n], c, LastRecorded(cm, inst, ops[..n], c))
  }

  lemma PlainHistory(cm: CompiledMachine, inst: Instance, tr: TransitionDef, target: string, call: Call)
    ensures var e := CommitPlain(cm, inst, tr, target, call);
      e.written.Some? ==>
        HistoryOf(e.written.value)
        == HistoryOf(Recorded(cm.def, inst, inst.currentState, PlanFor(cm, inst, tr, target).exits))
  {}

  lemma PlainRecords(cm: CompiledMachine, inst: Instance, tr: TransitionDef, target: string, call: Call, c: string,
                     last: Option<string>)
    requires ChainsOk(cm) && inst.currentState != "" && IsLeaf(cm.def, inst.currentState) && IsCompound(cm.def, c)
    requires Matches(cm, HistoryOf(inst), c, last) && CommitPlain(cm, inst, tr, target, call).written.Some?
    ensures Matches(cm, HistoryOf(CommitPlain(cm, inst, tr, target, call).written.value), c,
                    if c in PlanFor(cm, inst, tr, target).exits then Some(inst.currentState) else last)
  {
    PlainHistory(cm, inst, tr, target, call);
    var plan := PlanFor(cm, inst, tr, target);
    RecordExact(cm, HistoryOf(inst), inst.currentState, Lca(cm, inst.currentState, plan.resolved), c);
  }

  lemma ExitRecordsAll(cm: CompiledMachine, inst: Instance, tr: TransitionDef, target: string, call: Call, c: string,
                       last: Option<string>)
    requires ChainsOk(cm) && RegionsProper(cm) && "" !in cm.def.states
    requires RestsWell(cm, inst) && IsParallel(cm.def, inst.currentState) && IsCompound(cm.def, c)
    requires Matches(cm, HistoryOf(inst), c, last) && CommitParallelExit(cm, inst, tr, target, call).written.Some?
    ensures Matches(cm, HistoryOf(CommitParallelExit(cm, inst, tr, target, call).written.value), c,
                    if LeafBelow(cm, inst, c).Some? then LeafBelow(cm, inst, c) else last)
  {
    ParallelExitRecords(cm, inst, tr, target, call, c);
  }

  /** A step inside a parallel state leaves the history as it is, whatever compounds it exits. */
  lemma InnerStepsRecordNothing(cm: CompiledMachine, inst: Instance, name: string, cs: seq<Candidate>, call: Call)
    requires cs != []
    ensures HistoryOf(After(inst, CommitParallelIntra(cm, inst, name, cs, call))) == HistoryOf(inst)
  {}

  lemma ParallelRecords(cm: CompiledMachine, inst: Instance, name: string, call: Call, c: string, last: Option<string>)
    requires ChainsOk(cm) && RegionsProper(cm) && "" !in cm.def.states
    requires RestsWell(cm, inst) && |inst.active| > 0 && IsCompound(cm.def, c)
    requires Matches(cm, HistoryOf(inst), c, last) && ParallelTransition(cm, inst, name, call).written.Some?
    ensures var leaf := RecordedLeaf(cm, inst, name, call, c);
      Matches(cm, HistoryOf(ParallelTransition(cm, inst, name, call).written.value), c, if leaf.Some? then leaf
              else last)
  {
    ActiveMeansParallel(cm, inst);
    ParallelOutcomes(cm, inst, name, call);
    if inst.currentState in cm.def.transitions[name].sources {
      var v := ValidateTransition(cm, inst, name, call).value;
      ExitRecordsAll(cm, inst, v.0, v.1, call, c, last);
    } else {
      var cs := AllCandidates(cm, inst, name, call).value;
      InnerStepsRecordNothing(cm, inst, name, cs, call);
    }
  }

  lemma PlainStepRecords(cm: CompiledMachine, inst: Instance, name: string, call: Call, c: string, last: Option<string>)
    requires ChainsOk(cm) && RegionsProper(cm) && "" !in cm.def.states
    requires RestsWell(cm, inst) && |inst.active| == 0 && IsCompound(cm.def, c)
    requires Matches(cm, HistoryOf(inst), c, last) && PlainTransition(cm, inst, name, call).written.Some?
    ensures var leaf := RecordedLeaf(cm, inst, name, call, c);
      Matches(cm, HistoryOf(PlainTransition(cm, inst, name, call).written.value), c, if leaf.Some? then leaf else last)
  {
    ActiveMeansParallel(cm, inst);
    var v := ValidateTransition(cm, inst, name, call).value;
    PlainRecords(cm, inst, v.0, v.1, call, c, last);
  }

  lemma ForceRecords(cm: CompiledMachine, inst: Instance, target: string, call: Call, c: string)
    ensures var e := ForceState(cm, inst, target, call);
      e.written.Some? ==> Matches(cm, HistoryOf(e.written.value), c, None)
  {}

  lemma StepRecords(cm: CompiledMachine, inst: Instance, op: Op, c: string, last: Option<string>)
    requires ChainsOk(cm) && RegionsProper(cm) && "" !in cm.def.states && RestsWell(cm, inst) && IsCompound(cm.def, c)
    requires Matches(cm, HistoryOf(inst), c, last)
    ensures Matches(cm, HistoryOf(After(inst, Perform(cm, inst, op))), c, NextRecord(cm, inst, op, c, last))
  {
    match op
    case Force(target, call) => ForceRecords(cm, inst, target, call, c);
    case Fire(name, call) =>
      if Perform(cm, inst, op).written.Some? {
        if |inst.active| > 0 {
          ParallelRecords(cm, inst, name, call, c, last);
        } else {
          PlainStepRecords(cm, inst, name, call, c, last);
        }
      }
  }

  /** In every run, for every compound, active or not, inside a parallel state or not: the history is what the
      last recording step left, and absent without one since the last forced state. */
  lemma {:induction false} EveryRunRecords(cm: CompiledMachine, header: Header, ops: seq<Op>, c: string)
    requires Machine(cm) && RegionLocal(cm) && StartsAtRest(cm) && "" !in cm.def.states && IsCompound(cm.def, c)
    ensures var inst := NewInstance(cm, header);
      Matches(cm, HistoryOf(Run(cm, inst, ops)), c, LastRecorded(cm, inst, ops, c))
  {
    if ops != [] {
      var n := |ops| - 1;
      EveryRunRecords(cm, header, ops[..n], c);
      EveryRunRests(cm, header, ops[..n]);
      MachineIsSane(cm);
      LastStep(cm, NewInstance(cm, header), ops, c);
    }
  }

  lemma LastStep(cm: CompiledMachine, inst: Instance, ops: seq<Op>, c: string)
    requires ops != [] && ChainsOk(cm) && RegionsProper(cm) && "" !in cm.def.states && IsCompound(cm.def, c)
    requires RestsWell(cm, Run(cm, inst, ops[..|ops| - 1]))
    requires Matches(cm, HistoryOf(Run(cm, inst, ops[..|ops| - 1])), c, LastRecorded(cm, inst, ops[..|ops| - 1], c))
    ensures Matches(cm, HistoryOf(Run(cm, inst, ops)), c, LastRecorded(cm, inst, ops, c))
  {
    var n := |ops| - 1;
    StepRecords(cm, Run(cm, inst, ops[..n]), ops[n], c, LastRecorded(cm, inst, ops[..n], c));
  }
}
