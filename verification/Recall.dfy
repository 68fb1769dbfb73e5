/** History states: in every run the recorded history is the last leaf at the most recent exit, so
    resuming a compound state returns to where it was left (internal/runtime/executor.go:220-247,
    278-282, 503-504 and internal/runtime/helpers.go:137-170). */
module Recall {
  import opened Definitions
  import opened Hierarchy
  import opened Compile
  import opened Step
  import opened Machines
  import opened Configuration

  // ---- What a run looked like from outside ------------------------------------------------------------------

  /** One performed operation: the current state before and after, and whether it forced the state. */
  datatype Stride = Stride(before: string, after: string, forced: bool)

  ghost function Trace(cm: CompiledMachine, inst: Instance, ops: seq<Op>): seq<Stride>
    decreases |ops|
  {
    if ops == [] then []
    else
      var was := Run(cm, inst, ops[..|ops| - 1]);
      var effect := Perform(cm, was, ops[|ops| - 1]);
      Trace(cm, inst, ops[..|ops| - 1])
      + [Stride(was.currentState, After(was, effect).currentState, ops[|ops| - 1].Force? && effect.written.Some?)]
  }

  /** The leaf that was left when `c` was last exited; none if it never was, or not since a forced state. */
  function LastLeaf(cm: CompiledMachine, trace: seq<Stride>, c: string): Option<string> {
    if trace == [] then None
    else
      var last := trace[|trace| - 1];
      if last.forced then None
      else if c in Config(cm, last.before) && c !in Config(cm, last.after) then Some(last.before)
      else LastLeaf(cm, trace[..|trace| - 1], c)
  }

  /** `x` is the child of `c` on the way from `c` down to `leaf`. */
  predicate IsChildToward(cm: CompiledMachine, x: string, c: string, leaf: string) {
    x in Config(cm, leaf) && ParentOf(cm.def, x) == c
  }

  ghost predicate Matches(cm: CompiledMachine, h: History, c: string, last: Option<string>) {
    match last
    case None => c !in h.deep && c !in h.shallow
    case Some(leaf) => && c in h.deep && h.deep[c] == leaf
                       && c in h.shallow && IsChildToward(cm, h.shallow[c], c, leaf)
  }

  /** A plain compound that lies in no parallel state and above none. */
  ghost predicate Outside(cm: CompiledMachine, c: string) {
    && IsPlainCompound(cm.def, c)
    && (forall a :: a in Anc(cm, c) ==> !IsParallel(cm.def, a))
    && (forall p :: IsParallel(cm.def, p) ==> c !in Anc(cm, p))
  }

  ghost predicate HistoryExact(cm: CompiledMachine, inst: Instance, trace: seq<Stride>) {
    forall c :: Outside(cm, c) && c !in Config(cm, inst.currentState) ==>
        Matches(cm, HistoryOf(inst), c, LastLeaf(cm, trace, c))
  }

  // ---- Recording one exit ------------------------------------------------------------------------------------------

  /** The same history at one compound. */
  predicate SameAt(h: History, h': History, c: string) {
    && (c in h.deep <==> c in h'.deep) && (c in h.deep && c in h'.deep ==> h.deep[c] == h'.deep[c])
    && (c in h.shallow <==> c in h'.shallow) && (c in h.shallow && c in h'.shallow ==> h.shallow[c] == h'.shallow[c])
  }

  lemma {:induction false} ChildAmongFinds(def: Definition, exits: seq<string>, c: string, i: nat)
    requires i < |exits| && ParentOf(def, exits[i]) == c && "" !in exits
    ensures var x := ChildAmong(def, exits, c); x != "" && x in exits && ParentOf(def, x) == c
  {
    if ParentOf(def, exits[0]) != c { ChildAmongFinds(def, exits[1..], c, i - 1); }
  }

  lemma {:induction false} RecordUntouched(def: Definition, h: History, leaf: string, exits: seq<string>, n: nat,
                                           c: string)
    requires n <= |exits| && (c !in exits || ChildAmong(def, exits, c) == "" || !IsCompound(def, c))
    ensures SameAt(h, Record(def, h, leaf, exits, n), c)
  {
    if n > 0 {
      RecordUntouched(def, h, leaf, exits, n - 1, c);
      assert exits[n - 1] in exits;
    }
  }

  lemma {:induction false} RecordSets(def: Definition, h: History, leaf: string, exits: seq<string>, n: nat, i: nat)
    requires i < n <= |exits| && IsCompound(def, exits[i]) && ChildAmong(def, exits, exits[i]) != ""
    ensures var r := Record(def, h, leaf, exits, n);
      && exits[i] in r.deep && r.deep[exits[i]] == leaf
      && exits[i] in r.shallow && r.shallow[exits[i]] == ChildAmong(def, exits, exits[i])
  {
    if i < n - 1 { RecordSets(def, h, leaf, exits, n - 1, i); }
  }

  /** Leaving `leaf` up to `lca` records exactly the compounds that are left, with that leaf. */
  lemma RecordExact(cm: CompiledMachine, h: History, leaf: string, lca: string, c: string)
    requires ChainsOk(cm) && leaf != "" && IsLeaf(cm.def, leaf) && IsCompound(cm.def, c)
    ensures var exits := ExitSeq(cm, leaf, lca);
      var h' := Record(cm.def, h, leaf, exits, |exits|);
      if c in exits then Matches(cm, h', c, Some(leaf)) else SameAt(h, h', c)
  {
    var exits := ExitSeq(cm, leaf, lca);
    if c in exits {
      var i :| 0 <= i < |exits| && exits[i] == c;
      ChainOrdered(cm, leaf, |exits|);
      var up := ([leaf] + Anc(cm, leaf))[..|exits|];
      assert exits == up;
      assert i > 0 && ParentOf(cm.def, up[i - 1]) == up[i];
      AncUnfold(cm, leaf);
      ChildAmongFinds(cm.def, exits, c, i - 1);
      RecordSets(cm.def, h, leaf, exits, |exits|, i);
      ExitsInConfig(cm, leaf, lca);
      assert ChildAmong(cm.def, exits, c) in Elements(exits);
    } else {
      RecordUntouched(cm.def, h, leaf, exits, |exits|, c);
    }
  }

  // ---- Plain steps ------------------------------------------------------------------------------

  /** A compound of the source's configuration that is missing from the target's has been exited. */
  lemma LeftMeansExited(cm: CompiledMachine, s: string, t: string, c: string)
    requires ChainsOk(cm)
    ensures c in Config(cm, s) && c !in Config(cm, t) ==> c in ExitSeq(cm, s, Lca(cm, s, t))
    ensures c !in Config(cm, s) ==> c !in ExitSeq(cm, s, Lca(cm, s, t))
  {
    SequencesExact(cm, s, t);
    var exits := ExitSeq(cm, s, Lca(cm, s, t));
    ExitsInConfig(cm, s, Lca(cm, s, t));
    assert c in exits <==> c in Elements(exits);
  }

  lemma PlainArrivalExact(cm: CompiledMachine, inst: Instance, trace: seq<Stride>, target: string, c: string)
    requires ChainsOk(cm) && HistoryExact(cm, inst, trace) && inst.currentState != ""
             && IsLeaf(cm.def, inst.currentState)
    requires Outside(cm, c) && c !in Config(cm, target)
    ensures var s := inst.currentState;
      var left := Recorded(cm.def, inst, s, ExitSeq(cm, s, Lca(cm, s, target)));
      Matches(cm, HistoryOf(left), c, LastLeaf(cm, trace + [Stride(s, target, false)], c))
  {
    var s := inst.currentState;
    RecordExact(cm, HistoryOf(inst), s, Lca(cm, s, target), c);
    LeftMeansExited(cm, s, target, c);
    var longer := trace + [Stride(s, target, false)];
    assert longer[..|longer| - 1] == trace;
  }

  lemma PlainStuckExact(cm: CompiledMachine, inst: Instance, trace: seq<Stride>, target: string, c: string)
    requires ChainsOk(cm) && HistoryExact(cm, inst, trace) && inst.currentState != ""
             && IsLeaf(cm.def, inst.currentState)
    requires Outside(cm, c) && c !in Config(cm, inst.currentState)
    ensures var s := inst.currentState;
      var left := Recorded(cm.def, inst, s, ExitSeq(cm, s, Lca(cm, s, target)));
      Matches(cm, HistoryOf(left), c, LastLeaf(cm, trace, c))
  {
    var s := inst.currentState;
    RecordExact(cm, HistoryOf(inst), s, Lca(cm, s, target), c);
    LeftMeansExited(cm, s, target, c);
  }

  /** A step that stays leaves the last exits what they were. */
  lemma StayExact(cm: CompiledMachine, trace: seq<Stride>, s: string, c: string)
    ensures LastLeaf(cm, trace + [Stride(s, s, false)], c) == LastLeaf(cm, trace, c)
  {
    var longer := trace + [Stride(s, s, false)];
    assert longer[..|longer| - 1] == trace;
  }

  lemma PlainExact(cm: CompiledMachine, inst: Instance, trace: seq<Stride>, tr: TransitionDef, target: string,
                   call: Call)
    requires ChainsOk(cm) && HistoryExact(cm, inst, trace) && inst.currentState != ""
             && IsLeaf(cm.def, inst.currentState)
    ensures var after := After(inst, CommitPlain(cm, inst, tr, target, call));
      HistoryExact(cm, after, trace + [Stride(inst.currentState, after.currentState, false)])
  {
    var s := inst.currentState;
    var after := After(inst, CommitPlain(cm, inst, tr, target, call));
    PlainOutcomes(cm, inst, tr, target, call);
    var plan := PlanFor(cm, inst, tr, target);
    forall c | Outside(cm, c) && c !in Config(cm, after.currentState)
      ensures Matches(cm, HistoryOf(after), c, LastLeaf(cm, trace + [Stride(s, after.currentState, false)], c))
    {
      StayExact(cm, trace, s, c);
      if after == Arrive(cm, Recorded(cm.def, inst, s, plan.exits), plan.resolved, call.now) {
        PlainArrivalExact(cm, inst, trace, plan.resolved, c);
      } else if after != inst {
        PlainStuckExact(cm, inst, trace, plan.resolved, c);
      }
    }
  }

  // ---- Steps in parallel states -----------------------------------------------------------------

  /** What lies on the way from an active leaf up to the parallel state. */
  lemma BelowParallel(cm: CompiledMachine, leaf: string, p: string, c: string)
    requires ChainsOk(cm) && p in Anc(cm, leaf) && p != "" && c != leaf
    ensures c in ExitSeq(cm, leaf, p) <==> c in Anc(cm, leaf) && p in Anc(cm, c)
  {
    var a := Anc(cm, leaf);
    var i := FirstIn(a, {p});
    AncDistinct(cm, leaf);
    if c in a {
      var k :| 0 <= k < |a| && a[k] == c;
      AncTail(cm, leaf, k);
      if k < i {
        assert a[..i][k] == c && a[k + 1..][i - k - 1] == p;
      } else {
        forall j | k < j < |a| ensures a[j] != p { assert a[j] != a[i]; }
        assert p !in a[k + 1..];
      }
    }
  }

  /** `c` lies strictly between `p` and `leaf`. */
  predicate Between(cm: CompiledMachine, c: string, leaf: string, p: string) {
    c in Anc(cm, leaf) && p in Anc(cm, c)
  }

  ghost predicate ActiveRegion(cm: CompiledMachine, inst: Instance, p: string, r: string) {
    r in inst.active && InRegion(cm, inst.active[r], r) && inst.active[r] != "" && IsRegion(cm, p, r)
  }

  lemma OneRegionRecords(cm: CompiledMachine, h: History, leaf: string, p: string, r: string, c: string)
    requires ChainsOk(cm) && IsCompound(cm.def, c) && InRegion(cm, leaf, r) && leaf != "" && IsRegion(cm, p, r)
    ensures var exits := ExitSeq(cm, leaf, p);
      var h' := Record(cm.def, h, leaf, exits, |exits|);
      if Between(cm, c, leaf, p) then Matches(cm, h', c, Some(leaf)) else SameAt(h, h', c)
  {
    AncUnfold(cm, r);
    AncTransitive(cm, leaf, r, p);
    BelowParallel(cm, leaf, p, c);
    RecordExact(cm, h, leaf, p, c);
  }

  /** Leaving parallel state `p` touches no compound at or above `p` or elsewhere ... */
  lemma {:induction false} RegionsUntouched(cm: CompiledMachine, inst: Instance, p: string, regions: seq<string>,
                                            n: nat, c: string)
    requires ChainsOk(cm) && n <= |regions| && IsCompound(cm.def, c)
    requires forall r :: r in regions ==>
      r in inst.active && ActiveRegion(cm, inst, p, r) && !Between(cm, c, inst.active[r], p)
    ensures SameAt(HistoryOf(inst), HistoryOf(RecordedRegions(cm, inst, p, regions, n)), c)
  {
    if n > 0 {
      RegionsUntouched(cm, inst, p, regions, n - 1, c);
      var r := regions[n - 1];
      assert ActiveRegion(cm, inst, p, r) && !Between(cm, c, inst.active[r], p);
      OneRegionRecords(cm, HistoryOf(RecordedRegions(cm, inst, p, regions, n - 1)), inst.active[r], p, r, c);
    }
  }

  /** ... and refreshes each compound between `p` and its active leaves with the leaf of its own region. */
  lemma {:induction false} RegionsRefreshed(cm: CompiledMachine, inst: Instance, p: string, regions: seq<string>,
                                            n: nat, i: nat, c: string)
    requires ChainsOk(cm) && i < n <= |regions| && IsCompound(cm.def, c)
    requires forall r :: r in regions ==> r in inst.active && ActiveRegion(cm, inst, p, r)
    requires regions[i] in inst.active && Between(cm, c, inst.active[regions[i]], p)
    ensures Matches(cm, HistoryOf(RecordedRegions(cm, inst, p, regions, n)), c, Some(inst.active[regions[i]]))
  {
    var r := regions[n - 1];
    var h := HistoryOf(RecordedRegions(cm, inst, p, regions, n - 1));
    assert ActiveRegion(cm, inst, p, r) && ActiveRegion(cm, inst, p, regions[i]);
    OneRegionRecords(cm, h, inst.active[r], p, r, c);
    if i < n - 1 {
      RegionsRefreshed(cm, inst, p, regions, n - 1, i, c);
      assert Between(cm, c, inst.active[r], p) ==> regions[i] == r by {
        if Between(cm, c, inst.active[r], p) {
          OneRegionPerState(cm, p, regions[i], r, inst.active[regions[i]], inst.active[r], c);
        }
      }
    }
  }

  lemma AllRegionsRecord(cm: CompiledMachine, inst: Instance, c: string)
    requires ChainsOk(cm) && RegionsProper(cm) && "" !in cm.def.states
    requires RestsWell(cm, inst) && IsParallel(cm.def, inst.currentState) && IsCompound(cm.def, c)
    ensures var p, regions := inst.currentState, ActiveRegions(inst);
      var h' := HistoryOf(RecordedRegions(cm, inst, p, regions, |regions|));
      && (forall r :: r in inst.active && Between(cm, c, inst.active[r], p) ==>
          Matches(cm, h', c, Some(inst.active[r])))
      && ((forall r :: r in inst.active ==> !Between(cm, c, inst.active[r], p)) ==> SameAt(HistoryOf(inst), h', c))
  {
    var p, regions := inst.currentState, ActiveRegions(inst);
    forall r | r in regions ensures ActiveRegion(cm, inst, p, r) {
      assert r in Elements(RegionsOf(cm, p)) && InRegion(cm, inst.active[r], r);
    }
    forall r | r in inst.active && Between(cm, c, inst.active[r], p)
      ensures Matches(cm, HistoryOf(RecordedRegions(cm, inst, p, regions, |regions|)), c, Some(inst.active[r]))
    {
      var i :| 0 <= i < |regions| && regions[i] == r;
      RegionsRefreshed(cm, inst, p, regions, |regions|, i, c);
    }
    if forall r :: r in inst.active ==> !Between(cm, c, inst.active[r], p) {
      RegionsUntouched(cm, inst, p, regions, |regions|, c);
    }
  }

  /** What a committed exit of a parallel state records. */
  lemma ParallelExitRecords(cm: CompiledMachine, inst: Instance, tr: TransitionDef, target: string, call: Call,
                            c: string)
    requires ChainsOk(cm) && RegionsProper(cm) && "" !in cm.def.states
    requires RestsWell(cm, inst) && IsParallel(cm.def, inst.currentState) && IsCompound(cm.def, c)
    requires CommitParallelExit(cm, inst, tr, target, call).written.Some?
    ensures var p := inst.currentState;
      var h' := HistoryOf(CommitParallelExit(cm, inst, tr, target, call).written.value);
      && (forall r :: r in inst.active && Between(cm, c, inst.active[r], p) ==>
          Matches(cm, h', c, Some(inst.active[r])))
      && ((forall r :: r in inst.active ==> !Between(cm, c, inst.active[r], p)) ==> SameAt(HistoryOf(inst), h', c))
  {
    ExitOutcomes(cm, inst, tr, target, call);
    AllRegionsRecord(cm, inst, c);
  }

  /** A state between `p` and two active leaves lies in one region, the same for both. */
  lemma OneRegionPerState(cm: CompiledMachine, p: string, a: string, b: string, leafA: string, leafB: string, c: string)
    requires ChainsOk(cm) && IsRegion(cm, p, a) && IsRegion(cm, p, b) && p in Anc(cm, c)
    requires a in Anc(cm, leafA) && c in Anc(cm, leafA) && b in Anc(cm, leafB) && c in Anc(cm, leafB)
    ensures a == b
  {
    RegionAbove(cm, p, a, leafA, c);
    RegionAbove(cm, p, b, leafB, c);
    if c != a && c != b {
      RegionsDisjoint(cm, p, a, b, c);
    } else {
      AncUnfold(cm, a);
      AncUnfold(cm, b);
      AncDistinct(cm, a);
      AncDistinct(cm, b);
      AncDistinct(cm, p);
    }
  }

  lemma RegionAbove(cm: CompiledMachine, p: string, r: string, leaf: string, c: string)
    requires ChainsOk(cm) && IsRegion(cm, p, r) && r in Anc(cm, leaf) && c in Anc(cm, leaf) && p in Anc(cm, c)
    ensures c == r || r in Anc(cm, c)
  {
    AncLinear(cm, leaf, c, r);
    AncUnfold(cm, r);
    if c in Anc(cm, r) && c != r {
      assert c in [p] + Anc(cm, p);
      if c in Anc(cm, p) { AncTransitive(cm, p, c, p); }
      AncDistinct(cm, p);
      assert false;
    }
  }

  lemma ExitStride(cm: CompiledMachine, inst: Instance, trace: seq<Stride>, h': History, to: string, c: string)
    requires ChainsOk(cm) && "" !in cm.def.states && IsParallel(cm.def, inst.currentState)
             && HistoryExact(cm, inst, trace)
    requires Outside(cm, c) && inst.currentState !in Anc(cm, c) ==> SameAt(HistoryOf(inst), h', c)
    requires Outside(cm, c) && c !in Config(cm, to)
    ensures Matches(cm, h', c, LastLeaf(cm, trace + [Stride(inst.currentState, to, false)], c))
  {
    var longer := trace + [Stride(inst.currentState, to, false)];
    assert longer[..|longer| - 1] == trace;
    assert c !in Config(cm, inst.currentState);
    assert inst.currentState !in Anc(cm, c);
  }

  lemma ExitExact(cm: CompiledMachine, inst: Instance, trace: seq<Stride>, tr: TransitionDef, target: string,
                  call: Call)
    requires ChainsOk(cm) && RegionsProper(cm) && "" !in cm.def.states && RestsWell(cm, inst)
             && IsParallel(cm.def, inst.currentState)
    requires HistoryExact(cm, inst, trace)
    ensures var after := After(inst, CommitParallelExit(cm, inst, tr, target, call));
      HistoryExact(cm, after, trace + [Stride(inst.currentState, after.currentState, false)])
  {
    var p := inst.currentState;
    var effect := CommitParallelExit(cm, inst, tr, target, call);
    var after := After(inst, effect);
    forall c | Outside(cm, c) && c !in Config(cm, after.currentState)
      ensures Matches(cm, HistoryOf(after), c, LastLeaf(cm, trace + [Stride(p, after.currentState, false)], c))
    {
      if effect.written.Some? { ParallelExitRecords(cm, inst, tr, target, call, c); }
      ExitStride(cm, inst, trace, HistoryOf(after), after.currentState, c);
    }
  }

  lemma ParallelExact(cm: CompiledMachine, inst: Instance, trace: seq<Stride>, name: string, call: Call)
    requires ChainsOk(cm) && RegionsProper(cm) && "" !in cm.def.states && RestsWell(cm, inst)
             && IsParallel(cm.def, inst.currentState)
    requires HistoryExact(cm, inst, trace)
    ensures var after := After(inst, ParallelTransition(cm, inst, name, call));
      HistoryExact(cm, after, trace + [Stride(inst.currentState, after.currentState, false)])
  {
    var s := inst.currentState;
    var after := After(inst, ParallelTransition(cm, inst, name, call));
    ParallelOutcomes(cm, inst, name, call);
    if ParallelTransition(cm, inst, name, call).written.Some? && s in cm.def.transitions[name].sources {
      var v := ValidateTransition(cm, inst, name, call).value;
      ExitExact(cm, inst, trace, v.0, v.1, call);
    } else {
      assert after.currentState == s && HistoryOf(after) == HistoryOf(inst);
      forall c | Outside(cm, c) && c !in Config(cm, s)
        ensures Matches(cm, HistoryOf(after), c, LastLeaf(cm, trace + [Stride(s, s, false)], c))
      { StayExact(cm, trace, s, c); }
    }
  }

  // ---- Every run --------------------------------------------------------------------------------

  lemma ForceExact(cm: CompiledMachine, inst: Instance, trace: seq<Stride>, target: string, call: Call)
    requires HistoryExact(cm, inst, trace)
    ensures var e := ForceState(cm, inst, target, call);
      HistoryExact(cm, After(inst, e), trace
                   + [Stride(inst.currentState, After(inst, e).currentState, e.written.Some?)])
  {
    var e := ForceState(cm, inst, target, call);
    if e.written.None? {
      forall c ensures LastLeaf(cm, trace + [Stride(inst.currentState, inst.currentState, false)], c)
        == LastLeaf(cm, trace, c) {
        StayExact(cm, trace, inst.currentState, c);
      }
    }
  }

  lemma StepExact(cm: CompiledMachine, inst: Instance, trace: seq<Stride>, op: Op)
    requires Sane(cm) && "" !in cm.def.states && ConfigOk(cm, inst) && HistoryExact(cm, inst, trace)
    ensures var e := Perform(cm, inst, op);
      HistoryExact(cm, After(inst, e), trace
                   + [Stride(inst.currentState, After(inst, e).currentState, op.Force? && e.written.Some?)])
  {
    match op
    case Force(target, call) => ForceExact(cm, inst, trace, target, call);
    case Fire(name, call) =>
      ActiveMeansParallel(cm, inst);
      if |inst.active| > 0 {
        ParallelExact(cm, inst, trace, name, call);
      } else if ValidateTransition(cm, inst, name, call).Ok? {
        var v := ValidateTransition(cm, inst, name, call).value;
        PlainExact(cm, inst, trace, v.0, v.1, call);
      } else {
        forall c ensures LastLeaf(cm, trace + [Stride(inst.currentState, inst.currentState, false)], c)
          == LastLeaf(cm, trace, c) {
          StayExact(cm, trace, inst.currentState, c);
        }
      }
  }

  lemma {:induction false} RunExact(cm: CompiledMachine, inst: Instance, ops: seq<Op>)
    requires Sane(cm) && RegionLocal(cm) && "" !in cm.def.states && ConfigOk(cm, inst) && HistoryExact(cm, inst, [])
    ensures HistoryExact(cm, Run(cm, inst, ops), Trace(cm, inst, ops))
    decreases |ops|
  {
    if ops != [] {
      var first := ops[..|ops| - 1];
      RunExact(cm, inst, first);
      RunRests(cm, inst, first);
      StepExact(cm, Run(cm, inst, first), Trace(cm, inst, first), ops[|ops| - 1]);
    }
  }

  /** In every run, for every compound outside parallel states that is not active: its deep history is
      the leaf occupied at its most recent exit and its shallow history the child on that path, and
      both are absent if it was never exited or a forced state came after. */
  lemma EveryRunRecalls(cm: CompiledMachine, header: Header, ops: seq<Op>, c: string)
    requires Machine(cm) && RegionLocal(cm) && StartsAtRest(cm) && "" !in cm.def.states
    requires Outside(cm, c) && c !in Config(cm, Run(cm, NewInstance(cm, header), ops).currentState)
    ensures var inst := NewInstance(cm, header);
      Matches(cm, HistoryOf(Run(cm, inst, ops)), c, LastLeaf(cm, Trace(cm, inst, ops), c))
  {
    var inst := NewInstance(cm, header);
    MachineIsSane(cm);
    NewInstanceRests(cm, header);
    RunExact(cm, inst, ops);
  }

  lemma ResolveMatched(cm: CompiledMachine, inst: Instance, c: string, last: Option<string>)
    requires Matches(cm, HistoryOf(inst), c, last)
    ensures last.None? ==> forall mode :: ResolveTarget(cm, inst, c, mode) == LeafOf(cm, c)
    ensures last.Some? ==> ResolveTarget(cm, inst, c, Deep) == last.value
    ensures last.Some? ==>
      exists x :: IsChildToward(cm, x, c, last.value) && ResolveTarget(cm, inst, c, Shallow) == LeafOf(cm, x)
  {
    assert HistoryOf(inst).deep == inst.deep && HistoryOf(inst).shallow == inst.shallow;
    forall mode | last.None? ensures ResolveTarget(cm, inst, c, mode) == LeafOf(cm, c) { match mode { case _ => } }
  }

  lemma InitialLeafLookup(cm: CompiledMachine, c: string)
    requires Machine(cm) && IsPlainCompound(cm.def, c)
    ensures LeafOf(cm, c) == InitialLeaf(cm.def, c)
  {
    assert LeavesOk(cm);
  }

  /** Resuming: a deep transition to such a compound lands on the leaf it was last left from, a shallow
      one on the initial leaf of the child it was last left through, and without either on its initial leaf. */
  lemma EveryRunResumes(cm: CompiledMachine, header: Header, ops: seq<Op>, c: string)
    requires Machine(cm) && RegionLocal(cm) && StartsAtRest(cm) && "" !in cm.def.states
    requires Outside(cm, c) && c !in Config(cm, Run(cm, NewInstance(cm, header), ops).currentState)
    ensures var inst := Run(cm, NewInstance(cm, header), ops);
      var last := LastLeaf(cm, Trace(cm, NewInstance(cm, header), ops), c);
      && (last.None? ==> forall mode :: ResolveTarget(cm, inst, c, mode) == InitialLeaf(cm.def, c))
      && (last.Some? ==> ResolveTarget(cm, inst, c, Deep) == last.value)
      && (last.Some? ==>
            exists x :: IsChildToward(cm, x, c, last.value) && ResolveTarget(cm, inst, c, Shallow) == LeafOf(cm, x))
  {
    EveryRunRecalls(cm, header, ops, c);
    ResolveMatched(cm, Run(cm, NewInstance(cm, header), ops), c,
                   LastLeaf(cm, Trace(cm, NewInstance(cm, header), ops), c));
    InitialLeafLookup(cm, c);
  }

  /** In every run, with any mode and any history, a resumed compound is entered at a state inside it. */
  lemma EveryRunResumesInside(cm: CompiledMachine, header: Header, ops: seq<Op>, c: string, mode: HistoryMode)
    requires Machine(cm) && RegionLocal(cm) && StartsAtRest(cm) && IsPlainCompound(cm.def, c)
    ensures c in Anc(cm, ResolveTarget(cm, Run(cm, NewInstance(cm, header), ops), c, mode))
  {
    EveryRunRests(cm, header, ops);
    MachineIsSane(cm);
    InsideFrom(cm, Run(cm, NewInstance(cm, header), ops), c, mode);
  }

  lemma InsideFrom(cm: CompiledMachine, inst: Instance, c: string, mode: HistoryMode)
    requires ChainsOk(cm) && LeavesRest(cm) && ConfigOk(cm, inst) && IsPlainCompound(cm.def, c)
    ensures c in Anc(cm, ResolveTarget(cm, inst, c, mode))
  {
    ResumesInside(cm, inst, c, mode);
  }
}
