/** Exits and entries of parallel states, and what a failing activity leaves behind
    (internal/runtime/helpers.go:187-228, internal/runtime/executor.go:295-398,
    internal/runtime/parallel.go:189-220 and 307-362). */
module Orthogonal {
  import opened Definitions
  import opened Hierarchy
  import opened Step
  import opened Machines
  import opened Configuration

  // ---- The configuration of an instance in a parallel state ------------------------------------------------

  ghost function LeavesConfig(cm: CompiledMachine, active: map<string, string>): set<string> {
    set r, x | r in active && x in Config(cm, active[r]) :: x
  }

  /** Everything that is active: the current state, each region's leaf, and all their ancestors. */
  ghost function FullConfig(cm: CompiledMachine, inst: Instance): set<string> {
    Config(cm, inst.currentState) + LeavesConfig(cm, inst.active)
  }

  /** What the sequences of the source cover: each active leaf and its region. */
  ghost function Covered(active: map<string, string>): set<string> {
    active.Keys + active.Values
  }

  /** Every active leaf is a direct child of its region. */
  predicate Shallow(cm: CompiledMachine, active: map<string, string>) {
    forall r :: r in active ==> ParentOf(cm.def, active[r]) == r
  }

  /** The states that are active but that the sequences do not mention. */
  ghost function Skipped(cm: CompiledMachine, p: string, active: map<string, string>): set<string> {
    LeavesConfig(cm, active) - Covered(active) - Config(cm, p)
  }

  /** What lies in the configuration of an active leaf: the leaf, its region, states in between, and
      what is at or above the parallel state. */
  lemma LeafConfigParts(cm: CompiledMachine, inst: Instance, r: string, x: string)
    requires ChainsOk(cm) && RegionsProper(cm) && RestsWell(cm, inst) && IsParallel(cm.def, inst.currentState)
    requires r in inst.active && x in Config(cm, inst.active[r])
    ensures x == inst.active[r] || x == r || x in Config(cm, inst.currentState)
            || (r in Anc(cm, x) && inst.currentState in Anc(cm, x))
    ensures ParentOf(cm.def, inst.active[r]) == r ==>
      x == inst.active[r] || x == r || x in Config(cm, inst.currentState)
  {
    RegionUp(cm, inst, r);
    if x != inst.active[r] {
      AncUnfold(cm, inst.active[r]);
      AncLinear(cm, inst.active[r], x, r);
      if r in Anc(cm, x) { AncTransitive(cm, x, r, inst.currentState); }
    }
  }

  lemma SkippedLiesInside(cm: CompiledMachine, inst: Instance, x: string)
    requires ChainsOk(cm) && RegionsProper(cm) && RestsWell(cm, inst) && IsParallel(cm.def, inst.currentState)
    requires x in Skipped(cm, inst.currentState, inst.active)
    ensures inst.currentState in Anc(cm, x) && !Shallow(cm, inst.active)
  {
    var r :| r in inst.active && x in Config(cm, inst.active[r]);
    LeafConfigParts(cm, inst, r, x);
    assert r in inst.active.Keys && inst.active[r] in inst.active.Values;
  }

  lemma CoveredLiesInside(cm: CompiledMachine, inst: Instance, x: string)
    requires ChainsOk(cm) && RegionsProper(cm) && RestsWell(cm, inst) && IsParallel(cm.def, inst.currentState)
    requires x in Covered(inst.active)
    ensures x in LeavesConfig(cm, inst.active) && inst.currentState in Anc(cm, x)
  {
    var r :| r in inst.active && (r == x || inst.active[r] == x);
    RegionUp(cm, inst, r);
    assert x in Config(cm, inst.active[r]);
  }

  lemma AboveIsActive(cm: CompiledMachine, inst: Instance)
    requires ChainsOk(cm) && RegionsProper(cm) && RestsWell(cm, inst) && IsParallel(cm.def, inst.currentState)
    ensures Config(cm, inst.currentState) <= LeavesConfig(cm, inst.active)
  {
    var p := inst.currentState;
    var r := cm.regions[p][0];
    assert r in Elements(RegionsOf(cm, p)) && r in inst.active;
    RegionUp(cm, inst, r);
    forall x | x in Config(cm, p) ensures x in LeavesConfig(cm, inst.active) {
      if x != p { AncTransitive(cm, inst.active[r], p, x); }
      assert x in Config(cm, inst.active[r]);
    }
  }

  /** The configuration falls into what the sequences cover, what they skip, and what is at or above
      the parallel state; nothing is skipped exactly when every leaf is a direct child of its region. */
  lemma FullConfigParts(cm: CompiledMachine, inst: Instance)
    requires ChainsOk(cm) && ParentsCompound(cm) && RegionsProper(cm)
    requires RestsWell(cm, inst) && IsParallel(cm.def, inst.currentState)
    ensures var p := inst.currentState;
      var skipped, covered := Skipped(cm, p, inst.active), Covered(inst.active);
      && FullConfig(cm, inst) == Config(cm, p) + covered + skipped
      && skipped !! Config(cm, p) + covered && covered !! Config(cm, p)
      && (skipped == {} <==> Shallow(cm, inst.active))
  {
    var p := inst.currentState;
    AboveIsActive(cm, inst);
    CoveredApart(cm, inst);
    SplitSet(Config(cm, p), Covered(inst.active), LeavesConfig(cm, inst.active));
    SkippedEmpty(cm, inst);
  }

  lemma BelowIsOutside(cm: CompiledMachine, x: string, p: string)
    requires ChainsOk(cm) && p in Anc(cm, x)
    ensures x !in Config(cm, p)
  {
    AncDistinct(cm, x);
    AncDistinct(cm, p);
    if x in Anc(cm, p) { AncTransitive(cm, p, x, p); }
  }

  lemma CoveredApart(cm: CompiledMachine, inst: Instance)
    requires ChainsOk(cm) && RegionsProper(cm) && RestsWell(cm, inst) && IsParallel(cm.def, inst.currentState)
    ensures Covered(inst.active) <= LeavesConfig(cm, inst.active)
            && Covered(inst.active) !! Config(cm, inst.currentState)
  {
    var p := inst.currentState;
    forall x | x in Covered(inst.active) ensures x in LeavesConfig(cm, inst.active) && x !in Config(cm, p) {
      CoveredLiesInside(cm, inst, x);
      BelowIsOutside(cm, x, p);
    }
  }

  lemma SkippedEmpty(cm: CompiledMachine, inst: Instance)
    requires ChainsOk(cm) && ParentsCompound(cm) && RegionsProper(cm)
    requires RestsWell(cm, inst) && IsParallel(cm.def, inst.currentState)
    ensures Skipped(cm, inst.currentState, inst.active) == {} <==> Shallow(cm, inst.active)
  {
    if Skipped(cm, inst.currentState, inst.active) != {} {
      var x :| x in Skipped(cm, inst.currentState, inst.active);
      SkippedLiesInside(cm, inst, x);
    }
    if r :| r in inst.active && ParentOf(cm.def, inst.active[r]) != r { IntermediateSkipped(cm, inst, r); }
  }

  lemma SplitSet(a: set<string>, b: set<string>, all: set<string>)
    requires a <= all && b <= all && a !! b
    ensures a + all == a + b + (all - b - a)
    ensures all - b - a !! a + b
  {}

  /** Removing and adding in a set that falls into disjoint parts. */
  lemma ExchangeExact(full: set<string>, exits: set<string>, entries: set<string>, config: set<string>,
                      above: set<string>, p: string, covered: set<string>, skipped: set<string>)
    requires full == config + covered + skipped && config == {p} + above && exits == covered + {p}
    requires p !in above && skipped !! config + covered && covered !! config && skipped !! entries
    ensures full - exits + entries == entries <==> skipped == {} && above <= entries
  {
    assert full - exits == above + skipped;
    if above + skipped + entries == entries {
      assert above <= above + skipped + entries && skipped <= above + skipped + entries;
    }
    if skipped == {} && above <= entries { assert above + skipped + entries == entries; }
  }

  lemma RegionUp(cm: CompiledMachine, inst: Instance, r: string)
    requires ChainsOk(cm) && RegionsProper(cm) && RestsWell(cm, inst) && IsParallel(cm.def, inst.currentState)
             && r in inst.active
    ensures IsRegion(cm, inst.currentState, r) && InRegion(cm, inst.active[r], r)
    ensures Anc(cm, r) == [inst.currentState] + Anc(cm, inst.currentState)
    ensures inst.currentState in Anc(cm, r) && inst.currentState in Anc(cm, inst.active[r])
  {
    assert r in Elements(RegionsOf(cm, inst.currentState));
    AncUnfold(cm, r);
    AncTransitive(cm, inst.active[r], r, inst.currentState);
  }

  /** A leaf that is not a direct child of its region has a parent that is skipped. */
  lemma IntermediateSkipped(cm: CompiledMachine, inst: Instance, r: string)
    requires ChainsOk(cm) && ParentsCompound(cm) && RegionsProper(cm) && RestsWell(cm, inst)
    requires IsParallel(cm.def, inst.currentState) && r in inst.active && ParentOf(cm.def, inst.active[r]) != r
    ensures ParentOf(cm.def, inst.active[r]) in Skipped(cm, inst.currentState, inst.active)
  {
    var p, active := inst.currentState, inst.active;
    var l := active[r];
    var y := ParentOf(cm.def, l);
    RegionUp(cm, inst, r);
    AncUnfold(cm, l);
    assert y in Config(cm, l) && r in Anc(cm, y);
    AncTransitive(cm, y, r, p);
    AncDistinct(cm, p);
    if y in Config(cm, p) && y != p { AncTransitive(cm, p, y, p); }
    forall q | q in active ensures y != q && y != active[q] {
      RegionUp(cm, inst, q);
      if y == q {
        assert r in [p] + Anc(cm, p);
        if r in Anc(cm, p) { AncTransitive(cm, r, p, r); }
        AncDistinct(cm, r);
      }
    }
  }

  // ---- Sequences as sets -----------------------------------------------------------------------------------------

  lemma {:induction false} RegionExitsCover(active: map<string, string>, regions: seq<string>)
    requires forall r :: r in regions ==> r in active
    ensures Elements(RegionExits(active, regions)) == set x | x in active.Keys + active.Values
            && exists r :: r in regions && (x == r || x == active[r])
  {
    if regions != [] {
      RegionExitsCover(active, regions[1..]);
      assert regions == [regions[0]] + regions[1..];
      var head := [active[regions[0]]] + (if active[regions[0]] != regions[0] then [regions[0]] else []);
      assert RegionExits(active, regions) == head + RegionExits(active, regions[1..]);
      assert Elements(RegionExits(active, regions)) == Elements(head) + Elements(RegionExits(active, regions[1..]));
      assert Elements(head) == {active[regions[0]], regions[0]};
    }
  }

  lemma ParallelExitCovers(inst: Instance)
    ensures Elements(ParallelExitSeq(inst)) == Covered(inst.active) + {inst.currentState}
  {
    var regions := ActiveRegions(inst);
    RegionExitsCover(inst.active, regions);
    var body := RegionExits(inst.active, regions);
    assert Elements(body) == Covered(inst.active) by {
      forall x | x in Covered(inst.active) ensures x in Elements(body) {
        if x in inst.active.Keys {
          assert x in regions;
        } else {
          var r :| r in inst.active && inst.active[r] == x; assert r in regions;
        }
      }
    }
    assert ParallelExitSeq(inst) == body + [inst.currentState];
  }

  lemma {:induction false} RegionEntriesCover(cm: CompiledMachine, regions: seq<string>)
    requires forall r :: r in regions ==> r in cm.initialLeaf
    ensures Elements(RegionEntries(cm, regions)) == Elements(regions) + set r | r in regions :: LeafOf(cm, r)
  {
    if regions != [] {
      RegionEntriesCover(cm, regions[1..]);
      assert regions == [regions[0]] + regions[1..];
      var head := [regions[0]] + [cm.initialLeaf[regions[0]]];
      assert RegionEntries(cm, regions) == head + RegionEntries(cm, regions[1..]);
      assert Elements(RegionEntries(cm, regions)) == Elements(head) + Elements(RegionEntries(cm, regions[1..]));
      assert Elements(head) == {regions[0], LeafOf(cm, regions[0])};
    }
  }

  // ---- Leaving a parallel state -----------------------------------------------------------------------------------

  /** Leaving parallel state `p` for a state `t` outside it is exact - the configuration minus the exits
      plus the entries is the new configuration - if and only if every active leaf is a direct child
      of its region and no ancestor of `p` is left. The source exits neither of the two. */
  lemma ParallelExitExact(cm: CompiledMachine, inst: Instance, t: string)
    requires ChainsOk(cm) && ParentsCompound(cm) && RegionsProper(cm)
    requires RestsWell(cm, inst) && IsParallel(cm.def, inst.currentState)
    requires inst.currentState !in Config(cm, t)
    ensures var p := inst.currentState;
      var exits, entries := Elements(ParallelExitSeq(inst)), Elements(EntrySeq(cm, "", t));
      FullConfig(cm, inst) - exits + entries == Config(cm, t)
      <==> Shallow(cm, inst.active) && Elements(Anc(cm, p)) <= Config(cm, t)
  {
    var p := inst.currentState;
    ParallelExitCovers(inst);
    FullConfigParts(cm, inst);
    AncDistinct(cm, p);
    EntryFromRoot(cm, t);
    SkippedOutsideTarget(cm, inst, t);
    ExchangeExact(FullConfig(cm, inst), Elements(ParallelExitSeq(inst)), Elements(EntrySeq(cm, "", t)), Config(cm, p),
                  Elements(Anc(cm, p)), p, Covered(inst.active), Skipped(cm, p, inst.active));
  }

  lemma SkippedOutsideTarget(cm: CompiledMachine, inst: Instance, t: string)
    requires ChainsOk(cm) && RegionsProper(cm) && RestsWell(cm, inst) && IsParallel(cm.def, inst.currentState)
    requires inst.currentState !in Config(cm, t)
    ensures Skipped(cm, inst.currentState, inst.active) !! Config(cm, t)
  {
    forall x | x in Skipped(cm, inst.currentState, inst.active) ensures x !in Config(cm, t) {
      SkippedLiesInside(cm, inst, x);
      if x in Anc(cm, t) { AncTransitive(cm, t, x, inst.currentState); }
    }
  }

  lemma EntryFromRoot(cm: CompiledMachine, t: string)
    requires ChainsOk(cm)
    ensures Elements(EntrySeq(cm, "", t)) == Config(cm, t)
  {
    ExitEntrySame(cm, t, "");
    ConfigSplit(cm, t, "");
  }

  // ---- Entering a parallel state -----------------------------------------------------------------------------------

  /** Entering parallel state `p` from `s` is exact if and only if every region starts at a direct child. */
  lemma ParallelEntryExact(cm: CompiledMachine, s: string, p: string, after: Instance)
    requires ChainsOk(cm) && ParentsCompound(cm) && RegionsProper(cm) && IsParallel(cm.def, p)
    requires forall r :: r in cm.regions[p] ==> r in cm.initialLeaf
    requires after.currentState == p && after.active == InitialRegions(cm, p) && RestsWell(cm, after)
    ensures var lca := Lca(cm, s, p);
      var exits, entries := Elements(ExitSeq(cm, s, lca)), Elements(EntriesFor(cm, lca, p));
      Config(cm, s) - exits + entries == FullConfig(cm, after) <==> Shallow(cm, after.active)
  {
    var lca := Lca(cm, s, p);
    SequencesExact(cm, s, p);
    FullConfigParts(cm, after);
    EntriesCover(cm, lca, p);
  }

  lemma EntriesCover(cm: CompiledMachine, lca: string, p: string)
    requires p in cm.regions && forall r :: r in cm.regions[p] ==> r in cm.initialLeaf
    ensures Elements(EntriesFor(cm, lca, p)) == Elements(EntrySeq(cm, lca, p)) + Covered(InitialRegions(cm, p))
  {
    var regions, start := cm.regions[p], InitialRegions(cm, p);
    RegionEntriesCover(cm, regions);
    var own, extra := EntrySeq(cm, lca, p), RegionEntries(cm, regions);
    assert EntriesFor(cm, lca, p) == own + extra;
    assert Elements(own + extra) == Elements(own) + Elements(extra);
    assert start.Keys == Elements(regions);
    assert start.Values == set r | r in regions :: LeafOf(cm, r) by {
      forall x | x in start.Values ensures exists r :: r in regions && LeafOf(cm, r) == x {
        var r :| r in start && start[r] == x;
      }
      forall r | r in regions ensures LeafOf(cm, r) in start.Values { assert r in start && start[r] == LeafOf(cm, r); }
    }
  }

  // ---- Moving inside one region -----------------------------------------------------------------

  /** A move between two leaves of a region exits and enters only states strictly inside the region. */
  lemma IntraStaysInside(cm: CompiledMachine, r: string, leaf: string, target: string)
    requires ChainsOk(cm) && r in Anc(cm, leaf) && r in Anc(cm, target)
    ensures var lca := Lca(cm, leaf, target);
      && lca != "" && (lca == r || r in Anc(cm, lca))
      && (forall x :: x in ExitSeq(cm, leaf, lca) ==> r in Anc(cm, x))
      && (forall x :: x in EntrySeq(cm, lca, target) ==> r in Anc(cm, x))
  {
    var lca := Lca(cm, leaf, target);
    LcaDeepest(cm, leaf, target, r);
    LcaExact(cm, leaf, target);
    InsideBelow(cm, r, leaf, lca);
    InsideBelow(cm, r, target, lca);
    ExitEntrySame(cm, target, lca);
    forall x | x in EntrySeq(cm, lca, target) ensures r in Anc(cm, x) {
      assert x in Elements(EntrySeq(cm, lca, target));
      assert x in Elements(ExitSeq(cm, target, lca));
    }
  }

  lemma InsideBelow(cm: CompiledMachine, r: string, s: string, lca: string)
    requires ChainsOk(cm) && r in Anc(cm, s) && lca in Anc(cm, s) && (lca == r || r in Anc(cm, lca))
    ensures forall x :: x in ExitSeq(cm, s, lca) ==> r in Anc(cm, x)
  {
    AncUnfold(cm, s);
    ConfigSplit(cm, s, lca);
    ExitEntrySame(cm, s, lca);
    forall x | x in ExitSeq(cm, s, lca) ensures r in Anc(cm, x) {
      assert x in Elements(ExitSeq(cm, s, lca));
      assert x in Config(cm, s) && x !in Config(cm, lca);
      if x != s {
        AncLinear(cm, s, x, lca);
        if lca != r { AncTransitive(cm, x, lca, r); }
      }
    }
  }

  // ---- A failing activity -----------------------------------------------------------------------

  function ExitActivities(cm: CompiledMachine, inst: Instance, tr: TransitionDef, target: string): seq<Act> {
    ExitActs(cm.def, PlanFor(cm, inst, tr, target).exits)
  }

  function EntryActivities(cm: CompiledMachine, inst: Instance, tr: TransitionDef, target: string): seq<Act> {
    EntryActs(cm.def, PlanFor(cm, inst, tr, target).entries)
  }

  /** A failing exit activity, at any position: nothing is written, no event, and nothing runs after it. */
  lemma ExitFailureWritesNothing(cm: CompiledMachine, inst: Instance, tr: TransitionDef, target: string, call: Call,
                                 k: nat)
    requires k < |ExitActivities(cm, inst, tr, target)| && call.fails(k) && forall j: nat :: j < k ==> !call.fails(j)
    ensures var e := CommitPlain(cm, inst, tr, target, call);
      var xs := ExitActivities(cm, inst, tr, target);
      && e.written.None? && e.event.None? && e.cancels == {}
      && e.ran == xs[..k + 1] && e.outcome == Failed(ExitActivityFailed(xs[k].state))
  {
    var xs, es := ExitActivities(cm, inst, tr, target), EntryActivities(cm, inst, tr, target);
    assert FirstFail(call.fails, |xs + es|) == k;
    assert (xs + es)[..k + 1] == xs[..k + 1];
    ExitActsAre(cm.def, PlanFor(cm, inst, tr, target).exits);
  }

  lemma {:induction false} ExitActsAre(def: Definition, states: seq<string>)
    ensures forall i :: 0 <= i < |ExitActs(def, states)| ==> ExitActs(def, states)[i].ExitAct?
  {
    if states != [] { ExitActsAre(def, states[1..]); }
  }

  /** A failing entry activity after all exits succeeded: the instance stays at its source leaf and is
      marked stuck; an event is written only with savepoints; nothing runs after the failure. With
      savepoints a failed commit is reported in place of the activity. */
  lemma EntryFailureSticks(cm: CompiledMachine, inst: Instance, tr: TransitionDef, target: string, call: Call, k: nat)
    requires var xs, es := ExitActivities(cm, inst, tr, target), EntryActivities(cm, inst, tr, target);
      |xs| <= k < |xs| + |es| && call.fails(k) && forall j: nat :: j < k ==> !call.fails(j)
    ensures var e := CommitPlain(cm, inst, tr, target, call);
      var acts := ExitActivities(cm, inst, tr, target) + EntryActivities(cm, inst, tr, target);
      && e.outcome == Failed(if call.commits || !call.savepoints then EntryActivityFailed(acts[k].state)
                             else NotCommitted)
      && e.ran == acts[..k + 1]
      && (e.written.Some? <==> call.commits)
      && (e.event.Some? <==> call.commits && call.savepoints)
      && (e.written.Some? ==> && e.written.value.isStuck && e.written.value.currentState == inst.currentState
                              && e.written.value.active == inst.active)
  {
    var xs, es := ExitActivities(cm, inst, tr, target), EntryActivities(cm, inst, tr, target);
    assert FirstFail(call.fails, |xs + es|) == k;
    EntryActsAre(cm.def, PlanFor(cm, inst, tr, target).entries);
    assert (xs + es)[k] == es[k - |xs|];
  }

  lemma {:induction false} EntryActsAre(def: Definition, states: seq<string>)
    ensures forall i :: 0 <= i < |EntryActs(def, states)| ==> EntryActs(def, states)[i].EntryAct?
  {
    if states != [] { EntryActsAre(def, states[1..]); }
  }

  /** Without a failing activity everything runs, and the step is done exactly when it commits. */
  lemma SuccessMoves(cm: CompiledMachine, inst: Instance, tr: TransitionDef, target: string, call: Call)
    requires var xs, es := ExitActivities(cm, inst, tr, target), EntryActivities(cm, inst, tr, target);
      forall j: nat :: j < |xs| + |es| ==> !call.fails(j)
    ensures var e := CommitPlain(cm, inst, tr, target, call);
      && e.ran == ExitActivities(cm, inst, tr, target) + EntryActivities(cm, inst, tr, target)
      && (e.outcome.Done? <==> call.commits) && (e.written.Some? <==> call.commits) && (e.event.Some? <==> call.commits)
      && (e.written.Some? ==> && e.written.value.currentState == PlanFor(cm, inst, tr, target).resolved
                              && e.written.value.isStuck == inst.isStuck
                                && e.written.value.stuckReason == inst.stuckReason)
  {
    var xs, es := ExitActivities(cm, inst, tr, target), EntryActivities(cm, inst, tr, target);
    assert FirstFail(call.fails, |xs + es|) == |xs + es|;
  }

  /** Done, written and event go together, no activity failed, and the stuck mark is untouched. */
  ghost predicate WholeOrNothing(inst: Instance, call: Call, e: Effect) {
    && (e.outcome.Done? <==> e.written.Some?) && (e.written.Some? <==> e.event.Some?)
    && (e.written.Some? ==> e.written.value.isStuck == inst.isStuck && call.commits)
    && (e.written.Some? ==> forall k: nat :: k < |e.ran| ==> !call.fails(k))
  }

  lemma ExitWhole(cm: CompiledMachine, inst: Instance, tr: TransitionDef, target: string, call: Call)
    ensures var e := CommitParallelExit(cm, inst, tr, target, call);
      && (e.outcome.Done? <==> e.written.Some?) && (e.written.Some? <==> e.event.Some?)
      && (e.written.Some? ==> call.commits && forall k: nat :: k < |e.ran| ==> !call.fails(k))
  {}

  lemma ExitAllOrNothing(cm: CompiledMachine, inst: Instance, tr: TransitionDef, target: string, call: Call)
    ensures WholeOrNothing(inst, call, CommitParallelExit(cm, inst, tr, target, call))
  {
    ExitWhole(cm, inst, tr, target, call);
    ExitOutcomes(cm, inst, tr, target, call);
    RegionsKeepRest(cm, inst, inst.currentState, ActiveRegions(inst), |ActiveRegions(inst)|);
  }

  lemma IntraAllOrNothing(cm: CompiledMachine, inst: Instance, name: string, cs: seq<Candidate>, call: Call)
    requires cs != []
    ensures WholeOrNothing(inst, call, CommitParallelIntra(cm, inst, name, cs, call))
  {}

  /** Steps of parallel states know no stuck mark: any failure, at any activity or of the commit, writes nothing. */
  lemma ParallelAllOrNothing(cm: CompiledMachine, inst: Instance, name: string, call: Call)
    ensures WholeOrNothing(inst, call, ParallelTransition(cm, inst, name, call))
  {
    var v := ValidateTransition(cm, inst, name, call);
    if name in cm.def.transitions && !IsTerminal(cm.def, inst.currentState) {
      if inst.currentState in cm.def.transitions[name].sources {
        if v.Ok? { ExitAllOrNothing(cm, inst, v.value.0, v.value.1, call); }
      } else {
        var cs := AllCandidates(cm, inst, name, call);
        if cs.Ok? && cs.value != [] { IntraAllOrNothing(cm, inst, name, cs.value, call); }
      }
    }
  }
}
