/** Where an instance can rest: after any run the current state is a leaf or a parallel state, and
    the active leaves are one per region, each inside its region. Every clause of the static
    conditions is matched by a lemma saying that a step keeps the invariant exactly when it holds. */
module Configuration {
  import opened Definitions
  import opened Hierarchy
  import opened Step
  import opened Machines

  // ---- The invariant ----------------------------------------------------------------------------------

  /** `leaf` is a leaf state strictly inside `region`. */
  predicate InRegion(cm: CompiledMachine, leaf: string, region: string) {
    IsLeaf(cm.def, leaf) && region in Anc(cm, leaf)
  }

  ghost predicate RestsWell(cm: CompiledMachine, inst: Instance) {
    if IsParallel(cm.def, inst.currentState) then
      && inst.active.Keys == Elements(RegionsOf(cm, inst.currentState))
      && forall r :: r in inst.active ==> InRegion(cm, inst.active[r], r)
    else
      IsLeaf(cm.def, inst.currentState) && inst.active == map[]
  }

  /** Recorded leaves are leaves inside their compound, recorded children are its children. */
  ghost predicate RemembersInside(cm: CompiledMachine, h: History) {
    && (forall c :: c in h.deep ==> IsLeaf(cm.def, h.deep[c]) && c in Anc(cm, h.deep[c]))
    && (forall c :: c in h.shallow ==> h.shallow[c] in cm.def.states && ParentOf(cm.def, h.shallow[c]) == c && c != "")
  }

  ghost predicate ConfigOk(cm: CompiledMachine, inst: Instance) {
    RestsWell(cm, inst) && RemembersInside(cm, HistoryOf(inst))
  }

  // ---- Static conditions on definitions with parallel states ----------------------------------------------

  predicate StartsAtRest(cm: CompiledMachine) {
    cm.def.initialState in cm.def.states && !IsParallel(cm.def, LeafOf(cm, cm.def.initialState))
  }

  /** The region's initial leaf is a leaf: no parallel state starts below a region of `p`. */
  predicate RegionsStartAtLeaves(cm: CompiledMachine, p: string) {
    forall r :: r in RegionsOf(cm, p) ==> !IsParallel(cm.def, LeafOf(cm, r))
  }

  /** No transition sourced from a parallel state resolves to a parallel state. */
  predicate ExitsAvoidParallel(cm: CompiledMachine) {
    forall n :: n in cm.def.transitions ==> ExitAvoidsParallel(cm, cm.def.transitions[n])
  }

  predicate ExitAvoidsParallel(cm: CompiledMachine, tr: TransitionDef) {
    (exists p :: p in tr.sources && IsParallel(cm.def, p))
    ==> forall t :: t in TargetsOf(tr) ==> !IsParallel(cm.def, LeafOf(cm, t))
  }

  /** A transition that can fire inside region `r` of `p` leads to leaves of that region. */
  predicate StaysInRegion(cm: CompiledMachine, p: string, r: string) {
    forall n :: n in cm.def.transitions && FiresInside(cm, cm.def.transitions[n], p, r)
      ==> forall t :: t in TargetsOf(cm.def.transitions[n]) ==> InRegion(cm, t, r)
  }

  predicate FiresInside(cm: CompiledMachine, tr: TransitionDef, p: string, r: string) {
    p !in tr.sources && exists s :: s in tr.sources && r in Config(cm, s)
  }

  ghost predicate RegionLocal(cm: CompiledMachine) {
    && (forall p :: IsParallel(cm.def, p) ==> RegionsStartAtLeaves(cm, p))
    && ExitsAvoidParallel(cm)
    && (forall p, r :: r in RegionsOf(cm, p) ==> StaysInRegion(cm, p, r))
  }

  // ---- Targets --------------------------------------------------------------------------------------------------

  lemma {:induction false} RouteIsTarget(routes: seq<Route>, default: string, inst: Instance, call: Call)
    ensures var r := ChooseRoute(routes, default, inst, call);
      r.Ok? ==> (r.value == default && default != "") || exists i :: 0 <= i < |routes| && routes[i].target == r.value
  {
    if routes != [] {
      var d := if routes[0].isDefault then routes[0].target else default;
      RouteIsTarget(routes[1..], d, inst, call);
      var r := ChooseRoute(routes[1..], d, inst, call);
      if r.Ok? && exists i :: 0 <= i < |routes| - 1 && routes[1..][i].target == r.value {
        var i :| 0 <= i < |routes| - 1 && routes[1..][i].target == r.value;
        assert routes[i + 1].target == r.value;
      }
    }
  }

  lemma ChosenTarget(tr: TransitionDef, inst: Instance, call: Call)
    requires TargetOf(tr, inst, call).Ok?
    ensures TargetOf(tr, inst, call).value in TargetsOf(tr)
  {
    if |tr.routes| > 0 { RouteIsTarget(tr.routes, "", inst, call); }
  }

  /** Whatever the mode and the history, the resolved state rests and lies at or inside the target. */
  lemma ResumesInside(cm: CompiledMachine, inst: Instance, target: string, mode: HistoryMode)
    requires ChainsOk(cm) && LeavesRest(cm)
    requires target in cm.def.states && RemembersInside(cm, HistoryOf(inst))
    ensures var s := ResolveTarget(cm, inst, target, mode);
      s in cm.def.states && !IsPlainCompound(cm.def, s) && target in Config(cm, s)
  {
    assert RestsAt(cm, target, LeafOf(cm, target));
    if mode == Shallow && target in inst.shallow {
      var child := inst.shallow[target];
      assert HistoryOf(inst).shallow[target] == child;
      assert RestsAt(cm, child, LeafOf(cm, child));
      AncUnfold(cm, child);
      if LeafOf(cm, child) != child { AncTransitive(cm, LeafOf(cm, child), child, target); }
    } else if mode == Deep && target in inst.deep {
      assert HistoryOf(inst).deep[target] == inst.deep[target];
    }
  }

  // ---- One step at a time: when exactly the invariant is kept -----------------------------------

  /** A new instance rests well exactly when its initial state does. */
  lemma NewInstanceRests(cm: CompiledMachine, header: Header)
    requires LeavesRest(cm) && RegionsProper(cm)
    ensures ConfigOk(cm, NewInstance(cm, header)) <==> StartsAtRest(cm)
  {
    var s := cm.def.initialState;
    if s in cm.def.states { assert RestsAt(cm, s, LeafOf(cm, s)); }
    var l := LeafOf(cm, s);
    if IsParallel(cm.def, l) { assert cm.regions[l][0] in Elements(RegionsOf(cm, l)); }
  }

  lemma RegionStart(cm: CompiledMachine, p: string, r: string)
    requires LeavesRest(cm) && RegionsProper(cm) && r in RegionsOf(cm, p)
    ensures InRegion(cm, LeafOf(cm, r), r) <==> !IsParallel(cm.def, LeafOf(cm, r))
  {
    assert IsRegion(cm, p, r);
    assert RestsAt(cm, r, LeafOf(cm, r));
  }

  /** Arriving at a resolved state is right exactly when no region of it starts at a parallel state. */
  lemma ArrivalRests(cm: CompiledMachine, inst: Instance, state: string, now: int)
    requires LeavesRest(cm) && RegionsProper(cm) && state in cm.def.states && !IsPlainCompound(cm.def, state)
    ensures RestsWell(cm, Arrive(cm, inst, state, now)) <==> RegionsStartAtLeaves(cm, state)
  {
    var regions, start := RegionsOf(cm, state), InitialRegions(cm, state);
    assert start.Keys == Elements(regions);
    if IsParallel(cm.def, state) {
      forall r | r in regions ensures start[r] == LeafOf(cm, r)
        && (InRegion(cm, start[r], r) <==> !IsParallel(cm.def, start[r])) {
        RegionStart(cm, state, r);
      }
      assert forall r :: r in start <==> r in regions;
    } else {
      assert regions == [] && start == map[];
    }
  }

  /** Leaving a parallel state is right exactly when the resolved target is not parallel:
      the source clears the active leaves and starts no regions. */
  lemma ParallelExitRests(cm: CompiledMachine, inst: Instance, target: string, call: Call, tr: TransitionDef)
    requires LeavesRest(cm) && RegionsProper(cm) && target in cm.def.states
    requires CommitParallelExit(cm, inst, tr, target, call).written.Some?
    ensures RestsWell(cm, CommitParallelExit(cm, inst, tr, target, call).written.value)
            <==> !IsParallel(cm.def, LeafOf(cm, target))
  {
    var l := LeafOf(cm, target);
    assert RestsAt(cm, target, l);
    if IsParallel(cm.def, l) { assert cm.regions[l][0] in Elements(RegionsOf(cm, l)); }
  }

  /** The candidates' regions are distinct and active, and all go to the one target of the transition. */
  ghost predicate AreCandidates(inst: Instance, cs: seq<Candidate>) {
    && (forall i :: 0 <= i < |cs| ==> cs[i].region in inst.active && cs[i].leaf == inst.active[cs[i].region])
    && (forall i, j :: 0 <= i < j < |cs| ==> cs[i].region != cs[j].region && cs[i].target == cs[j].target)
  }

  lemma {:induction false} MovedRegionsExact(active: map<string, string>, cs: seq<Candidate>, n: nat)
    requires n <= |cs| && forall i :: 0 <= i < |cs| ==> cs[i].region in active
    requires forall i, j :: 0 <= i < j < |cs| ==> cs[i].region != cs[j].region
    ensures var m := MovedRegions(active, cs, n);
      && m.Keys == active.Keys
      && (forall i :: 0 <= i < n ==> m[cs[i].region] == cs[i].target)
      && (forall r :: r in active && (forall i :: 0 <= i < n ==> cs[i].region != r) ==> m[r] == active[r])
  {
    if n > 0 { MovedRegionsExact(active, cs, n - 1); }
  }

  /** A step inside a parallel state is right exactly when each target is a leaf of the firing region. */
  lemma IntraRests(cm: CompiledMachine, inst: Instance, name: string, cs: seq<Candidate>, call: Call)
    requires RestsWell(cm, inst) && IsParallel(cm.def, inst.currentState) && cs != [] && AreCandidates(inst, cs)
    requires CommitParallelIntra(cm, inst, name, cs, call).written.Some?
    ensures RestsWell(cm, CommitParallelIntra(cm, inst, name, cs, call).written.value)
            <==> forall i :: 0 <= i < |cs| ==> InRegion(cm, cs[i].target, cs[i].region)
  {
    IntraOutcomes(cm, inst, name, cs, call);
    MovedInside(cm, inst, cs);
    MovedRegionsExact(inst.active, cs, |cs|);
  }

  lemma MovedInside(cm: CompiledMachine, inst: Instance, cs: seq<Candidate>)
    requires AreCandidates(inst, cs) && forall r :: r in inst.active ==> InRegion(cm, inst.active[r], r)
    ensures (forall r :: r in MovedTo(inst.active, cs) ==> InRegion(cm, MovedTo(inst.active, cs)[r], r))
            <==> forall i :: 0 <= i < |cs| ==> InRegion(cm, cs[i].target, cs[i].region)
  {
    MovedRegionsExact(inst.active, cs, |cs|);
    var m := MovedTo(inst.active, cs);
    if forall i :: 0 <= i < |cs| ==> InRegion(cm, cs[i].target, cs[i].region) {
      forall r | r in m ensures InRegion(cm, m[r], r) {
        if i :| 0 <= i < |cs| && cs[i].region == r { } else { assert m[r] == inst.active[r]; }
      }
    }
    if forall r :: r in m ==> InRegion(cm, m[r], r) {
      forall i | 0 <= i < |cs| ensures InRegion(cm, cs[i].target, cs[i].region) {
        assert m[cs[i].region] == cs[i].target;
      }
    }
  }

  /** Distinct regions of one parallel state share no inner state. */
  lemma RegionsDisjoint(cm: CompiledMachine, p: string, a: string, b: string, t: string)
    requires ChainsOk(cm) && IsRegion(cm, p, a) && IsRegion(cm, p, b) && a in Anc(cm, t) && b in Anc(cm, t)
    ensures a == b
  {
    AncUnfold(cm, a);
    AncUnfold(cm, b);
    AncLinear(cm, t, a, b);
    AncDistinct(cm, a);
    AncDistinct(cm, b);
  }

  /** One transition has one target, so firing it in two regions at once never rests well. */
  lemma TwoRegionsNeverRest(cm: CompiledMachine, inst: Instance, name: string, cs: seq<Candidate>, call: Call)
    requires ChainsOk(cm) && RegionsProper(cm) && RestsWell(cm, inst) && IsParallel(cm.def, inst.currentState)
    requires |cs| >= 2 && AreCandidates(inst, cs)
    requires CommitParallelIntra(cm, inst, name, cs, call).written.Some?
    ensures !RestsWell(cm, CommitParallelIntra(cm, inst, name, cs, call).written.value)
  {
    IntraRests(cm, inst, name, cs, call);
    var p, t, a, b := inst.currentState, cs[0].target, cs[0].region, cs[1].region;
    assert a in Elements(RegionsOf(cm, p)) && b in Elements(RegionsOf(cm, p));
    assert IsRegion(cm, p, a) && IsRegion(cm, p, b);
    if InRegion(cm, t, a) && InRegion(cm, cs[1].target, b) { RegionsDisjoint(cm, p, a, b, t); }
  }

  // ---- History stays inside ---------------------------------------------------------------------

  lemma {:induction false} ChildAmongIs(def: Definition, exits: seq<string>, c: string)
    ensures var x := ChildAmong(def, exits, c); x == "" || (x in exits && ParentOf(def, x) == c)
  {
    if exits != [] { ChildAmongIs(def, exits[1..], c); }
  }

  lemma {:induction false} RecordStaysInside(cm: CompiledMachine, h: History, leaf: string, exits: seq<string>, n: nat)
    requires ChainsOk(cm) && RemembersInside(cm, h) && IsLeaf(cm.def, leaf)
    requires Elements(exits) <= Config(cm, leaf) && n <= |exits|
    ensures RemembersInside(cm, Record(cm.def, h, leaf, exits, n))
  {
    if n > 0 {
      RecordStaysInside(cm, h, leaf, exits, n - 1);
      var c := exits[n - 1];
      ChildAmongIs(cm.def, exits, c);
      assert c in Elements(exits);
      AncUnfold(cm, leaf);
    }
  }

  lemma ExitsInConfig(cm: CompiledMachine, s: string, lca: string)
    ensures Elements(ExitSeq(cm, s, lca)) <= Config(cm, s)
  {}

  lemma {:induction false} RegionsStayInside(cm: CompiledMachine, inst: Instance, p: string, regions: seq<string>,
                                             n: nat)
    requires ChainsOk(cm) && RemembersInside(cm, HistoryOf(inst)) && n <= |regions|
    requires forall r :: r in regions ==> r in inst.active && IsLeaf(cm.def, inst.active[r])
    ensures RemembersInside(cm, HistoryOf(RecordedRegions(cm, inst, p, regions, n)))
  {
    if n > 0 {
      RegionsStayInside(cm, inst, p, regions, n - 1);
      var leaf := inst.active[regions[n - 1]];
      var before := RecordedRegions(cm, inst, p, regions, n - 1);
      ExitsInConfig(cm, leaf, p);
      RecordStaysInside(cm, HistoryOf(before), leaf, ExitSeq(cm, leaf, p), |ExitSeq(cm, leaf, p)|);
    }
  }

  // ---- Every kind of step keeps the invariant ---------------------------------------------------

  lemma ValidatedTarget(cm: CompiledMachine, inst: Instance, name: string, call: Call)
    requires TransitionsProper(cm) && ValidateTransition(cm, inst, name, call).Ok?
    ensures var v := ValidateTransition(cm, inst, name, call).value;
      name in cm.def.transitions && v.0 == cm.def.transitions[name] && v.1 in TargetsOf(v.0) && v.1 in cm.def.states
  {
    var tr := cm.def.transitions[name];
    var s := EffectiveSource(cm, tr, inst.currentState).value;
    assert TransitionProper(cm, name, tr) && s in tr.sources;
    ChosenTarget(tr, inst, call);
  }

  /** Regions are active exactly while the current state is parallel. */
  lemma ActiveMeansParallel(cm: CompiledMachine, inst: Instance)
    requires RegionsProper(cm) && RestsWell(cm, inst)
    ensures |inst.active| > 0 <==> IsParallel(cm.def, inst.currentState)
    ensures |inst.active| == 0 <==> IsLeaf(cm.def, inst.currentState)
  {
    var s := inst.currentState;
    if IsParallel(cm.def, s) {
      assert cm.regions[s][0] in Elements(RegionsOf(cm, s));
      assert inst.active.Keys != {};
    }
  }

  lemma ExitRecords(cm: CompiledMachine, inst: Instance, exits: seq<string>, leaf: string)
    requires ChainsOk(cm) && RemembersInside(cm, HistoryOf(inst)) && IsLeaf(cm.def, leaf)
    requires Elements(exits) <= Config(cm, leaf)
    ensures RemembersInside(cm, HistoryOf(Recorded(cm.def, inst, leaf, exits)))
  {
    RecordStaysInside(cm, HistoryOf(inst), leaf, exits, |exits|);
  }

  /** The three ways a plain step can end: nothing written, stuck at the source, arrived at the target. */
  lemma PlainOutcomes(cm: CompiledMachine, inst: Instance, tr: TransitionDef, target: string, call: Call)
    ensures var plan := PlanFor(cm, inst, tr, target);
      var left := Recorded(cm.def, inst, inst.currentState, plan.exits);
      var after := After(inst, CommitPlain(cm, inst, tr, target, call));
      || after == inst
      || (exists x :: after == Stuck(left, x, call.now))
      || after == Arrive(cm, left, plan.resolved, call.now)
  {}

  lemma PlainKeeps(cm: CompiledMachine, inst: Instance, tr: TransitionDef, target: string, call: Call)
    requires ChainsOk(cm) && LeavesRest(cm) && RegionsProper(cm) && ConfigOk(cm, inst) && |inst.active| == 0
    requires target in cm.def.states
    requires forall p :: IsParallel(cm.def, p) ==> RegionsStartAtLeaves(cm, p)
    ensures ConfigOk(cm, After(inst, CommitPlain(cm, inst, tr, target, call)))
  {
    ActiveMeansParallel(cm, inst);
    var plan := PlanFor(cm, inst, tr, target);
    ResumesInside(cm, inst, target, tr.historyMode);
    ExitsInConfig(cm, inst.currentState, Lca(cm, inst.currentState, plan.resolved));
    ExitRecords(cm, inst, plan.exits, inst.currentState);
    var left := Recorded(cm.def, inst, inst.currentState, plan.exits);
    PlainOutcomes(cm, inst, tr, target, call);
    var after := After(inst, CommitPlain(cm, inst, tr, target, call));
    if after == Arrive(cm, left, plan.resolved, call.now) {
      ArrivalRests(cm, left, plan.resolved, call.now);
      assert IsParallel(cm.def, plan.resolved) || RegionsOf(cm, plan.resolved) == [];
    }
  }

  /** Leaving a parallel state either writes nothing or arrives at the target. */
  lemma ExitOutcomes(cm: CompiledMachine, inst: Instance, tr: TransitionDef, target: string, call: Call)
    ensures var e := CommitParallelExit(cm, inst, tr, target, call);
      var left := LeftRegions(cm, inst);
      e.written.None? || e.written == Some(Touch(left, call.now).(currentState := LeafOf(cm, target), active := map[]))
  {}

  /** A step inside a parallel state either writes nothing or moves the firing regions. */
  lemma IntraOutcomes(cm: CompiledMachine, inst: Instance, name: string, cs: seq<Candidate>, call: Call)
    requires cs != []
    ensures var e := CommitParallelIntra(cm, inst, name, cs, call);
      e.written.Some? ==> && e.written.value.currentState == inst.currentState
                          && e.written.value.active == MovedTo(inst.active, cs)
  {}

  lemma ExitKeeps(cm: CompiledMachine, inst: Instance, tr: TransitionDef, target: string, call: Call)
    requires ChainsOk(cm) && LeavesRest(cm) && RegionsProper(cm) && ConfigOk(cm, inst) && |inst.active| > 0
    requires target in cm.def.states && !IsParallel(cm.def, LeafOf(cm, target))
    ensures ConfigOk(cm, After(inst, CommitParallelExit(cm, inst, tr, target, call)))
  {
    ActiveMeansParallel(cm, inst);
    var regions := ActiveRegions(inst);
    forall r | r in regions ensures r in inst.active && IsLeaf(cm.def, inst.active[r]) {
      assert InRegion(cm, inst.active[r], r);
    }
    RegionsStayInside(cm, inst, inst.currentState, regions, |regions|);
    if CommitParallelExit(cm, inst, tr, target, call).written.Some? {
      ParallelExitRests(cm, inst, target, call, tr);
      ExitOutcomes(cm, inst, tr, target, call);
    }
  }

  ghost predicate IsCandidate(cm: CompiledMachine, inst: Instance, name: string, c: Candidate, call: Call) {
    && name in cm.def.transitions && c.tr == cm.def.transitions[name]
    && TargetOf(c.tr, inst, call) == Ok(c.target)
    && BoundedSource(cm, c.tr, c.leaf, inst.currentState) != ""
  }

  lemma BoundedSourceIs(cm: CompiledMachine, tr: TransitionDef, leaf: string, p: string)
    ensures var s := BoundedSource(cm, tr, leaf, p);
      s != "" ==> s in tr.sources && s in Config(cm, leaf) && (s == leaf || s != p)
  {}

  lemma CandidateInIs(cm: CompiledMachine, inst: Instance, name: string, region: string, call: Call)
    requires TransitionsProper(cm) && name in cm.def.transitions && region in inst.active
    ensures var c := CandidateIn(cm, inst, name, region, call);
      c.Ok? ==> |c.value| <= 1 && forall x :: x in c.value ==>
        x.region == region && x.leaf == inst.active[region] && IsCandidate(cm, inst, name, x, call)
  {
    var tr := cm.def.transitions[name];
    BoundedSourceIs(cm, tr, inst.active[region], inst.currentState);
    assert TransitionProper(cm, name, tr);
  }

  ghost predicate CandidatesFrom(cm: CompiledMachine, inst: Instance, name: string, regions: seq<string>, call: Call,
                                 cs: seq<Candidate>) {
    && AreCandidates(inst, cs)
    && forall i :: 0 <= i < |cs| ==> cs[i].region in regions && IsCandidate(cm, inst, name, cs[i], call)
  }

  lemma OneMoreCandidate(cm: CompiledMachine, inst: Instance, name: string, regions: seq<string>, r: string, call: Call,
                         cs: seq<Candidate>, more: seq<Candidate>)
    requires CandidatesFrom(cm, inst, name, regions, call, cs) && r !in regions && r in inst.active
    requires |more| <= 1 && forall x :: x in more ==>
      x.region == r && x.leaf == inst.active[r] && IsCandidate(cm, inst, name, x, call)
    ensures CandidatesFrom(cm, inst, name, regions + [r], call, cs + more)
  {
    var all := cs + more;
    forall i | 0 <= i < |all|
      ensures all[i].region in regions + [r] && IsCandidate(cm, inst, name, all[i], call)
      ensures all[i].region in inst.active && all[i].leaf == inst.active[all[i].region]
    {
      if i >= |cs| { assert all[i] in more; }
    }
    forall i, j | 0 <= i < j < |all| ensures all[i].region != all[j].region && all[i].target == all[j].target {
      assert IsCandidate(cm, inst, name, all[i], call) && IsCandidate(cm, inst, name, all[j], call);
      if j >= |cs| { assert all[j] in more; }
    }
  }

  /** What the candidates of a transition look like. */
  lemma {:induction false} CandidatesAre(cm: CompiledMachine, inst: Instance, name: string, regions: seq<string>,
                                         n: nat, call: Call)
    requires TransitionsProper(cm) && name in cm.def.transitions && n <= |regions| && NoDuplicates(regions)
    requires forall r :: r in regions ==> r in inst.active
    requires Candidates(cm, inst, name, regions, n, call).Ok?
    ensures CandidatesFrom(cm, inst, name, regions[..n], call, Candidates(cm, inst, name, regions, n, call).value)
  {
    if n > 0 {
      var r := regions[n - 1];
      CandidatesAre(cm, inst, name, regions, n - 1, call);
      CandidateInIs(cm, inst, name, r, call);
      assert regions[..n] == regions[..n - 1] + [r] && r !in regions[..n - 1];
      OneMoreCandidate(cm, inst, name, regions[..n - 1], r, call,
                       Candidates(cm, inst, name, regions, n - 1, call).value,
                       CandidateIn(cm, inst, name, r, call).value);
    }
  }

  /** A bounded source below `p` lies in the same region as the leaf. */
  lemma BoundedSourceInRegion(cm: CompiledMachine, tr: TransitionDef, leaf: string, p: string, r: string)
    requires ChainsOk(cm) && r in Anc(cm, leaf) && ParentOf(cm.def, r) == p && p != ""
    requires BoundedSource(cm, tr, leaf, p) != ""
    ensures r in Config(cm, BoundedSource(cm, tr, leaf, p))
  {
    var s := BoundedSource(cm, tr, leaf, p);
    if s != leaf {
      var c := Anc(cm, leaf);
      var i := FirstIn(c, Elements(tr.sources) + {p});
      var k :| 0 <= k < |c| && c[k] == r;
      AncTail(cm, leaf, k);
      AncUnfold(cm, r);
      assert c[k + 1..][0] == p;
      assert c[k + 1] == p && p in Elements(tr.sources) + {p};
      assert i <= k;
      AncTail(cm, leaf, i);
      if i < k { assert c[i + 1..][k - i - 1] == r; }
    }
  }

  lemma IntraKeeps(cm: CompiledMachine, inst: Instance, name: string, cs: seq<Candidate>, call: Call)
    requires ChainsOk(cm) && RegionsProper(cm) && ConfigOk(cm, inst) && IsParallel(cm.def, inst.currentState)
    requires name in cm.def.transitions && inst.currentState !in cm.def.transitions[name].sources
    requires forall r :: r in RegionsOf(cm, inst.currentState) ==> StaysInRegion(cm, inst.currentState, r)
    requires cs != [] && AreCandidates(inst, cs)
             && forall i :: 0 <= i < |cs| ==> IsCandidate(cm, inst, name, cs[i], call)
    ensures ConfigOk(cm, After(inst, CommitParallelIntra(cm, inst, name, cs, call)))
  {
    var p := inst.currentState;
    forall i | 0 <= i < |cs| ensures InRegion(cm, cs[i].target, cs[i].region) {
      var c := cs[i];
      assert IsCandidate(cm, inst, name, c, call);
      assert c.region in Elements(RegionsOf(cm, p)) && InRegion(cm, c.leaf, c.region);
      assert IsRegion(cm, p, c.region);
      BoundedSourceIs(cm, c.tr, c.leaf, p);
      BoundedSourceInRegion(cm, c.tr, c.leaf, p, c.region);
      ChosenTarget(c.tr, inst, call);
      assert StaysInRegion(cm, p, c.region) && FiresInside(cm, c.tr, p, c.region);
    }
    if CommitParallelIntra(cm, inst, name, cs, call).written.Some? {
      IntraRests(cm, inst, name, cs, call);
    }
  }

  lemma ForceKeeps(cm: CompiledMachine, inst: Instance, target: string, call: Call)
    requires LeavesRest(cm) && RegionsProper(cm) && ConfigOk(cm, inst)
    requires forall p :: IsParallel(cm.def, p) ==> RegionsStartAtLeaves(cm, p)
    ensures ConfigOk(cm, After(inst, ForceState(cm, inst, target, call)))
  {
    if target in cm.def.states {
      var state := LeafOf(cm, target);
      assert RestsAt(cm, target, state);
      var cleared := WithHistory(inst, History(map[], map[])).(isStuck := false, stuckReason := "");
      ArrivalRests(cm, cleared, state, call.now);
      assert IsParallel(cm.def, state) || RegionsOf(cm, state) == [];
    }
  }

  lemma ParallelExitKeeps(cm: CompiledMachine, inst: Instance, name: string, call: Call)
    requires Sane(cm) && ExitsAvoidParallel(cm) && ConfigOk(cm, inst) && IsParallel(cm.def, inst.currentState)
    requires |inst.active| > 0 && name in cm.def.transitions && inst.currentState in cm.def.transitions[name].sources
    requires ValidateTransition(cm, inst, name, call).Ok?
    ensures var v := ValidateTransition(cm, inst, name, call).value;
      ConfigOk(cm, After(inst, CommitParallelExit(cm, inst, v.0, v.1, call)))
  {
    ValidatedTarget(cm, inst, name, call);
    var v := ValidateTransition(cm, inst, name, call).value;
    assert ExitAvoidsParallel(cm, v.0);
    ExitKeeps(cm, inst, v.0, v.1, call);
  }

  lemma ParallelIntraKeeps(cm: CompiledMachine, inst: Instance, name: string, call: Call)
    requires Sane(cm) && ConfigOk(cm, inst) && IsParallel(cm.def, inst.currentState)
    requires name in cm.def.transitions && inst.currentState !in cm.def.transitions[name].sources
    requires forall r :: r in RegionsOf(cm, inst.currentState) ==> StaysInRegion(cm, inst.currentState, r)
    requires var cs := AllCandidates(cm, inst, name, call); cs.Ok? && cs.value != []
    ensures var cs := AllCandidates(cm, inst, name, call).value;
      ConfigOk(cm, After(inst, CommitParallelIntra(cm, inst, name, cs, call)))
  {
    var regions := ActiveRegions(inst);
    CandidatesAre(cm, inst, name, regions, |regions|, call);
    IntraKeeps(cm, inst, name, Candidates(cm, inst, name, regions, |regions|, call).value, call);
  }

  /** The three ways a step in a parallel state can go. */
  lemma ParallelOutcomes(cm: CompiledMachine, inst: Instance, name: string, call: Call)
    ensures var e := ParallelTransition(cm, inst, name, call);
      var cs := if name in cm.def.transitions then AllCandidates(cm, inst, name, call) else Ok([]);
      var v := ValidateTransition(cm, inst, name, call);
      || e.written.None?
      || (name in cm.def.transitions && inst.currentState in cm.def.transitions[name].sources && v.Ok?
          && e == CommitParallelExit(cm, inst, v.value.0, v.value.1, call))
      || (name in cm.def.transitions && inst.currentState !in cm.def.transitions[name].sources && cs.Ok?
          && cs.value != []
          && e == CommitParallelIntra(cm, inst, name, cs.value, call))
  {}

  lemma ParallelKeeps(cm: CompiledMachine, inst: Instance, name: string, call: Call)
    requires Sane(cm) && RegionLocal(cm) && ConfigOk(cm, inst) && IsParallel(cm.def, inst.currentState)
    ensures ConfigOk(cm, After(inst, ParallelTransition(cm, inst, name, call)))
  {
    ActiveMeansParallel(cm, inst);
    ParallelOutcomes(cm, inst, name, call);
    if ParallelTransition(cm, inst, name, call).written.Some? {
      if inst.currentState in cm.def.transitions[name].sources {
        ParallelExitKeeps(cm, inst, name, call);
      } else {
        ParallelIntraKeeps(cm, inst, name, call);
      }
    }
  }

  lemma StepKeeps(cm: CompiledMachine, inst: Instance, op: Op)
    requires Sane(cm) && RegionLocal(cm) && ConfigOk(cm, inst)
    ensures ConfigOk(cm, After(inst, Perform(cm, inst, op)))
  {
    match op
    case Force(target, call) => ForceKeeps(cm, inst, target, call);
    case Fire(name, call) =>
      ActiveMeansParallel(cm, inst);
      if |inst.active| > 0 {
        ParallelKeeps(cm, inst, name, call);
      } else if ValidateTransition(cm, inst, name, call).Ok? {
        ValidatedTarget(cm, inst, name, call);
        var v := ValidateTransition(cm, inst, name, call).value;
        PlainKeeps(cm, inst, v.0, v.1, call);
      }
  }

  lemma {:induction false} RunRests(cm: CompiledMachine, inst: Instance, ops: seq<Op>)
    requires Sane(cm) && RegionLocal(cm) && ConfigOk(cm, inst)
    ensures ConfigOk(cm, Run(cm, inst, ops))
    decreases |ops|
  {
    if ops != [] {
      RunRests(cm, inst, ops[..|ops| - 1]);
      StepKeeps(cm, Run(cm, inst, ops[..|ops| - 1]), ops[|ops| - 1]);
    }
  }

  /** After any run of any length: the instance rests at a leaf or a parallel state with one active
      leaf inside each of its regions, never at a plain compound, and its history points inside
      its compounds. */
  lemma EveryRunRests(cm: CompiledMachine, header: Header, ops: seq<Op>)
    requires Machine(cm) && RegionLocal(cm) && StartsAtRest(cm)
    ensures var inst := Run(cm, NewInstance(cm, header), ops);
      && ConfigOk(cm, inst)
      && (|inst.active| > 0 <==> IsParallel(cm.def, inst.currentState))
      && (|inst.active| == 0 <==> IsLeaf(cm.def, inst.currentState))
  {
    MachineIsSane(cm);
    NewInstanceRests(cm, header);
    RunRests(cm, NewInstance(cm, header), ops);
    ActiveMeansParallel(cm, Run(cm, NewInstance(cm, header), ops));
  }
}
