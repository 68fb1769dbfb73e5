/** An accepted definition whose parallel state has a compound below one of its regions. On it, entering and
    leaving the parallel state is not exact, one transition fires in two regions at once, and a step inside
    leaves a compound without recording it. */
module NestedRegions {
  import opened Definitions
  import opened Hierarchy
  import opened Compile
  import opened Validate
  import opened Step
  import opened Machines
  import opened Configuration
  import opened Orthogonal
  import opened Recording
  import opened Counterexamples

  /** `p` has the regions `r`, above the compound `c` with leaf `x` and above the leaf `z`, and `u` with leaf `y`. */
  datatype Nest = Nest(wait: string, p: string, r: string, c: string, x: string, z: string, u: string, y: string,
                       end: string)

  predicate NestApart(n: Nest) {
    && "" !in {n.wait, n.p, n.r, n.c, n.x, n.z, n.u, n.y, n.end}
    && n.wait !in {n.p, n.r, n.c, n.x, n.z, n.u, n.y, n.end} && n.p !in {n.r, n.c, n.x, n.z, n.u, n.y, n.end}
    && n.r !in {n.c, n.x, n.z, n.u, n.y, n.end} && n.c !in {n.x, n.z, n.u, n.y, n.end}
    && n.x !in {n.z, n.u, n.y, n.end} && n.z !in {n.u, n.y, n.end} && n.u !in {n.y, n.end} && n.y != n.end
  }

  function Both(name: string, a: string, b: string, target: string): TransitionDef {
    Go(name, a, target).(sources := [a, b])
  }

  ghost predicate IsNest(n: Nest, def: Definition) {
    && def.states.Keys == {n.wait, n.p, n.r, n.c, n.x, n.z, n.u, n.y, n.end}
    && def.states[n.wait] == Plain(n.wait, "").(isInitial := true)
    && def.states[n.p] == Above(n.p, "", n.r, "", true).(children := [n.r, n.u])
    && def.states[n.r] == Above(n.r, n.p, n.c, n.c, false).(children := [n.c, n.z])
    && def.states[n.c] == Above(n.c, n.r, n.x, n.x, false)
    && def.states[n.x] == Plain(n.x, n.c) && def.states[n.z] == Plain(n.z, n.r)
    && def.states[n.u] == Above(n.u, n.p, n.y, n.y, false)
    && def.states[n.y] == Plain(n.y, n.u)
    && def.states[n.end] == Plain(n.end, "").(isTerminal := true)
    && def.transitions.Keys == {"s", "ii", "ttt", "uuuu"}
    && def.transitions["s"] == Go("s", n.wait, n.p) && def.transitions["ii"] == Go("ii", n.x, n.z)
    && def.transitions["ttt"] == Both("ttt", n.x, n.y, n.z) && def.transitions["uuuu"] == Go("uuuu", n.p, n.end)
    && def.initialState == n.wait
  }

  // ---- It is accepted -------------------------------------------------------------------------------------------

  lemma NestTop(n: Nest, def: Definition, s: string)
    requires NestApart(n) && IsNest(n, def) && s in {n.wait, n.p, n.end}
    ensures WiredState(def, s)
  {}

  lemma NestRegion(n: Nest, def: Definition, s: string)
    requires NestApart(n) && IsNest(n, def) && s in {n.r, n.u, n.c}
    ensures WiredState(def, s)
  {}

  lemma NestLow(n: Nest, def: Definition, s: string)
    requires NestApart(n) && IsNest(n, def) && s in {n.x, n.z, n.y}
    ensures WiredState(def, s)
  {}

  lemma NestIsWired(n: Nest, def: Definition)
    requires NestApart(n) && IsNest(n, def)
    ensures Wired(def)
  {
    forall s | s in def.states ensures WiredState(def, s) {
      if s in {n.wait, n.p, n.end} { NestTop(n, def, s); }
      else if s in {n.r, n.u, n.c} { NestRegion(n, def, s); }
      else { NestLow(n, def, s); }
    }
  }

  lemma NestIsNested(n: Nest, def: Definition)
    requires NestApart(n) && IsNest(n, def)
    ensures ParentsExist(def) && CompoundsHaveInitial(def)
  {}

  lemma NestIsParallel(n: Nest, def: Definition)
    requires NestApart(n) && IsNest(n, def)
    ensures ParallelStatesOk(def)
  {
    forall s | s in def.states && def.states[s].isParallel ensures ParallelStateOk(def, def.states[s]) {}
  }

  lemma NestIsTargeted(n: Nest, def: Definition)
    requires NestApart(n) && IsNest(n, def)
    ensures Targeted(def) && StatesKnown(def)
  {}

  lemma NestEscapes(n: Nest, def: Definition)
    requires NestApart(n) && IsNest(n, def)
    ensures NoDeadEnds(def)
  {
    assert n.wait in def.transitions["s"].sources && n.x in def.transitions["ii"].sources;
    assert n.y in def.transitions["ttt"].sources && n.p in def.transitions["uuuu"].sources;
    assert LeavesAt(def, n.wait, 0) && LeavesAt(def, n.x, 0) && LeavesAt(def, n.y, 0);
    assert Up(def, n.z, 1) == n.r;
    assert Up(def, n.z, 2) == n.p;
    assert LeavesAt(def, n.z, 2);
  }

  lemma NestEdges(n: Nest, def: Definition)
    requires NestApart(n) && IsNest(n, def)
    ensures Edge(def, n.wait, n.p) && Edge(def, n.x, n.z) && Edge(def, n.p, n.end)
    ensures Edge(def, n.p, n.r) && Edge(def, n.p, n.u) && Edge(def, n.r, n.c) && Edge(def, n.c, n.x)
            && Edge(def, n.u, n.y)
  {
    assert "s" in def.transitions && "ii" in def.transitions && "uuuu" in def.transitions;
    assert FiresTo(def, n.wait, n.p) && FiresTo(def, n.x, n.z) && FiresTo(def, n.p, n.end);
  }

  lemma Reached(def: Definition, n: Nest)
    requires def.initialState == n.wait && Edge(def, n.wait, n.p) && Edge(def, n.p, n.end)
    requires Edge(def, n.p, n.r) && Edge(def, n.r, n.c) && Edge(def, n.c, n.x) && Edge(def, n.x, n.z)
    requires Edge(def, n.p, n.u) && Edge(def, n.u, n.y)
    requires def.states.Keys == {n.wait, n.p, n.r, n.c, n.x, n.z, n.u, n.y, n.end}
    ensures AllReachable(def)
  {
    StartReached(def);
    ReachableStep(def, n.wait, n.p);
    ReachableStep(def, n.p, n.end);
    ReachableStep(def, n.p, n.r);
    ReachableStep(def, n.r, n.c);
    ReachableStep(def, n.c, n.x);
    ReachableStep(def, n.x, n.z);
    ReachableStep(def, n.p, n.u);
    ReachableStep(def, n.u, n.y);
  }

  lemma NestIsReachable(n: Nest, def: Definition)
    requires NestApart(n) && IsNest(n, def)
    ensures AllReachable(def)
  {
    NestEdges(n, def);
    Reached(def, n);
  }

  lemma NestStartsOnce(n: Nest, def: Definition)
    requires NestApart(n) && IsNest(n, def)
    ensures OneInitialState(def) && HasTerminalState(def) && CompoundNotTerminal(def) && InitialNotCompound(def)
            && WaitLeafOnly(def)
  {
    assert InitialStates(def) == {n.wait};
    assert def.states[n.end].isTerminal;
  }

  lemma NestIsAccepted(n: Nest, cm: CompiledMachine)
    requires NestApart(n) && IsNest(n, cm.def) && Faithful(cm)
    ensures Wired(cm.def) && Validated(cm.def) && Machine(cm)
  {
    NestIsWired(n, cm.def);
    NestIsNested(n, cm.def);
    NestIsParallel(n, cm.def);
    NestIsTargeted(n, cm.def);
    NestEscapes(n, cm.def);
    NestIsReachable(n, cm.def);
    NestStartsOnce(n, cm.def);
  }

  // ---- Entering the parallel state --------------------------------------------------------------

  lemma NestLeaves(n: Nest, cm: CompiledMachine)
    requires NestApart(n) && IsNest(n, cm.def) && Faithful(cm)
    ensures LeafOf(cm, n.wait) == n.wait && LeafOf(cm, n.p) == n.p && LeafOf(cm, n.end) == n.end
    ensures RegionsOf(cm, n.p) == [n.r, n.u] && LeafOf(cm, n.r) == n.x && LeafOf(cm, n.u) == n.y
  {
    var def := cm.def;
    assert InitialLeaf(def, n.x) == n.x && InitialLeaf(def, n.y) == n.y;
    assert InitialLeaf(def, n.c) == n.x;
    assert InitialLeaf(def, n.r) == n.x && InitialLeaf(def, n.u) == n.y;
    assert IsPlainCompound(def, n.r) && IsPlainCompound(def, n.u);
  }

  /** The instance rests in the parallel state, each region at its initial leaf. */
  predicate Inside(n: Nest, inst: Instance) {
    inst.currentState == n.p && inst.active == map[n.r := n.x, n.u := n.y]
  }

  lemma NestChains(n: Nest, cm: CompiledMachine)
    requires NestApart(n) && IsNest(n, cm.def) && ChainsOk(cm)
    ensures Anc(cm, n.p) == [] && Anc(cm, n.r) == [n.p] && Anc(cm, n.u) == [n.p] && Anc(cm, n.c) == [n.r, n.p]
    ensures Anc(cm, n.x) == [n.c, n.r, n.p] && Anc(cm, n.z) == [n.r, n.p] && Anc(cm, n.y) == [n.u, n.p]
  {
    AncUnfold(cm, n.p);
    AncUnfold(cm, n.r);
    AncUnfold(cm, n.u);
    AncUnfold(cm, n.c);
    AncUnfold(cm, n.x);
    AncUnfold(cm, n.z);
    AncUnfold(cm, n.y);
  }

  lemma LeavesInRegions(n: Nest, cm: CompiledMachine)
    requires NestApart(n) && IsNest(n, cm.def) && ChainsOk(cm)
    ensures InRegion(cm, n.x, n.r) && InRegion(cm, n.y, n.u) && InRegion(cm, n.z, n.r)
    ensures IsParallel(cm.def, n.p) && ParentOf(cm.def, n.x) != n.r
  {
    NestChains(n, cm);
  }

  lemma InsideRests(n: Nest, cm: CompiledMachine, inst: Instance)
    requires NestApart(n) && IsNest(n, cm.def) && ChainsOk(cm) && Inside(n, inst) && RegionsOf(cm, n.p) == [n.r, n.u]
    ensures RestsWell(cm, inst) && IsParallel(cm.def, inst.currentState) && !Orthogonal.Shallow(cm, inst.active)
  {
    LeavesInRegions(n, cm);
    assert Elements(RegionsOf(cm, n.p)) == {n.r, n.u};
    assert n.r in inst.active;
  }

  lemma InitialInside(n: Nest, cm: CompiledMachine)
    requires RegionsOf(cm, n.p) == [n.r, n.u] && LeafOf(cm, n.r) == n.x && LeafOf(cm, n.u) == n.y
    ensures InitialRegions(cm, n.p) == map[n.r := n.x, n.u := n.y]
  {
    assert forall r :: r in RegionsOf(cm, n.p) <==> r == n.r || r == n.u;
  }

  lemma RegionsHaveLeaves(n: Nest, cm: CompiledMachine)
    requires NestApart(n) && IsNest(n, cm.def) && Acyclic(cm.def) && Assembled(cm.def) && LeavesOk(cm)
    ensures n.r in cm.initialLeaf && n.u in cm.initialLeaf
  {
    assert IsPlainCompound(cm.def, n.r) && IsPlainCompound(cm.def, n.u);
  }

  lemma EntryMisses(n: Nest, cm: CompiledMachine, s: string, after: Instance)
    requires ChainsOk(cm) && ParentsCompound(cm) && RegionsProper(cm) && IsParallel(cm.def, n.p)
    requires RegionsOf(cm, n.p) == [n.r, n.u] && n.r in cm.initialLeaf && n.u in cm.initialLeaf
    requires after.currentState == n.p && after.active == InitialRegions(cm, n.p) && RestsWell(cm, after)
    requires !Orthogonal.Shallow(cm, after.active)
    ensures Config(cm, s) - Elements(ExitSeq(cm, s, Lca(cm, s, n.p))) + Elements(EntriesFor(cm, Lca(cm, s, n.p), n.p))
            != FullConfig(cm, after)
  {
    ParallelEntryExact(cm, s, n.p, after);
  }

  /** From anywhere outside, the entries of the source miss the compound. */
  lemma EntryNotExact(n: Nest, cm: CompiledMachine, s: string, after: Instance)
    requires NestApart(n) && IsNest(n, cm.def) && Faithful(cm) && Sane(cm) && Inside(n, after)
    ensures Config(cm, s) - Elements(ExitSeq(cm, s, Lca(cm, s, n.p))) + Elements(EntriesFor(cm, Lca(cm, s, n.p), n.p))
            != FullConfig(cm, after)
  {
    NestLeaves(n, cm);
    InsideRests(n, cm, after);
    InitialInside(n, cm);
    RegionsHaveLeaves(n, cm);
    EntryMisses(n, cm, s, after);
  }

  lemma ExitMisses(cm: CompiledMachine, inst: Instance, t: string)
    requires ChainsOk(cm) && ParentsCompound(cm) && RegionsProper(cm) && RestsWell(cm, inst)
    requires IsParallel(cm.def, inst.currentState) && inst.currentState !in Config(cm, t)
    requires !Orthogonal.Shallow(cm, inst.active)
    ensures FullConfig(cm, inst) - Elements(ParallelExitSeq(inst)) + Elements(EntrySeq(cm, "", t)) != Config(cm, t)
  {
    ParallelExitExact(cm, inst, t);
  }

  /** Leaving for the end, the exits of the source miss it too. */
  lemma ExitNotExact(n: Nest, cm: CompiledMachine, inst: Instance)
    requires NestApart(n) && IsNest(n, cm.def) && Inside(n, inst) && RegionsOf(cm, n.p) == [n.r, n.u]
    requires ChainsOk(cm) && ParentsCompound(cm) && RegionsProper(cm)
    ensures FullConfig(cm, inst) - Elements(ParallelExitSeq(inst)) + Elements(EntrySeq(cm, "", n.end))
            != Config(cm, n.end)
  {
    InsideRests(n, cm, inst);
    EndIsRoot(n, cm);
    ExitMisses(cm, inst, n.end);
  }

  lemma EndIsRoot(n: Nest, cm: CompiledMachine)
    requires NestApart(n) && IsNest(n, cm.def) && ChainsOk(cm)
    ensures n.p !in Config(cm, n.end)
  {
    AncUnfold(cm, n.end);
  }

  // ---- Firing inside ----------------------------------------------------------------------------

  lemma TwoRegions(n: Nest, inst: Instance)
    requires NestApart(n) && Inside(n, inst)
    ensures ActiveRegions(inst) == [n.r, n.u] || ActiveRegions(inst) == [n.u, n.r]
  {
    var regions := ActiveRegions(inst);
    assert Elements(regions) == {n.r, n.u};
    SizeOfDistinct(regions);
    assert |regions| == 2;
    assert regions[0] in Elements(regions) && regions[1] in Elements(regions);
  }

  lemma InCompound(n: Nest, cm: CompiledMachine, inst: Instance, name: string)
    requires NestApart(n) && IsNest(n, cm.def) && ChainsOk(cm) && TransitionsProper(cm) && Inside(n, inst)
             && name in {"ii", "ttt"}
    ensures CandidateIn(cm, inst, name, n.r, Smooth(2)) == Ok([Candidate(n.r, n.x, cm.def.transitions[name], n.z)])
  {
    var tr := cm.def.transitions[name];
    assert TransitionProper(cm, name, tr) && n.x in tr.sources;
    assert BoundedSource(cm, tr, n.x, n.p) == n.x;
  }

  lemma InOtherNothing(n: Nest, cm: CompiledMachine, inst: Instance)
    requires NestApart(n) && IsNest(n, cm.def) && ChainsOk(cm) && Inside(n, inst)
    ensures CandidateIn(cm, inst, "ii", n.u, Smooth(2)) == Ok([])
  {
    NestChains(n, cm);
    assert Anc(cm, n.y)[0] == n.u && Anc(cm, n.y)[1] == n.p;
    assert BoundedSource(cm, cm.def.transitions["ii"], n.y, n.p) == "";
  }

  lemma InOtherToo(n: Nest, cm: CompiledMachine, inst: Instance)
    requires NestApart(n) && IsNest(n, cm.def) && TransitionsProper(cm) && Inside(n, inst)
    ensures CandidateIn(cm, inst, "ttt", n.u, Smooth(2)) == Ok([Candidate(n.u, n.y, cm.def.transitions["ttt"], n.z)])
  {
    var ttt := cm.def.transitions["ttt"];
    assert TransitionProper(cm, "ttt", ttt) && n.y in ttt.sources;
    assert BoundedSource(cm, ttt, n.y, n.p) == n.y;
  }

  lemma CandidatesOfTwo(cm: CompiledMachine, inst: Instance, name: string, a: string, b: string, call: Call)
    requires name in cm.def.transitions && a in inst.active && b in inst.active
    requires CandidateIn(cm, inst, name, a, call).Ok? && CandidateIn(cm, inst, name, b, call).Ok?
    ensures Candidates(cm, inst, name, [a, b], 2, call)
            == Ok(CandidateIn(cm, inst, name, a, call).value + CandidateIn(cm, inst, name, b, call).value)
  {
    var l, cs := [a, b], CandidateIn(cm, inst, name, a, call).value;
    assert Candidates(cm, inst, name, l, 0, call) == Ok([]);
    assert [] + cs == cs;
    assert Candidates(cm, inst, name, l, 1, call) == Ok(cs);
  }

  lemma CandidatesOfBoth(cm: CompiledMachine, inst: Instance, name: string, a: string, b: string, call: Call)
    requires name in cm.def.transitions && a in inst.active && b in inst.active
    requires ActiveRegions(inst) == [a, b] || ActiveRegions(inst) == [b, a]
    requires CandidateIn(cm, inst, name, a, call).Ok? && CandidateIn(cm, inst, name, b, call).Ok?
    ensures var x, y := CandidateIn(cm, inst, name, a, call).value, CandidateIn(cm, inst, name, b, call).value;
      AllCandidates(cm, inst, name, call) == Ok(x + y) || AllCandidates(cm, inst, name, call) == Ok(y + x)
  {
    if ActiveRegions(inst) == [a, b] {
      CandidatesOfTwo(cm, inst, name, a, b, call);
    } else {
      CandidatesOfTwo(cm, inst, name, b, a, call);
    }
  }

  lemma InnerCandidate(n: Nest, cm: CompiledMachine, inst: Instance)
    requires NestApart(n) && IsNest(n, cm.def) && ChainsOk(cm) && TransitionsProper(cm) && Inside(n, inst)
    ensures AllCandidates(cm, inst, "ii", Smooth(2)) == Ok([Candidate(n.r, n.x, cm.def.transitions["ii"], n.z)])
  {
    TwoRegions(n, inst);
    InCompound(n, cm, inst, "ii");
    InOtherNothing(n, cm, inst);
    CandidatesOfBoth(cm, inst, "ii", n.r, n.u, Smooth(2));
    var one := [Candidate(n.r, n.x, cm.def.transitions["ii"], n.z)];
    assert one + [] == one && [] + one == one;
  }

  lemma BothCandidates(n: Nest, cm: CompiledMachine, inst: Instance) returns (cs: seq<Candidate>)
    requires NestApart(n) && IsNest(n, cm.def) && ChainsOk(cm) && TransitionsProper(cm) && Inside(n, inst)
    ensures AllCandidates(cm, inst, "ttt", Smooth(2)) == Ok(cs) && |cs| == 2
  {
    TwoRegions(n, inst);
    InCompound(n, cm, inst, "ttt");
    InOtherToo(n, cm, inst);
    CandidatesOfBoth(cm, inst, "ttt", n.r, n.u, Smooth(2));
    cs := AllCandidates(cm, inst, "ttt", Smooth(2)).value;
  }

  lemma NestFires(n: Nest, cm: CompiledMachine, inst: Instance, name: string, cs: seq<Candidate>)
    requires NestApart(n) && IsNest(n, cm.def) && Inside(n, inst) && name in {"ii", "ttt"} && cs != []
    requires AllCandidates(cm, inst, name, Smooth(2)) == Ok(cs)
    ensures Transition(cm, inst, name, Smooth(2)) == CommitParallelIntra(cm, inst, name, cs, Smooth(2))
    ensures CommitParallelIntra(cm, inst, name, cs, Smooth(2)).written.Some?
  {
    assert n.r in inst.active;
    assert n.p !in cm.def.transitions[name].sources;
  }

  lemma TwoFireBadly(cm: CompiledMachine, inst: Instance, name: string, cs: seq<Candidate>)
    requires ChainsOk(cm) && RegionsProper(cm) && TransitionsProper(cm) && name in cm.def.transitions
    requires RestsWell(cm, inst) && IsParallel(cm.def, inst.currentState)
    requires AllCandidates(cm, inst, name, Smooth(2)) == Ok(cs) && |cs| >= 2
    requires CommitParallelIntra(cm, inst, name, cs, Smooth(2)).written.Some?
    ensures !RestsWell(cm, After(inst, CommitParallelIntra(cm, inst, name, cs, Smooth(2))))
  {
    CandidatesAre(cm, inst, name, ActiveRegions(inst), |ActiveRegions(inst)|, Smooth(2));
    TwoRegionsNeverRest(cm, inst, name, cs, Smooth(2));
  }

  /** One transition fires in both regions, and the instance does not rest well afterwards. */
  lemma BothRegionsFire(n: Nest, cm: CompiledMachine, inst: Instance)
    requires NestApart(n) && IsNest(n, cm.def) && Sane(cm) && Inside(n, inst) && RegionsOf(cm, n.p) == [n.r, n.u]
    ensures RestsWell(cm, inst) && !RestsWell(cm, After(inst, Transition(cm, inst, "ttt", Smooth(2))))
  {
    InsideRests(n, cm, inst);
    var cs := BothCandidates(n, cm, inst);
    NestFires(n, cm, inst, "ttt", cs);
    TwoFireBadly(cm, inst, "ttt", cs);
  }

  lemma InnerMove(n: Nest, cm: CompiledMachine, inst: Instance)
    requires NestApart(n) && IsNest(n, cm.def) && ChainsOk(cm) && TransitionsProper(cm) && Inside(n, inst)
    ensures var after := After(inst, Transition(cm, inst, "ii", Smooth(2)));
      && after.currentState == n.p && after.active == inst.active[n.r := n.z] && HistoryOf(after) == HistoryOf(inst)
  {
    InnerCandidate(n, cm, inst);
    var cs := [Candidate(n.r, n.x, cm.def.transitions["ii"], n.z)];
    NestFires(n, cm, inst, "ii", cs);
    IntraOutcomes(cm, inst, "ii", cs, Smooth(2));
    InnerStepsRecordNothing(cm, inst, "ii", cs, Smooth(2));
    assert MovedRegions(inst.active, cs, 0) == inst.active;
    assert MovedRegions(inst.active, cs, 1) == inst.active[n.r := n.z];
  }

  lemma CompoundLeft(n: Nest, cm: CompiledMachine, before: Instance, after: Instance)
    requires NestApart(n) && IsNest(n, cm.def) && ChainsOk(cm) && Inside(n, before)
    requires after.currentState == n.p && after.active == before.active[n.r := n.z]
    ensures n.c in FullConfig(cm, before) && n.c !in FullConfig(cm, after)
  {
    NestChains(n, cm);
    assert n.r in before.active && n.c in Config(cm, before.active[n.r]);
    forall r | r in after.active ensures n.c !in Config(cm, after.active[r]) { assert r == n.r || r == n.u; }
  }

  /** A step inside leaves the compound without a record of it: it was active and no longer is, and the
      history is what it was. */
  lemma InnerExitUnrecorded(n: Nest, cm: CompiledMachine, inst: Instance)
    requires NestApart(n) && IsNest(n, cm.def) && ChainsOk(cm) && TransitionsProper(cm) && Inside(n, inst)
    ensures var after := After(inst, Transition(cm, inst, "ii", Smooth(2)));
      n.c in FullConfig(cm, inst) && n.c !in FullConfig(cm, after) && HistoryOf(after) == HistoryOf(inst)
  {
    InnerMove(n, cm, inst);
    CompoundLeft(n, cm, inst, After(inst, Transition(cm, inst, "ii", Smooth(2))));
  }

  /** And a run gets there: the first step of a new instance. */
  lemma NestStarts(n: Nest, cm: CompiledMachine, header: Header)
    requires NestApart(n) && IsNest(n, cm.def) && Faithful(cm)
    ensures Inside(n, Run(cm, NewInstance(cm, header), [Fire("s", Smooth(1))]))
  {
    NestIsAccepted(n, cm);
    MachineIsSane(cm);
    NestLeaves(n, cm);
    var a := NewInstance(cm, header);
    NestFirst(n, cm, a);
    assert [Fire("s", Smooth(1))][..0] == [];
    assert Run(cm, a, [Fire("s", Smooth(1))]) == After(a, Transition(cm, a, "s", Smooth(1)));
  }

  lemma NestFirst(n: Nest, cm: CompiledMachine, inst: Instance)
    requires NestApart(n) && IsNest(n, cm.def) && TransitionsProper(cm) && inst.currentState == n.wait
             && inst.active == map[]
    requires LeafOf(cm, n.p) == n.p && RegionsOf(cm, n.p) == [n.r, n.u] && LeafOf(cm, n.r) == n.x
             && LeafOf(cm, n.u) == n.y
    ensures Inside(n, After(inst, Transition(cm, inst, "s", Smooth(1))))
  {
    NestMoves(n, cm, inst);
    InitialInside(n, cm);
  }

  lemma NestMoves(n: Nest, cm: CompiledMachine, inst: Instance)
    requires NestApart(n) && IsNest(n, cm.def) && TransitionsProper(cm) && inst.currentState == n.wait
             && inst.active == map[]
    requires LeafOf(cm, n.p) == n.p
    ensures var after := After(inst, Transition(cm, inst, "s", Smooth(1)));
      after.currentState == n.p && after.active == InitialRegions(cm, n.p)
  {
    var tr := Go("s", n.wait, n.p);
    assert TransitionProper(cm, "s", tr) && n.wait in tr.sources;
    assert ValidateTransition(cm, inst, "s", Smooth(1)) == Ok((tr, n.p));
    SmoothSucceeds(cm, inst, tr, n.p, 1);
  }

  lemma SmoothSucceeds(cm: CompiledMachine, inst: Instance, tr: TransitionDef, target: string, now: int)
    ensures var e := CommitPlain(cm, inst, tr, target, Smooth(now));
      var plan := PlanFor(cm, inst, tr, target);
      && e.written.Some? && e.written.value.currentState == plan.resolved
      && e.written.value.active == InitialRegions(cm, plan.resolved)
  {}

  // ---- There is such a machine ------------------------------------------------------------------------------------

  const NEST: Nest := Nest("1", "22", "333", "4444", "55555", "666666", "7777777", "88888888", "999999999")

  lemma NestIsApart()
    ensures NestApart(NEST)
  {
    assert |NEST.wait| == 1 && |NEST.p| == 2 && |NEST.r| == 3 && |NEST.c| == 4 && |NEST.x| == 5;
    assert |NEST.z| == 6 && |NEST.u| == 7 && |NEST.y| == 8 && |NEST.end| == 9;
  }

  function NestStates(n: Nest): map<string, StateDef> {
    map[n.wait := Plain(n.wait, "").(isInitial := true),
        n.p := Above(n.p, "", n.r, "", true).(children := [n.r, n.u]),
        n.r := Above(n.r, n.p, n.c, n.c, false).(children := [n.c, n.z]),
        n.c := Above(n.c, n.r, n.x, n.x, false),
        n.x := Plain(n.x, n.c), n.z := Plain(n.z, n.r),
        n.u := Above(n.u, n.p, n.y, n.y, false),
        n.y := Plain(n.y, n.u),
        n.end := Plain(n.end, "").(isTerminal := true)]
  }

  function NestTransitions(n: Nest): map<string, TransitionDef> {
    map["s" := Go("s", n.wait, n.p), "ii" := Go("ii", n.x, n.z),
        "ttt" := Both("ttt", n.x, n.y, n.z), "uuuu" := Go("uuuu", n.p, n.end)]
  }

  lemma NestIsOne(n: Nest, def: Definition)
    requires NestApart(n) && def.states == NestStates(n) && def.transitions == NestTransitions(n)
             && def.initialState == n.wait
    ensures IsNest(n, def)
  {
    assert |"s"| == 1 && |"ii"| == 2 && |"ttt"| == 3 && |"uuuu"| == 4;
    assert def.transitions.Keys == {"s", "ii", "ttt", "uuuu"};
    assert def.states.Keys == {n.wait, n.p, n.r, n.c, n.x, n.z, n.u, n.y, n.end};
  }

  lemma NestHasNoCycle(n: Nest, def: Definition)
    requires NestApart(n) && IsNest(n, def)
    ensures !HasParentCycle(def)
  {
    forall w | |w| >= 1 ensures !IsParentCycle(def, w) {
      var c := NestHasChain(n, def, w[0]);
      ChainMeansNoCycle(def, w, c);
    }
  }

  lemma NestHasChain(n: Nest, def: Definition, s: string) returns (c: seq<string>)
    requires NestApart(n) && IsNest(n, def)
    ensures IsChain(def, s, c)
  {
    assert IsChain(def, n.p, []);
    assert IsChain(def, n.r, [n.p]) && IsChain(def, n.u, [n.p]);
    assert IsChain(def, n.c, [n.r, n.p]) by { assert [n.r, n.p][1..] == [n.p]; }
    c := if s in {n.r, n.u} then [n.p] else if s in {n.c, n.z} then [n.r, n.p] else if s == n.y then [n.u, n.p]
         else if s == n.x then [n.c, n.r, n.p] else [];
    assert |c| == 3 ==> c[1..] == [n.r, n.p];
    assert |c| == 2 ==> c[1..] == [n.p];
  }

  /** Compiling the definition gives a machine that the lemmas above speak about. */
  method CompileNest() returns (cm: CompiledMachine)
    ensures NestApart(NEST) && IsNest(NEST, cm.def) && Faithful(cm)
  {
    NestIsApart();
    var def := Definition("t", "w", 1, NestStates(NEST), NestTransitions(NEST), NEST.wait);
    NestIsOne(NEST, def);
    NestIsNested(NEST, def);
    NestIsWired(NEST, def);
    NestHasNoCycle(NEST, def);
    var r := Compile.Compile(def);
    cm := r.value;
  }
}
