/** What static validation buys at run time: whoever is not finished can go on
    (internal/graph/validate.go:354-400, internal/runtime/executor.go:144-187,
    internal/runtime/parallel.go:50-134). */
module Progress {
  import opened Definitions
  import opened Hierarchy
  import opened Validate
  import opened Step
  import opened Machines
  import opened Configuration
  import opened Orthogonal

  /** The transition passes every structural check of validateTransition in state `s`. */
  ghost predicate CanFireFrom(cm: CompiledMachine, s: string, n: string) {
    && n in cm.def.transitions && !IsTerminal(cm.def, s)
    && EffectiveSource(cm, cm.def.transitions[n], s).Some?
  }

  /** Only a guard or a route can still turn the call down. */
  predicate OnlyGuardsOrRoutes(f: Failure) {
    f.GuardRejected? || f.ConditionBroken? || f.NoMatchingRoute?
  }

  /** The nearest source is a source, at or above the state. */
  lemma EffectiveSourceIs(cm: CompiledMachine, tr: TransitionDef, s: string)
    ensures EffectiveSource(cm, tr, s).Some? ==>
      EffectiveSource(cm, tr, s).value in tr.sources && EffectiveSource(cm, tr, s).value in Config(cm, s)
    ensures EffectiveSource(cm, tr, s).Some? <==> exists x :: x in tr.sources && x in Config(cm, s)
  {
    var c := Anc(cm, s);
    var i := FirstIn(c, Elements(tr.sources));
    if x :| x in tr.sources && x in Config(cm, s) {
      if x != s {
        var k :| 0 <= k < |c| && c[k] == x;
        assert i <= k;
      }
    }
  }

  /** The index never misses: the defensive fallback of validateTransition is unreachable, and what
      passes the source check fails only in guards or routes. */
  lemma IndexNeverMisses(cm: CompiledMachine, inst: Instance, n: string, call: Call)
    requires TransitionsProper(cm)
    ensures var v := ValidateTransition(cm, inst, n, call);
      && v != Err(IndexMiss)
      && (CanFireFrom(cm, inst.currentState, n) <==> v.Ok? || OnlyGuardsOrRoutes(v.error))
  {
    if CanFireFrom(cm, inst.currentState, n) {
      var tr := cm.def.transitions[n];
      var s := EffectiveSource(cm, tr, inst.currentState).value;
      EffectiveSourceIs(cm, tr, inst.currentState);
      assert TransitionProper(cm, n, tr);
    }
  }

  /** Every state that validation accepted as no dead end has a transition at itself or above. */
  lemma SomeTransitionAtOrAbove(cm: CompiledMachine, s: string) returns (n: string, x: string)
    requires ChainsOk(cm) && NoDeadEnds(cm.def) && IsLeaf(cm.def, s) && !IsTerminal(cm.def, s)
    ensures n in cm.def.transitions && x in cm.def.transitions[n].sources && x in Config(cm, s)
  {
    assert IsChain(cm.def, s, Anc(cm, s));
    EscapesIsAncestor(cm.def, s, Anc(cm, s));
    assert MustEscape(cm.def, s);
    x :| x in Config(cm, s) && SomeTransitionFrom(cm.def, x);
    assert SomeTransitionFrom(cm.def, x);
    n :| n in cm.def.transitions && x in cm.def.transitions[n].sources;
  }

  /** A non-terminal leaf always has a transition that gets as far as its guards. */
  lemma LeafCanFire(cm: CompiledMachine, s: string) returns (n: string)
    requires ChainsOk(cm) && NoDeadEnds(cm.def) && IsLeaf(cm.def, s) && !IsTerminal(cm.def, s)
    ensures CanFireFrom(cm, s, n)
  {
    var x;
    n, x := SomeTransitionAtOrAbove(cm, s);
    EffectiveSourceIs(cm, cm.def.transitions[n], s);
  }

  // ---- Parallel states -----------------------------------------------------------------------------------------

  /** The transition is sourced at the parallel state itself, or an active leaf can fire it. */
  ghost predicate CanFireInside(cm: CompiledMachine, inst: Instance, n: string) {
    && n in cm.def.transitions
    && (inst.currentState in cm.def.transitions[n].sources
        || exists r ::
             r in inst.active && BoundedSource(cm, cm.def.transitions[n], inst.active[r], inst.currentState) != "")
  }

  lemma BoundedSourceExists(cm: CompiledMachine, tr: TransitionDef, leaf: string, p: string, x: string)
    requires ChainsOk(cm) && p in Anc(cm, leaf) && x in tr.sources && x in Config(cm, leaf) && x !in Config(cm, p)
    requires leaf != ""
    ensures BoundedSource(cm, tr, leaf, p) != ""
  {
    if leaf !in tr.sources {
      var c := Anc(cm, leaf);
      AncUnfold(cm, leaf);
      var k :| 0 <= k < |c| && c[k] == x;
      var i := FirstIn(c, Elements(tr.sources) + {p});
      assert i <= k;
      if i < k { AboveTail(cm, leaf, i, k); }
      assert c[i] != p;
    }
  }

  lemma AboveTail(cm: CompiledMachine, s: string, i: nat, k: nat)
    requires ChainsOk(cm) && i < k < |Anc(cm, s)|
    ensures Anc(cm, s)[k] in Anc(cm, Anc(cm, s)[i])
  {
    AncTail(cm, s, i);
    assert Anc(cm, s)[i + 1..][k - i - 1] == Anc(cm, s)[k];
  }

  /** A bounded source lies below the parallel state. */
  lemma BoundedSourceBelow(cm: CompiledMachine, tr: TransitionDef, leaf: string, p: string)
    requires ChainsOk(cm) && p in Anc(cm, leaf) && BoundedSource(cm, tr, leaf, p) != ""
    ensures var s := BoundedSource(cm, tr, leaf, p);
      s in tr.sources && s in Config(cm, leaf) && s !in Config(cm, p)
  {
    var s := BoundedSource(cm, tr, leaf, p);
    if s != leaf {
      var c := Anc(cm, leaf);
      var i := FirstIn(c, Elements(tr.sources) + {p});
      var k :| 0 <= k < |c| && c[k] == p;
      assert i < k && s == c[i];
      AboveTail(cm, leaf, i, k);
    }
    BelowIsOutside(cm, s, p);
  }

  /** Some transition is sourced at the parallel state or below it, at or above an active leaf. Sources above the
      parallel state do not count: inside it events do not bubble past it. */
  ghost predicate InnerWay(cm: CompiledMachine, inst: Instance) {
    || SomeTransitionFrom(cm.def, inst.currentState)
    || exists r, x :: InnerWayAt(cm, inst, r, x)
  }

  predicate InnerWayAt(cm: CompiledMachine, inst: Instance, r: string, x: string) {
    && r in inst.active && x in Config(cm, inst.active[r]) && x !in Config(cm, inst.currentState)
    && SomeTransitionFrom(cm.def, x)
  }

  /** Exactly when something can fire inside a parallel state. */
  lemma InnerWayExactly(cm: CompiledMachine, inst: Instance)
    requires ChainsOk(cm) && RegionsProper(cm) && RestsWell(cm, inst) && IsParallel(cm.def, inst.currentState)
    requires "" !in inst.active.Values
    ensures (exists n :: CanFireInside(cm, inst, n)) <==> InnerWay(cm, inst)
  {
    var p := inst.currentState;
    if n :| CanFireInside(cm, inst, n) {
      var tr := cm.def.transitions[n];
      if p !in tr.sources {
        var r :| r in inst.active && BoundedSource(cm, tr, inst.active[r], p) != "";
        LeafBelowParallel(cm, inst, r);
        BoundedSourceBelow(cm, tr, inst.active[r], p);
        assert InnerWayAt(cm, inst, r, BoundedSource(cm, tr, inst.active[r], p));
      }
    }
    if SomeTransitionFrom(cm.def, p) {
      var n :| n in cm.def.transitions && p in cm.def.transitions[n].sources;
      assert CanFireInside(cm, inst, n);
    } else if r, x :| InnerWayAt(cm, inst, r, x) {
      var n :| n in cm.def.transitions && x in cm.def.transitions[n].sources;
      LeafBelowParallel(cm, inst, r);
      BoundedSourceExists(cm, cm.def.transitions[n], inst.active[r], p, x);
      assert CanFireInside(cm, inst, n);
    }
  }

  lemma LeafBelowParallel(cm: CompiledMachine, inst: Instance, r: string)
    requires ChainsOk(cm) && RegionsProper(cm) && RestsWell(cm, inst) && IsParallel(cm.def, inst.currentState)
    requires r in inst.active
    ensures inst.currentState in Anc(cm, inst.active[r]) && IsLeaf(cm.def, inst.active[r])
  {
    assert InRegion(cm, inst.active[r], r) && r in Elements(RegionsOf(cm, inst.currentState));
    assert IsRegion(cm, inst.currentState, r);
    AncUnfold(cm, r);
    AncTransitive(cm, inst.active[r], r, inst.currentState);
  }

  /** In a root-level parallel state with a non-terminal active leaf some transition can fire. */
  lemma ParallelCanFire(cm: CompiledMachine, inst: Instance, r: string) returns (n: string)
    requires ChainsOk(cm) && RegionsProper(cm) && NoDeadEnds(cm.def) && RestsWell(cm, inst)
    requires IsParallel(cm.def, inst.currentState) && Anc(cm, inst.currentState) == []
    requires r in inst.active && inst.active[r] != "" && !IsTerminal(cm.def, inst.active[r])
    ensures CanFireInside(cm, inst, n)
  {
    var p, leaf := inst.currentState, inst.active[r];
    assert InRegion(cm, leaf, r) && r in Elements(RegionsOf(cm, p)) && IsRegion(cm, p, r);
    AncUnfold(cm, r);
    AncTransitive(cm, leaf, r, p);
    var x;
    n, x := SomeTransitionAtOrAbove(cm, leaf);
    if x != p { BoundedSourceExists(cm, cm.def.transitions[n], leaf, p, x); }
  }

  /** Every region whose active leaf can fire the transition contributes a candidate, unless a guard or
      route turns the whole call down; the index lookup never skips a region. */
  lemma {:induction false} CandidatesComplete(cm: CompiledMachine, inst: Instance, name: string, regions: seq<string>,
                                              n: nat, call: Call)
    requires TransitionsProper(cm) && name in cm.def.transitions && n <= |regions|
    requires forall r :: r in regions ==> r in inst.active
    ensures var cs := Candidates(cm, inst, name, regions, n, call);
      if cs.Err? then OnlyGuardsOrRoutes(cs.error)
      else forall i :: 0 <= i < n && HasSource(cm, inst, name, regions[i]) ==> HasRegion(cs.value, regions[i])
  {
    if n > 0 {
      CandidatesComplete(cm, inst, name, regions, n - 1, call);
      RegionComplete(cm, inst, name, regions[n - 1], call);
      var before, c := Candidates(cm, inst, name, regions, n - 1, call),
          CandidateIn(cm, inst, name, regions[n - 1], call);
      if before.Ok? && c.Ok? {
        forall i | 0 <= i < n && HasSource(cm, inst, name, regions[i])
          ensures HasRegion(before.value + c.value, regions[i]) {
          assert if i < n - 1 then HasRegion(before.value, regions[i]) else HasRegion(c.value, regions[i]);
          HasRegionIn(before.value, c.value, regions[i]);
        }
      }
    }
  }

  /** The region's active leaf or an ancestor below the parallel state is a source. */
  ghost predicate HasSource(cm: CompiledMachine, inst: Instance, name: string, region: string) {
    && name in cm.def.transitions && region in inst.active
    && BoundedSource(cm, cm.def.transitions[name], inst.active[region], inst.currentState) != ""
  }

  ghost predicate HasRegion(cs: seq<Candidate>, r: string) {
    exists c :: c in cs && c.region == r
  }

  lemma HasRegionIn(a: seq<Candidate>, b: seq<Candidate>, r: string)
    requires HasRegion(a, r) || HasRegion(b, r)
    ensures HasRegion(a + b, r)
  {
    var c :| (c in a || c in b) && c.region == r;
    assert c in a + b;
  }

  /** A region whose leaf has a source contributes its candidate, or its guards or routes turn it down. */
  lemma RegionComplete(cm: CompiledMachine, inst: Instance, name: string, region: string, call: Call)
    requires TransitionsProper(cm) && name in cm.def.transitions && region in inst.active
    ensures var c := CandidateIn(cm, inst, name, region, call);
      if c.Err? then OnlyGuardsOrRoutes(c.error)
      else HasSource(cm, inst, name, region) ==> HasRegion(c.value, region)
  {
    var tr := cm.def.transitions[name];
    assert TransitionProper(cm, name, tr);
    BoundedSourceIs(cm, tr, inst.active[region], inst.currentState);
    var c := CandidateIn(cm, inst, name, region, call);
    if c.Ok? && c.value != [] { assert c.value[0] in c.value; }
  }

  /** What can fire inside a parallel state is turned down only by guards, routes, activities or the commit. */
  lemma FiringInsideStarts(cm: CompiledMachine, inst: Instance, n: string, call: Call)
    requires TransitionsProper(cm) && CanFireInside(cm, inst, n) && !IsTerminal(cm.def, inst.currentState)
    ensures var e := ParallelTransition(cm, inst, n, call);
      e.outcome.Failed? ==> !(e.outcome.failure in {UnknownTransition, AlreadyTerminal, InvalidSource, IndexMiss,
                                                    NoActiveLeafMatches})
  {
    var tr := cm.def.transitions[n];
    if inst.currentState in tr.sources {
      IndexNeverMisses(cm, inst, n, call);
      var v := ValidateTransition(cm, inst, n, call);
      if v.Ok? { CommitFailsHow(cm, inst, v.value.0, v.value.1, call); }
    } else {
      SomethingFires(cm, inst, n, call);
      var cs := AllCandidates(cm, inst, n, call);
      if cs.Ok? { IntraFailsHow(cm, inst, n, cs.value, call); }
    }
  }

  lemma SomethingFires(cm: CompiledMachine, inst: Instance, n: string, call: Call)
    requires TransitionsProper(cm) && CanFireInside(cm, inst, n) && inst.currentState !in cm.def.transitions[n].sources
    ensures var cs := AllCandidates(cm, inst, n, call);
      if cs.Err? then OnlyGuardsOrRoutes(cs.error) else cs.value != []
  {
    var regions := ActiveRegions(inst);
    CandidatesComplete(cm, inst, n, regions, |regions|, call);
    var r :| r in inst.active && BoundedSource(cm, cm.def.transitions[n], inst.active[r], inst.currentState) != "";
    var i :| 0 <= i < |regions| && regions[i] == r;
    assert HasSource(cm, inst, n, regions[i]);
  }

  predicate LateFailure(o: Outcome) {
    o.Failed? ==> o.failure.ExitActivityFailed? || o.failure.EntryActivityFailed? || o.failure.NotCommitted?
  }

  lemma CommitFailsHow(cm: CompiledMachine, inst: Instance, tr: TransitionDef, target: string, call: Call)
    ensures LateFailure(CommitParallelExit(cm, inst, tr, target, call).outcome)
  {}

  lemma IntraFailsHow(cm: CompiledMachine, inst: Instance, name: string, cs: seq<Candidate>, call: Call)
    requires cs != []
    ensures LateFailure(CommitParallelIntra(cm, inst, name, cs, call).outcome)
  {}

  // ---- Runs --------------------------------------------------------------------------------------------------------

  ghost predicate Unfinished(cm: CompiledMachine, inst: Instance) {
    if IsParallel(cm.def, inst.currentState) then exists r :: r in inst.active && !IsTerminal(cm.def, inst.active[r])
    else !IsTerminal(cm.def, inst.currentState)
  }

  /** The transition passes all structural checks. */
  ghost predicate CanGoOn(cm: CompiledMachine, inst: Instance, n: string) {
    if |inst.active| > 0 then CanFireInside(cm, inst, n) else CanFireFrom(cm, inst.currentState, n)
  }

  /** An unfinished instance that rests well always has a transition to go on with outside parallel states, and
      inside one exactly when a source lies at or below it. Validation asks for less: it also counts the
      sources above. */
  lemma RestingCanGoOn(cm: CompiledMachine, inst: Instance)
    requires ChainsOk(cm) && RegionsProper(cm) && NoDeadEnds(cm.def) && RestsWell(cm, inst) && Unfinished(cm, inst)
    requires "" !in inst.active.Values
    ensures (exists n :: CanGoOn(cm, inst, n)) <==> (IsParallel(cm.def, inst.currentState) ==> InnerWay(cm, inst))
  {
    ActiveMeansParallel(cm, inst);
    if IsParallel(cm.def, inst.currentState) {
      InnerWayExactly(cm, inst);
      if n :| CanFireInside(cm, inst, n) { assert CanGoOn(cm, inst, n); }
      if n :| CanGoOn(cm, inst, n) { assert CanFireInside(cm, inst, n); }
    } else {
      var n := LeafCanFire(cm, inst.currentState);
      assert CanGoOn(cm, inst, n);
    }
  }

  /** So a run of a validated region-local definition stops for lack of a transition exactly in a parallel state
      without a source at or below it. */
  lemma EveryRunCanGoOn(cm: CompiledMachine, header: Header, ops: seq<Op>)
    requires Machine(cm) && Validated(cm.def) && RegionLocal(cm) && StartsAtRest(cm) && "" !in cm.def.states
    requires Unfinished(cm, Run(cm, NewInstance(cm, header), ops))
    ensures var inst := Run(cm, NewInstance(cm, header), ops);
      (exists n :: CanGoOn(cm, inst, n)) <==> (IsParallel(cm.def, inst.currentState) ==> InnerWay(cm, inst))
  {
    EveryRunRests(cm, header, ops);
    MachineIsSane(cm);
    ValidatedGives(cm.def);
    assert NoDeadEnds(cm.def) by { assert Passes(cm.def, DeadEnds); }
    var inst := Run(cm, NewInstance(cm, header), ops);
    NoNamelessLeaf(cm, inst);
    RestingCanGoOn(cm, inst);
  }

  lemma NoNamelessLeaf(cm: CompiledMachine, inst: Instance)
    requires RegionsProper(cm) && RestsWell(cm, inst) && "" !in cm.def.states
    ensures "" !in inst.active.Values
  {
    if IsParallel(cm.def, inst.currentState) {
      forall r | r in inst.active ensures inst.active[r] in cm.def.states {
        assert InRegion(cm, inst.active[r], r);
      }
    }
  }

  /** Below every parallel state each non-terminal leaf has a source at or above itself but not above that state.
      A definition can be checked for this before it is used; root-level parallel states need no check. */
  ghost predicate InnerEscapes(cm: CompiledMachine) {
    forall p, s :: IsParallel(cm.def, p) && p in Anc(cm, s) && IsLeaf(cm.def, s) && !IsTerminal(cm.def, s) ==>
      EscapesWithin(cm, p, s)
  }

  predicate EscapesWithin(cm: CompiledMachine, p: string, s: string) {
    || SomeTransitionFrom(cm.def, p)
    || (exists x :: x in Config(cm, s) && x !in Config(cm, p) && SomeTransitionFrom(cm.def, x))
  }

  lemma RootsEscape(cm: CompiledMachine)
    requires ChainsOk(cm) && NoDeadEnds(cm.def) && forall p :: IsParallel(cm.def, p) ==> Anc(cm, p) == []
    ensures InnerEscapes(cm)
  {
    forall p, s | IsParallel(cm.def, p) && p in Anc(cm, s) && IsLeaf(cm.def, s) && !IsTerminal(cm.def, s)
      ensures EscapesWithin(cm, p, s)
    {
      var n, x := SomeTransitionAtOrAbove(cm, s);
      assert SomeTransitionFrom(cm.def, x);
    }
  }

  /** Then no run stops for lack of a transition. */
  lemma EveryRunGoesOn(cm: CompiledMachine, header: Header, ops: seq<Op>)
    requires Machine(cm) && Validated(cm.def) && RegionLocal(cm) && StartsAtRest(cm) && "" !in cm.def.states
    requires InnerEscapes(cm) && Unfinished(cm, Run(cm, NewInstance(cm, header), ops))
    ensures exists n :: CanGoOn(cm, Run(cm, NewInstance(cm, header), ops), n)
  {
    EveryRunCanGoOn(cm, header, ops);
    EveryRunRests(cm, header, ops);
    MachineIsSane(cm);
    WayFromEscape(cm, Run(cm, NewInstance(cm, header), ops));
  }

  lemma WayFromEscape(cm: CompiledMachine, inst: Instance)
    requires ChainsOk(cm) && RegionsProper(cm) && RestsWell(cm, inst) && InnerEscapes(cm) && Unfinished(cm, inst)
    ensures IsParallel(cm.def, inst.currentState) ==> InnerWay(cm, inst)
  {
    if IsParallel(cm.def, inst.currentState) {
      var r :| r in inst.active && !IsTerminal(cm.def, inst.active[r]);
      LeafBelowParallel(cm, inst, r);
      assert EscapesWithin(cm, inst.currentState, inst.active[r]);
      if x :| x in Config(cm, inst.active[r]) && x !in Config(cm, inst.currentState) && SomeTransitionFrom(cm.def, x) {
        assert InnerWayAt(cm, inst, r, x);
      }
    }
  }
}
