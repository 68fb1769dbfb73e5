/** Why the static conditions of `Configuration` are needed: a definition that is wired, passes validation
    and compiles, and a run of two transitions after which the instance does not rest well. */
module Counterexamples {
  import opened Definitions
  import opened Hierarchy
  import opened Compile
  import opened Validate
  import opened Step
  import opened Machines
  import opened Configuration
  import opened Spawn
  import opened Registry

  /** A leaf, then two parallel states of one region with one leaf each. */
  datatype Places = Places(wait: string, p: string, region: string, leaf: string, q: string, region': string,
                           leaf': string)

  predicate Apart(n: Places) {
    && "" !in {n.wait, n.p, n.region, n.leaf, n.q, n.region', n.leaf'}
    && n.wait !in {n.p, n.region, n.leaf, n.q, n.region', n.leaf'}
    && n.p !in {n.region, n.leaf, n.q, n.region', n.leaf'}
    && n.region !in {n.leaf, n.q, n.region', n.leaf'}
    && n.leaf !in {n.q, n.region', n.leaf'}
    && n.q !in {n.region', n.leaf'}
    && n.region' != n.leaf'
  }

  function Plain(name: string, parent: string): StateDef {
    StateDef(name, false, false, false, parent, [], "", false, false, "", "")
  }

  function Above(name: string, parent: string, child: string, initialChild: string, parallel: bool): StateDef {
    StateDef(name, false, false, false, parent, [child], initialChild, true, parallel, "", "")
  }

  function Go(name: string, source: string, target: string): TransitionDef {
    TransitionDef(name, [source], target, [], "", [], None, None, None, Direct, "", NoHistory)
  }

  /** `s` starts the parallel state `p`, `ss` goes on from `p` to the parallel state `q`. */
  ghost predicate IsSwap(n: Places, def: Definition) {
    && def.states.Keys == {n.wait, n.p, n.region, n.leaf, n.q, n.region', n.leaf'}
    && def.states[n.wait] == Plain(n.wait, "").(isInitial := true)
    && def.states[n.p] == Above(n.p, "", n.region, "", true)
    && def.states[n.region] == Above(n.region, n.p, n.leaf, n.leaf, false)
    && def.states[n.leaf] == Plain(n.leaf, n.region)
    && def.states[n.q] == Above(n.q, "", n.region', "", true)
    && def.states[n.region'] == Above(n.region', n.q, n.leaf', n.leaf', false)
    && def.states[n.leaf'] == Plain(n.leaf', n.region').(isTerminal := true)
    && def.transitions == map["s" := Go("s", n.wait, n.p), "ss" := Go("ss", n.p, n.q)]
    && def.initialState == n.wait
  }

  lemma SwapTransitions(n: Places, def: Definition)
    requires IsSwap(n, def)
    ensures def.transitions.Keys == {"s", "ss"} && "s" != "ss"
    ensures def.transitions["s"] == Go("s", n.wait, n.p) && def.transitions["ss"] == Go("ss", n.p, n.q)
    ensures forall t :: t in def.transitions ==> t == "s" || t == "ss"
  {
    assert |"s"| != |"ss"|;
  }

  lemma SwapIsWired(n: Places, def: Definition)
    requires Apart(n) && IsSwap(n, def)
    ensures Wired(def)
  {
    SwapTransitions(n, def);
    forall s | s in def.states ensures WiredState(def, s) { SwapStateIsWired(n, def, s); }
  }

  lemma SwapStateIsWired(n: Places, def: Definition, s: string)
    requires Apart(n) && IsSwap(n, def) && s in def.states
    ensures WiredState(def, s)
  {}

  lemma SwapIsNested(n: Places, def: Definition)
    requires Apart(n) && IsSwap(n, def)
    ensures ParentsExist(def) && CompoundsHaveInitial(def)
  {}

  lemma SwapIsParallel(n: Places, def: Definition)
    requires Apart(n) && IsSwap(n, def)
    ensures ParallelStatesOk(def)
  {
    forall s | s in def.states && def.states[s].isParallel ensures ParallelStateOk(def, def.states[s]) {}
  }

  lemma SwapIsTargeted(n: Places, def: Definition)
    requires Apart(n) && IsSwap(n, def)
    ensures Targeted(def) && StatesKnown(def)
  {
    SwapTransitions(n, def);
  }

  lemma SwapEscapes(n: Places, def: Definition)
    requires Apart(n) && IsSwap(n, def)
    ensures NoDeadEnds(def)
  {
    SwapTransitions(n, def);
    assert SomeTransitionFrom(def, n.wait) && SomeTransitionFrom(def, n.p) by {
      assert n.wait in def.transitions["s"].sources && n.p in def.transitions["ss"].sources;
    }
    assert LeavesAt(def, n.wait, 0);
    assert Up(def, n.leaf, 1) == n.region;
    assert Up(def, n.leaf, 2) == n.p;
    assert LeavesAt(def, n.leaf, 2);
  }

  lemma SwapIsReachable(n: Places, def: Definition)
    requires Apart(n) && IsSwap(n, def)
    ensures AllReachable(def)
  {
    SwapTransitions(n, def);
    assert IsPath(def, [n.wait]);
    assert Edge(def, n.wait, n.p) by { assert "s" in def.transitions; }
    ReachableStep(def, n.wait, n.p);
    ReachableStep(def, n.p, n.region);
    ReachableStep(def, n.region, n.leaf);
    assert Edge(def, n.p, n.q) by { assert "ss" in def.transitions; }
    ReachableStep(def, n.p, n.q);
    ReachableStep(def, n.q, n.region');
    ReachableStep(def, n.region', n.leaf');
  }

  lemma SwapIsValidated(n: Places, def: Definition)
    requires Apart(n) && IsSwap(n, def)
    ensures Validated(def)
  {
    SwapIsNested(n, def);
    SwapIsParallel(n, def);
    SwapIsTargeted(n, def);
    SwapEscapes(n, def);
    SwapIsReachable(n, def);
    SwapStartsOnce(n, def);
  }

  lemma SwapStartsOnce(n: Places, def: Definition)
    requires Apart(n) && IsSwap(n, def)
    ensures OneInitialState(def) && HasTerminalState(def) && CompoundNotTerminal(def) && InitialNotCompound(def)
            && WaitLeafOnly(def)
  {
    assert InitialStates(def) == {n.wait};
    assert def.states[n.leaf'].isTerminal;
  }

  /** Every guard and condition says yes, no activity fails, every commit succeeds. */
  function Smooth(now: int): Call {
    Call((g, i) => true, (c, i) => Matched, k => false, now, "", true, true)
  }

  lemma SwapStarts(n: Places, cm: CompiledMachine, header: Header)
    requires Apart(n) && IsSwap(n, cm.def) && Faithful(cm) && Machine(cm)
    ensures StartsAtRest(cm) && ConfigOk(cm, NewInstance(cm, header)) && NewInstance(cm, header).currentState == n.wait
  {
    MachineIsSane(cm);
    NewInstanceRests(cm, header);
    assert LeafOf(cm, n.wait) == n.wait;
  }

  lemma FirstStep(n: Places, cm: CompiledMachine, inst: Instance)
    requires Apart(n) && IsSwap(n, cm.def) && Sane(cm) && inst.currentState == n.wait && inst.active == map[]
             && LeafOf(cm, n.p) == n.p
    ensures var e := Transition(cm, inst, "s", Smooth(1));
      && e.outcome.Done? && e.written.Some? && e.written.value.currentState == n.p
      && e.written.value.active == InitialRegions(cm, n.p)
  {
    SwapTransitions(n, cm.def);
    assert TransitionProper(cm, "s", Go("s", n.wait, n.p));
    assert n.wait in Go("s", n.wait, n.p).sources;
    assert ValidateTransition(cm, inst, "s", Smooth(1)) == Ok((Go("s", n.wait, n.p), n.p));
  }

  lemma SecondStep(n: Places, cm: CompiledMachine, inst: Instance)
    requires Apart(n) && IsSwap(n, cm.def) && Sane(cm) && inst.currentState == n.p && |inst.active| > 0
    ensures var e := Transition(cm, inst, "ss", Smooth(2));
      && e == CommitParallelExit(cm, inst, Go("ss", n.p, n.q), n.q, Smooth(2))
      && e.written.Some?
  {
    SwapTransitions(n, cm.def);
    assert TransitionProper(cm, "ss", Go("ss", n.p, n.q));
    assert n.p in Go("ss", n.p, n.q).sources;
    assert ValidateTransition(cm, inst, "ss", Smooth(2)) == Ok((Go("ss", n.p, n.q), n.q));
  }

  lemma SwapIsAccepted(n: Places, cm: CompiledMachine)
    requires Apart(n) && IsSwap(n, cm.def) && Faithful(cm)
    ensures Wired(cm.def) && Validated(cm.def) && Machine(cm)
  {
    SwapIsWired(n, cm.def);
    SwapIsValidated(n, cm.def);
    SwapIsTargeted(n, cm.def);
    SwapIsParallel(n, cm.def);
  }

  lemma OneStep(cm: CompiledMachine, inst: Instance, o: Op)
    ensures Run(cm, inst, [o]) == After(inst, Perform(cm, inst, o))
  {
    assert [o][..0] == [];
  }

  lemma TwoSteps(cm: CompiledMachine, inst: Instance, o: Op, p: Op)
    ensures var b := After(inst, Perform(cm, inst, o));
      Run(cm, inst, [o, p]) == After(b, Perform(cm, b, p))
  {
    assert [o, p][..1] == [o];
    OneStep(cm, inst, o);
  }

  lemma SwapEndsNowhere(n: Places, cm: CompiledMachine, inst: Instance)
    requires Apart(n) && IsSwap(n, cm.def) && Sane(cm) && inst.currentState == n.p && |inst.active| > 0
    ensures !RestsWell(cm, After(inst, Transition(cm, inst, "ss", Smooth(2))))
  {
    SecondStep(n, cm, inst);
    ParallelExitRests(cm, inst, n.q, Smooth(2), Go("ss", n.p, n.q));
    assert RestsAt(cm, n.q, LeafOf(cm, n.q));
  }

  lemma SwapArrives(n: Places, cm: CompiledMachine, inst: Instance)
    requires Apart(n) && IsSwap(n, cm.def) && Sane(cm) && inst.currentState == n.wait && inst.active == map[]
    ensures var b := After(inst, Transition(cm, inst, "s", Smooth(1)));
      b.currentState == n.p && |b.active| > 0
  {
    assert RestsAt(cm, n.p, LeafOf(cm, n.p));
    FirstStep(n, cm, inst);
    assert IsParallel(cm.def, n.p) && cm.regions[n.p] != [];
    assert cm.regions[n.p][0] in InitialRegions(cm, n.p);
  }

  /** From one parallel state straight to another: the definition is accepted, the instance starts at rest,
      and the second transition succeeds and leaves it in a parallel state none of whose regions is active. */
  lemma SwapBreaksRest(n: Places, cm: CompiledMachine, header: Header)
    requires Apart(n) && IsSwap(n, cm.def) && Faithful(cm)
    ensures Wired(cm.def) && Validated(cm.def) && Machine(cm) && StartsAtRest(cm)
    ensures !RestsWell(cm, Run(cm, NewInstance(cm, header), [Fire("s", Smooth(1)), Fire("ss", Smooth(2))]))
  {
    SwapIsAccepted(n, cm);
    MachineIsSane(cm);
    SwapStarts(n, cm, header);
    SwapArrives(n, cm, NewInstance(cm, header));
    SwapEndsNowhere(n, cm, After(NewInstance(cm, header), Transition(cm, NewInstance(cm, header), "s", Smooth(1))));
    TwoSteps(cm, NewInstance(cm, header), Fire("s", Smooth(1)), Fire("ss", Smooth(2)));
  }

  /** And there it stays: no transition of the definition has a source where the instance is. */
  lemma SwapCannotGoOn(n: Places, cm: CompiledMachine, inst: Instance, name: string, call: Call)
    requires Apart(n) && IsSwap(n, cm.def) && ChainsOk(cm) && inst.currentState == n.q && inst.active == map[]
    ensures Transition(cm, inst, name, call).outcome in {Failed(UnknownTransition), Failed(InvalidSource)}
  {
    SwapTransitions(n, cm.def);
    AncUnfold(cm, n.q);
    if name in cm.def.transitions {
      assert EffectiveSource(cm, cm.def.transitions[name], n.q).None?;
    }
  }

  // ---- Validation that does not return -----------------------------------------------------------------------

  /** An initial and a terminal state, and two compounds that are each other's parent, above one leaf. */
  datatype Loop = Loop(start: string, end: string, a: string, b: string, leaf: string)

  predicate LoopApart(n: Loop) {
    && "" !in {n.start, n.end, n.a, n.b, n.leaf}
    && n.start !in {n.end, n.a, n.b, n.leaf} && n.end !in {n.a, n.b, n.leaf} && n.a !in {n.b, n.leaf} && n.b != n.leaf
  }

  ghost predicate IsLoop(n: Loop, def: Definition) {
    && def.states.Keys == {n.start, n.end, n.a, n.b, n.leaf}
    && def.states[n.start] == Plain(n.start, "").(isInitial := true)
    && def.states[n.end] == Plain(n.end, "").(isTerminal := true)
    && def.states[n.a] == Above(n.a, n.b, n.leaf, n.leaf, false).(children := [n.leaf, n.b])
    && def.states[n.b] == Above(n.b, n.a, n.a, n.a, false)
    && def.states[n.leaf] == Plain(n.leaf, n.a)
    && def.transitions == map["s" := Go("s", n.start, n.end)]
    && def.initialState == n.start
  }

  lemma LoopIsWired(n: Loop, def: Definition)
    requires LoopApart(n) && IsLoop(n, def)
    ensures Wired(def)
  {
    forall s | s in def.states ensures WiredState(def, s) {}
  }

  lemma LoopPasses(n: Loop, def: Definition)
    requires LoopApart(n) && IsLoop(n, def)
    ensures PassesFirst(def, 9)
  {
    assert InitialStates(def) == {n.start};
    assert def.states[n.end].isTerminal;
  }

  lemma {:induction false} LoopGoesOn(n: Loop, def: Definition, k: nat)
    requires LoopApart(n) && IsLoop(n, def)
    ensures Up(def, n.leaf, k) in {n.leaf, n.a, n.b}
  {
    if k > 0 { LoopGoesOn(n, def, k - 1); }
  }

  /** Builder and registry never return for this definition: it passes every check before the walk, and the
      walk from its leaf has no end. */
  lemma LoopNeverReturns(n: Loop, def: Definition)
    requires LoopApart(n) && IsLoop(n, def)
    ensures Wired(def) && PassesFirst(def, 9) && !WalksEnd(def) && !Returns(def)
  {
    LoopIsWired(n, def);
    LoopPasses(n, def);
    if k: nat :| WalkEndsAt(def, n.leaf, k) { LoopGoesOn(n, def, k); }
    assert n.leaf in def.states && MustEscape(def, n.leaf);
  }

  // ---- A latest entry that goes stale ---------------------------------------------------------------------------

  lemma SwapReturns(n: Places, def: Definition)
    requires Apart(n) && IsSwap(n, def)
    ensures Returns(def)
  {
    SwapEscapes(n, def);
    WalksEndExactly(def);
  }

  lemma SwapHasChain(n: Places, def: Definition, s: string) returns (c: seq<string>)
    requires Apart(n) && IsSwap(n, def)
    ensures IsChain(def, s, c)
  {
    assert IsChain(def, n.p, []) && IsChain(def, n.q, []);
    c := if s == n.region then [n.p] else if s == n.leaf then [n.region, n.p]
         else if s == n.region' then [n.q] else if s == n.leaf' then [n.region', n.q] else [];
    assert |c| > 0 ==> |c[1..]| == 0 || c[1..][1..] == [];
  }

  lemma SwapHasNoCycle(n: Places, def: Definition)
    requires Apart(n) && IsSwap(n, def)
    ensures !HasParentCycle(def)
  {
    forall w | |w| >= 1 ensures !IsParentCycle(def, w) {
      var c := SwapHasChain(n, def, w[0]);
      ChainMeansNoCycle(def, w, c);
    }
  }

  lemma SwapSpawnsNothing(n: Places, m: Places, c: Definition, d: Definition, defs: seq<Definition>)
    requires IsSwap(n, c) && IsSwap(m, d) && forall x :: x in defs ==> x == c || x == d
    ensures !HasSpawnCycle(defs)
  {
    SwapTransitions(n, c);
    SwapTransitions(m, d);
    forall w | |w| >= 2 ensures !IsSpawnWalk(defs, w) {
      assert !SpawnStepAt(defs, w, 0);
    }
  }

  lemma NothingCloses(n: Places, c: Definition, d: Definition, versions: Versions)
    requires IsSwap(n, c) && IsSwap(n, d) && forall x :: Registered(versions, x) ==> x == c
    ensures !CycleWith(versions, d)
  {
    forall defs: seq<Definition> | forall x :: x in defs ==> Registered(versions, x) || x == d
      ensures !HasSpawnCycle(defs) {
      SwapSpawnsNothing(n, n, c, d, defs);
    }
  }

  method AcceptSwap(reg: Registry, n: Places, c: Definition, d: Definition)
    requires reg.Valid() && Apart(n) && IsSwap(n, c) && IsSwap(n, d)
    requires (forall x :: Registered(reg.versions, x) ==> x == c) && !SameHash(reg.compiled, reg.hash, d)
    modifies reg
    ensures reg.Valid()
    ensures reg.versions == Put(old(reg.versions), d.aggregateType, d.version, d)
    ensures reg.latest == Newer(old(reg.latest), d.aggregateType, d, Supersedes(old(reg.latest), d))
  {
    SwapIsWired(n, d);
    SwapIsValidated(n, d);
    SwapReturns(n, d);
    SwapHasNoCycle(n, d);
    NothingCloses(n, c, d, reg.versions);
    var r := reg.Register(d);
    assert r.Accepted?;
  }

  lemma HashOfStored(versions: Versions, latest: map<string, Definition>, compiled: map<string, map<int,
                     CompiledMachine>>,
                     latestCompiled: map<string, CompiledMachine>, hash: Definition -> string, d: Definition)
    requires MapsAgree(EntryOk, versions, latest, compiled, latestCompiled)
    requires var stored := Lookup(versions, d.aggregateType, d.version); stored.None? || hash(stored.value) != hash(d)
    ensures !SameHash(compiled, hash, d)
  {
    var a := d.aggregateType;
    if a in versions { assert TypeAgrees(EntryOk, versions[a], latest[a], compiled[a], latestCompiled[a], a); }
  }

  /** Two accepted definitions under one number: asking for the number gives the second, asking for the latest
      still gives the first. */
  method SameNumberTwice(n: Places, c: Definition, d: Definition, hash: Definition -> string) returns (reg: Registry)
    requires Apart(n) && IsSwap(n, c) && IsSwap(n, d)
    requires c.aggregateType == d.aggregateType && c.version == d.version && c != d && hash(c) != hash(d)
    ensures fresh(reg) && reg.Valid()
    ensures c.aggregateType in reg.versions && c.version in reg.versions[c.aggregateType]
            && c.aggregateType in reg.latest
    ensures reg.versions[c.aggregateType][c.version] == d && reg.latest[c.aggregateType] == c
    ensures !LatestStored(reg.versions, reg.latest, c.aggregateType)
  {
    reg := new Registry(hash);
    HashOfStored(reg.versions, reg.latest, reg.compiled, reg.latestCompiled, hash, c);
    AcceptSwap(reg, n, c, c);
    OnlyOne(c);
    HashOfStored(reg.versions, reg.latest, reg.compiled, reg.latestCompiled, hash, d);
    AcceptSwap(reg, n, c, d);
  }

  lemma OnlyOne(c: Definition)
    ensures forall x :: Registered(Put(map[], c.aggregateType, c.version, c), x) ==> x == c
  {}

  // ---- There are such machines -----------------------------------------------------------------------------------

  const PLACES: Places := Places("1", "22", "333", "4444", "55555", "666666", "7777777")

  lemma PlacesAreApart()
    ensures Apart(PLACES)
  {
    assert |PLACES.wait| == 1 && |PLACES.p| == 2 && |PLACES.region| == 3 && |PLACES.leaf| == 4;
    assert |PLACES.q| == 5 && |PLACES.region'| == 6 && |PLACES.leaf'| == 7;
  }

  function SwapStates(n: Places): map<string, StateDef> {
    map[n.wait := Plain(n.wait, "").(isInitial := true),
        n.p := Above(n.p, "", n.region, "", true),
        n.region := Above(n.region, n.p, n.leaf, n.leaf, false),
        n.leaf := Plain(n.leaf, n.region),
        n.q := Above(n.q, "", n.region', "", true),
        n.region' := Above(n.region', n.q, n.leaf', n.leaf', false),
        n.leaf' := Plain(n.leaf', n.region').(isTerminal := true)]
  }

  function Swap(n: Places): Definition {
    Definition("t", "w", 1, SwapStates(n), map["s" := Go("s", n.wait, n.p), "ss" := Go("ss", n.p, n.q)], n.wait)
  }

  lemma SwapIsOne(n: Places)
    requires Apart(n)
    ensures IsSwap(n, Swap(n))
  {
    var states := SwapStates(n);
    assert states.Keys == {n.wait, n.p, n.region, n.leaf, n.q, n.region', n.leaf'};
    assert states[n.wait] == Plain(n.wait, "").(isInitial := true);
    assert states[n.p] == Above(n.p, "", n.region, "", true);
    assert states[n.region] == Above(n.region, n.p, n.leaf, n.leaf, false);
    assert states[n.leaf] == Plain(n.leaf, n.region);
  }

  /** Compiling the definition gives a machine that `SwapBreaksRest` speaks about. */
  method CompileSwap() returns (cm: CompiledMachine)
    ensures Apart(PLACES) && IsSwap(PLACES, cm.def) && Faithful(cm)
  {
    PlacesAreApart();
    var def := Swap(PLACES);
    SwapIsOne(PLACES);
    SwapIsNested(PLACES, def);
    SwapIsWired(PLACES, def);
    SwapHasNoCycle(PLACES, def);
    var r := Compile.Compile(def);
    cm := r.value;
  }

  function LoopStates(n: Loop): map<string, StateDef> {
    map[n.start := Plain(n.start, "").(isInitial := true),
        n.end := Plain(n.end, "").(isTerminal := true),
        n.a := Above(n.a, n.b, n.leaf, n.leaf, false).(children := [n.leaf, n.b]),
        n.b := Above(n.b, n.a, n.a, n.a, false),
        n.leaf := Plain(n.leaf, n.a)]
  }

  const LOOP: Loop := Loop("1", "22", "333", "4444", "55555")

  /** One that the builder can be given, and whose validation does not return. */
  lemma SomeLoopNeverReturns()
    ensures var def := Definition("t", "w", 1, LoopStates(LOOP), map["s" := Go("s", LOOP.start, LOOP.end)], LOOP.start);
      Wired(def) && !Returns(def)
  {
    assert |LOOP.start| == 1 && |LOOP.end| == 2 && |LOOP.a| == 3 && |LOOP.b| == 4 && |LOOP.leaf| == 5;
    var def := Definition("t", "w", 1, LoopStates(LOOP), map["s" := Go("s", LOOP.start, LOOP.end)], LOOP.start);
    assert def.states.Keys == {LOOP.start, LOOP.end, LOOP.a, LOOP.b, LOOP.leaf};
    LoopNeverReturns(LOOP, def);
  }
}
