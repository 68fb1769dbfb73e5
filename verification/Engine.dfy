/** The operations of the engine on stored instances (internal/runtime/executor.go:70-133, 402-443 and
    447-552, internal/runtime/parallel.go:28-78): create, transition, force. Run one at a time they
    take the store through exactly the runs that `Step` describes. */
module Engine {
  import opened Definitions
  import opened Hierarchy
  import opened Step
  import opened Records
  import opened StateData
  import opened Executor
  import opened Commits
  import opened ParallelCommits
  import Configuration

  // ---- Creation --------------------------------------------------------------------------------------------

  /** What a new instance gets from outside: two generated ids, the clock, and whether its transaction commits. */
  datatype Birth = Birth(id: string, correlationId: string, now: int, commits: bool)

  function Newborn(cm: CompiledMachine, aggregateType: string, aggregateId: string, b: Birth): Instance {
    NewInstance(cm, Header(b.id, cm.def.workflowType, cm.def.version, aggregateType, aggregateId, b.correlationId,
                           b.now))
  }

  /** Where its header comes from. */
  lemma NewbornHeader(cm: CompiledMachine, aggregateType: string, aggregateId: string, b: Birth)
    ensures var h := Newborn(cm, aggregateType, aggregateId, b).header;
      && h.aggregateType == aggregateType && h.aggregateId == aggregateId
      && h.workflowType == cm.def.workflowType && h.version == cm.def.version
      && h.id == b.id && h.correlationId == b.correlationId && h.createdAt == b.now
    ensures Newborn(cm, aggregateType, aggregateId, b)
            == NewInstance(cm, Newborn(cm, aggregateType, aggregateId, b).header)
  {}

  /** No state data yet, never stuck, never retried. */
  predicate NewExtra(x: Extra)
    reads x.data
  {
    x.data != null && x.data.m == map[] && x.stuckAt == null && x.retryCount == 0
  }

  method CreateInstance(cm: CompiledMachine, db: Database, aggregateType: string, aggregateId: string, b: Birth)
    returns (r: Option<InstanceRef>)
    requires db.Valid()
    modifies db
    ensures db.Valid() && db.events == old(db.events) && db.invalidations == old(db.invalidations)
    ensures r.Some? <==> b.commits
    ensures r.None? ==> db.view == old(db.view) && db.extras == old(db.extras)
    ensures r.Some? ==> fresh(r.value) && View(r.value.it) == Newborn(cm, aggregateType, aggregateId, b)
    ensures r.Some? ==> fresh(r.value.it.extra.data) && NewExtra(r.value.it.extra)
    ensures r.Some? ==>
      && db.view == old(db.view)[Key(aggregateType, aggregateId) := View(r.value.it)]
      && db.extras == old(db.extras)[Key(aggregateType, aggregateId) := r.value.it.extra]
  {
    var inst := BuildInstance(cm, aggregateType, aggregateId, b);
    var tx := new Tx();
    db.Create(tx, inst.it);
    if !b.commits { return None; }
    db.Commit(tx);
    return Some(inst);
  }

  method BuildInstance(cm: CompiledMachine, aggregateType: string, aggregateId: string, b: Birth)
    returns (inst: InstanceRef)
    ensures fresh(inst) && View(inst.it) == Newborn(cm, aggregateType, aggregateId, b)
    ensures fresh(inst.it.extra.data) && NewExtra(inst.it.extra)
    ensures KeyOf(inst.it.header) == Key(aggregateType, aggregateId)
  {
    var state := cm.def.initialState;
    if state in cm.initialLeaf { state := cm.initialLeaf[state]; }
    var shallow := new StringMap(map[]);
    var deep := new StringMap(map[]);
    var data := new Dict();
    var header := Header(b.id, cm.def.workflowType, cm.def.version, aggregateType, aggregateId, b.correlationId, b.now);
    inst := new InstanceRef(Record(header, state, shallow, deep, null, 0, false, "", b.now, 0, Extra(data, null, 0)));
  }

  // ---- Forced states -----------------------------------------------------------------------------------------

  /** History is cleared by assigning new maps, never by emptying the shared ones. */
  method ClearAndMove(inst: InstanceRef, cm: CompiledMachine, state: string, now: int)
    modifies inst
    ensures View(inst.it) == Arrive(cm,
                                    WithHistory(old(View(inst.it)), History(map[], map[])).(isStuck := false,
                                        stuckReason := ""), state, now)
    ensures SameFixed(inst.it, old(inst.it)) && inst.it.lastReadUpdatedAt == old(inst.it.updatedAt)
  {
    inst.it := inst.it.(lastReadUpdatedAt := inst.it.updatedAt);
    inst.it := inst.it.(currentState := state);
    inst.it := inst.it.(isStuck := false);
    inst.it := inst.it.(stuckReason := "");
    var shallow := new StringMap(map[]);
    inst.it := inst.it.(shallow := shallow);
    var deep := new StringMap(map[]);
    inst.it := inst.it.(deep := deep);
    inst.it := inst.it.(active := null);
    if state in cm.regions { EnterParallelRegions(inst, cm, state); }
    inst.it := inst.it.(updatedAt := now);
  }

  lemma ForceCase(cm: CompiledMachine, inst: Instance, target: string, call: Call)
    requires target in cm.def.states
    ensures WholeCase(Arrive(cm, WithHistory(inst, History(map[], map[])).(isStuck := false, stuckReason := ""),
                             LeafOf(cm, target), call.now),
                      Event(call.eventId, Origin(cm, inst.header), "StateForced", "_force_state",
                            map["" := (inst.currentState, LeafOf(cm, target))], call.now),
                      call, ForceState(cm, inst, target, call), [], false)
  {}

  method ForceOn(cm: CompiledMachine, db: Database, inst: InstanceRef, target: string, call: Call)
    returns (failure: Option<Failure>, stored: bool)
    requires db.Valid()
    modifies db, inst
    ensures Reports(old(db.view), old(View(inst.it)), call, ForceState(cm, old(View(inst.it)), target, call), [],
                    failure, stored)
    ensures Settled(db, old(inst.it.header), old(inst.it.extra), ForceState(cm, old(View(inst.it)), target, call),
                    stored)
  {
    if target !in cm.def.states { return Some(UnknownTarget), false; }
    ghost var v := View(inst.it);
    var state := target;
    if target in cm.initialLeaf { state := cm.initialLeaf[target]; }
    var event := Event(call.eventId, Origin(cm, inst.it.header), "StateForced", "_force_state",
                       map["" := (inst.it.currentState, state)], call.now);
    ForceCase(cm, v, target, call);
    ClearAndMove(inst, cm, state, call.now);
    failure, stored := StoreWhole(db, inst, event, call, v, ForceState(cm, v, target, call), []);
  }

  // ---- Transitions ---------------------------------------------------------------------------------------------

  method PlainOn(cm: CompiledMachine, db: Database, inst: InstanceRef, name: string, call: Call)
    returns (ran: seq<Act>, failure: Option<Failure>, stored: bool)
    requires db.Valid() && Shaped(cm)
    modifies db, inst
    ensures Reports(old(db.view), old(View(inst.it)), call, PlainTransition(cm, old(View(inst.it)), name, call), ran,
                    failure, stored)
    ensures Settled(db, old(inst.it.header), old(inst.it.extra), PlainTransition(cm, old(View(inst.it)), name, call),
                    stored)
  {
    var v := Executor.Validate(cm, View(inst.it), name, call);
    if v.Err? { return [], Some(v.error), false; }
    ran, failure, stored := CommitTransition(cm, db, inst, v.value.0, v.value.1, call);
  }

  /** A transition sourced at the parallel state itself. */
  method ExitOn(cm: CompiledMachine, db: Database, inst: InstanceRef, name: string, call: Call)
    returns (ran: seq<Act>, failure: Option<Failure>, stored: bool)
    requires db.Valid() && name in cm.def.transitions && !IsTerminal(cm.def, inst.it.currentState)
    requires inst.it.currentState in cm.def.transitions[name].sources
    modifies db, inst
    ensures Reports(old(db.view), old(View(inst.it)), call, ParallelTransition(cm, old(View(inst.it)), name, call),
                    ran, failure, stored)
    ensures Settled(db, old(inst.it.header), old(inst.it.extra),
                    ParallelTransition(cm, old(View(inst.it)), name, call), stored)
  {
    var v := Executor.Validate(cm, View(inst.it), name, call);
    if v.Err? { return [], Some(v.error), false; }
    ran, failure, stored := CommitExit(cm, db, inst, v.value.0, v.value.1, call);
  }

  ghost function IntraEffect(cm: CompiledMachine, inst: Instance, name: string, call: Call): Effect
    requires name in cm.def.transitions
  {
    var cs := AllCandidates(cm, inst, name, call);
    if cs.Err? then Reject(cs.error)
    else if cs.value == [] then Reject(NoActiveLeafMatches)
    else CommitParallelIntra(cm, inst, name, cs.value, call)
  }

  /** A transition fired inside the regions. */
  method IntraOn(cm: CompiledMachine, db: Database, inst: InstanceRef, name: string, call: Call, ghost e: Effect)
    returns (ran: seq<Act>, failure: Option<Failure>, stored: bool)
    requires db.Valid() && ChainsOk(cm) && name in cm.def.transitions && e == IntraEffect(cm, View(inst.it), name, call)
    modifies db, inst
    ensures Reports(old(db.view), old(View(inst.it)), call, e, ran, failure, stored)
    ensures Settled(db, old(inst.it.header), old(inst.it.extra), e, stored)
  {
    var cs := CollectCandidates(cm, View(inst.it), name, call);
    if cs.Err? { return [], Some(cs.error), false; }
    if cs.value == [] { return [], Some(NoActiveLeafMatches), false; }
    ran, failure, stored := CommitIntra(cm, db, inst, name, cs.value, call);
  }

  method ParallelOn(cm: CompiledMachine, db: Database, inst: InstanceRef, name: string, call: Call)
    returns (ran: seq<Act>, failure: Option<Failure>, stored: bool)
    requires db.Valid() && Shaped(cm)
    modifies db, inst
    ensures Reports(old(db.view), old(View(inst.it)), call, ParallelTransition(cm, old(View(inst.it)), name, call),
                    ran, failure, stored)
    ensures Settled(db, old(inst.it.header), old(inst.it.extra),
                    ParallelTransition(cm, old(View(inst.it)), name, call), stored)
  {
    if name !in cm.def.transitions { return [], Some(UnknownTransition), false; }
    if IsTerminal(cm.def, inst.it.currentState) { return [], Some(AlreadyTerminal), false; }
    if inst.it.currentState in cm.def.transitions[name].sources {
      ran, failure, stored := ExitOn(cm, db, inst, name, call);
    } else {
      ran, failure, stored := IntraOn(cm, db, inst, name, call, ParallelTransition(cm, View(inst.it), name, call));
    }
  }

  method TransitionOn(cm: CompiledMachine, db: Database, inst: InstanceRef, name: string, call: Call)
    returns (ran: seq<Act>, failure: Option<Failure>, stored: bool)
    requires db.Valid() && Shaped(cm)
    modifies db, inst
    ensures Reports(old(db.view), old(View(inst.it)), call, Step.Transition(cm, old(View(inst.it)), name, call), ran,
                    failure, stored)
    ensures Settled(db, old(inst.it.header), old(inst.it.extra), Step.Transition(cm, old(View(inst.it)), name, call),
                    stored)
  {
    if |Contents(inst.it.active)| > 0 {
      ran, failure, stored := ParallelOn(cm, db, inst, name, call);
    } else {
      ran, failure, stored := PlainOn(cm, db, inst, name, call);
    }
  }

  // ---- One call after the other ------------------------------------------------------------------------------------

  /** Every stored instance sits under its own key. */
  ghost predicate Keyed(view: map<string, Instance>) {
    forall k :: k in view ==> KeyOf(view[k].header) == k
  }

  lemma WrittenHeader(cm: CompiledMachine, inst: Instance, op: Op)
    ensures After(inst, Perform(cm, inst, op)).header == inst.header
  {
    match op
    case Force(target, call) =>
    case Fire(name, call) =>
      if |inst.active| > 0 { ParallelHeader(cm, inst, name, call); } else { PlainHeader(cm, inst, name, call); }
  }

  lemma PlainHeader(cm: CompiledMachine, inst: Instance, name: string, call: Call)
    ensures After(inst, PlainTransition(cm, inst, name, call)).header == inst.header
  {
    var v := ValidateTransition(cm, inst, name, call);
    if v.Ok? { Configuration.PlainOutcomes(cm, inst, v.value.0, v.value.1, call); }
  }

  lemma ParallelHeader(cm: CompiledMachine, inst: Instance, name: string, call: Call)
    ensures After(inst, ParallelTransition(cm, inst, name, call)).header == inst.header
  {
    Configuration.ParallelOutcomes(cm, inst, name, call);
    RegionsKeepRest(cm, inst, inst.currentState, ActiveRegions(inst), |ActiveRegions(inst)|);
  }

  /** What the registry answers for the aggregate type; zero asks for the latest machine. */
  type Serving = int -> Option<CompiledMachine>

  /** The machine of a stored instance is that of its version, a missing one gets the latest. */
  function MachineFor(served: Serving, view: map<string, Instance>, k: string): Option<CompiledMachine> {
    if k in view then served(view[k].header.version) else served(0)
  }

  datatype LoadFailure = NoMachine | NotCreated | NotFound

  /** Gets the instance, or creates it when there is none. */
  method LoadOrCreate(served: Serving, db: Database, aggregateType: string, aggregateId: string, b: Birth)
    returns (r: Result<(CompiledMachine, InstanceRef), LoadFailure>)
    requires db.Valid()
    modifies db
    ensures db.Valid() && db.events == old(db.events) && db.invalidations == old(db.invalidations)
    ensures var k := Key(aggregateType, aggregateId);
      var cm := MachineFor(served, old(db.view), k);
      && (r == Err(NoMachine) <==> cm.None?)
      && (r == Err(NotCreated) <==> cm.Some? && k !in old(db.view) && !b.commits)
      && (r.Err? ==> r.error in {NoMachine, NotCreated} && db.view == old(db.view) && db.extras == old(db.extras))
      && (r.Ok? ==> r.value.0 == cm.value && fresh(r.value.1) && db.view == old(db.view)[k := View(r.value.1.it)])
      && (r.Ok? ==> db.extras == old(db.extras)[k := r.value.1.it.extra])
      && (r.Ok? && k in old(db.view) ==> r.value.1.it.extra == old(db.extras)[k])
      && (r.Ok? ==> View(r.value.1.it)
                    == if k in old(db.view) then old(db.view)[k] else Newborn(cm.value, aggregateType, aggregateId, b))
  {
    var inst := db.Get(aggregateType, aggregateId);
    if inst.Some? {
      var cm := served(inst.value.it.header.version);
      if cm.None? { return Err(NoMachine); }
      return Ok((cm.value, inst.value));
    }
    var latest := served(0);
    if latest.None? { return Err(NoMachine); }
    var created := CreateInstance(latest.value, db, aggregateType, aggregateId, b);
    if created.None? { return Err(NotCreated); }
    return Ok((latest.value, created.value));
  }

  /** The instance an operation starts from: forcing needs a stored one, firing makes one. */
  function StartOf(served: Serving, view: map<string, Instance>, aggregateType: string, aggregateId: string, b: Birth,
                   op: Op)
    : Result<(CompiledMachine, Instance), LoadFailure>
  {
    var k := Key(aggregateType, aggregateId);
    var cm := MachineFor(served, view, k);
    if op.Force? && k !in view then Err(NotFound)
    else if cm.None? then Err(NoMachine)
    else if k in view then Ok((cm.value, view[k]))
    else if !b.commits then Err(NotCreated)
    else Ok((cm.value, Newborn(cm.value, aggregateType, aggregateId, b)))
  }

  /** A stored instance goes on with the machine of its version; a missing one is made with the latest, but not for a
      forced state and not without a commit. */
  lemma StartMeans(served: Serving, view: map<string, Instance>, aggregateType: string, aggregateId: string, b: Birth,
                   op: Op)
    ensures var k := Key(aggregateType, aggregateId);
      var start := StartOf(served, view, aggregateType, aggregateId, b, op);
      && (k in view ==>
            start == if served(view[k].header.version).None? then Err(NoMachine)
              else Ok((served(view[k].header.version).value, view[k])))
      && (k !in view && op.Force? ==> start == Err(NotFound))
      && (k !in view && op.Fire? ==>
            start == if served(0).None? then Err(NoMachine) else if !b.commits then Err(NotCreated)
              else Ok((served(0).value, Newborn(served(0).value, aggregateType, aggregateId, b))))
  {}

  lemma Same<T>(m: map<string, T>, k: string)
    requires k in m
    ensures m[k := m[k]] == m
  {}

  lemma KeyedPut(view: map<string, Instance>, k: string, inst: Instance)
    requires Keyed(view) && KeyOf(inst.header) == k
    ensures Keyed(view[k := inst])
  {}

  lemma Overwrite(m: map<string, Instance>, k: string, a: Instance, b: Instance)
    ensures m[k := a][k := b] == m[k := b]
  {}

  /** What one call reports when nobody comes between: the activities run and why it failed, if it did. */
  datatype Report = Report(ran: seq<Act>, failure: Option<Failure>)

  /** What the stores take in beside the instance. */
  predicate Announces(db: Database, events: seq<Event>, invalidations: seq<Invalidation>, h: Header, e: Effect)
    reads db
  {
    && db.events == events + (if e.written.Some? then EventsOf(e.event) else [])
    && db.invalidations == invalidations + (if e.written.Some? then Requests(h, e.cancels) else [])
  }

  predicate KeepsExtras(before: map<string, Extra>, after: map<string, Extra>) {
    forall k :: k in before ==> k in after && after[k] == before[k]
  }

  lemma ExtrasKept(before: map<string, Extra>, k: string, x: Extra)
    requires k in before ==> before[k] == x
    ensures KeepsExtras(before, before[k := x])
  {}

  /** One call with nobody in between: the instance, created if need be, becomes what `Step` says, its events and
      cancellations are stored with it, the caller hears what `Step` says, every other stored instance stays what
      it was, and no state data is touched. */
  method PerformOn(served: Serving, db: Database, aggregateType: string, aggregateId: string, b: Birth, op: Op)
    returns (r: Result<Report, LoadFailure>, ghost start: Result<(CompiledMachine, Instance), LoadFailure>)
    requires db.Valid() && Keyed(db.view) && forall v :: served(v).Some? ==> Shaped(served(v).value)
    modifies db
    ensures db.Valid() && Keyed(db.view) && KeepsExtras(old(db.extras), db.extras)
    ensures start == StartOf(served, old(db.view), aggregateType, aggregateId, b, op)
    ensures start.Err? ==>
      && r == Err(start.error) && db.view == old(db.view) && db.extras == old(db.extras)
      && db.events == old(db.events) && db.invalidations == old(db.invalidations)
    ensures start.Ok? ==>
      var e := Perform(start.value.0, start.value.1, op);
      && r == Ok(Report(e.ran, FailureOf(e.outcome)))
      && db.view == old(db.view)[Key(aggregateType, aggregateId) := After(start.value.1, e)]
      && Announces(db, old(db.events), old(db.invalidations), start.value.1.header, e)
  {
    start := StartOf(served, db.view, aggregateType, aggregateId, b, op);
    var loaded := LoadFor(served, db, aggregateType, aggregateId, b, op, start);
    if loaded.Err? { return Err(loaded.error), start; }
    ServedIsShaped(served, old(db.view), aggregateType, aggregateId, b, op);
    var report := PerformStarted(loaded.value.0, db, loaded.value.1, op, old(db.view), start.value.1);
    r := Ok(report);
  }

  lemma ServedIsShaped(served: Serving, view: map<string, Instance>, aggregateType: string, aggregateId: string,
                       b: Birth, op: Op)
    requires forall v :: served(v).Some? ==> Shaped(served(v).value)
    requires StartOf(served, view, aggregateType, aggregateId, b, op).Ok?
    ensures Shaped(StartOf(served, view, aggregateType, aggregateId, b, op).value.0)
  {}

  /** An operation on the instance just stored over `view`. */
  method PerformStarted(cm: CompiledMachine, db: Database, inst: InstanceRef, op: Op, ghost view: map<string, Instance>,
                        ghost start: Instance) returns (r: Report)
    requires db.Valid() && Keyed(db.view) && Shaped(cm) && start == View(inst.it)
    requires var k := KeyOf(start.header);
      db.view == view[k := start] && k in db.extras && db.extras[k] == inst.it.extra
    modifies db, inst
    ensures db.Valid() && Keyed(db.view) && db.extras == old(db.extras)
    ensures var e := Perform(cm, start, op);
      && r == Report(e.ran, FailureOf(e.outcome))
      && db.view == view[KeyOf(start.header) := After(start, e)]
      && Announces(db, old(db.events), old(db.invalidations), start.header, e)
  {
    r := PerformLoaded(cm, db, inst, op);
    Overwrite(view, KeyOf(start.header), start, After(start, Perform(cm, start, op)));
  }

  /** The instance the operation starts from, stored and in hand. */
  method LoadFor(served: Serving, db: Database, aggregateType: string, aggregateId: string, b: Birth, op: Op,
                 ghost start: Result<(CompiledMachine, Instance), LoadFailure>)
    returns (r: Result<(CompiledMachine, InstanceRef), LoadFailure>)
    requires db.Valid() && Keyed(db.view)
    requires start == StartOf(served, db.view, aggregateType, aggregateId, b, op)
    modifies db
    ensures db.Valid() && Keyed(db.view) && db.events == old(db.events) && db.invalidations == old(db.invalidations)
    ensures
      if start.Err? then r == Err(start.error) && db.view == old(db.view) && db.extras == old(db.extras)
      else
        && r.Ok? && fresh(r.value.1) && r.value.0 == start.value.0 && View(r.value.1.it) == start.value.1
        && KeyOf(r.value.1.it.header) == Key(aggregateType, aggregateId)
        && db.view == old(db.view)[Key(aggregateType, aggregateId) := start.value.1]
        && db.extras == old(db.extras)[Key(aggregateType, aggregateId) := r.value.1.it.extra]
    ensures KeepsExtras(old(db.extras), db.extras)
  {
    if op.Force? {
      var existing := db.Get(aggregateType, aggregateId);
      if existing.None? { return Err(NotFound); }
    }
    r := LoadOrCreate(served, db, aggregateType, aggregateId, b);
    if r.Ok? { ExtrasKept(old(db.extras), Key(aggregateType, aggregateId), r.value.1.it.extra); }
    if r.Ok? { KeyedPut(old(db.view), Key(aggregateType, aggregateId), View(r.value.1.it)); }
  }

  /** An operation on the instance just read. */
  method PerformLoaded(cm: CompiledMachine, db: Database, inst: InstanceRef, op: Op) returns (r: Report)
    requires db.Valid() && Keyed(db.view) && Shaped(cm)
    requires var k := KeyOf(inst.it.header);
      k in db.view && db.view[k] == View(inst.it) && k in db.extras && db.extras[k] == inst.it.extra
    modifies db, inst
    ensures db.Valid() && Keyed(db.view) && db.extras == old(db.extras)
    ensures var was := old(View(inst.it));
      var e := Perform(cm, was, op);
      && r == Report(e.ran, FailureOf(e.outcome))
      && db.view == old(db.view)[KeyOf(was.header) := After(was, e)]
      && Announces(db, old(db.events), old(db.invalidations), was.header, e)
  {
    ghost var k, was := KeyOf(inst.it.header), View(inst.it);
    WrittenHeader(cm, was, op);
    r := DispatchAlone(cm, db, inst, op);
    Same(old(db.view), k);
    Same(old(db.extras), k);
    KeyedPut(old(db.view), k, After(was, Perform(cm, was, op)));
  }

  /** With the stored stamp the one that was read, the step is stored whenever it writes. */
  method DispatchAlone(cm: CompiledMachine, db: Database, inst: InstanceRef, op: Op) returns (r: Report)
    requires db.Valid() && Shaped(cm) && Unmoved(db.view, View(inst.it))
    modifies db, inst
    ensures var e := Perform(cm, old(View(inst.it)), op);
      && r == Report(e.ran, FailureOf(e.outcome))
      && Settled(db, old(inst.it.header), old(inst.it.extra), e, e.written.Some?)
  {
    var ran, failure, stored := Dispatch(cm, db, inst, op);
    r := Report(ran, failure);
  }

  method Dispatch(cm: CompiledMachine, db: Database, inst: InstanceRef, op: Op)
    returns (ran: seq<Act>, failure: Option<Failure>, stored: bool)
    requires db.Valid() && Shaped(cm)
    modifies db, inst
    ensures Reports(old(db.view), old(View(inst.it)), op.call, Perform(cm, old(View(inst.it)), op), ran, failure,
                    stored)
    ensures Settled(db, old(inst.it.header), old(inst.it.extra), Perform(cm, old(View(inst.it)), op), stored)
  {
    match op
    case Fire(name, call) =>
      ran, failure, stored := TransitionOn(cm, db, inst, name, call);
    case Force(target, call) =>
      ran := [];
      failure, stored := ForceOn(cm, db, inst, target, call);
  }

  ghost predicate Follows(cm: CompiledMachine, at: seq<Instance>, ops: seq<Op>, i: nat)
    requires |at| == |ops| + 1 && i < |ops|
  {
    at[i + 1] == After(at[i], Perform(cm, at[i], ops[i]))
  }

  ghost function FollowsAt(cm: CompiledMachine, at: seq<Instance>, ops: seq<Op>): nat -> bool
    requires |at| == |ops| + 1
  {
    (i: nat) => i < |ops| && Follows(cm, at, ops, i)
  }

  method PerformNext(cm: CompiledMachine, db: Database, aggregateType: string, aggregateId: string, ops: seq<Op>,
                     i: nat, ghost at: seq<Instance>)
    requires db.Valid() && Keyed(db.view) && Shaped(cm) && Key(aggregateType, aggregateId) in db.view
    requires |at| == |ops| + 1 && FollowsAt(cm, at, ops)(i) && i < |ops|
             && at[i] == db.view[Key(aggregateType, aggregateId)]
    modifies db
    ensures db.Valid() && Keyed(db.view)
    ensures db.view == old(db.view)[Key(aggregateType, aggregateId) := at[i + 1]]
  {
    var inst := db.Get(aggregateType, aggregateId);
    var _ := PerformLoaded(cm, db, inst.value, ops[i]);
  }

  method PerformEach(cm: CompiledMachine, db: Database, aggregateType: string, aggregateId: string, ops: seq<Op>,
                     ghost at: seq<Instance>)
    requires db.Valid() && Keyed(db.view) && Shaped(cm) && Key(aggregateType, aggregateId) in db.view
    requires |at| == |ops| + 1 && at[0] == db.view[Key(aggregateType, aggregateId)]
    requires forall i: nat :: i < |ops| ==> FollowsAt(cm, at, ops)(i)
    modifies db
    ensures db.Valid() && Keyed(db.view)
    ensures db.view == old(db.view)[Key(aggregateType, aggregateId) := at[|ops|]]
  {
    ghost var k, start := Key(aggregateType, aggregateId), db.view;
    assert start[k := start[k]] == start;
    for i := 0 to |ops|
      invariant db.Valid() && Keyed(db.view)
      invariant db.view == start[k := at[i]]
    {
      PerformNext(cm, db, aggregateType, aggregateId, ops, i, at);
      Overwrite(start, k, at[i], at[i + 1]);
    }
  }

  /** The instances a run goes through. */
  lemma Stages(cm: CompiledMachine, inst: Instance, ops: seq<Op>) returns (at: seq<Instance>)
    ensures |at| == |ops| + 1 && at[0] == inst && at[|ops|] == Run(cm, inst, ops)
    ensures forall i: nat :: i < |ops| ==> FollowsAt(cm, at, ops)(i)
  {
    at := seq(|ops| + 1, (i: nat) requires i <= |ops| => Run(cm, inst, ops[..i]));
    assert ops[..|ops|] == ops;
    forall i: nat | i < |ops| ensures FollowsAt(cm, at, ops)(i) { OneMore(cm, inst, ops, i); }
  }

  lemma OneMore(cm: CompiledMachine, inst: Instance, ops: seq<Op>, i: nat)
    requires i < |ops|
    ensures Run(cm, inst, ops[..i + 1]) == After(Run(cm, inst, ops[..i]), Perform(cm, Run(cm, inst, ops[..i]), ops[i]))
  {
    assert ops[..i + 1][..i] == ops[..i];
  }

  /** A sequence of operations on one aggregate takes its stored instance through `Run`: the version in its header,
      and with it the machine, stays the same. */
  method PerformAll(cm: CompiledMachine, db: Database, aggregateType: string, aggregateId: string, ops: seq<Op>)
    requires db.Valid() && Keyed(db.view) && Shaped(cm) && Key(aggregateType, aggregateId) in db.view
    modifies db
    ensures db.Valid() && Keyed(db.view)
    ensures var k := Key(aggregateType, aggregateId);
      db.view == old(db.view)[k := Run(cm, old(db.view)[k], ops)]
  {
    ghost var at := Stages(cm, db.view[Key(aggregateType, aggregateId)], ops);
    PerformEach(cm, db, aggregateType, aggregateId, ops, at);
  }
}
