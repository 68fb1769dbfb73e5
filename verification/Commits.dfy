/** The commit paths of the engine on the heap (internal/runtime/executor.go:70-133, 207-443 and 447-552,
    internal/runtime/parallel.go:28-402): each one leaves the store exactly as `Step` says, and not at
    all changed when the lock or the transaction turns it down. */
module Commits {
  import opened Definitions
  import opened Hierarchy
  import opened Compile
  import opened Step
  import opened Tasks
  import opened Records
  import opened StateData
  import opened Executor

  ghost predicate Shaped(cm: CompiledMachine) {
    ChainsOk(cm) && Wired(cm.def) && ParentsExist(cm.def)
  }

  function OwnerIn(h: Header): Aggregate {
    (h.aggregateType, h.aggregateId)
  }

  /** The clean-up request of a step, if there is anything to clean up. */
  function Requests(h: Header, cancels: set<string>): seq<Invalidation> {
    if cancels == {} then [] else [Invalidation(OwnerIn(h), cancels)]
  }

  /** Carried out by a task store, the request cancels exactly the pending tasks of that aggregate in those states. */
  function Carried(tasks: map<string, Task>, requests: seq<Invalidation>): map<string, Task> {
    if requests == [] then tasks
    else CancelIn(Carried(tasks, requests[..|requests| - 1]), requests[|requests| - 1].owner,
                  requests[|requests| - 1].states)
  }

  lemma RequestsCancel(tasks: map<string, Task>, h: Header, cancels: set<string>)
    ensures Carried(tasks, Requests(h, cancels)) == CancelIn(tasks, (h.aggregateType, h.aggregateId), cancels)
  {
    if cancels == {} {
      assert CancelIn(tasks, (h.aggregateType, h.aggregateId), cancels) == tasks;
    } else {
      var r := Requests(h, cancels);
      assert r[..|r| - 1] == [];
    }
  }

  /** The store after an effect: everything of it or, if it was not stored, nothing of it. */
  twostate predicate Settled(db: Database, h: Header, x: Extra, e: Effect, stored: bool)
    reads db, db.repr
  {
    && db.Valid()
    && (stored ==> e.written.Some? && db.view == old(db.view)[KeyOf(h) := e.written.value])
    && (!stored ==> db.view == old(db.view))
    && db.extras == (if stored then old(db.extras)[KeyOf(h) := x] else old(db.extras))
    && db.events == old(db.events) + (if stored then EventsOf(e.event) else [])
    && db.invalidations == old(db.invalidations) + (if stored then Requests(h, e.cancels) else [])
  }

  /** The lock passes: the stored stamp is the one the instance was read with. */
  predicate Unmoved(view: map<string, Instance>, inst: Instance) {
    LockOk(view, KeyOf(inst.header), inst.updatedAt)
  }

  /** What the caller is told: the activities run, why it failed if it did, and whether it was stored. */
  predicate Reports(view: map<string, Instance>, inst: Instance, call: Call, e: Effect,
                    ran: seq<Act>, failure: Option<Failure>, stored: bool) {
    && ran == e.ran
    && stored == (e.written.Some? && Unmoved(view, inst))
    && failure == Told(call, e, Unmoved(view, inst))
  }

  /** Why a transaction stored nothing: the lock is checked first. */
  function Refused(lockPasses: bool, commits: bool): Option<Failure> {
    if !lockPasses then Some(ConcurrentModification) else if !commits then Some(NotCommitted) else None
  }

  /** The store after one transaction: all of it, or nothing when it was refused. */
  twostate predicate Stored(db: Database, h: Header, x: Extra, refused: Option<Failure>, written: Instance,
                            events: seq<Event>,
                            invalidations: seq<Invalidation>)
    reads db, db.repr
  {
    && db.Valid()
    && db.view == (if refused.None? then old(db.view)[KeyOf(h) := written] else old(db.view))
    && db.extras == (if refused.None? then old(db.extras)[KeyOf(h) := x] else old(db.extras))
    && db.events == old(db.events) + (if refused.None? then events else [])
    && db.invalidations == old(db.invalidations) + (if refused.None? then invalidations else [])
  }

  /** Append (when there is an event), Update, Commit - or Rollback of everything. */
  method Persist(db: Database, tx: Tx, event: Option<Event>, rec: Record, commits: bool)
    returns (refused: Option<Failure>)
    requires db.Valid() && tx.events == [] && tx.instance == None
    modifies db, tx
    ensures refused == Refused(LockOk(old(db.view), KeyOf(rec.header), rec.lastReadUpdatedAt), commits)
    ensures Stored(db, rec.header, rec.extra, refused, old(View(rec)), EventsOf(event), old(tx.invalidations))
  {
    var ok := Stage(db, tx, event, rec);
    if !ok { return Some(ConcurrentModification); }
    assert View(rec) == old(View(rec));
    refused := CommitIf(db, tx, commits);
  }

  method Stage(db: Database, tx: Tx, event: Option<Event>, rec: Record) returns (ok: bool)
    requires db.Valid() && tx.events == [] && tx.instance == None
    modifies tx`events, tx`instance
    ensures ok == LockOk(db.view, KeyOf(rec.header), rec.lastReadUpdatedAt)
    ensures tx.events == EventsOf(event) && (ok ==> tx.instance == Some(rec))
  {
    if event.Some? { db.Append(tx, event.value); }
    ok := db.Update(tx, rec);
  }

  method CommitIf(db: Database, tx: Tx, commits: bool) returns (refused: Option<Failure>)
    requires db.Valid() && tx.instance.Some?
    modifies db
    ensures refused == Refused(true, commits)
    ensures Stored(db, tx.instance.value.header, tx.instance.value.extra, refused, old(View(tx.instance.value)),
                   tx.events, tx.invalidations)
  {
    if !commits { return Some(NotCommitted); }
    db.Commit(tx);
    return None;
  }

  // ---- Plain transitions ----------------------------------------------------------------------------------------

  method PlanExits(cm: CompiledMachine, inst: Instance, tr: TransitionDef, target: string) returns (plan: Plan)
    requires ChainsOk(cm)
    ensures plan == PlanFor(cm, inst, tr, target)
  {
    var resolved := Resolve(cm, inst, target, tr.historyMode);
    var lca, _ := ComputeLca(cm, inst.currentState, resolved);
    var exits := ComputeExitSequence(cm, inst.currentState, lca);
    var entries;
    if resolved in cm.regions {
      entries := ComputeParallelEntrySequence(cm, lca, resolved);
    } else {
      entries := ComputeEntrySequence(cm, lca, resolved);
    }
    plan := Plan(resolved, exits, entries);
  }

  method MarkStuck(inst: InstanceRef, state: string, now: int)
    modifies inst
    ensures View(inst.it) == Stuck(old(View(inst.it)), state, now)
    ensures SameFixed(inst.it, old(inst.it)) && inst.it.lastReadUpdatedAt == old(inst.it.updatedAt)
  {
    inst.it := inst.it.(lastReadUpdatedAt := inst.it.updatedAt);
    inst.it := inst.it.(isStuck := true);
    inst.it := inst.it.(stuckReason := state);
    inst.it := inst.it.(updatedAt := now);
  }

  /** Stores the stuck mark at the source, in the given transaction. */
  method Stick(db: Database, tx: Tx, inst: InstanceRef, state: string, event: Option<Event>, call: Call)
    returns (refused: Option<Failure>)
    requires db.Valid() && tx.events == [] && tx.instance == None
    modifies db, tx, inst
    ensures refused == Refused(LockOk(old(db.view), KeyOf(old(inst.it.header)), old(inst.it.updatedAt)), call.commits)
    ensures Stored(db, old(inst.it.header), old(inst.it.extra), refused, Stuck(old(View(inst.it)), state, call.now),
                   EventsOf(event),
                   old(tx.invalidations))
  {
    MarkStuck(inst, state, call.now);
    refused := Persist(db, tx, event, inst.it, call.commits);
  }

  /** The target becomes current; a parallel state starts its regions, any other state has none. */
  method Enter(inst: InstanceRef, cm: CompiledMachine, state: string)
    modifies inst
    ensures View(inst.it) == old(View(inst.it)).(currentState := state, active := InitialRegions(cm, state))
    ensures SameFixed(inst.it, old(inst.it))
  {
    inst.it := inst.it.(currentState := state);
    if state in cm.regions {
      EnterParallelRegions(inst, cm, state);
    } else {
      inst.it := inst.it.(active := null);
    }
  }

  method MoveTo(inst: InstanceRef, cm: CompiledMachine, state: string, now: int)
    modifies inst
    ensures View(inst.it) == Arrive(cm, old(View(inst.it)), state, now)
    ensures SameFixed(inst.it, old(inst.it)) && inst.it.lastReadUpdatedAt == old(inst.it.updatedAt)
  {
    inst.it := inst.it.(lastReadUpdatedAt := inst.it.updatedAt);
    Enter(inst, cm, state);
    inst.it := inst.it.(updatedAt := now);
  }

  /** Stores the arrival at the target. */
  method Land(cm: CompiledMachine, db: Database, tx: Tx, inst: InstanceRef, state: string, event: Event, call: Call)
    returns (refused: Option<Failure>)
    requires db.Valid() && tx.events == [] && tx.instance == None
    modifies db, tx, inst
    ensures refused == Refused(LockOk(old(db.view), KeyOf(old(inst.it.header)), old(inst.it.updatedAt)), call.commits)
    ensures Stored(db, old(inst.it.header), old(inst.it.extra), refused,
                   Arrive(cm, old(View(inst.it)), state, call.now), [event],
                   old(tx.invalidations))
  {
    MoveTo(inst, cm, state, call.now);
    refused := Persist(db, tx, Some(event), inst.it, call.commits);
  }

  /** The instance after the exits: stuck where it was, or arrived. */
  function Finished(cm: CompiledMachine, left: Instance, plan: Plan, stuckAt: Option<string>, call: Call): Instance {
    if stuckAt.Some? then Stuck(left, stuckAt.value, call.now) else Arrive(cm, left, plan.resolved, call.now)
  }

  /** Event and task clean-up happen on arrival, and with savepoints also when stuck. */
  predicate Announced(stuckAt: Option<string>, call: Call) {
    stuckAt.None? || call.savepoints
  }

  predicate EndedPlain(cm: CompiledMachine, plan: Plan, call: Call, ran: seq<Act>, exitFailed: bool,
                       entryFailed: bool) {
    Ended(ExitActs(cm.def, plan.exits), EntryActs(cm.def, plan.entries), call, ran, exitFailed, entryFailed)
  }

  /** What a plain commit of `inst` has to write, by how the activities end. */
  predicate PlainCase(cm: CompiledMachine, inst: Instance, plan: Plan, event: Event, call: Call, e: Effect,
                      ran: seq<Act>, exitFailed: bool, entryFailed: bool) {
    && e.ran == ran
    && (exitFailed || !call.commits ==> e.written.None?)
    && (exitFailed || entryFailed ==> ran != [] && Failing(ran[|ran| - 1]) != NotCommitted)
    && (exitFailed || (entryFailed && (call.commits || !call.savepoints)) ==>
        e.outcome == Failed(Failing(ran[|ran| - 1])))
    && (!exitFailed && !call.commits && (!entryFailed || call.savepoints) ==> e.outcome == Failed(NotCommitted))
    && (!exitFailed && call.commits ==>
          var stuckAt := if entryFailed then Some(ran[|ran| - 1].state) else None;
          && e.written == Some(Finished(cm, Recorded(cm.def, inst, inst.currentState, plan.exits), plan, stuckAt, call))
          && e.event == (if Announced(stuckAt, call) then Some(event) else None)
          && e.cancels == (if Announced(stuckAt, call) then Subtrees(cm, plan.exits) else {})
          && (!entryFailed ==> e.outcome.Done?))
  }

  ghost predicate PlainSpec(cm: CompiledMachine, inst: Instance, plan: Plan, event: Event, call: Call, e: Effect) {
    forall ran, exitFailed, entryFailed :: EndedPlain(cm, plan, call, ran, exitFailed, entryFailed)
      ==> PlainCase(cm, inst, plan, event, call, e, ran, exitFailed, entryFailed)
  }

  lemma PlainMeetsSpec(cm: CompiledMachine, inst: Instance, tr: TransitionDef, target: string, call: Call)
    ensures PlainSpec(cm, inst, PlanFor(cm, inst, tr, target), MakeEvent(cm, inst, tr, call), call,
                      CommitPlain(cm, inst, tr, target, call))
  {
    var plan := PlanFor(cm, inst, tr, target);
    var e := CommitPlain(cm, inst, tr, target, call);
    forall ran, exitFailed, entryFailed | EndedPlain(cm, plan, call, ran, exitFailed, entryFailed)
      ensures PlainCase(cm, inst, plan, MakeEvent(cm, inst, tr, call), call, e, ran, exitFailed, entryFailed)
    {
      PlainCaseHolds(cm, inst, tr, target, call, ran, exitFailed, entryFailed);
    }
  }

  lemma PlainCaseHolds(cm: CompiledMachine, inst: Instance, tr: TransitionDef, target: string, call: Call,
                       ran: seq<Act>, exitFailed: bool, entryFailed: bool)
    requires EndedPlain(cm, PlanFor(cm, inst, tr, target), call, ran, exitFailed, entryFailed)
    ensures PlainCase(cm, inst, PlanFor(cm, inst, tr, target), MakeEvent(cm, inst, tr, call), call,
                      CommitPlain(cm, inst, tr, target, call), ran, exitFailed, entryFailed)
  {
    var plan := PlanFor(cm, inst, tr, target);
    var acts := ExitActs(cm.def, plan.exits) + EntryActs(cm.def, plan.entries);
    var k := FirstFail(call.fails, |acts|);
    if k < |acts| { assert ran == acts[..k + 1] && ran[|ran| - 1] == acts[k]; }
  }

  /** Tasks of the exited subtrees are cancelled in the transaction of the step. */
  method CleanUp(cm: CompiledMachine, db: Database, tx: Tx, exits: seq<string>, header: Header)
    requires Shaped(cm)
    modifies tx`invalidations
    ensures tx.invalidations == old(tx.invalidations) + Requests(header, Subtrees(cm, exits))
  {
    var walk := new SubtreeWalk(cm);
    var cancels := walk.Run(exits);
    if cancels != {} { db.Invalidate(tx, OwnerIn(header), cancels); }
  }

  /** A new transaction, with the clean-up in it when there is to be one. */
  method Begin(announced: bool, cm: CompiledMachine, db: Database, exits: seq<string>, header: Header) returns (tx: Tx)
    requires Shaped(cm)
    ensures fresh(tx) && tx.events == [] && tx.instance == None
    ensures tx.invalidations == if announced then Requests(header, Subtrees(cm, exits)) else []
  {
    tx := new Tx();
    if announced { CleanUp(cm, db, tx, exits, header); }
  }

  /** Everything after the exits of a plain transition have run. */
  method FinishPlain(cm: CompiledMachine, db: Database, inst: InstanceRef, plan: Plan, event: Event,
                     stuckAt: Option<string>, call: Call)
    returns (refused: Option<Failure>)
    requires db.Valid() && Shaped(cm)
    modifies db, inst
    ensures refused == Refused(LockOk(old(db.view), KeyOf(old(inst.it.header)), old(inst.it.updatedAt)), call.commits)
    ensures Stored(db, old(inst.it.header), old(inst.it.extra), refused,
                   Finished(cm, old(View(inst.it)), plan, stuckAt, call),
                   if Announced(stuckAt, call) then [event] else [],
                   if Announced(stuckAt, call) then Requests(old(inst.it.header), Subtrees(cm, plan.exits)) else [])
  {
    var tx := Begin(Announced(stuckAt, call), cm, db, plan.exits, inst.it.header);
    refused := StickOrLand(cm, db, tx, inst, plan, event, stuckAt, call);
  }

  method StickOrLand(cm: CompiledMachine, db: Database, tx: Tx, inst: InstanceRef, plan: Plan, event: Event,
                     stuckAt: Option<string>, call: Call)
    returns (refused: Option<Failure>)
    requires db.Valid() && tx.events == [] && tx.instance == None
    modifies db, tx, inst
    ensures refused == Refused(LockOk(old(db.view), KeyOf(old(inst.it.header)), old(inst.it.updatedAt)), call.commits)
    ensures Stored(db, old(inst.it.header), old(inst.it.extra), refused,
                   Finished(cm, old(View(inst.it)), plan, stuckAt, call),
                   if Announced(stuckAt, call) then [event] else [], old(tx.invalidations))
  {
    if stuckAt.Some? {
      refused := Stick(db, tx, inst, stuckAt.value, if call.savepoints then Some(event) else None, call);
    } else {
      refused := Land(cm, db, tx, inst, plan.resolved, event, call);
    }
  }

  /** commitTransition, from the computed plan on, against the effect it has to have. */
  method CommitPlan(cm: CompiledMachine, db: Database, inst: InstanceRef, plan: Plan, event: Event, call: Call,
                    ghost e: Effect)
    returns (ran: seq<Act>, failure: Option<Failure>, stored: bool)
    requires db.Valid() && Shaped(cm) && PlainSpec(cm, View(inst.it), plan, event, call, e)
    modifies db, inst
    ensures Reports(old(db.view), old(View(inst.it)), call, e, ran, failure, stored)
    ensures Settled(db, old(inst.it.header), old(inst.it.extra), e, stored)
  {
    ghost var v := View(inst.it);
    RecordHistory(inst, inst.it.currentState, plan.exits, cm.def);
    var exitFailed, entryFailed;
    ran, exitFailed, entryFailed := RunPlain(cm, plan, call);
    failure, stored := FinishAndReport(cm, db, inst, plan, event, call, ran, exitFailed, entryFailed, v, e);
  }

  method RunPlain(cm: CompiledMachine, plan: Plan, call: Call)
    returns (ran: seq<Act>, exitFailed: bool, entryFailed: bool)
    ensures EndedPlain(cm, plan, call, ran, exitFailed, entryFailed)
  {
    ran, exitFailed, entryFailed := RunAll(cm.def, plan.exits, plan.entries, call);
  }

  /** The rest of the commit once the activities have run. */
  method FinishAndReport(cm: CompiledMachine, db: Database, inst: InstanceRef, plan: Plan, event: Event, call: Call,
                         ran: seq<Act>, exitFailed: bool, entryFailed: bool, ghost v: Instance, ghost e: Effect)
    returns (failure: Option<Failure>, stored: bool)
    requires db.Valid() && Shaped(cm) && PlainCase(cm, v, plan, event, call, e, ran, exitFailed, entryFailed)
    requires View(inst.it) == Recorded(cm.def, v, v.currentState, plan.exits)
    modifies db, inst
    ensures Reports(old(db.view), v, call, e, ran, failure, stored)
    ensures Settled(db, v.header, old(inst.it.extra), e, stored)
  {
    if exitFailed { return Some(Failing(ran[|ran| - 1])), false; }
    assert View(inst.it).header == v.header && View(inst.it).updatedAt == v.updatedAt;
    var stuckAt := if entryFailed then Some(ran[|ran| - 1].state) else None;
    var refused := FinishPlain(cm, db, inst, plan, event, stuckAt, call);
    stored := refused.None?;
    failure := if entryFailed && (stored || !call.savepoints) then Some(Failing(ran[|ran| - 1])) else refused;
  }

  method CommitTransition(cm: CompiledMachine, db: Database, inst: InstanceRef, tr: TransitionDef, target: string,
                          call: Call)
    returns (ran: seq<Act>, failure: Option<Failure>, stored: bool)
    requires db.Valid() && Shaped(cm)
    modifies db, inst
    ensures Reports(old(db.view), old(View(inst.it)), call, CommitPlain(cm, old(View(inst.it)), tr, target, call),
                    ran, failure, stored)
    ensures Settled(db, old(inst.it.header), old(inst.it.extra),
                    CommitPlain(cm, old(View(inst.it)), tr, target, call), stored)
  {
    var plan := PlanExits(cm, View(inst.it), tr, target);
    PlainMeetsSpec(cm, View(inst.it), tr, target, call);
    ran, failure, stored := CommitPlan(cm, db, inst, plan, MakeEvent(cm, View(inst.it), tr, call), call,
                                       CommitPlain(cm, View(inst.it), tr, target, call));
  }
}
