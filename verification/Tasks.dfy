/** Pending tasks of waiting instances: their store and their life along runs over many
    aggregates (adapters/memstore/task_store.go:25-114, internal/runtime/executor.go:351-361,
    internal/runtime/dispatcher.go:81-107, internal/runtime/helpers.go:108-135). */
module Tasks {
  import opened Definitions
  import opened Hierarchy
  import opened Compile
  import opened Step
  import opened Configuration
  import opened Orthogonal
  import opened Triggers

  datatype Status = Pending | Finished | Expired | Cancelled

  datatype Task = Task(
    id: string,
    aggregateType: string,
    aggregateId: string,
    taskType: string,
    state: string,        // the state this task waits in
    status: Status,
    choice: string,
    completedBy: string)

  datatype TaskError = NotFound | AlreadyCompleted

  /** The aggregate a task or an instance belongs to. */
  type Aggregate = (string, string)

  function OwnerOf(t: Task): Aggregate { (t.aggregateType, t.aggregateId) }

  // ---- The store ----------------------------------------------------------------------------------------------

  predicate Hit(t: Task, owner: Aggregate, states: set<string>) {
    OwnerOf(t) == owner && t.status == Pending && t.state in states
  }

  /** Every pending task of the aggregate that waits in one of the states is cancelled; the rest stays. */
  function CancelIn(tasks: map<string, Task>, owner: Aggregate, states: set<string>): map<string, Task> {
    map id | id in tasks :: if Hit(tasks[id], owner, states) then tasks[id].(status := Cancelled) else tasks[id]
  }

  class TaskStore {
    var tasks: map<string, Task>

    constructor ()
      ensures tasks == map[]
    {
      tasks := map[];
    }

    method Create(t: Task)
      modifies this
      ensures tasks == old(tasks)[t.id := t]
    {
      tasks := tasks[t.id := t];
    }

    method Get(id: string) returns (r: Result<Task, TaskError>)
      ensures r == if id in tasks then Ok(tasks[id]) else Err(NotFound)
    {
      if id !in tasks { return Err(NotFound); }
      return Ok(tasks[id]);
    }

    /** Refuses only tasks that are completed already: a cancelled task can still be completed. */
    method Complete(id: string, choice: string, actor: string) returns (r: Option<TaskError>)
      modifies this
      ensures r == (if id !in old(tasks) then Some(NotFound)
                    else if old(tasks)[id].status == Finished then Some(AlreadyCompleted) else None)
      ensures tasks == if r.Some? then old(tasks)
                       else old(tasks)[id := old(tasks)[id].(status := Finished, choice := choice,
                                                             completedBy := actor)]
      ensures r.None? ==> tasks == CompleteIn(old(tasks), id, choice, actor)
    {
      if id !in tasks { return Some(NotFound); }
      var t := tasks[id];
      if t.status == Finished { return Some(AlreadyCompleted); }
      tasks := tasks[id := t.(status := Finished, choice := choice, completedBy := actor)];
      return None;
    }

    method InvalidateByStates(owner: Aggregate, states: seq<string>)
      modifies this
      ensures tasks == CancelIn(old(tasks), owner, Elements(states))
    {
      if |states| == 0 {
        assert CancelIn(tasks, owner, Elements(states)) == tasks;
        return;
      }
      var stateSet := Elements(states);
      ghost var before := tasks;
      var todo := tasks.Keys;
      while todo != {}
        invariant todo <= before.Keys && tasks.Keys == before.Keys
        invariant forall id :: id in before ==>
          tasks[id] == if id !in todo && Hit(before[id], owner, stateSet) then before[id].(status := Cancelled)
            else before[id]
        decreases todo
      {
        var id :| id in todo;
        todo := todo - {id};
        var t := tasks[id];
        if OwnerOf(t) != owner { continue; }
        if t.status != Pending { continue; }
        if t.state in stateSet { tasks := tasks[id := t.(status := Cancelled)]; }
      }
      assert tasks == CancelIn(before, owner, stateSet);
    }
  }

  function CompleteIn(tasks: map<string, Task>, id: string, choice: string, actor: string): map<string, Task>
    requires id in tasks
  {
    tasks[id := tasks[id].(status := Finished, choice := choice, completedBy := actor)]
  }

  // ---- Which states a step clears -----------------------------------------------------------------------------

  /** collectSubtreeStates: a depth-first walk over the children of the roots. */
  class SubtreeWalk {
    const cm: CompiledMachine
    var seen: set<string>

    constructor (cm: CompiledMachine)
      ensures this.cm == cm && seen == {}
    {
      this.cm := cm;
      seen := {};
    }

    ghost predicate Tree() {
      ChainsOk(cm) && Wired(cm.def)
    }

    ghost predicate Below(x: string, s: string) {
      x == s || (x in cm.def.states && s in Anc(cm, x))
    }

    ghost predicate Open(s: string) reads this {
      forall c :: c in cm.def.states && s in cm.def.states && c in cm.def.states[s].children ==> c in seen
    }

    method Visit(name: string, ghost universe: set<string>)
      requires Tree() && cm.def.states.Keys <= universe && name in universe
      modifies this
      ensures old(seen) <= seen && name in seen
      ensures seen <= old(seen) + universe
      ensures forall x :: x in seen && x !in old(seen) ==> Below(x, name) && Open(x)
      decreases universe - seen
    {
      if name in seen { return; }
      ghost var before := seen;
      seen := seen + {name};
      if name !in cm.def.states { return; }
      var st := cm.def.states[name];
      assert WiredState(cm.def, name);
      for i := 0 to |st.children|
        invariant before + {name} <= seen <= before + universe
        invariant forall k :: 0 <= k < i ==> st.children[k] in seen
        invariant forall x :: x in seen && x !in before && x != name ==> Below(x, name) && Open(x)
      {
        ghost var mid := seen;
        var child := st.children[i];
        assert child in cm.def.states && ParentOf(cm.def, child) == name && name != "";
        Visit(child, universe);
        forall x | x in seen && x !in mid ensures Below(x, name) { BelowChild(x, child, name); }
      }
    }

    lemma BelowChild(x: string, child: string, name: string)
      requires Tree() && Below(x, child) && child in cm.def.states && ParentOf(cm.def, child) == name && name != ""
      ensures Below(x, name)
    {
      AncUnfold(cm, child);
      if x != child { AncTransitive(cm, x, child, name); }
    }

    /** Closed under children and holding the roots, the walk has seen every descendant. */
    lemma {:induction false} SeesDescendant(s: string, r: string, n: nat)
      requires Tree() && ParentsExist(cm.def) && r in seen && (forall x :: x in seen ==> Open(x)) && s in cm.def.states
      requires n < |Anc(cm, s)| && Anc(cm, s)[n] == r
      ensures s in seen
      decreases n
    {
      AncUnfold(cm, s);
      var p := ParentOf(cm.def, s);
      if n > 0 {
        assert Anc(cm, p)[n - 1] == r;
        SeesDescendant(p, r, n - 1);
      }
      assert WiredState(cm.def, p) && s in cm.def.states[p].children;
      assert Open(p);
    }

    method Run(roots: seq<string>) returns (result: set<string>)
      requires Tree() && seen == {} && ParentsExist(cm.def)
      modifies this
      ensures result == Subtrees(cm, roots)
    {
      ghost var universe := cm.def.states.Keys + Elements(roots);
      for i := 0 to |roots|
        invariant forall k :: 0 <= k < i ==> roots[k] in seen
        invariant forall x :: x in seen ==> Open(x) && Under(x, roots, i)
      {
        assert roots[i] in universe;
        ghost var before := seen;
        Visit(roots[i], universe);
        forall x | x in seen ensures Open(x) && Under(x, roots, i + 1) {
          if x in before { assert Under(x, roots, i); } else { assert Below(x, roots[i]); }
        }
      }
      SeesAll(roots);
      result := seen;
    }

    ghost predicate Under(x: string, roots: seq<string>, n: nat)
      requires n <= |roots|
    {
      exists k :: 0 <= k < n && Below(x, roots[k])
    }

    /** Closed, holding the roots and nothing but what lies below them: exactly the subtrees. */
    lemma SeesAll(roots: seq<string>)
      requires Tree() && ParentsExist(cm.def) && forall r :: r in roots ==> r in seen
      requires forall x :: x in seen ==> Open(x) && Under(x, roots, |roots|)
      ensures seen == Subtrees(cm, roots)
    {
      forall x | x in seen ensures x in Subtrees(cm, roots) {
        assert Under(x, roots, |roots|);
        var k :| 0 <= k < |roots| && Below(x, roots[k]);
        assert roots[k] in roots;
      }
      forall x | x in Subtrees(cm, roots) ensures x in seen {
        if x !in roots {
          var r :| r in roots && r in Anc(cm, x);
          var n :| 0 <= n < |Anc(cm, x)| && Anc(cm, x)[n] == r;
          SeesDescendant(x, r, n);
        }
      }
    }
  }

  // ---- Runs over many aggregates ----------------------------------------------------------------------------------

  datatype World = World(instances: map<Aggregate, Instance>, tasks: map<string, Task>)

  /** Every pending task waits in the state its instance is in. */
  ghost predicate NoneDangling(w: World) {
    forall id :: id in w.tasks && w.tasks[id].status == Pending ==> Waits(w, w.tasks[id])
  }

  predicate Waits(w: World, t: Task) {
    OwnerOf(t) in w.instances && w.instances[OwnerOf(t)].currentState == t.state
  }

  /** What a finished transition creates, if its definition asks for one. */
  function NewTask(owner: Aggregate, inst: Instance, o: Outcome, id: string): Option<Task> {
    if o.Done? && o.transition.Some? && o.transition.value.taskType.Some?
    then Some(Task(id, owner.0, owner.1, o.transition.value.taskType.value, inst.currentState, Pending, "", ""))
    else None
  }

  function AddTask(tasks: map<string, Task>, t: Option<Task>): map<string, Task> {
    if t.Some? then tasks[t.value.id := t.value] else tasks
  }

  /** One operation on one aggregate, with its task clean-up and its new task. */
  ghost function Apply(cm: CompiledMachine, w: World, owner: Aggregate, op: Op, newId: string): World
    requires owner in w.instances
  {
    var inst := w.instances[owner];
    var e := Perform(cm, inst, op);
    var after := After(inst, e);
    World(w.instances[owner := after],
          AddTask(CancelIn(w.tasks, owner, e.cancels), NewTask(owner, after, e.outcome, newId)))
  }

  /** A finished transition that emits a task leaves one pending task of its type in the new state; any other step
      creates none. */
  lemma StepEmits(cm: CompiledMachine, w: World, owner: Aggregate, op: Op, newId: string)
    requires owner in w.instances && newId !in w.tasks
    ensures var o, w' := Perform(cm, w.instances[owner], op).outcome, Apply(cm, w, owner, op, newId);
      if o.Done? && o.transition.Some? && o.transition.value.taskType.Some? then
        && w'.tasks.Keys == w.tasks.Keys + {newId}
        && w'.tasks[newId] == Task(newId, owner.0, owner.1, o.transition.value.taskType.value,
                                   w'.instances[owner].currentState, Pending, "", "")
      else w'.tasks.Keys == w.tasks.Keys
  {}

  predicate Frees(w: World, owner: Aggregate, cancels: set<string>) {
    forall id :: id in w.tasks && OwnerOf(w.tasks[id]) == owner && w.tasks[id].status == Pending ==>
        w.tasks[id].state in cancels
  }

  /** A step keeps every task with its instance exactly when it stays in its state or cancels every
      pending task of the aggregate. */
  lemma StepDanglesIff(cm: CompiledMachine, w: World, owner: Aggregate, op: Op, newId: string)
    requires NoneDangling(w) && owner in w.instances && newId !in w.tasks
    ensures var e := Perform(cm, w.instances[owner], op);
      NoneDangling(Apply(cm, w, owner, op, newId))
      <==> After(w.instances[owner], e).currentState == w.instances[owner].currentState || Frees(w, owner, e.cancels)
  {
    var inst := w.instances[owner];
    var e := Perform(cm, inst, op);
    var w' := Apply(cm, w, owner, op, newId);
    var stays := After(inst, e).currentState == inst.currentState;
    forall id | id in w.tasks
      ensures id in w'.tasks && w'.tasks[id] == CancelIn(w.tasks, owner, e.cancels)[id]
    {}
    if stays || Frees(w, owner, e.cancels) {
      forall id | id in w'.tasks && w'.tasks[id].status == Pending ensures Waits(w', w'.tasks[id]) {
        if id in w.tasks { assert Waits(w, w.tasks[id]); }
      }
    } else {
      var id :| id in w.tasks && OwnerOf(w.tasks[id]) == owner && w.tasks[id].status == Pending
          && w.tasks[id].state !in e.cancels;
      assert Waits(w, w.tasks[id]);
      assert w'.tasks[id] == w.tasks[id] && !Waits(w', w'.tasks[id]);
    }
  }

  /** Forced states and steps of parallel states cancel nothing. */
  lemma CancelsNothing(cm: CompiledMachine, inst: Instance, op: Op)
    requires op.Force? || |inst.active| > 0
    ensures Perform(cm, inst, op).cancels == {}
  {
    match op
    case Force(target, call) => ForceCancelsNothing(cm, inst, target, call);
    case Fire(name, call) =>
      if name in cm.def.transitions && !IsTerminal(cm.def, inst.currentState) {
        if inst.currentState in cm.def.transitions[name].sources {
          var v := ValidateTransition(cm, inst, name, call);
          if v.Ok? { ExitCancelsNothing(cm, inst, v.value.0, v.value.1, call); }
        } else {
          var cs := AllCandidates(cm, inst, name, call);
          if cs.Ok? && cs.value != [] { InnerCancelsNothing(cm, inst, name, cs.value, call); }
        }
      }
  }

  lemma ForceCancelsNothing(cm: CompiledMachine, inst: Instance, target: string, call: Call)
    ensures ForceState(cm, inst, target, call).cancels == {}
  {}

  lemma ExitCancelsNothing(cm: CompiledMachine, inst: Instance, tr: TransitionDef, target: string, call: Call)
    ensures CommitParallelExit(cm, inst, tr, target, call).cancels == {}
  {}

  lemma InnerCancelsNothing(cm: CompiledMachine, inst: Instance, name: string, cs: seq<Candidate>, call: Call)
    requires cs != []
    ensures CommitParallelIntra(cm, inst, name, cs, call).cancels == {}
  {}

  predicate NonePending(w: World, owner: Aggregate) {
    forall id :: id in w.tasks && OwnerOf(w.tasks[id]) == owner ==> w.tasks[id].status != Pending
  }

  /** So they leave a task dangling exactly when they move an instance that still has a pending one. */
  lemma UncleanDanglesIff(cm: CompiledMachine, w: World, owner: Aggregate, op: Op, newId: string)
    requires NoneDangling(w) && owner in w.instances && newId !in w.tasks
    requires op.Force? || |w.instances[owner].active| > 0
    ensures var inst := w.instances[owner];
      NoneDangling(Apply(cm, w, owner, op, newId))
      <==> After(inst, Perform(cm, inst, op)).currentState == inst.currentState || NonePending(w, owner)
  {
    CancelsNothing(cm, w.instances[owner], op);
    StepDanglesIff(cm, w, owner, op, newId);
  }

  /** When a plain transition cancels the tasks of the state it starts from: whenever it is stored, unless it is
      the stuck mark without savepoints. It need not leave that state: a stuck instance stays in it, and so does
      a transition whose target resolves to its own source. */
  lemma PlainCancelsExactly(cm: CompiledMachine, inst: Instance, tr: TransitionDef, target: string, call: Call)
    ensures var e := CommitPlain(cm, inst, tr, target, call);
      && (inst.currentState in e.cancels <==> e.written.Some? && (e.outcome.Done? || call.savepoints))
      && (e.written.Some? && After(inst, e).currentState == inst.currentState ==>
            EntryFailed(e) || (e.outcome.Done? && PlanFor(cm, inst, tr, target).resolved == inst.currentState))
  {
    EntryActsAre(cm.def, PlanFor(cm, inst, tr, target).entries);
    assert inst.currentState in PlanFor(cm, inst, tr, target).exits;
  }

  /** So a pending task of a state that is not left is cancelled exactly by a stored stuck step with savepoints
      and by a stored self-transition. */
  lemma StayingCancelsExactly(cm: CompiledMachine, w: World, owner: Aggregate, name: string, call: Call, newId: string,
                              id: string)
    requires NoneDangling(w) && owner in w.instances && |w.instances[owner].active| == 0 && newId !in w.tasks
    requires id in w.tasks && OwnerOf(w.tasks[id]) == owner && w.tasks[id].status == Pending
    requires var e := Perform(cm, w.instances[owner], Fire(name, call));
      After(w.instances[owner], e).currentState == w.instances[owner].currentState
    ensures var e := Perform(cm, w.instances[owner], Fire(name, call));
      var w' := Apply(cm, w, owner, Fire(name, call), newId);
      && id in w'.tasks
      && (w'.tasks[id].status != Pending
          <==> e.written.Some? && ((EntryFailed(e) && call.savepoints) || e.outcome.Done?))
  {
    var inst := w.instances[owner];
    assert Waits(w, w.tasks[id]);
    var v := ValidateTransition(cm, inst, name, call);
    if v.Ok? { PlainCancelsExactly(cm, inst, v.value.0, v.value.1, call); }
  }

  /** A plain transition that moves cancels every pending task of its aggregate: they all wait in the
      state it exits. */
  lemma PlainFrees(cm: CompiledMachine, inst: Instance, tr: TransitionDef, target: string, call: Call)
    ensures var e := CommitPlain(cm, inst, tr, target, call);
      After(inst, e).currentState == inst.currentState || inst.currentState in e.cancels
  {
    PlainOutcomes(cm, inst, tr, target, call);
    var plan := PlanFor(cm, inst, tr, target);
    assert plan.exits[0] == inst.currentState;
    assert inst.currentState in Elements(plan.exits);
  }

  lemma FreesAll(w: World, owner: Aggregate, cancels: set<string>)
    requires NoneDangling(w) && owner in w.instances && w.instances[owner].currentState in cancels
    ensures Frees(w, owner, cancels)
  {
    forall id | id in w.tasks && OwnerOf(w.tasks[id]) == owner && w.tasks[id].status == Pending
      ensures w.tasks[id].state in cancels
    { assert Waits(w, w.tasks[id]); }
  }

  lemma StaysInside(cm: CompiledMachine, inst: Instance, name: string, call: Call)
    requires |inst.active| > 0 && LeavesNoParallel(cm, inst, name)
    ensures After(inst, ParallelTransition(cm, inst, name, call)).currentState == inst.currentState
  {
    ParallelOutcomes(cm, inst, name, call);
  }

  /** Plain transitions, steps inside a parallel state and failed steps never leave a task dangling. */
  lemma FireKeepsTasks(cm: CompiledMachine, w: World, owner: Aggregate, name: string, call: Call, newId: string)
    requires NoneDangling(w) && owner in w.instances && newId !in w.tasks
    requires LeavesNoParallel(cm, w.instances[owner], name)
    ensures NoneDangling(Apply(cm, w, owner, Fire(name, call), newId))
  {
    var inst := w.instances[owner];
    var e := Perform(cm, inst, Fire(name, call));
    StepDanglesIff(cm, w, owner, Fire(name, call), newId);
    if |inst.active| > 0 {
      StaysInside(cm, inst, name, call);
    } else {
      var v := ValidateTransition(cm, inst, name, call);
      if v.Ok? { PlainFrees(cm, inst, v.value.0, v.value.1, call); }
      if inst.currentState in e.cancels { FreesAll(w, owner, e.cancels); }
    }
  }

  /** The transition is not one that leaves the parallel state the instance is in. */
  predicate LeavesNoParallel(cm: CompiledMachine, inst: Instance, name: string) {
    |inst.active| > 0 && name in cm.def.transitions ==> inst.currentState !in cm.def.transitions[name].sources
  }

  /** A step on one aggregate touches neither another's instance nor another's tasks. */
  lemma OthersUntouched(cm: CompiledMachine, w: World, owner: Aggregate, op: Op, newId: string, other: Aggregate)
    requires owner in w.instances && other in w.instances && other != owner && newId !in w.tasks
    ensures var w' := Apply(cm, w, owner, op, newId);
      && other in w'.instances && w'.instances[other] == w.instances[other]
      && forall id ::
           (id in w.tasks && OwnerOf(w.tasks[id]) == other) || (id in w'.tasks && OwnerOf(w'.tasks[id]) == other)
           ==> id in w.tasks && id in w'.tasks && w'.tasks[id] == w.tasks[id]
  {}

  // ---- Every run ----------------------------------------------------------------------------------------------------

  /** The machines by aggregate type and version; version zero asks for the latest. */
  type Registered = (string, int) -> Option<CompiledMachine>

  datatype Move =
    | Begin(owner: Aggregate, header: Header)
    | Operate(owner: Aggregate, op: Op, newId: string)
    | CompleteTask(id: string, choice: string, actor: string, call: Call, newId: string)

  /** One operation, on the world in which it takes place. */
  datatype Firing = Firing(cm: CompiledMachine, w: World, owner: Aggregate, op: Op, newId: string)

  /** The machine of the version the stored instance is in. */
  function MachineOf(registered: Registered, w: World, owner: Aggregate): Option<CompiledMachine> {
    if owner in w.instances then registered(owner.0, w.instances[owner].header.version) else None
  }

  /** Completing a task picks the transition, completes the task in the store and fires. The task stays completed
      even when the transition is then turned down. */
  ghost function Finishing(registered: Registered, w: World, id: string, choice: string, actor: string, call: Call,
                           newId: string): (f: Option<Firing>)
    ensures f.Some? ==> f.value.owner in f.value.w.instances
  {
    if id !in w.tasks then None
    else
      var t := w.tasks[id];
      var m := MachineOf(registered, w, OwnerOf(t));
      if m.None? then None
      else
        var v := TaskChoice(Matching(m.value.def, TaskCompleted, t.taskType, ActiveStates(w.instances[OwnerOf(t)])),
                            choice);
        if !v.Chosen? || t.status == Finished then None
        else Some(Firing(m.value, w.(tasks := CompleteIn(w.tasks, id, choice, actor)), OwnerOf(t), Fire(v.name, call),
                         newId))
  }

  /** The operation a move comes to, if any. */
  ghost function FiringOf(registered: Registered, w: World, m: Move): (f: Option<Firing>)
    ensures f.Some? ==> f.value.owner in f.value.w.instances
  {
    match m
    case Begin(_, _) => None
    case Operate(owner, op, newId) =>
      var cm := MachineOf(registered, w, owner);
      if cm.None? then None else Some(Firing(cm.value, w, owner, op, newId))
    case CompleteTask(id, choice, actor, call, newId) => Finishing(registered, w, id, choice, actor, call, newId)
  }

  ghost function Move1(registered: Registered, w: World, m: Move): World {
    if m.Begin? then
      var cm := registered(m.owner.0, 0);
      if m.owner in w.instances || cm.None? then w
      else w.(instances := w.instances[m.owner := NewInstance(cm.value, m.header)])
    else
      match FiringOf(registered, w, m)
      case None => w
      case Some(f) => Apply(f.cm, f.w, f.owner, f.op, f.newId)
  }

  predicate FreshId(w: World, m: Move) {
    m.Begin? || m.newId !in w.tasks
  }

  /** Forced states and steps that leave a parallel state clean up no tasks: such a step is harmless if the instance
      stays where it is or has no pending task. */
  ghost predicate Harmless(registered: Registered, w: World, m: Move) {
    var f := FiringOf(registered, w, m);
    f.Some? ==> HarmlessFiring(f.value)
  }

  ghost predicate HarmlessFiring(f: Firing)
    requires f.owner in f.w.instances
  {
    var inst := f.w.instances[f.owner];
    f.op.Force? || !LeavesNoParallel(f.cm, inst, f.op.name) ==>
      After(inst, Perform(f.cm, inst, f.op)).currentState == inst.currentState || NonePending(f.w, f.owner)
  }

  lemma FiringKeepsIff(f: Firing)
    requires NoneDangling(f.w) && f.owner in f.w.instances && f.newId !in f.w.tasks
    ensures NoneDangling(Apply(f.cm, f.w, f.owner, f.op, f.newId)) <==> HarmlessFiring(f)
  {
    if f.op.Force? || !LeavesNoParallel(f.cm, f.w.instances[f.owner], f.op.name) {
      UncleanDanglesIff(f.cm, f.w, f.owner, f.op, f.newId);
    } else {
      FireKeepsTasks(f.cm, f.w, f.owner, f.op.name, f.op.call, f.newId);
    }
  }

  /** Completing a pending or cancelled task leaves none dangling by itself. */
  lemma CompletedKeeps(w: World, id: string, choice: string, actor: string)
    requires NoneDangling(w) && id in w.tasks
    ensures NoneDangling(w.(tasks := CompleteIn(w.tasks, id, choice, actor)))
  {
    var w' := w.(tasks := CompleteIn(w.tasks, id, choice, actor));
    forall k | k in w'.tasks && w'.tasks[k].status == Pending ensures Waits(w', w'.tasks[k]) {
      assert k != id && Waits(w, w.tasks[k]);
    }
  }

  lemma BeginKeeps(w: World, owner: Aggregate, inst: Instance)
    requires NoneDangling(w) && owner !in w.instances
    ensures NoneDangling(w.(instances := w.instances[owner := inst]))
  {
    var w' := w.(instances := w.instances[owner := inst]);
    forall id | id in w'.tasks && w'.tasks[id].status == Pending ensures Waits(w', w'.tasks[id]) {
      assert Waits(w, w.tasks[id]);
    }
  }

  lemma FiringWorld(registered: Registered, w: World, m: Move)
    requires NoneDangling(w) && FreshId(w, m) && FiringOf(registered, w, m).Some?
    ensures var f := FiringOf(registered, w, m).value;
      NoneDangling(f.w) && f.newId !in f.w.tasks
  {
    if m.CompleteTask? { CompletedKeeps(w, m.id, m.choice, m.actor); }
  }

  lemma MoveKeepsIff(registered: Registered, w: World, m: Move)
    requires NoneDangling(w) && FreshId(w, m)
    ensures NoneDangling(Move1(registered, w, m)) <==> Harmless(registered, w, m)
  {
    if FiringOf(registered, w, m).Some? {
      FiringWorld(registered, w, m);
      FiringKeepsIff(FiringOf(registered, w, m).value);
    } else if m.Begin? && m.owner !in w.instances && registered(m.owner.0, 0).Some? {
      BeginKeeps(w, m.owner, NewInstance(registered(m.owner.0, 0).value, m.header));
    }
  }

  /** The worlds of a run from nothing; task ids are fresh. */
  ghost predicate RunOf(registered: Registered, worlds: seq<World>, moves: seq<Move>) {
    && |worlds| == |moves| + 1 && worlds[0] == World(map[], map[])
    && forall i :: 0 <= i < |moves| ==> RunMove(registered, worlds, moves, i)
  }

  ghost predicate RunMove(registered: Registered, worlds: seq<World>, moves: seq<Move>, i: nat)
    requires |worlds| == |moves| + 1 && i < |moves|
  {
    FreshId(worlds[i], moves[i]) && worlds[i + 1] == Move1(registered, worlds[i], moves[i])
  }

  /** In a run over any number of aggregates, types and versions every pending task always waits in the current state
      of its instance, exactly when every forced state and every step out of a parallel state is harmless. */
  lemma {:induction false} EveryRunKeepsTasks(registered: Registered, worlds: seq<World>, moves: seq<Move>, n: nat)
    requires RunOf(registered, worlds, moves) && n < |worlds|
    ensures (forall i :: 0 <= i <= n ==> NoneDangling(worlds[i]))
            <==> forall i :: 0 <= i < n ==> Harmless(registered, worlds[i], moves[i])
  {
    if n > 0 {
      EveryRunKeepsTasks(registered, worlds, moves, n - 1);
      assert RunMove(registered, worlds, moves, n - 1);
      if NoneDangling(worlds[n - 1]) { MoveKeepsIff(registered, worlds[n - 1], moves[n - 1]); }
    }
  }
}
