/** Signals, completed tasks and completed children choose the transition to fire
    (internal/runtime/scheduler.go:47-71, 105-150 and 196-213, internal/runtime/helpers.go:230-239).
    The source ranges over maps, so every loop here takes its elements in an arbitrary order. */
module Triggers {
  import opened Definitions
  import opened Step
  import opened Machines
  import opened Configuration
  import opened Progress

  // ---- What a trigger matches ---------------------------------------------------------------------------

  /** The current state and, in a parallel state, every active leaf. */
  function ActiveStates(inst: Instance): set<string> {
    {inst.currentState} + inst.active.Values
  }

  predicate Triggered(tr: TransitionDef, ty: TriggerType, key: string, active: set<string>) {
    tr.triggerType == ty && tr.triggerKey == key && exists s :: s in tr.sources && s in active
  }

  function Matching(def: Definition, ty: TriggerType, key: string, active: set<string>): set<string> {
    set n | n in def.transitions && Triggered(def.transitions[n], ty, key, active)
  }

  datatype Verdict = NoMatch | Unique(name: string) | Ambiguous

  /** The verdict on a signal as a function of the set of matches: no order enters it. */
  ghost function SignalVerdict(matches: set<string>): (v: Verdict)
    ensures v.NoMatch? <==> matches == {}
    ensures forall n :: v == Unique(n) <==> matches == {n}
    ensures v.Ambiguous? <==> |matches| > 1
  {
    if matches == {} then NoMatch
    else if |matches| == 1 then
      var n :| n in matches;
      SingletonOf(matches, n);
      Unique(n)
    else Ambiguous
  }

  lemma SingletonOf(s: set<string>, n: string)
    requires n in s && |s| == 1
    ensures s == {n}
  {
    assert |s - {n}| == 0;
  }

  // ---- The loops -------------------------------------------------------------------------------------------

  method AnySource(tr: TransitionDef, active: seq<string>) returns (found: bool)
    ensures found <==> exists s :: s in tr.sources && s in active
  {
    for i := 0 to |active|
      invariant forall k :: 0 <= k < i ==> active[k] !in tr.sources
    {
      if active[i] in tr.sources { return true; }
    }
    return false;
  }

  method ListActive(inst: Instance) returns (states: seq<string>)
    ensures Elements(states) == ActiveStates(inst)
  {
    states := [inst.currentState];
    var todo := inst.active.Keys;
    while todo != {}
      invariant todo <= inst.active.Keys
      invariant Elements(states) == {inst.currentState} + set r | r in inst.active.Keys - todo :: inst.active[r]
      decreases todo
    {
      var r :| r in todo;
      assert inst.active.Keys - (todo - {r}) == inst.active.Keys - todo + {r};
      assert Elements(states + [inst.active[r]]) == Elements(states) + {inst.active[r]};
      states := states + [inst.active[r]];
      todo := todo - {r};
    }
    assert inst.active.Values == set r | r in inst.active.Keys - todo :: inst.active[r];
  }

  method CollectMatches(def: Definition, inst: Instance, ty: TriggerType, key: string) returns (matches: seq<string>)
    ensures NoDuplicates(matches) && Elements(matches) == Matching(def, ty, key, ActiveStates(inst))
  {
    var active := ListActive(inst);
    assert forall s :: s in active <==> s in Elements(active);
    matches := [];
    var todo := def.transitions.Keys;
    while todo != {}
      invariant todo <= def.transitions.Keys && NoDuplicates(matches)
      invariant forall n :: n in matches <==> n in Matching(def, ty, key, ActiveStates(inst)) && n !in todo
      decreases todo
    {
      var n :| n in todo;
      var tr := def.transitions[n];
      if tr.triggerType == ty && tr.triggerKey == key {
        var found := AnySource(tr, active);
        if found { matches := matches + [n]; }
      }
      todo := todo - {n};
    }
  }

  /** Whatever the iteration orders, the verdict depends on the set of matches only. */
  method DecideSignal(def: Definition, inst: Instance, key: string) returns (v: Verdict)
    ensures v == SignalVerdict(Matching(def, Signal, key, ActiveStates(inst)))
  {
    var matches := CollectMatches(def, inst, Signal, key);
    SizeOfDistinct(matches);
    if |matches| == 0 { return NoMatch; }
    if |matches| > 1 { return Ambiguous; }
    assert Elements(matches) == {matches[0]};
    return Unique(matches[0]);
  }

  datatype TaskVerdict = NoTaskMatch | Chosen(name: string) | InvalidChoice

  /** One match fires whatever the choice; among several the choice must name one. */
  ghost function TaskChoice(matches: set<string>, choice: string): TaskVerdict {
    if matches == {} then NoTaskMatch
    else if SignalVerdict(matches).Unique? then Chosen(SignalVerdict(matches).name)
    else if choice in matches then Chosen(choice)
    else InvalidChoice
  }

  method DecideTask(def: Definition, inst: Instance, taskType: string, choice: string) returns (v: TaskVerdict)
    ensures v == TaskChoice(Matching(def, TaskCompleted, taskType, ActiveStates(inst)), choice)
  {
    var matches := CollectMatches(def, inst, TaskCompleted, taskType);
    SizeOfDistinct(matches);
    if |matches| == 0 { return NoTaskMatch; }
    var name := matches[0];
    if |matches| > 1 {
      var found := false;
      for i := 0 to |matches|
        invariant !found && choice !in matches[..i]
      {
        if matches[i] == choice {
          name, found := matches[i], true;
          break;
        }
      }
      assert matches[..|matches|] == matches;
      assert choice in matches <==> choice in Elements(matches);
      if !found { return InvalidChoice; }
    } else {
      assert Elements(matches) == {matches[0]};
    }
    return Chosen(name);
  }

  /** A completed child fires the first match of the map iteration, so its choice is determined only
      when at most one transition matches. */
  method FirstForChild(def: Definition, inst: Instance, key: string) returns (r: Option<string>)
    ensures var matches := Matching(def, ChildCompleted, key, ActiveStates(inst));
      && (r.None? <==> matches == {})
      && (r.Some? ==> r.value in matches)
      && (|matches| == 1 ==> r.Some? && matches == {r.value})
  {
    var active := ListActive(inst);
    assert forall s :: s in active <==> s in Elements(active);
    ghost var matches := Matching(def, ChildCompleted, key, ActiveStates(inst));
    var todo := def.transitions.Keys;
    while todo != {}
      invariant todo <= def.transitions.Keys
      invariant forall n :: n in matches ==> n in todo
      decreases todo
    {
      var n :| n in todo;
      var tr := def.transitions[n];
      if tr.triggerType == ChildCompleted && tr.triggerKey == key {
        var found := AnySource(tr, active);
        if found {
          assert n in matches;
          if |matches| == 1 { SingletonOf(matches, n); }
          return Some(n);
        }
      }
      todo := todo - {n};
    }
    assert matches == {};
    return None;
  }

  // ---- Agreement with the step function ----------------------------------------------------------------------

  /** Structural reasons to turn a transition down. */
  predicate SourceRejected(o: Outcome) {
    o.Failed? && (o.failure.UnknownTransition? || o.failure.InvalidSource? || o.failure.IndexMiss?
                  || o.failure.NoActiveLeafMatches?)
  }

  /** In an instance whose current state is not terminal, whatever a trigger matches passes the source
      check of the step function, plain or parallel. */
  lemma MatchIsAccepted(cm: CompiledMachine, inst: Instance, ty: TriggerType, key: string, n: string, call: Call)
    requires TransitionsProper(cm) && "" !in inst.active.Values
    requires n in Matching(cm.def, ty, key, ActiveStates(inst)) && !IsTerminal(cm.def, inst.currentState)
    ensures !SourceRejected(Transition(cm, inst, n, call).outcome)
  {
    if |inst.active| > 0 {
      MatchFiresInside(cm, inst, ty, key, n);
      FiringInsideStarts(cm, inst, n, call);
    } else {
      MatchFiresHere(cm, inst, ty, key, n, call);
    }
  }

  lemma MatchFiresHere(cm: CompiledMachine, inst: Instance, ty: TriggerType, key: string, n: string, call: Call)
    requires TransitionsProper(cm) && n in Matching(cm.def, ty, key, ActiveStates(inst))
    requires |inst.active| == 0 && !IsTerminal(cm.def, inst.currentState)
    ensures !SourceRejected(PlainTransition(cm, inst, n, call).outcome)
  {
    assert inst.active == map[] && TransitionProper(cm, n, cm.def.transitions[n]);
    assert CanFireFrom(cm, inst.currentState, n);
    IndexNeverMisses(cm, inst, n, call);
    var v := ValidateTransition(cm, inst, n, call);
    if v.Ok? { PlainFailsLate(cm, inst, v.value.0, v.value.1, call); }
  }

  lemma MatchFiresInside(cm: CompiledMachine, inst: Instance, ty: TriggerType, key: string, n: string)
    requires TransitionsProper(cm) && "" !in inst.active.Values && n in Matching(cm.def, ty, key, ActiveStates(inst))
    ensures CanFireInside(cm, inst, n)
  {
    var tr := cm.def.transitions[n];
    assert TransitionProper(cm, n, tr);
    var s :| s in tr.sources && s in ActiveStates(inst);
    if s != inst.currentState {
      var r :| r in inst.active && inst.active[r] == s;
      assert BoundedSource(cm, tr, inst.active[r], inst.currentState) == s;
    }
  }

  lemma PlainFailsLate(cm: CompiledMachine, inst: Instance, tr: TransitionDef, target: string, call: Call)
    ensures LateFailure(CommitPlain(cm, inst, tr, target, call).outcome)
  {}

  // ---- Runs with every kind of request --------------------------------------------------------------------------

  /** `pick` is the transition that the source happens to find first; `joined` the verdict on the group. */
  datatype Request =
    | Direct(op: Op)
    | SendSignal(key: string, call: Call)
    | TaskDone(taskType: string, choice: string, call: Call)
    | ChildDone(key: string, pick: string, call: Call)
    | GroupDone(joined: bool, pick: string, call: Call)

  /** The transitions that a joined group can fire: their key plays no part. */
  function Joining(def: Definition, active: set<string>): set<string> {
    set n | n in def.transitions && Triggered(def.transitions[n], ChildrenJoined, def.transitions[n].triggerKey, active)
  }

  /** The one operation a request comes down to, if any. */
  ghost function OpOf(cm: CompiledMachine, inst: Instance, q: Request): Option<Op> {
    match q
    case Direct(op) => Some(op)
    case SendSignal(key, call) =>
      var v := SignalVerdict(Matching(cm.def, Signal, key, ActiveStates(inst)));
      if v.Unique? then Some(Fire(v.name, call)) else None
    case TaskDone(ty, choice, call) =>
      var v := TaskChoice(Matching(cm.def, TaskCompleted, ty, ActiveStates(inst)), choice);
      if v.Chosen? then Some(Fire(v.name, call)) else None
    case ChildDone(key, pick, call) =>
      if pick in Matching(cm.def, TriggerType.ChildCompleted, key, ActiveStates(inst)) then Some(Fire(pick, call))
        else None
    case GroupDone(joined, pick, call) =>
      if joined && pick in Joining(cm.def, ActiveStates(inst)) then Some(Fire(pick, call)) else None
  }

  // ---- What requests fire ----------------------------------------------------------------------------------------

  /** The transition is set off by that kind of trigger, and the current state or an active leaf is a source. */
  predicate AnswersTo(def: Definition, inst: Instance, n: string, ty: TriggerType) {
    && n in def.transitions && def.transitions[n].triggerType == ty
    && (inst.currentState in def.transitions[n].sources
        || exists r :: r in inst.active && inst.active[r] in def.transitions[n].sources)
  }

  predicate AnswersKey(def: Definition, inst: Instance, n: string, ty: TriggerType, key: string) {
    AnswersTo(def, inst, n, ty) && def.transitions[n].triggerKey == key
  }

  lemma MatchingAnswers(def: Definition, inst: Instance, ty: TriggerType, key: string)
    ensures forall n :: n in Matching(def, ty, key, ActiveStates(inst)) <==> AnswersKey(def, inst, n, ty, key)
    ensures forall n :: n in Joining(def, ActiveStates(inst)) <==> AnswersTo(def, inst, n, ChildrenJoined)
  {
    forall n | n in def.transitions
      ensures (exists s :: s in def.transitions[n].sources && s in ActiveStates(inst))
              <==> (inst.currentState in def.transitions[n].sources
                    || exists r :: r in inst.active && inst.active[r] in def.transitions[n].sources)
    {
      if r :| r in inst.active && inst.active[r] in def.transitions[n].sources {
        assert inst.active[r] in ActiveStates(inst);
      }
    }
  }

  ghost predicate OnlyAnswer(def: Definition, inst: Instance, n: string, ty: TriggerType, key: string) {
    AnswersKey(def, inst, n, ty, key) && forall m :: AnswersKey(def, inst, m, ty, key) ==> m == n
  }

  /** A signal fires the one transition that answers to it; none and several fire nothing. */
  lemma SignalFires(cm: CompiledMachine, inst: Instance, key: string, call: Call)
    ensures forall n :: OpOf(cm, inst, SendSignal(key, call)) == Some(Fire(n, call))
              <==> OnlyAnswer(cm.def, inst, n, Signal, key)
    ensures OpOf(cm, inst, SendSignal(key, call)).None? <==> forall n :: !OnlyAnswer(cm.def, inst, n, Signal, key)
  {
    MatchingAnswers(cm.def, inst, Signal, key);
    var matches := Matching(cm.def, Signal, key, ActiveStates(inst));
    OnlyOnes(cm.def, inst, Signal, key, matches);
  }

  lemma OnlyOnes(def: Definition, inst: Instance, ty: TriggerType, key: string, matches: set<string>)
    requires forall n :: n in matches <==> AnswersKey(def, inst, n, ty, key)
    ensures forall n :: matches == {n} <==> OnlyAnswer(def, inst, n, ty, key)
    ensures SignalVerdict(matches).Unique? <==> exists n :: OnlyAnswer(def, inst, n, ty, key)
  {
    forall n | OnlyAnswer(def, inst, n, ty, key) ensures matches == {n} {}
    if SignalVerdict(matches).Unique? { assert matches == {SignalVerdict(matches).name}; }
    if n :| OnlyAnswer(def, inst, n, ty, key) { assert matches == {n}; }
  }

  /** A completed task fires the one transition that answers to its type, or of several the one chosen. */
  lemma TaskFires(cm: CompiledMachine, inst: Instance, taskType: string, choice: string, call: Call)
    ensures forall n :: OpOf(cm, inst, TaskDone(taskType, choice, call)) == Some(Fire(n, call))
              <==> (AnswersKey(cm.def, inst, n, TaskCompleted, taskType)
                    && (OnlyAnswer(cm.def, inst, n, TaskCompleted, taskType) || n == choice))
  {
    MatchingAnswers(cm.def, inst, TaskCompleted, taskType);
    OnlyOnes(cm.def, inst, TaskCompleted, taskType, Matching(cm.def, TaskCompleted, taskType, ActiveStates(inst)));
  }

  /** A completed child fires a transition that answers to its workflow type, a joined group one that answers to joins
      whatever its key. */
  lemma ChildrenFire(cm: CompiledMachine, inst: Instance, key: string, joined: bool, pick: string, call: Call)
    ensures OpOf(cm, inst, ChildDone(key, pick, call))
            == if AnswersKey(cm.def, inst, pick, TriggerType.ChildCompleted, key) then Some(Fire(pick, call)) else None
    ensures OpOf(cm, inst, GroupDone(joined, pick, call))
            == if joined && AnswersTo(cm.def, inst, pick, ChildrenJoined) then Some(Fire(pick, call)) else None
  {
    MatchingAnswers(cm.def, inst, TriggerType.ChildCompleted, key);
  }

  ghost function Serve(cm: CompiledMachine, inst: Instance, qs: seq<Request>): Instance {
    if qs == [] then inst
    else
      var before := Serve(cm, inst, qs[..|qs| - 1]);
      var op := OpOf(cm, before, qs[|qs| - 1]);
      if op.None? then before else After(before, Perform(cm, before, op.value))
  }

  /** Runs with signals, completed tasks and completed children are runs of plain operations ... */
  lemma {:induction false} ServingIsRunning(cm: CompiledMachine, inst: Instance, qs: seq<Request>)
    returns (ops: seq<Op>)
    ensures Serve(cm, inst, qs) == Run(cm, inst, ops)
    decreases |qs|
  {
    if qs == [] {
      ops := [];
    } else {
      ops := ServingIsRunning(cm, inst, qs[..|qs| - 1]);
      var op := OpOf(cm, Run(cm, inst, ops), qs[|qs| - 1]);
      if op.Some? {
        assert (ops + [op.value])[..|ops|] == ops;
        ops := ops + [op.value];
      }
    }
  }

  /** ... so they rest as well as those do. */
  lemma EveryServiceRests(cm: CompiledMachine, header: Header, qs: seq<Request>)
    requires Machine(cm) && RegionLocal(cm) && StartsAtRest(cm)
    ensures ConfigOk(cm, Serve(cm, NewInstance(cm, header), qs))
  {
    var ops := ServingIsRunning(cm, NewInstance(cm, header), qs);
    EveryRunRests(cm, header, ops);
  }
}
