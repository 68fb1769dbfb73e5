/** The step function of the engine on values: what each operation writes, which event it appends,
    which activities it runs and how it ends (internal/runtime/executor.go, parallel.go, helpers.go).
    Guards, conditions, activities and the clock are oracles of the call. `Executor` proves that
    the imperative form of the source computes exactly this. */
module Step {
  import opened Definitions
  import opened Hierarchy
  import opened Names

  /** The fields no step changes. */
  datatype Header = Header(
    id: string,
    workflowType: string,
    version: int,
    aggregateType: string,
    aggregateId: string,
    correlationId: string,
    createdAt: int)

  datatype Instance = Instance(
    header: Header,
    currentState: string,
    shallow: map<string, string>,
    deep: map<string, string>,
    active: map<string, string>,   // empty for the nil map
    parallelClock: int,
    isStuck: bool,
    stuckReason: string,           // the state whose entry activity failed
    updatedAt: int,
    lastReadUpdatedAt: int)

  datatype Condition = Matched | NotMatched | Broken

  /** One call of the engine: the answers it gets from guards, conditions and activities, the clock
      reading, whether the provider has savepoints, and whether the transaction commits. */
  datatype Call = Call(
    guard: (string, Instance) -> bool,
    condition: (string, Instance) -> Condition,
    fails: nat -> bool,            // does the n-th activity run by this call fail?
    now: int,
    eventId: string,
    savepoints: bool,
    commits: bool)

  datatype Event = Event(
    id: string,
    header: Header,
    eventType: string,
    transition: string,
    changed: map<string, (string, string)>,  // region -> (from, to); or "" -> (from, to) for a forced state
    createdAt: int)

  datatype Failure =
    | UnknownTransition | AlreadyTerminal | InvalidSource | IndexMiss | GuardRejected(guard: string)
    | ConditionBroken | NoMatchingRoute | NoActiveLeafMatches | UnknownTarget
    | ExitActivityFailed(state: string) | EntryActivityFailed(state: string) | NotCommitted | ConcurrentModification

  /** The call is turned down before any activity runs. */
  predicate Early(f: Failure) {
    !f.ExitActivityFailed? && !f.EntryActivityFailed? && !f.NotCommitted? && !f.ConcurrentModification?
  }

  datatype Act = ExitAct(state: string, activity: string) | EntryAct(state: string, activity: string)

  datatype Outcome = Done(transition: Option<TransitionDef>) | Failed(failure: Failure)

  /** What one call does to the outside. */
  datatype Effect = Effect(
    written: Option<Instance>,
    event: Option<Event>,
    cancels: set<string>,          // states whose pending tasks of this aggregate are cancelled
    ran: seq<Act>,
    outcome: Outcome)

  function Reject(f: Failure): Effect {
    Effect(None, None, {}, [], Failed(f))
  }

  function EventsOf(e: Option<Event>): seq<Event> {
    if e.Some? then [e.value] else []
  }

  /** The instance as the store holds it after the effect. */
  function After(inst: Instance, e: Effect): Instance {
    if e.written.Some? then e.written.value else inst
  }

  /** LastReadUpdatedAt takes the stamp that was read, UpdatedAt the clock. */
  function Touch(inst: Instance, now: int): Instance {
    inst.(lastReadUpdatedAt := inst.updatedAt, updatedAt := now)
  }

  /** All or nothing: without a commit neither instance, event nor task cancellation remains. Marking an
      instance stuck without savepoints is best effort: the caller hears of the activity instead. */
  function Transact(call: Call, e: Effect): Effect {
    if call.commits || e.written.None? then e
    else e.(written := None, event := None, cancels := {},
            outcome := if e.outcome.Done? || call.savepoints then Failed(NotCommitted) else e.outcome)
  }

  function FailureOf(o: Outcome): Option<Failure> {
    match o
    case Done(_) => None
    case Failed(f) => Some(f)
  }

  predicate EntryFailed(e: Effect) {
    e.outcome.Failed? && e.outcome.failure.EntryActivityFailed?
  }

  /** The caller is told that the lock was lost when the update was part of the step's own transaction. */
  predicate LockReported(call: Call, e: Effect) {
    e.outcome.Done? || e.outcome == Failed(NotCommitted) || (e.written.Some? && call.savepoints)
  }

  /** What the caller is told: a lost lock comes before a failed commit and before a stuck mark. */
  function Told(call: Call, e: Effect, lockPasses: bool): Option<Failure> {
    if !lockPasses && LockReported(call, e) then Some(ConcurrentModification) else FailureOf(e.outcome)
  }

  // ---- Choosing the transition ---------------------------------------------------------------------

  function RunGuards(guards: seq<string>, inst: Instance, call: Call): Option<string> {
    if guards == [] then None
    else if !call.guard(guards[0], inst) then Some(guards[0])
    else RunGuards(guards[1..], inst, call)
  }

  /** The first matching condition wins; failing that the last default; a broken condition aborts. */
  function ChooseRoute(routes: seq<Route>, default: string, inst: Instance, call: Call): (r: Result<string, Failure>)
    ensures r.Err? ==> r.error.ConditionBroken? || r.error.NoMatchingRoute?
  {
    if routes == [] then
      if default != "" then Ok(default) else Err(NoMatchingRoute)
    else
      var r := routes[0];
      if r.isDefault then ChooseRoute(routes[1..], r.target, inst, call)
      else if r.condition.None? then ChooseRoute(routes[1..], default, inst, call)
      else match call.condition(r.condition.value, inst)
        case Broken => Err(ConditionBroken)
        case Matched => Ok(r.target)
        case NotMatched => ChooseRoute(routes[1..], default, inst, call)
  }

  function TargetOf(tr: TransitionDef, inst: Instance, call: Call): (r: Result<string, Failure>)
    ensures r.Err? ==> r.error.ConditionBroken? || r.error.NoMatchingRoute?
  {
    if |tr.routes| > 0 then ChooseRoute(tr.routes, "", inst, call) else Ok(tr.target)
  }

  /** The state itself when it is a source, else its nearest ancestor that is one. */
  function EffectiveSource(cm: CompiledMachine, tr: TransitionDef, s: string): Option<string> {
    if s in tr.sources then Some(s)
    else
      var i := FirstIn(Anc(cm, s), Elements(tr.sources));
      if i < |Anc(cm, s)| then Some(Anc(cm, s)[i]) else None
  }

  /** The lookup in the transition index by name. */
  function FindNamed(list: seq<TransitionDef>, name: string): Option<TransitionDef> {
    if list == [] then None
    else if list[0].name == name then Some(list[0])
    else FindNamed(list[1..], name)
  }

  function TransitionsAt(cm: CompiledMachine, s: string): seq<TransitionDef> {
    if s in cm.byState then cm.byState[s] else []
  }

  function ValidateTransition(cm: CompiledMachine, inst: Instance, name: string, call: Call)
    : (r: Result<(TransitionDef, string), Failure>)
    ensures r.Err? ==> Early(r.error)
  {
    if name !in cm.def.transitions then Err(UnknownTransition)
    else if IsTerminal(cm.def, inst.currentState) then Err(AlreadyTerminal)
    else
      var tr := cm.def.transitions[name];
      var source := EffectiveSource(cm, tr, inst.currentState);
      if source.None? then Err(InvalidSource)
      else
        var ct := FindNamed(TransitionsAt(cm, source.value), name);
        if ct.None? then Err(IndexMiss)
        else
          var rejected := RunGuards(ct.value.guards, inst, call);
          if rejected.Some? then Err(GuardRejected(rejected.value))
          else
            var target := TargetOf(tr, inst, call);
            if target.Err? then Err(target.error) else Ok((ct.value, target.value))
  }

  // ---- Resolving the target ---------------------------------------------------------------------------

  /** Compound states resolve to their initial leaf, everything else to itself. */
  function LeafOf(cm: CompiledMachine, s: string): string {
    if s in cm.initialLeaf then cm.initialLeaf[s] else s
  }

  function ResolveTarget(cm: CompiledMachine, inst: Instance, target: string, mode: HistoryMode): string {
    match mode
    case Shallow => if target in inst.shallow then LeafOf(cm, inst.shallow[target]) else LeafOf(cm, target)
    case Deep => if target in inst.deep then inst.deep[target] else LeafOf(cm, target)
    case NoHistory => LeafOf(cm, target)
  }

  function RegionsOf(cm: CompiledMachine, p: string): seq<string> {
    if p in cm.regions then cm.regions[p] else []
  }

  /** Every region of `p` at its initial leaf. */
  function InitialRegions(cm: CompiledMachine, p: string): map<string, string> {
    map r | r in RegionsOf(cm, p) :: LeafOf(cm, r)
  }

  // ---- Sequences for parallel states --------------------------------------------------------------------

  function RegionEntries(cm: CompiledMachine, regions: seq<string>): seq<string> {
    if regions == [] then []
    else [regions[0]] + (if regions[0] in cm.initialLeaf then [cm.initialLeaf[regions[0]]] else [])
         + RegionEntries(cm, regions[1..])
  }

  function EntriesFor(cm: CompiledMachine, lca: string, target: string): seq<string> {
    if target in cm.regions then EntrySeq(cm, lca, target) + RegionEntries(cm, cm.regions[target])
    else EntrySeq(cm, lca, target)
  }

  function RegionExits(active: map<string, string>, regions: seq<string>): seq<string>
    requires forall r :: r in regions ==> r in active
  {
    if regions == [] then []
    else [active[regions[0]]] + (if active[regions[0]] != regions[0] then [regions[0]] else [])
         + RegionExits(active, regions[1..])
  }

  /** Regions in ascending order. */
  ghost function ActiveRegions(inst: Instance): (r: seq<string>)
    ensures Elements(r) == inst.active.Keys && NoDuplicates(r)
    ensures forall x :: x in r <==> x in inst.active
  {
    var r := Sorted(inst.active.Keys);
    assert forall x :: x in r <==> x in Elements(r);
    r
  }

  ghost function ParallelExitSeq(inst: Instance): seq<string> {
    RegionExits(inst.active, ActiveRegions(inst)) + [inst.currentState]
  }

  // ---- History ----------------------------------------------------------------------------------------------

  datatype History = History(shallow: map<string, string>, deep: map<string, string>)

  /** The first state of `exits` whose parent is `c`; "" for none. */
  function ChildAmong(def: Definition, exits: seq<string>, c: string): string {
    if exits == [] then ""
    else if ParentOf(def, exits[0]) == c then exits[0]
    else ChildAmong(def, exits[1..], c)
  }

  function RecordAt(def: Definition, h: History, leaf: string, exits: seq<string>, c: string): History {
    var child := ChildAmong(def, exits, c);
    if !IsCompound(def, c) || child == "" then h
    else History(h.shallow[c := child], h.deep[c := leaf])
  }

  /** The history after recording the first `n` states of `exits`. */
  function Record(def: Definition, h: History, leaf: string, exits: seq<string>, n: nat): History
    requires n <= |exits|
  {
    if n == 0 then h else RecordAt(def, Record(def, h, leaf, exits, n - 1), leaf, exits, exits[n - 1])
  }

  function HistoryOf(inst: Instance): History {
    History(inst.shallow, inst.deep)
  }

  function WithHistory(inst: Instance, h: History): Instance {
    inst.(shallow := h.shallow, deep := h.deep)
  }

  /** The instance with the exit of `exits` from `leaf` recorded. */
  function Recorded(def: Definition, inst: Instance, leaf: string, exits: seq<string>): Instance {
    WithHistory(inst, Record(def, HistoryOf(inst), leaf, exits, |exits|))
  }

  /** Each region records its own active leaf, up to but without the parallel state. */
  function RecordedRegions(cm: CompiledMachine, inst: Instance, p: string, regions: seq<string>, n: nat): Instance
    requires n <= |regions| && forall r :: r in regions ==> r in inst.active
    ensures RecordedRegions(cm, inst, p, regions, n).active == inst.active
  {
    if n == 0 then inst
    else
      var before := RecordedRegions(cm, inst, p, regions, n - 1);
      var leaf := inst.active[regions[n - 1]];
      Recorded(cm.def, before, leaf, ExitSeq(cm, leaf, p))
  }

  /** Recording changes nothing but the history. */
  lemma {:induction false} RegionsKeepRest(cm: CompiledMachine, inst: Instance, p: string, regions: seq<string>, n: nat)
    requires n <= |regions| && forall r :: r in regions ==> r in inst.active
    ensures var left := RecordedRegions(cm, inst, p, regions, n);
      left == WithHistory(inst, HistoryOf(left))
  {
    if n > 0 { RegionsKeepRest(cm, inst, p, regions, n - 1); }
  }

  /** The instance with the history of all its regions recorded. */
  ghost function LeftRegions(cm: CompiledMachine, inst: Instance): Instance {
    RecordedRegions(cm, inst, inst.currentState, ActiveRegions(inst), |ActiveRegions(inst)|)
  }

  // ---- Activities --------------------------------------------------------------------------------------------

  function ExitActs(def: Definition, states: seq<string>): seq<Act> {
    if states == [] then [] else ExitActOf(def, states[0]) + ExitActs(def, states[1..])
  }

  function ExitActOf(def: Definition, s: string): seq<Act> {
    if s in def.states && def.states[s].exitActivity != "" then [ExitAct(s, def.states[s].exitActivity)] else []
  }

  function EntryActOf(def: Definition, s: string): seq<Act> {
    if s in def.states && def.states[s].entryActivity != "" then [EntryAct(s, def.states[s].entryActivity)] else []
  }

  function EntryActs(def: Definition, states: seq<string>): seq<Act> {
    if states == [] then [] else EntryActOf(def, states[0]) + EntryActs(def, states[1..])
  }

  /** The position of the first activity that fails, or `n`. */
  function FirstFail(fails: nat -> bool, n: nat): (k: nat)
    ensures k <= n && (forall j: nat :: j < k ==> !fails(j)) && (k < n ==> fails(k))
  {
    if n == 0 then 0
    else
      var k := FirstFail(fails, n - 1);
      if k < n - 1 || fails(n - 1) then k else n
  }

  function Failing(a: Act): Failure {
    match a
    case ExitAct(s, _) => ExitActivityFailed(s)
    case EntryAct(s, _) => EntryActivityFailed(s)
  }

  // ---- Plain transition -----------------------------------------------------------------------------------------

  /** The states of the subtrees below `roots`, the roots included. */
  function Subtrees(cm: CompiledMachine, roots: seq<string>): set<string> {
    Elements(roots) + set s | s in cm.def.states && exists r :: r in roots && r in Anc(cm, s)
  }

  /** Events carry the workflow type and the version of the machine, whatever the instance was made with. */
  function Origin(cm: CompiledMachine, h: Header): Header {
    h.(workflowType := cm.def.workflowType, version := cm.def.version)
  }

  function MakeEvent(cm: CompiledMachine, inst: Instance, tr: TransitionDef, call: Call): Event {
    Event(call.eventId, Origin(cm, inst.header), tr.event, tr.name, map[], call.now)
  }

  datatype Plan = Plan(resolved: string, exits: seq<string>, entries: seq<string>)

  /** Where a plain transition ends up and which states it exits and enters on the way. */
  function PlanFor(cm: CompiledMachine, inst: Instance, tr: TransitionDef, target: string): Plan {
    var resolved := ResolveTarget(cm, inst, target, tr.historyMode);
    var lca := Lca(cm, inst.currentState, resolved);
    Plan(resolved, ExitSeq(cm, inst.currentState, lca), EntriesFor(cm, lca, resolved))
  }

  function Stuck(inst: Instance, state: string, now: int): Instance {
    Touch(inst, now).(isStuck := true, stuckReason := state)
  }

  /** Arrival: a parallel state starts all its regions, any other state clears them. The stuck mark stays. */
  function Arrive(cm: CompiledMachine, inst: Instance, state: string, now: int): Instance {
    Touch(inst, now).(currentState := state, active := InitialRegions(cm, state))
  }

  function CommitPlain(cm: CompiledMachine, inst: Instance, tr: TransitionDef, target: string, call: Call): Effect {
    var plan := PlanFor(cm, inst, tr, target);
    var xs, es := ExitActs(cm.def, plan.exits), EntryActs(cm.def, plan.entries);
    var acts := xs + es;
    var k := FirstFail(call.fails, |acts|);
    var left := Recorded(cm.def, inst, inst.currentState, plan.exits);
    var event := MakeEvent(cm, inst, tr, call);
    var cancels := Subtrees(cm, plan.exits);
    if k < |xs| then
      Effect(None, None, {}, acts[..k + 1], Failed(Failing(acts[k])))
    else if k < |acts| then
      Transact(call, Effect(
        Some(Stuck(left, acts[k].state, call.now)),
        if call.savepoints then Some(event) else None,
        if call.savepoints then cancels else {},
        acts[..k + 1],
        Failed(Failing(acts[k]))))
    else
      Transact(call, Effect(Some(Arrive(cm, left, plan.resolved, call.now)), Some(event), cancels, acts,
                            Done(Some(tr))))
  }

  function PlainTransition(cm: CompiledMachine, inst: Instance, name: string, call: Call): Effect {
    var v := ValidateTransition(cm, inst, name, call);
    if v.Err? then Reject(v.error) else CommitPlain(cm, inst, v.value.0, v.value.1, call)
  }

  // ---- Leaving a parallel state ------------------------------------------------------------------------------------

  ghost function CommitParallelExit(cm: CompiledMachine, inst: Instance, tr: TransitionDef, target: string,
                                    call: Call): Effect {
    var left := LeftRegions(cm, inst);
    var resolved := LeafOf(cm, target);
    var acts := ExitActs(cm.def, ParallelExitSeq(inst)) + EntryActs(cm.def, EntrySeq(cm, "", resolved));
    var k := FirstFail(call.fails, |acts|);
    if k < |acts| then Effect(None, None, {}, acts[..k + 1], Failed(Failing(acts[k])))
    else
      Transact(call, Effect(
        Some(Touch(left, call.now).(currentState := resolved, active := map[])),
        Some(MakeEvent(cm, inst, tr, call)), {}, acts, Done(Some(tr))))
  }

  // ---- Inside a parallel state ------------------------------------------------------------------

  datatype Candidate = Candidate(region: string, leaf: string, tr: TransitionDef, target: string)

  /** The active leaf when it is a source, else its nearest ancestor below the parallel state that is one. */
  function BoundedSource(cm: CompiledMachine, tr: TransitionDef, leaf: string, p: string): string {
    if leaf in tr.sources then leaf
    else
      var i := FirstIn(Anc(cm, leaf), Elements(tr.sources) + {p});
      if i < |Anc(cm, leaf)| && Anc(cm, leaf)[i] != p then Anc(cm, leaf)[i] else ""
  }

  /** What one region contributes: nothing, its candidate, or the failure that ends the collection. */
  function CandidateIn(cm: CompiledMachine, inst: Instance, name: string, region: string,
                       call: Call): (r: Result<seq<Candidate>, Failure>)
    requires name in cm.def.transitions && region in inst.active
    ensures r.Err? ==> Early(r.error)
  {
    var tr := cm.def.transitions[name];
    var leaf := inst.active[region];
    var source := BoundedSource(cm, tr, leaf, inst.currentState);
    var ct := FindNamed(TransitionsAt(cm, source), name);
    if source == "" || ct.None? then Ok([])
    else
      var rejected := RunGuards(ct.value.guards, inst, call);
      if rejected.Some? then Err(GuardRejected(rejected.value))
      else
        var target := TargetOf(tr, inst, call);
        if target.Err? then Err(target.error) else Ok([Candidate(region, leaf, ct.value, target.value)])
  }

  /** The transitions that fire in the first `n` of the given regions. */
  function Candidates(cm: CompiledMachine, inst: Instance, name: string, regions: seq<string>, n: nat, call: Call)
    : (result: Result<seq<Candidate>, Failure>)
    requires name in cm.def.transitions && n <= |regions| && forall r :: r in regions ==> r in inst.active
    ensures result.Err? ==> Early(result.error)
  {
    if n == 0 then Ok([])
    else
      var before := Candidates(cm, inst, name, regions, n - 1, call);
      if before.Err? then before
      else
        var c := CandidateIn(cm, inst, name, regions[n - 1], call);
        if c.Err? then c else Ok(before.value + c.value)
  }

  ghost function AllCandidates(cm: CompiledMachine, inst: Instance, name: string,
                               call: Call): Result<seq<Candidate>, Failure>
    requires name in cm.def.transitions
  {
    Candidates(cm, inst, name, ActiveRegions(inst), |ActiveRegions(inst)|, call)
  }

  function ExitsOf(cm: CompiledMachine, c: Candidate): seq<Act> {
    ExitActs(cm.def, ExitSeq(cm, c.leaf, Lca(cm, c.leaf, c.target)))
  }

  function EntriesOf(cm: CompiledMachine, c: Candidate): seq<Act> {
    EntryActs(cm.def, EntrySeq(cm, Lca(cm, c.leaf, c.target), c.target))
  }

  function Concat(f: Candidate -> seq<Act>, cs: seq<Candidate>): seq<Act> {
    if cs == [] then [] else f(cs[0]) + Concat(f, cs[1..])
  }

  function ExitsFor(cm: CompiledMachine): Candidate -> seq<Act> {
    c => ExitsOf(cm, c)
  }

  function EntriesInto(cm: CompiledMachine): Candidate -> seq<Act> {
    c => EntriesOf(cm, c)
  }

  /** All exits of all regions first, then all entries. */
  function CandidateActs(cm: CompiledMachine, cs: seq<Candidate>): seq<Act> {
    Concat(ExitsFor(cm), cs) + Concat(EntriesInto(cm), cs)
  }

  function MovedRegions(active: map<string, string>, cs: seq<Candidate>, n: nat): map<string, string>
    requires n <= |cs|
  {
    if n == 0 then active else MovedRegions(active, cs, n - 1)[cs[n - 1].region := cs[n - 1].target]
  }

  function ChangedRegions(cs: seq<Candidate>, n: nat): map<string, (string, string)>
    requires n <= |cs|
  {
    if n == 0 then map[] else ChangedRegions(cs, n - 1)[cs[n - 1].region := (cs[n - 1].leaf, cs[n - 1].target)]
  }

  function MovedTo(active: map<string, string>, cs: seq<Candidate>): map<string, string> {
    MovedRegions(active, cs, |cs|)
  }

  function Changes(cs: seq<Candidate>): map<string, (string, string)> {
    ChangedRegions(cs, |cs|)
  }

  const MAX_INT64: int := 0x7fff_ffff_ffff_ffff

  /** ParallelClock is an int64 and wraps around. */
  function Tick(clock: int): int {
    if clock == MAX_INT64 then -MAX_INT64 - 1 else clock + 1
  }

  function CommitParallelIntra(cm: CompiledMachine, inst: Instance, name: string, cs: seq<Candidate>,
                               call: Call): Effect
    requires cs != []
  {
    var acts := CandidateActs(cm, cs);
    var k := FirstFail(call.fails, |acts|);
    if k < |acts| then Effect(None, None, {}, acts[..k + 1], Failed(Failing(acts[k])))
    else
      Transact(call, Effect(
        Some(Touch(inst, call.now).(active := MovedTo(inst.active, cs), parallelClock := Tick(inst.parallelClock))),
        Some(Event(call.eventId, Origin(cm, inst.header), "ParallelTransition", name, Changes(cs), call.now)),
        {}, acts, Done(Some(cs[0].tr))))
  }

  ghost function ParallelTransition(cm: CompiledMachine, inst: Instance, name: string, call: Call): Effect {
    if name !in cm.def.transitions then Reject(UnknownTransition)
    else if IsTerminal(cm.def, inst.currentState) then Reject(AlreadyTerminal)
    else if inst.currentState in cm.def.transitions[name].sources then
      var v := ValidateTransition(cm, inst, name, call);
      if v.Err? then Reject(v.error) else CommitParallelExit(cm, inst, v.value.0, v.value.1, call)
    else
      var cs := AllCandidates(cm, inst, name, call);
      if cs.Err? then Reject(cs.error)
      else if cs.value == [] then Reject(NoActiveLeafMatches)
      else CommitParallelIntra(cm, inst, name, cs.value, call)
  }

  ghost function Transition(cm: CompiledMachine, inst: Instance, name: string, call: Call): Effect {
    if |inst.active| > 0 then ParallelTransition(cm, inst, name, call) else PlainTransition(cm, inst, name, call)
  }

  // ---- Creation and forced states ---------------------------------------------------------------

  function NewInstance(cm: CompiledMachine, header: Header): Instance {
    Instance(header, LeafOf(cm, cm.def.initialState), map[], map[], map[], 0, false, "", header.createdAt, 0)
  }

  function ForceState(cm: CompiledMachine, inst: Instance, target: string, call: Call): Effect {
    if target !in cm.def.states then Reject(UnknownTarget)
    else
      var state := LeafOf(cm, target);
      var cleared := WithHistory(inst, History(map[], map[])).(isStuck := false, stuckReason := "");
      Transact(call, Effect(
        Some(Arrive(cm, cleared, state, call.now)),
        Some(Event(call.eventId, Origin(cm, inst.header), "StateForced", "_force_state",
                   map["" := (inst.currentState, state)],
                   call.now)),
        {}, [], Done(None)))
  }

  // ---- Runs -------------------------------------------------------------------------------------

  datatype Op = Fire(name: string, call: Call) | Force(target: string, call: Call)

  ghost function Perform(cm: CompiledMachine, inst: Instance, op: Op): Effect {
    match op
    case Fire(name, call) => Transition(cm, inst, name, call)
    case Force(target, call) => ForceState(cm, inst, target, call)
  }

  /** The stored instance after performing `ops` one after the other. */
  ghost function Run(cm: CompiledMachine, inst: Instance, ops: seq<Op>): Instance {
    if ops == [] then inst
    else
      var before := Run(cm, inst, ops[..|ops| - 1]);
      After(before, Perform(cm, before, ops[|ops| - 1]))
  }

  lemma RunGrows(cm: CompiledMachine, inst: Instance, ops: seq<Op>, op: Op)
    ensures Run(cm, inst, ops + [op]) == After(Run(cm, inst, ops), Perform(cm, Run(cm, inst, ops), op))
  {
    assert (ops + [op])[..|ops|] == ops;
  }
}
