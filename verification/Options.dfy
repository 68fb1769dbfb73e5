/** The options of the builder (internal/builder/builder.go:10-281): what a list of them says about a state or a
    transition, field by field, and that applying them one after the other gives exactly that. */
module Options {
  import opened Definitions

  // ---- What a list of options says ---------------------------------------------------------------------------

  predicate SaysLast<O, T>(options: seq<O>, says: O -> Option<T>, i: nat) {
    i < |options| && says(options[i]).Some? && forall j :: i < j < |options| ==> says(options[j]).None?
  }

  /** `value` is what the last option says that says anything, and `none` without one. */
  ghost predicate LastSays<O, T>(options: seq<O>, says: O -> Option<T>, none: T, value: T) {
    if forall i :: 0 <= i < |options| ==> says(options[i]).None? then value == none
    else exists i: nat :: SaysLast(options, says, i) && says(options[i]) == Some(value)
  }

  lemma LastSaysOnce<O, T>(options: seq<O>, says: O -> Option<T>, none: T, a: T, b: T)
    requires LastSays(options, says, none, a) && LastSays(options, says, none, b)
    ensures a == b
  {
    if i: nat :| i < |options| && says(options[i]).Some? {
      var j: nat :| SaysLast(options, says, j) && says(options[j]) == Some(a);
      var k: nat :| SaysLast(options, says, k) && says(options[k]) == Some(b);
    }
  }

  /** One more option overrides what was said, or says nothing. */
  lemma LastSaysGrows<O, T>(options: seq<O>, o: O, says: O -> Option<T>, none: T, value: T)
    requires LastSays(options, says, none, value)
    ensures LastSays(options + [o], says, none, Override(says(o), value))
  {
    var more := options + [o];
    assert more[|options|] == o;
    if says(o).Some? {
      assert SaysLast(more, says, |options|);
    } else if i: nat :| SaysLast(options, says, i) && says(options[i]) == Some(value) {
      assert SaysLast(more, says, i);
    }
  }

  /** One option before the others changes what holds without them. */
  lemma LastSaysAfter<O, T>(o: O, rest: seq<O>, says: O -> Option<T>, none: T, value: T)
    requires LastSays(rest, says, if says(o).Some? then says(o).value else none, value)
    ensures LastSays([o] + rest, says, none, value)
  {
    var all := [o] + rest;
    if i: nat :| SaysLast(rest, says, i) && says(rest[i]) == Some(value) {
      assert SaysLast(all, says, i + 1);
    } else {
      assert forall i :: 0 <= i < |rest| ==> says(rest[i]).None?;
      assert says(o).Some? ==> SaysLast(all, says, 0);
    }
  }

  /** What the options give, in their order. */
  function Joined<O, T>(options: seq<O>, gives: O -> seq<T>): seq<T> {
    if options == [] then [] else gives(options[0]) + Joined(options[1..], gives)
  }

  lemma {:induction false} JoinedGrows<O, T>(options: seq<O>, o: O, gives: O -> seq<T>)
    ensures Joined(options + [o], gives) == Joined(options, gives) + gives(o)
  {
    if options == [] {
      assert ([o])[1..] == [] && Joined([o], gives) == gives(o) + [];
    } else {
      JoinedGrows(options[1..], o, gives);
      assert (options + [o])[1..] == options[1..] + [o];
    }
  }

  // ---- State options -------------------------------------------------------------------------------------

  datatype StateModifier =
    | Parent(parent: string)
    | InitialChild(child: string)
    | EntryActivity(entry: string)
    | ExitActivity(exit: string)

  function Modify(d: StateDef, mods: seq<StateModifier>): StateDef
    decreases |mods|
  {
    if mods == [] then d else Modify(ModifyOne(d, mods[0]), mods[1..])
  }

  function ModifyOne(d: StateDef, m: StateModifier): StateDef {
    match m
    case Parent(p) => d.(parent := p)
    case InitialChild(c) => d.(initialChild := c)
    case EntryActivity(a) => d.(entryActivity := a)
    case ExitActivity(a) => d.(exitActivity := a)
  }

  /** `nested` holds the regions of a parallel state and their leaves. */
  datatype StateOption = StateOption(def: StateDef, nested: seq<StateOption>)

  function Blank(name: string): StateDef {
    StateDef(name, false, false, false, "", [], "", false, false, "", "")
  }

  function Initial(name: string): StateOption { StateOption(Blank(name).(isInitial := true), []) }

  function Terminal(name: string, mods: seq<StateModifier>): StateOption {
    StateOption(Modify(Blank(name).(isTerminal := true), mods), [])
  }

  function State(name: string, mods: seq<StateModifier>): StateOption { StateOption(Modify(Blank(name), mods), []) }

  function WaitState(name: string, mods: seq<StateModifier>): StateOption {
    StateOption(Modify(Blank(name).(isWait := true), mods), [])
  }

  function CompoundState(name: string, mods: seq<StateModifier>): StateOption {
    StateOption(Modify(Blank(name).(isCompound := true), mods), [])
  }

  /** What every option made by the constructors satisfies: children are left to Build, and a
      parallel state is compound and has no initial child. */
  predicate Made(o: StateOption) {
    Untied(o.def) && AllMade(o.nested)
  }

  predicate AllMade(os: seq<StateOption>) {
    forall i :: 0 <= i < |os| ==> Made(os[i])
  }

  predicate Untied(d: StateDef) {
    d.children == [] && (d.isParallel ==> d.isCompound && d.initialChild == "")
  }

  lemma {:induction false} ModifyUntied(d: StateDef, mods: seq<StateModifier>)
    requires d.children == [] && !d.isParallel
    ensures Untied(Modify(d, mods)) && Modify(d, mods).name == d.name && !Modify(d, mods).isParallel
    decreases |mods|
  {
    if mods != [] { ModifyUntied(ModifyOne(d, mods[0]), mods[1..]); }
  }

  lemma OptionsAreMade(name: string, mods: seq<StateModifier>)
    ensures Made(Initial(name)) && Made(Terminal(name, mods)) && Made(State(name, mods))
    ensures Made(WaitState(name, mods)) && Made(CompoundState(name, mods))
  {
    ModifyUntied(Blank(name).(isTerminal := true), mods);
    ModifyUntied(Blank(name), mods);
    ModifyUntied(Blank(name).(isWait := true), mods);
    ModifyUntied(Blank(name).(isCompound := true), mods);
  }

  // ---- What they say about a state -----------------------------------------------------------------------------

  function ParentIn(m: StateModifier): Option<string> { if m.Parent? then Some(m.parent) else None }

  function InitialChildIn(m: StateModifier): Option<string> { if m.InitialChild? then Some(m.child) else None }

  function EntryIn(m: StateModifier): Option<string> { if m.EntryActivity? then Some(m.entry) else None }

  function ExitIn(m: StateModifier): Option<string> { if m.ExitActivity? then Some(m.exit) else None }

  /** `m` is `d` with parent, initial child and activities as the modifiers say. */
  ghost predicate Modified(d: StateDef, mods: seq<StateModifier>, m: StateDef) {
    && LastSays(mods, ParentIn, d.parent, m.parent) && LastSays(mods, InitialChildIn, d.initialChild, m.initialChild)
    && LastSays(mods, EntryIn, d.entryActivity, m.entryActivity)
    && LastSays(mods, ExitIn, d.exitActivity, m.exitActivity)
    && m.name == d.name && m.isInitial == d.isInitial && m.isTerminal == d.isTerminal && m.isWait == d.isWait
    && m.children == d.children && m.isCompound == d.isCompound && m.isParallel == d.isParallel
  }

  lemma {:induction false} ModifyMeans(d: StateDef, mods: seq<StateModifier>)
    ensures Modified(d, mods, Modify(d, mods))
    decreases |mods|
  {
    if mods != [] {
      ModifyMeans(ModifyOne(d, mods[0]), mods[1..]);
      ModifiedAfter(d, mods[0], mods[1..], Modify(d, mods));
      assert mods == [mods[0]] + mods[1..];
    }
  }

  lemma ModifiedAfter(d: StateDef, m: StateModifier, rest: seq<StateModifier>, r: StateDef)
    requires Modified(ModifyOne(d, m), rest, r)
    ensures Modified(d, [m] + rest, r)
  {
    LastSaysAfter(m, rest, ParentIn, d.parent, r.parent);
    LastSaysAfter(m, rest, InitialChildIn, d.initialChild, r.initialChild);
    LastSaysAfter(m, rest, EntryIn, d.entryActivity, r.entryActivity);
    LastSaysAfter(m, rest, ExitIn, d.exitActivity, r.exitActivity);
  }

  /** Each constructor makes its kind of state, at the root and without children but for what the modifiers say. */
  lemma ConstructorsMean(name: string, mods: seq<StateModifier>)
    ensures Initial(name) == StateOption(StateDef(name, true, false, false, "", [], "", false, false, "", ""), [])
    ensures Modified(StateDef(name, false, true, false, "", [], "", false, false, "", ""), mods,
                     Terminal(name, mods).def)
    ensures Modified(StateDef(name, false, false, false, "", [], "", false, false, "", ""), mods, State(name, mods).def)
    ensures Modified(StateDef(name, false, false, true, "", [], "", false, false, "", ""), mods,
                     WaitState(name, mods).def)
    ensures Modified(StateDef(name, false, false, false, "", [], "", true, false, "", ""), mods,
                     CompoundState(name, mods).def)
    ensures Terminal(name, mods).nested == State(name, mods).nested == WaitState(name, mods).nested
            == CompoundState(name, mods).nested == []
  {
    ModifyMeans(Blank(name).(isTerminal := true), mods);
    ModifyMeans(Blank(name), mods);
    ModifyMeans(Blank(name).(isWait := true), mods);
    ModifyMeans(Blank(name).(isCompound := true), mods);
  }

  // ---- Transitions ------------------------------------------------------------------------------------------------

  datatype RouteOption = When(condition: string) | Default | RouteTo(target: string)

  datatype TransitionOption =
    | From(states: seq<string>) | To(state: string) | EventType(event: string) | Guards(guards: seq<string>)
    | OnSignal(signal: string) | OnTaskCompleted(task: string) | OnChildCompleted(child: string)
    | OnChildrenJoined | OnTimeout
    | EmitTask(taskType: string) | SpawnChild(workflow: string) | SpawnChildren(childrenDef: ChildrenDef)
    | WithHistory(mode: HistoryMode) | RouteBy(options: seq<RouteOption>)

  function ApplyRoute(r: Route, o: RouteOption): Route {
    match o
    case When(c) => r.(condition := Some(c))
    case Default => r.(isDefault := true)
    case RouteTo(t) => r.(target := t)
  }

  function RouteOf(options: seq<RouteOption>): Route {
    if options == [] then Route(None, "", false)
      else ApplyRoute(RouteOf(options[..|options| - 1]), options[|options| - 1])
  }

  function Apply(tr: TransitionDef, o: TransitionOption): TransitionDef {
    match o
    case From(states) => tr.(sources := tr.sources + states)
    case To(s) => tr.(target := s)
    case EventType(e) => tr.(event := e)
    case Guards(gs) => tr.(guards := tr.guards + gs)
    case OnSignal(k) => tr.(triggerType := Signal, triggerKey := k)
    case OnTaskCompleted(k) => tr.(triggerType := TaskCompleted, triggerKey := k)
    case OnChildCompleted(k) => tr.(triggerType := TriggerType.ChildCompleted, triggerKey := k)
    case OnChildrenJoined => tr.(triggerType := ChildrenJoined)
    case OnTimeout => tr.(triggerType := Timeout)
    case EmitTask(t) => tr.(taskType := Some(t))
    case SpawnChild(w) => tr.(childWorkflow := Some(w))
    case SpawnChildren(d) => tr.(childrenDef := Some(d))
    case WithHistory(m) => tr.(historyMode := m)
    case RouteBy(options) => tr.(routes := tr.routes + [RouteOf(options)])
  }

  function TransitionOf(name: string, options: seq<TransitionOption>): TransitionDef {
    if options == [] then TransitionDef(name, [], "", [], "", [], None, None, None, Direct, "", NoHistory)
    else Apply(TransitionOf(name, options[..|options| - 1]), options[|options| - 1])
  }

  // ---- What they say about a transition ------------------------------------------------------------------------

  function SourcesIn(o: TransitionOption): seq<string> { if o.From? then o.states else [] }

  function GuardsIn(o: TransitionOption): seq<string> { if o.Guards? then o.guards else [] }

  function RouteIn(o: TransitionOption): seq<seq<RouteOption>> { if o.RouteBy? then [o.options] else [] }

  function TargetIn(o: TransitionOption): Option<string> { if o.To? then Some(o.state) else None }

  function EventIn(o: TransitionOption): Option<string> { if o.EventType? then Some(o.event) else None }

  function TriggerIn(o: TransitionOption): Option<TriggerType> {
    match o
    case OnSignal(_) => Some(Signal)
    case OnTaskCompleted(_) => Some(TaskCompleted)
    case OnChildCompleted(_) => Some(TriggerType.ChildCompleted)
    case OnChildrenJoined => Some(ChildrenJoined)
    case OnTimeout => Some(Timeout)
    case _ => None
  }

  /** Joins and timeouts leave the key of an earlier option. */
  function KeyIn(o: TransitionOption): Option<string> {
    match o
    case OnSignal(k) => Some(k)
    case OnTaskCompleted(k) => Some(k)
    case OnChildCompleted(k) => Some(k)
    case _ => None
  }

  function TaskIn(o: TransitionOption): Option<Option<string>> { if o.EmitTask? then Some(Some(o.taskType)) else None }

  function ChildIn(o: TransitionOption): Option<Option<string>> {
    if o.SpawnChild? then Some(Some(o.workflow)) else None
  }

  function ChildrenIn(o: TransitionOption): Option<Option<ChildrenDef>> {
    if o.SpawnChildren? then Some(Some(o.childrenDef)) else None
  }

  function HistoryIn(o: TransitionOption): Option<HistoryMode> { if o.WithHistory? then Some(o.mode) else None }

  function ConditionIn(o: RouteOption): Option<Option<string>> { if o.When? then Some(Some(o.condition)) else None }

  function RouteTargetIn(o: RouteOption): Option<string> { if o.RouteTo? then Some(o.target) else None }

  function DefaultIn(o: RouteOption): Option<bool> { if o.Default? then Some(true) else None }

  ghost predicate DescribesRoute(options: seq<RouteOption>, r: Route) {
    && LastSays(options, ConditionIn, None, r.condition) && LastSays(options, RouteTargetIn, "", r.target)
    && LastSays(options, DefaultIn, false, r.isDefault)
  }

  /** One route for each Route option, in their order. */
  ghost predicate DescribesRoutes(given: seq<seq<RouteOption>>, routes: seq<Route>) {
    |routes| == |given| && forall i :: 0 <= i < |given| ==> DescribesRoute(given[i], routes[i])
  }

  /** Every field of the transition is what the options say. */
  ghost predicate Describes(name: string, options: seq<TransitionOption>, tr: TransitionDef) {
    && tr.name == name
    && tr.sources == Joined(options, SourcesIn) && tr.guards == Joined(options, GuardsIn)
    && DescribesRoutes(Joined(options, RouteIn), tr.routes)
    && DescribesTrigger(options, tr) && DescribesCreated(options, tr)
  }

  /** Where the transition goes, what it is called outside, and what sets it off. */
  ghost predicate DescribesTrigger(options: seq<TransitionOption>, tr: TransitionDef) {
    && LastSays(options, TargetIn, "", tr.target) && LastSays(options, EventIn, "", tr.event)
    && LastSays(options, TriggerIn, Direct, tr.triggerType) && LastSays(options, KeyIn, "", tr.triggerKey)
    && LastSays(options, HistoryIn, NoHistory, tr.historyMode)
  }

  /** The task and the children it creates. */
  ghost predicate DescribesCreated(options: seq<TransitionOption>, tr: TransitionDef) {
    && LastSays(options, TaskIn, None, tr.taskType) && LastSays(options, ChildIn, None, tr.childWorkflow)
    && LastSays(options, ChildrenIn, None, tr.childrenDef)
  }

  lemma {:induction false} RouteMeans(options: seq<RouteOption>)
    ensures DescribesRoute(options, RouteOf(options))
  {
    if options != [] {
      var first, o := options[..|options| - 1], options[|options| - 1];
      var r := RouteOf(first);
      RouteMeans(first);
      LastSaysGrows(first, o, ConditionIn, None, r.condition);
      LastSaysGrows(first, o, RouteTargetIn, "", r.target);
      LastSaysGrows(first, o, DefaultIn, false, r.isDefault);
      assert options == first + [o];
    }
  }

  lemma RoutesGrow(given: seq<seq<RouteOption>>, routes: seq<Route>, options: seq<RouteOption>)
    requires DescribesRoutes(given, routes)
    ensures DescribesRoutes(given + [options], routes + [RouteOf(options)])
  {
    RouteMeans(options);
  }

  lemma ListsGrow(first: seq<TransitionOption>, o: TransitionOption, tr: TransitionDef)
    requires tr.sources == Joined(first, SourcesIn) && tr.guards == Joined(first, GuardsIn)
    requires DescribesRoutes(Joined(first, RouteIn), tr.routes)
    ensures Apply(tr, o).sources == Joined(first + [o], SourcesIn)
            && Apply(tr, o).guards == Joined(first + [o], GuardsIn)
    ensures DescribesRoutes(Joined(first + [o], RouteIn), Apply(tr, o).routes)
  {
    JoinedGrows(first, o, SourcesIn);
    JoinedGrows(first, o, GuardsIn);
    JoinedGrows(first, o, RouteIn);
    if o.RouteBy? { RoutesGrow(Joined(first, RouteIn), tr.routes, o.options); }
  }

  function Override<T>(said: Option<T>, value: T): T {
    if said.Some? then said.value else value
  }

  /** Applying `o` overrides the fields it says something about. */
  predicate Overrides(tr: TransitionDef, o: TransitionOption, r: TransitionDef) {
    && r.target == Override(TargetIn(o), tr.target) && r.event == Override(EventIn(o), tr.event)
    && r.triggerType == Override(TriggerIn(o), tr.triggerType) && r.triggerKey == Override(KeyIn(o), tr.triggerKey)
    && r.historyMode == Override(HistoryIn(o), tr.historyMode) && r.taskType == Override(TaskIn(o), tr.taskType)
    && r.childWorkflow == Override(ChildIn(o), tr.childWorkflow)
    && r.childrenDef == Override(ChildrenIn(o), tr.childrenDef)
  }

  lemma ApplyOverrides(tr: TransitionDef, o: TransitionOption)
    ensures Overrides(tr, o, Apply(tr, o)) && Apply(tr, o).name == tr.name
  {}

  lemma TriggerGrows(first: seq<TransitionOption>, o: TransitionOption, tr: TransitionDef, r: TransitionDef)
    requires DescribesTrigger(first, tr) && Overrides(tr, o, r)
    ensures DescribesTrigger(first + [o], r)
  {
    LastSaysGrows(first, o, TargetIn, "", tr.target);
    LastSaysGrows(first, o, EventIn, "", tr.event);
    LastSaysGrows(first, o, TriggerIn, Direct, tr.triggerType);
    LastSaysGrows(first, o, KeyIn, "", tr.triggerKey);
    LastSaysGrows(first, o, HistoryIn, NoHistory, tr.historyMode);
  }

  lemma CreatedGrows(first: seq<TransitionOption>, o: TransitionOption, tr: TransitionDef, r: TransitionDef)
    requires DescribesCreated(first, tr) && Overrides(tr, o, r)
    ensures DescribesCreated(first + [o], r)
  {
    LastSaysGrows(first, o, TaskIn, None, tr.taskType);
    LastSaysGrows(first, o, ChildIn, None, tr.childWorkflow);
    LastSaysGrows(first, o, ChildrenIn, None, tr.childrenDef);
  }

  lemma MeaningGrows(name: string, first: seq<TransitionOption>, o: TransitionOption, all: seq<TransitionOption>,
                     tr: TransitionDef)
    requires Describes(name, first, tr) && all == first + [o]
    ensures Describes(name, all, Apply(tr, o))
  {
    ListsGrow(first, o, tr);
    ApplyOverrides(tr, o);
    TriggerGrows(first, o, tr, Apply(tr, o));
    CreatedGrows(first, o, tr, Apply(tr, o));
  }

  lemma NothingSaid(name: string)
    ensures Describes(name, [], TransitionOf(name, []))
  {}

  /** Applying the options one after the other makes what they say. */
  lemma {:induction false} TransitionMeans(name: string, options: seq<TransitionOption>)
    ensures Describes(name, options, TransitionOf(name, options))
  {
    if options != [] {
      var first, o := options[..|options| - 1], options[|options| - 1];
      assert options == first + [o];
      TransitionMeans(name, first);
      MeaningGrows(name, first, o, options, TransitionOf(name, first));
    } else {
      NothingSaid(name);
    }
  }

  lemma RouteOnce(options: seq<RouteOption>, a: Route, b: Route)
    requires DescribesRoute(options, a) && DescribesRoute(options, b)
    ensures a == b
  {
    LastSaysOnce(options, ConditionIn, None, a.condition, b.condition);
    LastSaysOnce(options, RouteTargetIn, "", a.target, b.target);
    LastSaysOnce(options, DefaultIn, false, a.isDefault, b.isDefault);
  }

  /** The options say everything about a transition. */
  lemma DescribedOnce(name: string, options: seq<TransitionOption>, a: TransitionDef, b: TransitionDef)
    requires Describes(name, options, a) && Describes(name, options, b)
    ensures a == b
  {
    var given := Joined(options, RouteIn);
    forall i | 0 <= i < |given| ensures a.routes[i] == b.routes[i] { RouteOnce(given[i], a.routes[i], b.routes[i]); }
    LastSaysOnce(options, TargetIn, "", a.target, b.target);
    LastSaysOnce(options, EventIn, "", a.event, b.event);
    LastSaysOnce(options, TriggerIn, Direct, a.triggerType, b.triggerType);
    LastSaysOnce(options, KeyIn, "", a.triggerKey, b.triggerKey);
    LastSaysOnce(options, TaskIn, None, a.taskType, b.taskType);
    LastSaysOnce(options, ChildIn, None, a.childWorkflow, b.childWorkflow);
    LastSaysOnce(options, ChildrenIn, None, a.childrenDef, b.childrenDef);
    LastSaysOnce(options, HistoryIn, NoHistory, a.historyMode, b.historyMode);
  }

  ghost predicate LastTo(options: seq<TransitionOption>, i: nat) {
    i < |options| && options[i].To? && forall j :: i < j < |options| ==> !options[j].To?
  }

  /** The target is what the last To names, and empty without one. */
  lemma {:induction false} TargetIsLastTo(name: string, options: seq<TransitionOption>)
    ensures forall i: nat :: LastTo(options, i) ==> TransitionOf(name, options).target == options[i].state
    ensures (forall i :: 0 <= i < |options| ==> !options[i].To?) ==> TransitionOf(name, options).target == ""
  {
    if options != [] {
      var n := |options| - 1;
      TargetIsLastTo(name, options[..n]);
      forall i: nat | LastTo(options, i) ensures TransitionOf(name, options).target == options[i].state {
        if i < n { assert LastTo(options[..n], i); }
      }
    }
  }

  /** Every Route option gives one route, and nothing else does. */
  lemma {:induction false} RoutesAreGiven(name: string, options: seq<TransitionOption>)
    ensures forall i :: 0 <= i < |options| && options[i].RouteBy? ==>
      RouteOf(options[i].options) in TransitionOf(name, options).routes
    ensures forall r :: r in TransitionOf(name, options).routes ==> GivesRoute(options, r)
  {
    if options != [] {
      var n := |options| - 1;
      RoutesAreGiven(name, options[..n]);
      forall r | r in TransitionOf(name, options).routes ensures GivesRoute(options, r) {
        if GivesRoute(options[..n], r) {
          var i :| 0 <= i < n && options[..n][i].RouteBy? && RouteOf(options[..n][i].options) == r;
          assert options[i].RouteBy?;
        }
      }
    }
  }

  lemma {:induction false} NoRoutes(name: string, options: seq<TransitionOption>)
    requires forall i :: 0 <= i < |options| ==> !options[i].RouteBy?
    ensures TransitionOf(name, options).routes == []
  {
    if options != [] { NoRoutes(name, options[..|options| - 1]); }
  }

  ghost predicate GivesRoute(options: seq<TransitionOption>, r: Route) {
    exists i :: 0 <= i < |options| && options[i].RouteBy? && RouteOf(options[i].options) == r
  }

  /** Exactly when a transition always has a place to go: every Route option names a target or, without any,
      the last To does. */
  lemma TransitionTargeted(name: string, options: seq<TransitionOption>, tr: TransitionDef)
    requires Describes(name, options, tr)
    ensures "" !in TargetsOf(tr)
            <==> if exists i :: 0 <= i < |options| && options[i].RouteBy?
                 then forall i :: 0 <= i < |options| && options[i].RouteBy? ==> RouteOf(options[i].options).target != ""
                 else exists i: nat :: LastTo(options, i) && options[i].state != ""
  {
    TransitionMeans(name, options);
    DescribedOnce(name, options, tr, TransitionOf(name, options));
    RoutesAreGiven(name, options);
    TargetIsLastTo(name, options);
    if i :| 0 <= i < |options| && options[i].RouteBy? {
      assert RouteOf(options[i].options) in tr.routes;
      forall i | 0 <= i < |options| && options[i].RouteBy? ensures RouteOf(options[i].options).target in TargetsOf(tr) {
        assert RouteOf(options[i].options) in tr.routes;
      }
    } else {
      NoRoutes(name, options);
      assert TargetsOf(tr) == {tr.target};
      if i :| 0 <= i < |options| && options[i].To? {
        var k := LastToExists(options, i);
        assert tr.target == options[k].state;
      }
    }
  }

  lemma LastToExists(options: seq<TransitionOption>, i: nat) returns (k: nat)
    requires i < |options| && options[i].To?
    ensures LastTo(options, k)
    decreases |options| - i
  {
    if j :| i < j < |options| && options[j].To? { k := LastToExists(options, j); } else { k := i; }
  }
}
