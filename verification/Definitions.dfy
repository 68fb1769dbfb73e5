/** The entities of the engine: what a workflow definition says (types/definition.go,
    types/child.go, types/task.go) and the compiled form of it (internal/graph/compiled.go).
    Guards and conditions are named here and answered by oracles in `Step`. */
module Definitions {

  datatype Option<+T> = None | Some(value: T)

  datatype Result<+T, +E> = Ok(value: T) | Err(error: E)

  datatype StateDef = StateDef(
    name: string,
    isInitial: bool,
    isTerminal: bool,
    isWait: bool,
    parent: string,
    children: seq<string>,
    initialChild: string,
    isCompound: bool,
    isParallel: bool,
    entryActivity: string,
    exitActivity: string)

  datatype Route = Route(condition: Option<string>, target: string, isDefault: bool)

  /** HistoryMode is a string in the source; every value but the two named ones is the default. */
  datatype HistoryMode = NoHistory | Shallow | Deep

  datatype TriggerType = Direct | Signal | TaskCompleted | ChildCompleted | ChildrenJoined | Timeout

  datatype ChildrenDef = ChildrenDef(workflowType: string, mode: string, count: int)

  datatype TransitionDef = TransitionDef(
    name: string,
    sources: seq<string>,
    target: string,
    routes: seq<Route>,
    event: string,
    guards: seq<string>,
    taskType: Option<string>,
    childWorkflow: Option<string>,
    childrenDef: Option<ChildrenDef>,
    triggerType: TriggerType,
    triggerKey: string,
    historyMode: HistoryMode)

  datatype Definition = Definition(
    aggregateType: string,
    workflowType: string,
    version: int,
    states: map<string, StateDef>,
    transitions: map<string, TransitionDef>,
    initialState: string)

  datatype CompiledMachine = CompiledMachine(
    def: Definition,
    ancestry: map<string, seq<string>>,
    depth: map<string, nat>,
    initialLeaf: map<string, string>,
    regions: map<string, seq<string>>,
    byState: map<string, seq<TransitionDef>>)

  /** The parent of `s`; "" for a root and for a name that is no state. */
  function ParentOf(def: Definition, s: string): string {
    if s in def.states then def.states[s].parent else ""
  }

  predicate IsCompound(def: Definition, s: string) {
    s in def.states && def.states[s].isCompound
  }

  predicate IsParallel(def: Definition, s: string) {
    s in def.states && def.states[s].isParallel
  }

  predicate IsTerminal(def: Definition, s: string) {
    s in def.states && def.states[s].isTerminal
  }

  /** A state without children: the only resting place besides a parallel state. */
  predicate IsLeaf(def: Definition, s: string) {
    s in def.states && !def.states[s].isCompound
  }

  predicate IsPlainCompound(def: Definition, s: string) {
    IsCompound(def, s) && !IsParallel(def, s)
  }

  predicate SomeTransitionFrom(def: Definition, s: string) {
    exists n :: n in def.transitions && s in def.transitions[n].sources
  }

  predicate NoDuplicates(s: seq<string>) {
    forall i, j :: 0 <= i < j < |s| ==> s[i] != s[j]
  }

  function Elements(s: seq<string>): set<string> {
    set x | x in s
  }

  lemma {:induction false} SizeOfDistinct(m: seq<string>)
    requires NoDuplicates(m)
    ensures |Elements(m)| == |m|
  {
    if m != [] {
      SizeOfDistinct(m[1..]);
      assert m == [m[0]] + m[1..];
      assert Elements(m) == {m[0]} + Elements(m[1..]);
    }
  }

  /** Every target a transition can resolve to: its routes when it has any, else its own target. */
  function TargetsOf(tr: TransitionDef): set<string> {
    if |tr.routes| > 0 then set r | r in tr.routes :: r.target else {tr.target}
  }

  // ---- The layers of well-formedness -------------------------------------------------------

  /** What the builder wires: the key is the name, `children` is the exact inverse of `parent`,
      whoever has children is compound, a parallel state is compound and has no initial child. */
  ghost predicate Wired(def: Definition) {
    && (forall s :: s in def.states ==> WiredState(def, s))
    && (forall n :: n in def.transitions ==> def.transitions[n].name == n)
  }

  ghost predicate WiredState(def: Definition, s: string)
    requires s in def.states
  {
    var st := def.states[s];
    && st.name == s
    && NoDuplicates(st.children)
    && (forall c :: c in st.children <==> c in def.states && s != "" && def.states[c].parent == s)
    && (st.children != [] ==> st.isCompound)
    && (st.isParallel ==> st.isCompound && st.initialChild == "")
  }

  /** What no code checks: every transition leads somewhere. */
  ghost predicate Targeted(def: Definition) {
    forall n :: n in def.transitions ==> "" !in TargetsOf(def.transitions[n])
  }
}
