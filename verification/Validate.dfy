/** The structural checks of a definition (internal/graph/validate.go). The plain scans are
    predicates; the dead-end walk and the breadth-first search keep the form of the source. */
module Validate {
  import opened Definitions
  import opened Hierarchy
  import opened Compile

  // ---- Plain scans ---------------------------------------------------------------------------------

  function InitialStates(def: Definition): set<string> {
    set s | s in def.states && def.states[s].isInitial
  }

  predicate OneInitialState(def: Definition) {
    |InitialStates(def)| == 1
  }

  predicate HasTerminalState(def: Definition) {
    exists s :: s in def.states && def.states[s].isTerminal
  }

  predicate StatesKnown(def: Definition) {
    forall n :: n in def.transitions ==> StatesKnownIn(def, def.transitions[n])
  }

  /** The source lets an empty target pass. */
  predicate StatesKnownIn(def: Definition, tr: TransitionDef) {
    && (forall s :: s in tr.sources ==> s in def.states)
    && (tr.target != "" ==> tr.target in def.states)
    && (forall r :: r in tr.routes && r.target != "" ==> r.target in def.states)
  }

  predicate ParallelStatesOk(def: Definition) {
    forall s :: s in def.states && def.states[s].isParallel ==> ParallelStateOk(def, def.states[s])
  }

  predicate ParallelStateOk(def: Definition, st: StateDef) {
    && (st.parent != "" && st.parent in def.states ==> !def.states[st.parent].isParallel)
    && st.children != []
    && (forall c :: c in st.children && c in def.states ==> !def.states[c].isParallel && def.states[c].isCompound)
  }

  predicate CompoundNotTerminal(def: Definition) {
    forall s :: s in def.states && def.states[s].isCompound ==> !def.states[s].isTerminal
  }

  predicate InitialNotCompound(def: Definition) {
    forall s :: s in def.states && def.states[s].isInitial ==> !def.states[s].isCompound
  }

  predicate WaitLeafOnly(def: Definition) {
    forall s :: s in def.states && def.states[s].isWait ==> !def.states[s].isCompound
  }

  // ---- Dead ends --------------------------------------------------------------------------------------

  /** The k-th step of the walk from `s` towards its root; "" once it has left the hierarchy. */
  function Up(def: Definition, s: string, k: nat): string {
    if k == 0 then s
    else if k > 1 && Up(def, s, k - 1) == "" then ""
    else ParentOf(def, Up(def, s, k - 1))
  }

  predicate LeavesAt(def: Definition, s: string, k: nat) {
    (k == 0 || Up(def, s, k) != "") && SomeTransitionFrom(def, Up(def, s, k))
  }

  /** `s` or one of its ancestors is the source of a transition. */
  ghost predicate Escapes(def: Definition, s: string) {
    exists k: nat :: LeavesAt(def, s, k)
  }

  /** The walk from `s` ends: it finds a transition or leaves the hierarchy. */
  ghost predicate WalkEnds(def: Definition, s: string) {
    exists k: nat :: WalkEndsAt(def, s, k)
  }

  predicate WalkEndsAt(def: Definition, s: string, k: nat) {
    LeavesAt(def, s, k) || (k > 0 && Up(def, s, k) == "")
  }

  predicate MustEscape(def: Definition, s: string)
    requires s in def.states
  {
    !def.states[s].isTerminal && !def.states[s].isCompound
  }

  ghost predicate NoDeadEnds(def: Definition) {
    forall s :: s in def.states && MustEscape(def, s) ==> Escapes(def, s)
  }

  /** checkDeadEnds walks parents before Compile has looked for cycles: it returns only if every
      walk that it makes ends. */
  ghost predicate WalksEnd(def: Definition) {
    forall s :: s in def.states && MustEscape(def, s) ==> WalkEnds(def, s)
  }

  lemma UpStaysOut(def: Definition, s: string, k: nat, j: nat)
    requires 0 < k <= j && Up(def, s, k) == ""
    ensures Up(def, s, j) == ""
    decreases j
  {
    if k < j { UpStaysOut(def, s, k, j - 1); }
  }

  lemma {:induction false} UpIsChain(def: Definition, s: string, c: seq<string>, k: nat)
    requires IsChain(def, s, c)
    ensures Up(def, s, k + 1) == if k < |c| then c[k] else ""
  {
    if k == 0 {
      assert Up(def, s, 0) == s;
    } else {
      UpIsChain(def, s, c, k - 1);
      if k - 1 < |c| {
        ChainSuffix(def, s, c, k - 1);
        ChainNonEmptyNames(def, s, c);
        assert c[k - 1] != "";
        if k < |c| { assert c[k..][0] == c[k]; } else { assert c[k..] == []; }
      }
    }
  }

  /** In an acyclic hierarchy the walk visits exactly the ancestors. */
  lemma EscapesIsAncestor(def: Definition, s: string, c: seq<string>)
    requires IsChain(def, s, c)
    ensures WalkEnds(def, s)
    ensures Escapes(def, s) <==> SomeTransitionFrom(def, s) || exists a :: a in c && SomeTransitionFrom(def, a)
  {
    UpIsChain(def, s, c, |c|);
    assert WalkEndsAt(def, s, |c| + 1);
    ChainNonEmptyNames(def, s, c);
    if a :| a in c && SomeTransitionFrom(def, a) {
      var k :| 0 <= k < |c| && c[k] == a;
      UpIsChain(def, s, c, k);
      assert LeavesAt(def, s, k + 1);
    }
    if SomeTransitionFrom(def, s) { assert LeavesAt(def, s, 0); }
    if Escapes(def, s) {
      var k: nat :| LeavesAt(def, s, k);
      if k > 0 { UpIsChain(def, s, c, k - 1); }
    }
  }

  lemma {:induction false} UpShift(def: Definition, s: string, k: nat)
    requires ParentOf(def, s) != "" && k > 0
    ensures Up(def, s, k + 1) == Up(def, ParentOf(def, s), k)
  {
    assert Up(def, s, 1) == ParentOf(def, Up(def, s, 0)) == ParentOf(def, s);
    assert Up(def, ParentOf(def, s), 0) == ParentOf(def, s);
    if k > 1 { UpShift(def, s, k - 1); }
  }

  lemma {:induction false} UpEndsChain(def: Definition, s: string, k: nat)
    requires k > 0 && Up(def, s, k) == ""
    ensures HasChain(def, s)
    decreases k
  {
    var p := ParentOf(def, s);
    if p == "" {
      assert IsChain(def, s, []);
    } else {
      UpShift(def, s, k - 1);
      UpEndsChain(def, p, k - 1);
      assert IsChain(def, s, [p] + ChainOf(def, p));
    }
  }

  /** Exactly when the walk ends: it meets a transition, or the parents above the state form no cycle. */
  lemma WalkEndsExactly(def: Definition, s: string)
    ensures WalkEnds(def, s) <==> Escapes(def, s) || HasChain(def, s)
  {
    if WalkEnds(def, s) {
      var k: nat :| WalkEndsAt(def, s, k);
      if !LeavesAt(def, s, k) { UpEndsChain(def, s, k); }
    }
    if Escapes(def, s) {
      var k: nat :| LeavesAt(def, s, k);
      assert WalkEndsAt(def, s, k);
    }
    if HasChain(def, s) { EscapesIsAncestor(def, s, ChainOf(def, s)); }
  }

  /** So the check returns, whatever the order of the states, exactly when every leaf it asks about has a
      transition at or above itself or lies below no cycle of parents. */
  lemma WalksEndExactly(def: Definition)
    ensures WalksEnd(def)
            <==> forall s :: s in def.states && MustEscape(def, s) ==> Escapes(def, s) || HasChain(def, s)
  {
    forall s ensures WalkEnds(def, s) <==> Escapes(def, s) || HasChain(def, s) { WalkEndsExactly(def, s); }
  }

  method HasOutgoing(def: Definition, s: string) returns (found: bool)
    ensures found == SomeTransitionFrom(def, s)
  {
    var todo := def.transitions.Keys;
    while todo != {}
      invariant todo <= def.transitions.Keys
      invariant forall n :: n in def.transitions && n !in todo ==> s !in def.transitions[n].sources
      decreases todo
    {
      var n :| n in todo;
      if s in def.transitions[n].sources { return true; }
      todo := todo - {n};
    }
    return false;
  }

  method HasOutgoingOrAncestorHas(def: Definition, name: string, parent: string) returns (found: bool)
    requires parent == ParentOf(def, name) && WalkEnds(def, name)
    ensures found == Escapes(def, name)
  {
    found := HasOutgoing(def, name);
    if found { assert LeavesAt(def, name, 0); return; }
    var current := parent;
    ghost var k: nat := 1;
    ghost var end: nat :| WalkEndsAt(def, name, end);
    assert Up(def, name, 1) == parent;
    while current != ""
      invariant k >= 1 && current == Up(def, name, k)
      invariant forall j: nat :: j < k ==> !LeavesAt(def, name, j)
      invariant forall j: nat :: 0 < j < k ==> Up(def, name, j) != ""
      invariant k <= end
      decreases end - k
    {
      found := HasOutgoing(def, current);
      if found { assert LeavesAt(def, name, k); return; }
      assert !WalkEndsAt(def, name, k);
      assert Up(def, name, k + 1) == ParentOf(def, current);
      if current in def.states {
        current := def.states[current].parent;
      } else {
        current := "";
      }
      k := k + 1;
    }
    forall j: nat ensures !LeavesAt(def, name, j) {
      if j >= k { UpStaysOut(def, name, k, j); }
    }
  }

  method CheckDeadEnds(def: Definition) returns (ok: bool)
    requires WalksEnd(def)
    ensures ok == NoDeadEnds(def)
  {
    var todo := def.states.Keys;
    while todo != {}
      invariant todo <= def.states.Keys
      invariant forall s :: s in def.states && s !in todo && MustEscape(def, s) ==> Escapes(def, s)
      decreases todo
    {
      var name :| name in todo;
      todo := todo - {name};
      var st := def.states[name];
      if st.isTerminal || st.isCompound { continue; }
      var ok' := HasOutgoingOrAncestorHas(def, name, st.parent);
      if !ok' { return false; }
    }
    return true;
  }

  // ---- Reachability ---------------------------------------------------------------------------------

  /** Where a transition leads according to the search: its own target unless empty, and all its routes. */
  function Outs(tr: TransitionDef): set<string> {
    (if tr.target != "" then {tr.target} else {}) + set r | r in tr.routes :: r.target
  }

  ghost predicate FiresTo(def: Definition, a: string, b: string) {
    exists n :: n in def.transitions && a in def.transitions[n].sources && b in Outs(def.transitions[n])
  }

  /** Entering `a` also enters `b`: every region of a parallel state, the initial child of a compound. */
  predicate Contains(def: Definition, a: string, b: string) {
    && IsCompound(def, a)
    && if IsParallel(def, a) then b in def.states[a].children
       else b == def.states[a].initialChild && b != ""
  }

  ghost predicate Edge(def: Definition, a: string, b: string) {
    FiresTo(def, a, b) || Contains(def, a, b)
  }

  ghost predicate IsPath(def: Definition, p: seq<string>) {
    p != [] && p[0] == def.initialState && forall i :: 0 <= i < |p| - 1 ==> EdgeAt(def, p, i)
  }

  ghost predicate EdgeAt(def: Definition, p: seq<string>, i: nat)
    requires i < |p| - 1
  {
    Edge(def, p[i], p[i + 1])
  }

  ghost predicate Reachable(def: Definition, x: string) {
    exists p :: IsPath(def, p) && p[|p| - 1] == x
  }

  ghost predicate Closed(def: Definition, s: set<string>) {
    def.initialState in s && forall a, b :: a in s && Edge(def, a, b) ==> b in s
  }

  lemma StartReached(def: Definition)
    ensures Reachable(def, def.initialState)
  {
    assert IsPath(def, [def.initialState]);
  }

  lemma ReachableStep(def: Definition, a: string, b: string)
    requires Reachable(def, a) && Edge(def, a, b)
    ensures Reachable(def, b)
  {
    var p :| IsPath(def, p) && p[|p| - 1] == a;
    var q := p + [b];
    forall i | 0 <= i < |q| - 1 ensures EdgeAt(def, q, i) {
      if i < |p| - 1 { assert EdgeAt(def, p, i); }
    }
    assert IsPath(def, q) && q[|q| - 1] == b;
  }

  lemma {:induction false} PathStaysInside(def: Definition, s: set<string>, p: seq<string>, i: nat)
    requires Closed(def, s) && IsPath(def, p) && i < |p|
    ensures p[i] in s
  {
    if i > 0 {
      PathStaysInside(def, s, p, i - 1);
      assert EdgeAt(def, p, i - 1);
    }
  }

  /** The reachable states are the least set that holds the initial state and is closed under edges. */
  lemma ReachableIsLeast(def: Definition, s: set<string>)
    requires Closed(def, s)
    ensures forall x :: Reachable(def, x) ==> x in s
    ensures Reachable(def, def.initialState)
    ensures forall a, b :: Reachable(def, a) && Edge(def, a, b) ==> Reachable(def, b)
  {
    forall x | Reachable(def, x) ensures x in s {
      var p :| IsPath(def, p) && p[|p| - 1] == x;
      PathStaysInside(def, s, p, |p| - 1);
    }
    assert IsPath(def, [def.initialState]);
    forall a, b | Reachable(def, a) && Edge(def, a, b) ensures Reachable(def, b) { ReachableStep(def, a, b); }
  }

  /** Every name the search can come across. */
  ghost function Universe(def: Definition): set<string> {
    {def.initialState}
    + (set n, b | n in def.transitions && b in Outs(def.transitions[n]) :: b)
    + (set s, c | s in def.states && c in def.states[s].children :: c)
    + (set s | s in def.states :: def.states[s].initialChild)
  }

  class Search {
    const def: Definition
    var reachable: set<string>
    var queue: seq<string>

    constructor (def: Definition)
      ensures this.def == def && reachable == {} && queue == []
    {
      this.def := def;
      reachable := {};
      queue := [];
    }

    ghost predicate Sound() reads this {
      && reachable <= Universe(def)
      && Elements(queue) <= reachable
      && forall x :: x in reachable ==> Reachable(def, x)
    }

    ghost predicate Opened(x: string) reads this {
      forall y :: Contains(def, x, y) ==> y in reachable
    }

    /** Marks `name` and, recursively, all that is entered with it. */
    method Enqueue(name: string)
      requires Sound() && Reachable(def, name) && name in Universe(def)
      modifies this`reachable, this`queue
      ensures Sound() && name in reachable
      ensures old(reachable) <= reachable
      ensures old(queue) <= queue && (reachable == old(reachable) ==> queue == old(queue))
      ensures forall x :: x in reachable && x !in old(reachable) ==> x in queue && Opened(x)
      decreases Universe(def) - reachable, 0
    {
      if name in reachable { return; }
      reachable := reachable + {name};
      queue := queue + [name];
      assert name in queue;
      if name in def.states && def.states[name].isCompound {
        var st := def.states[name];
        if st.isParallel {
          EnqueueRegions(name);
        } else if st.initialChild != "" {
          assert Contains(def, name, st.initialChild);
          ReachableStep(def, name, st.initialChild);
          ghost var was := queue;
          Enqueue(st.initialChild);
          assert forall x :: x in was ==> x in queue;
        }
      }
    }

    /** All children of a parallel state. */
    method EnqueueRegions(name: string)
      requires Sound() && name in reachable && name in queue && name in def.states && def.states[name].isParallel
      requires def.states[name].isCompound
      modifies this`reachable, this`queue
      ensures Sound() && old(reachable) <= reachable && old(queue) <= queue && Opened(name)
      ensures forall x :: x in reachable && x !in old(reachable) ==> x in queue && Opened(x)
      decreases Universe(def) - reachable, 1
    {
      var children := def.states[name].children;
      for i := 0 to |children|
        invariant Sound() && old(reachable) <= reachable && old(queue) <= queue
        invariant forall x :: x in reachable && x !in old(reachable) ==> x in queue && Opened(x)
        invariant forall k :: 0 <= k < i ==> children[k] in reachable
      {
        assert Contains(def, name, children[i]);
        ReachableStep(def, name, children[i]);
        ghost var was := queue;
        Enqueue(children[i]);
        assert forall x :: x in was ==> x in queue;
      }
    }

    /** Everything marked is opened; what has left the queue has had its transitions followed. */
    ghost predicate Explored() reads this {
      && Sound() && def.initialState in reachable
      && (forall x :: x in reachable ==> Opened(x))
      && (forall x, y :: x in reachable && x !in queue && FiresTo(def, x, y) ==> y in reachable)
    }

    method FollowRoutes(tr: TransitionDef)
      requires Sound() && (forall x :: x in Outs(tr) ==> Reachable(def, x) && x in Universe(def))
      requires forall x :: x in reachable ==> Opened(x)
      modifies this`reachable, this`queue
      ensures Sound() && old(reachable) <= reachable && Outs(tr) <= reachable && old(queue) <= queue
      ensures reachable == old(reachable) ==> queue == old(queue)
      ensures forall x :: x in reachable ==> Opened(x)
      ensures forall x :: x in reachable && x !in old(reachable) ==> x in queue
    {
      if tr.target != "" { Enqueue(tr.target); }
      for i := 0 to |tr.routes|
        invariant Sound() && old(reachable) <= reachable && old(queue) <= queue
        invariant reachable == old(reachable) ==> queue == old(queue)
        invariant forall x :: x in reachable ==> Opened(x)
        invariant forall x :: x in reachable && x !in old(reachable) ==> x in queue
        invariant tr.target != "" ==> tr.target in reachable
        invariant forall k :: 0 <= k < i ==> tr.routes[k].target in reachable
      {
        assert tr.routes[i].target in Outs(tr);
        ghost var was := queue;
        Enqueue(tr.routes[i].target);
        assert forall x :: x in was ==> x in queue;
      }
    }

    method Visit(current: string)
      requires Sound() && current in reachable
      requires forall x :: x in reachable ==> Opened(x)
      modifies this`reachable, this`queue
      ensures Sound() && old(reachable) <= reachable && old(queue) <= queue
      ensures reachable == old(reachable) ==> queue == old(queue)
      ensures forall x :: x in reachable ==> Opened(x)
      ensures forall x :: x in reachable && x !in old(reachable) ==> x in queue
      ensures forall y :: FiresTo(def, current, y) ==> y in reachable
    {
      var todo := def.transitions.Keys;
      while todo != {}
        invariant todo <= def.transitions.Keys
        invariant Sound() && old(reachable) <= reachable && old(queue) <= queue
        invariant reachable == old(reachable) ==> queue == old(queue)
        invariant forall x :: x in reachable ==> Opened(x)
        invariant forall x :: x in reachable && x !in old(reachable) ==> x in queue
        invariant forall n :: n in def.transitions && n !in todo && current in def.transitions[n].sources
                              ==> Outs(def.transitions[n]) <= reachable
        decreases todo
      {
        var n :| n in todo;
        todo := todo - {n};
        var tr := def.transitions[n];
        if current in tr.sources {
          forall x | x in Outs(tr) ensures Reachable(def, x) && x in Universe(def) {
            ReachableStep(def, current, x);
          }
          ghost var was := queue;
          FollowRoutes(tr);
          assert forall x :: x in was ==> x in queue;
        }
      }
    }

    method Run()
      requires reachable == {} && queue == []
      modifies this`reachable, this`queue
      ensures Sound() && Closed(def, reachable)
    {
      assert IsPath(def, [def.initialState]);
      Enqueue(def.initialState);
      while |queue| > 0
        invariant Explored()
        decreases Universe(def) - reachable, |queue|
      {
        var current := queue[0];
        ghost var before := queue;
        queue := queue[1..];
        ghost var rest := queue;
        assert forall x :: x in before ==> x == current || x in rest;
        Visit(current);
        assert forall x :: x in rest ==> x in queue;
      }
    }
  }

  ghost predicate AllReachable(def: Definition) {
    forall s :: s in def.states ==> Reachable(def, s)
  }

  /** The search accepts exactly the definitions all of whose states are reachable. */
  method CheckReachability(def: Definition) returns (ok: bool)
    ensures ok <==> def.initialState == "" || AllReachable(def)
  {
    if def.initialState == "" { return true; }
    var search := new Search(def);
    search.Run();
    ReachableIsLeast(def, search.reachable);
    return forall name :: name in def.states ==> name in search.reachable;
  }

  // ---- Validate ----------------------------------------------------------------------------------------

  datatype Check = InitialState | TerminalStates | UnknownStates | OrphanedChildren | CompoundStates
                 | ParallelStates | CompoundTerminal | CompoundInitial | CompoundWait | DeadEnds | Unreachable

  ghost predicate Passes(def: Definition, c: Check) {
    match c
    case InitialState => OneInitialState(def)
    case TerminalStates => HasTerminalState(def)
    case UnknownStates => StatesKnown(def)
    case OrphanedChildren => ParentsExist(def)
    case CompoundStates => CompoundsHaveInitial(def)
    case ParallelStates => ParallelStatesOk(def)
    case CompoundTerminal => CompoundNotTerminal(def)
    case CompoundInitial => InitialNotCompound(def)
    case CompoundWait => WaitLeafOnly(def)
    case DeadEnds => NoDeadEnds(def)
    case Unreachable => def.initialState == "" || AllReachable(def)
  }

  /** The checks in the order in which they run. */
  const ORDER: seq<Check> := [InitialState, TerminalStates, UnknownStates, OrphanedChildren, CompoundStates,
                              ParallelStates, CompoundTerminal, CompoundInitial, CompoundWait, DeadEnds, Unreachable]

  ghost predicate PassesFirst(def: Definition, n: nat)
    requires n <= |ORDER|
  {
    forall i :: 0 <= i < n ==> Passes(def, ORDER[i])
  }

  ghost predicate Validated(def: Definition) {
    PassesFirst(def, |ORDER|)
  }

  /** Validation returns: an earlier check fails, or every walk of the dead-end check ends. */
  ghost predicate Returns(def: Definition) {
    PassesFirst(def, 9) ==> WalksEnd(def)
  }

  /** Reports the first check that fails, and nothing exactly when all pass. */
  method ValidateDefinition(def: Definition) returns (r: Option<Check>)
    requires Returns(def)
    ensures r.None? <==> Validated(def)
    ensures r.Some? ==>
      exists i :: 0 <= i < |ORDER| && ORDER[i] == r.value && PassesFirst(def, i) && !Passes(def, r.value)
  {
    for i := 0 to |ORDER|
      invariant PassesFirst(def, i)
    {
      assert ORDER[i] == DeadEnds ==> i == 9;
      var ok := RunCheck(def, ORDER[i]);
      if !ok { return Some(ORDER[i]); }
    }
    return None;
  }

  method RunCheck(def: Definition, c: Check) returns (ok: bool)
    requires c == DeadEnds ==> WalksEnd(def)
    ensures ok == Passes(def, c)
  {
    match c
    case InitialState => ok := OneInitialState(def);
    case TerminalStates => ok := HasTerminalState(def);
    case UnknownStates => ok := StatesKnown(def);
    case OrphanedChildren => ok := ParentsExist(def);
    case CompoundStates => ok := CompoundsHaveInitial(def);
    case ParallelStates => ok := ParallelStatesOk(def);
    case CompoundTerminal => ok := CompoundNotTerminal(def);
    case CompoundInitial => ok := InitialNotCompound(def);
    case CompoundWait => ok := WaitLeafOnly(def);
    case DeadEnds => ok := CheckDeadEnds(def);
    case Unreachable => ok := CheckReachability(def);
  }

  lemma ValidatedGives(def: Definition)
    requires Validated(def)
    ensures forall c: Check :: Passes(def, c)
  {
    forall c: Check ensures Passes(def, c) {
      assert exists i :: 0 <= i < |ORDER| && ORDER[i] == c by {
        var i := Rank(c);
        assert ORDER[i] == c;
      }
    }
  }

  function Rank(c: Check): nat {
    match c
    case InitialState => 0 case TerminalStates => 1 case UnknownStates => 2 case OrphanedChildren => 3
    case CompoundStates => 4 case ParallelStates => 5 case CompoundTerminal => 6 case CompoundInitial => 7
    case CompoundWait => 8 case DeadEnds => 9 case Unreachable => 10
  }
}
