/** The builder of definitions (internal/builder/builder.go): state options are collected, nested ones
    flattened, and `children` is derived from `parent`. What it assembles is wired. */
module Builder {
  import opened Definitions
  import opened Options

  class ParallelStateBuilder {
    const name: string
    var nested: seq<StateOption>

    constructor (name: string)
      ensures this.name == name && nested == []
    {
      this.name := name;
      nested := [];
    }

    /** The region starts at its first state; states without a parent get the region. */
    method Region(region: string, states: seq<StateOption>)
      requires AllMade(states)
      modifies this
      ensures nested == old(nested) + RegionOptions(name, region, states)
      ensures AllMade(old(nested)) ==> AllMade(nested)
    {
      var initialChild := "";
      if |states| > 0 { initialChild := states[0].def.name; }
      var r := StateOption(Blank(region).(isCompound := true, parent := name, initialChild := initialChild), []);
      nested := nested + [r];
      ghost var before := nested;
      for i := 0 to |states|
        invariant nested == before + Adopted(region, states[..i])
        invariant AllMade(old(nested)) ==> AllMade(nested)
      {
        var child := states[i];
        assert Made(child);
        if child.def.parent == "" { child := child.(def := child.def.(parent := region)); }
        nested := nested + [child];
        assert states[..i + 1][..i] == states[..i];
      }
      assert states[..|states|] == states;
    }

    method Done() returns (o: StateOption)
      ensures o == StateOption(Blank(name).(isParallel := true, isCompound := true), nested)
      ensures AllMade(nested) ==> Made(o)
    {
      return StateOption(Blank(name).(isParallel := true, isCompound := true), nested);
    }
  }

  function Adopt(region: string, o: StateOption): StateOption {
    if o.def.parent == "" then o.(def := o.def.(parent := region)) else o
  }

  function Adopted(region: string, states: seq<StateOption>): seq<StateOption> {
    if states == [] then [] else Adopted(region, states[..|states| - 1]) + [Adopt(region, states[|states| - 1])]
  }

  function RegionOptions(p: string, region: string, states: seq<StateOption>): seq<StateOption> {
    [StateOption(Blank(region).(isCompound := true, parent := p, initialChild := if states == [] then ""
                                else states[0].def.name), [])]
    + Adopted(region, states)
  }

  // ---- Flattening ------------------------------------------------------------------------------------------

  /** Every option before the options nested in it. */
  function Flatten(states: seq<StateOption>): seq<StateDef>
    decreases states
  {
    if states == [] then [] else [states[0].def] + Flatten(states[0].nested) + Flatten(states[1..])
  }

  /** `d` is the definition of one of the options or of an option nested in one, at any depth. */
  ghost predicate Within(states: seq<StateOption>, d: StateDef)
    decreases states
  {
    exists i :: 0 <= i < |states| && (states[i].def == d || Within(states[i].nested, d))
  }

  lemma {:induction false} FlattenExact(states: seq<StateOption>, d: StateDef)
    ensures d in Flatten(states) <==> Within(states, d)
    decreases states
  {
    if states != [] {
      FlattenExact(states[0].nested, d);
      FlattenExact(states[1..], d);
      if Within(states[1..], d) {
        var i :| 0 <= i < |states| - 1 && (states[1..][i].def == d || Within(states[1..][i].nested, d));
        assert states[i + 1] == states[1..][i];
      }
      if Within(states, d) && states[0].def != d && !Within(states[0].nested, d) {
        var i :| 0 <= i < |states| && (states[i].def == d || Within(states[i].nested, d));
        assert states[1..][i - 1] == states[i];
      }
    }
  }

  lemma {:induction false} FlattenUntied(states: seq<StateOption>)
    requires AllMade(states)
    ensures forall d :: d in Flatten(states) ==> Untied(d)
    decreases states
  {
    if states != [] {
      assert Made(states[0]);
      FlattenUntied(states[0].nested);
      FlattenUntied(states[1..]);
    }
  }

  /** An option stands before what is nested in it, and options stand in their order. */
  lemma FlattenOrder(o: StateOption, a: seq<StateOption>, b: seq<StateOption>)
    ensures Flatten([o]) == [o.def] + Flatten(o.nested)
    ensures Flatten(a + b) == Flatten(a) + Flatten(b)
  {
    assert [o][1..] == [];
    FlattenJoins(a, b);
  }

  lemma {:induction false} FlattenJoins(a: seq<StateOption>, b: seq<StateOption>)
    ensures Flatten(a + b) == Flatten(a) + Flatten(b)
    decreases |a|
  {
    if a == [] {
      assert a + b == b;
    } else {
      FlattenJoins(a[1..], b);
      var first := [a[0].def] + Flatten(a[0].nested);
      assert (a + b)[1..] == a[1..] + b;
      assert Flatten(a + b) == first + Flatten(a[1..] + b);
      assert Flatten(a) == first + Flatten(a[1..]);
    }
  }

  lemma FlattenAt(states: seq<StateOption>, i: nat)
    requires i < |states|
    ensures Flatten(states[i..]) == [states[i].def] + Flatten(states[i].nested) + Flatten(states[i + 1..])
  {
    assert states[i..][0] == states[i] && states[i..][1..] == states[i + 1..];
  }

  lemma FlattenedOneMore(before: seq<StateDef>, states: seq<StateOption>, i: nat)
    requires i < |states| && before + Flatten(states[i..]) == Flatten(states)
    ensures (before + [states[i].def] + Flatten(states[i].nested)) + Flatten(states[i + 1..]) == Flatten(states)
  {
    FlattenAt(states, i);
  }

  method FlattenStates(states: seq<StateOption>) returns (result: seq<StateDef>)
    ensures result == Flatten(states)
    decreases states
  {
    result := [];
    for i := 0 to |states|
      invariant result + Flatten(states[i..]) == Flatten(states)
    {
      ghost var before := result;
      result := result + [states[i].def];
      if |states[i].nested| > 0 {
        var nested := FlattenStates(states[i].nested);
        result := result + nested;
      }
      assert result == before + [states[i].def] + Flatten(states[i].nested);
      FlattenedOneMore(before, states, i);
    }
  }

  // ---- Collecting and wiring the states -----------------------------------------------------------------------

  /** The last definition of each name. */
  ghost predicate Collects(defs: seq<StateDef>, states: map<string, StateDef>) {
    && (forall s :: s in states <==> exists i :: 0 <= i < |defs| && defs[i].name == s)
    && (forall s :: s in states ==> LastNamed(defs, s, states[s]))
  }

  ghost predicate LastNamed(defs: seq<StateDef>, s: string, d: StateDef) {
    exists i :: 0 <= i < |defs| && defs[i] == d && d.name == s && forall j :: i < j < |defs| ==> defs[j].name != s
  }

  /** The name of the last initial state; "" without one. */
  ghost predicate LastInitial(defs: seq<StateDef>, initial: string) {
    if forall i :: 0 <= i < |defs| ==> !defs[i].isInitial then initial == ""
    else exists i ::
      && 0 <= i < |defs| && defs[i].isInitial && defs[i].name == initial
      && forall j :: i < j < |defs| ==> !defs[j].isInitial
  }

  method CollectStates(defs: seq<StateDef>) returns (states: map<string, StateDef>, initial: string)
    ensures Collects(defs, states) && LastInitial(defs, initial)
  {
    states, initial := map[], "";
    for i := 0 to |defs|
      invariant Collects(defs[..i], states) && LastInitial(defs[..i], initial)
    {
      CollectOne(defs[..i], states, defs[i]);
      InitialOne(defs[..i], initial, defs[i]);
      states := states[defs[i].name := defs[i]];
      if defs[i].isInitial { initial := defs[i].name; }
      assert defs[..i + 1] == defs[..i] + [defs[i]];
    }
    assert defs[..|defs|] == defs;
  }

  lemma CollectOne(defs: seq<StateDef>, states: map<string, StateDef>, d: StateDef)
    requires Collects(defs, states)
    ensures Collects(defs + [d], states[d.name := d])
  {
    var after, states' := defs + [d], states[d.name := d];
    assert after[|defs|] == d;
    forall s ensures s in states' <==> exists i :: 0 <= i < |after| && after[i].name == s {
      if s in states { var i :| 0 <= i < |defs| && defs[i].name == s; assert after[i].name == s; }
    }
    forall s | s in states' ensures LastNamed(after, s, states'[s]) {
      if s != d.name {
        assert LastNamed(defs, s, states[s]);
        var i :| 0 <= i < |defs| && defs[i] == states[s] && forall j :: i < j < |defs| ==> defs[j].name != s;
        assert after[i] == states'[s];
      }
    }
  }

  lemma InitialOne(defs: seq<StateDef>, initial: string, d: StateDef)
    requires LastInitial(defs, initial)
    ensures LastInitial(defs + [d], if d.isInitial then d.name else initial)
  {
    var after := defs + [d];
    assert after[|defs|] == d;
    if !d.isInitial && exists i :: 0 <= i < |defs| && defs[i].isInitial {
      var i :| 0 <= i < |defs| && defs[i].isInitial && defs[i].name == initial
          && forall j :: i < j < |defs| ==> !defs[j].isInitial;
      assert after[i].isInitial && after[i].name == initial;
    }
  }

  /** What wiring adds: the children, and the compound mark of whoever has some. */
  ghost predicate Wires(states: map<string, StateDef>, wired: map<string, StateDef>, done: set<string>) {
    wired.Keys == states.Keys && forall s :: s in states ==> WiresState(states, wired[s], s, done)
  }

  ghost predicate WiresState(states: map<string, StateDef>, w: StateDef, s: string, done: set<string>)
    requires s in states
  {
    && w == states[s].(children := w.children, isCompound := states[s].isCompound || w.children != [])
    && IsChildren(states, w.children, s, done)
  }

  ghost predicate IsChildren(states: map<string, StateDef>, children: seq<string>, s: string, done: set<string>) {
    NoDuplicates(children) && forall c :: c in children <==> c in done && IsChild(states, c, s)
  }

  predicate IsChild(states: map<string, StateDef>, c: string, s: string) {
    c in states && s != "" && states[c].parent == s
  }

  function AddChild(w: StateDef, name: string): StateDef {
    w.(children := w.children + [name], isCompound := true)
  }

  /** The states come in any order. */
  method Wire(states: map<string, StateDef>) returns (wired: map<string, StateDef>)
    requires forall s :: s in states ==> states[s].children == []
    ensures Wires(states, wired, states.Keys)
  {
    wired := states;
    var left := states.Keys;
    forall s | s in states ensures WiresState(states, wired[s], s, {}) {}
    assert states.Keys - left == {};
    while left != {}
      invariant left <= states.Keys && Wires(states, wired, states.Keys - left)
      decreases left
    {
      var name :| name in left;
      ghost var done := states.Keys - left;
      assert states.Keys - (left - {name}) == done + {name};
      wired := WireOne(states, wired, done, name);
      left := left - {name};
    }
    assert states.Keys - left == states.Keys;
  }

  method WireOne(states: map<string, StateDef>, wired: map<string, StateDef>, ghost done: set<string>, name: string)
    returns (after: map<string, StateDef>)
    requires Wires(states, wired, done) && name in states && name !in done
    ensures Wires(states, after, done + {name})
  {
    assert WiresState(states, wired[name], name, done);
    var st := wired[name];
    if st.parent == "" || st.parent !in wired {
      forall s | s in states ensures WiresState(states, wired[s], s, done + {name}) {
        OtherChild(states, wired[s], s, done, name);
      }
      return wired;
    }
    var parent := wired[st.parent];
    parent := parent.(children := parent.children + [name]);
    parent := parent.(isCompound := true);
    after := wired[st.parent := parent];
    forall s | s in states ensures WiresState(states, after[s], s, done + {name}) {
      if s == st.parent {
        NewChild(states, wired[s], s, done, name);
      } else {
        OtherChild(states, wired[s], s, done, name);
      }
    }
  }

  lemma OtherChild(states: map<string, StateDef>, w: StateDef, s: string, done: set<string>, name: string)
    requires s in states && WiresState(states, w, s, done) && !IsChild(states, name, s)
    ensures WiresState(states, w, s, done + {name})
  {}

  lemma NewChild(states: map<string, StateDef>, w: StateDef, s: string, done: set<string>, name: string)
    requires s in states && WiresState(states, w, s, done) && IsChild(states, name, s) && name !in done
    ensures WiresState(states, AddChild(w, name), s, done + {name})
  {
    assert name !in w.children;
    assert NoDuplicates(w.children + [name]);
  }

  // ---- Transitions ------------------------------------------------------------------------------------------------

  datatype Named = Named(name: string, options: seq<TransitionOption>)

  predicate NamesDistinct(ts: seq<Named>, n: nat)
    requires n <= |ts|
  {
    forall i, j :: 0 <= i < j < n ==> ts[i].name != ts[j].name
  }

  ghost predicate Transitions(ts: seq<Named>, n: nat, m: map<string, TransitionDef>)
    requires n <= |ts|
  {
    && (forall i :: 0 <= i < n ==> IsDescribed(ts[i], m))
    && (forall k :: k in m ==> exists i :: 0 <= i < n && ts[i].name == k)
  }

  ghost predicate IsDescribed(t: Named, m: map<string, TransitionDef>) {
    t.name in m && Describes(t.name, t.options, m[t.name])
  }

  lemma TransitionsGrow(ts: seq<Named>, i: nat, m: map<string, TransitionDef>, tr: TransitionDef)
    requires i < |ts| && Transitions(ts, i, m) && ts[i].name !in m && Describes(ts[i].name, ts[i].options, tr)
    ensures Transitions(ts, i + 1, m[ts[i].name := tr])
  {
    var m' := m[ts[i].name := tr];
    forall k | 0 <= k < i ensures IsDescribed(ts[k], m') { StaysDescribed(ts[k], m, ts[i].name, tr); }
    forall k | k in m' ensures exists j :: 0 <= j < i + 1 && ts[j].name == k {
      if k in m {
        var j :| 0 <= j < i && ts[j].name == k;
      } else {
        assert ts[i].name == k;
      }
    }
  }

  lemma StaysDescribed(t: Named, m: map<string, TransitionDef>, name: string, tr: TransitionDef)
    requires IsDescribed(t, m) && name !in m
    ensures IsDescribed(t, m[name := tr])
  {}

  method ApplyOptions(t: Named) returns (tr: TransitionDef)
    ensures Describes(t.name, t.options, tr)
  {
    tr := TransitionDef(t.name, [], "", [], "", [], None, None, None, Direct, "", NoHistory);
    for i := 0 to |t.options|
      invariant tr == TransitionOf(t.name, t.options[..i])
    {
      tr := Apply(tr, t.options[i]);
      assert t.options[..i + 1][..i] == t.options[..i];
    }
    assert t.options[..|t.options|] == t.options;
    TransitionMeans(t.name, t.options);
  }

  method CollectTransitions(ts: seq<Named>) returns (r: Option<map<string, TransitionDef>>)
    ensures r.Some? <==> NamesDistinct(ts, |ts|)
    ensures r.Some? ==> Transitions(ts, |ts|, r.value)
  {
    var m: map<string, TransitionDef> := map[];
    for i := 0 to |ts|
      invariant NamesDistinct(ts, i) && Transitions(ts, i, m)
    {
      if ts[i].name in m { return None; }
      var tr := ApplyOptions(ts[i]);
      TransitionsGrow(ts, i, m, tr);
      m := m[ts[i].name := tr];
    }
    return Some(m);
  }

  // ---- Build --------------------------------------------------------------------------------------------------------

  datatype Failure<E> = DuplicateTransition | Rejected(error: E)

  class DefBuilder<E> {
    const aggregateType: string
    const workflowType: string
    const validate: Option<Definition -> Option<E>>
    var version: int
    var states: seq<StateOption>
    var transitions: seq<Named>

    constructor (aggregateType: string, workflowType: string, validate: Option<Definition -> Option<E>>)
      ensures this.aggregateType == aggregateType && this.workflowType == workflowType && this.validate == validate
      ensures version == 1 && states == [] && transitions == []
    {
      this.aggregateType, this.workflowType, this.validate := aggregateType, workflowType, validate;
      version, states, transitions := 1, [], [];
    }

    method Version(v: int)
      modifies this`version
      ensures version == v
    {
      version := v;
    }

    method States(more: seq<StateOption>)
      modifies this`states
      ensures states == old(states) + more
      ensures AllMade(old(states)) && AllMade(more) ==> AllMade(states)
    {
      states := states + more;
    }

    method AddTransition(name: string, options: seq<TransitionOption>)
      modifies this`transitions
      ensures transitions == old(transitions) + [Named(name, options)]
    {
      transitions := transitions + [Named(name, options)];
    }

    /** Fails exactly on a repeated transition name or when validation rejects; what it returns is wired. */
    method Build() returns (r: Result<Definition, Failure<E>>)
      requires AllMade(states)
      ensures (r.Err? && r.error.DuplicateTransition?) <==> !NamesDistinct(transitions, |transitions|)
      ensures r.Ok? ==> Builds(r.value) && Wired(r.value)
      ensures (r.Err? && r.error.Rejected?) ==>
        validate.Some? && exists d :: Builds(d) && Wired(d) && validate.value(d) == Some(r.error.error)
      ensures r.Ok? && validate.Some? ==> validate.value(r.value) == None
    {
      var all := FlattenStates(states);
      FlattenUntied(states);
      var collected, initial := CollectStates(all);
      CollectedUntied(all, collected);
      var wired := Wire(collected);
      var ts := CollectTransitions(transitions);
      if ts.None? { return Err(DuplicateTransition); }
      var def := Definition(aggregateType, workflowType, version, wired, ts.value, initial);
      BuiltIsWired(all, collected, def, transitions);
      assert Builds(def);
      if validate.Some? {
        var e := validate.value(def);
        if e.Some? { return Err(Rejected(e.value)); }
      }
      return Ok(def);
    }

    /** The definition the collected options describe. */
    ghost predicate Builds(def: Definition)
      reads this
    {
      && def.aggregateType == aggregateType && def.workflowType == workflowType && def.version == version
      && LastInitial(Flatten(states), def.initialState)
      && Transitions(transitions, |transitions|, def.transitions)
      && exists collected :: Collects(Flatten(states), collected) && Wires(collected, def.states, collected.Keys)
    }
  }

  lemma CollectedUntied(defs: seq<StateDef>, states: map<string, StateDef>)
    requires Collects(defs, states) && forall d :: d in defs ==> Untied(d)
    ensures forall s :: s in states ==> Untied(states[s]) && states[s].name == s
  {
    forall s | s in states ensures Untied(states[s]) && states[s].name == s {
      assert LastNamed(defs, s, states[s]);
    }
  }

  lemma BuiltIsWired(defs: seq<StateDef>, collected: map<string, StateDef>, def: Definition, ts: seq<Named>)
    requires Collects(defs, collected) && forall d :: d in defs ==> Untied(d)
    requires Wires(collected, def.states, collected.Keys) && Transitions(ts, |ts|, def.transitions)
    ensures Wired(def)
  {
    CollectedUntied(defs, collected);
    forall s | s in def.states ensures WiredState(def, s) {
      assert WiresState(collected, def.states[s], s, collected.Keys);
      assert forall c :: c in def.states ==> WiresState(collected, def.states[c], c, collected.Keys);
    }
    forall n | n in def.transitions ensures def.transitions[n].name == n {
      var i :| 0 <= i < |ts| && ts[i].name == n;
    }
  }

  /** With distinct names the initial state of the definition is a state marked initial, and every
      option is there; a repeated name can lose both. */
  lemma DistinctNamesKeepAll(defs: seq<StateDef>, states: map<string, StateDef>, initial: string)
    requires Collects(defs, states) && LastInitial(defs, initial)
    ensures (forall i, j :: 0 <= i < j < |defs| ==> defs[i].name != defs[j].name)
            ==> forall i :: 0 <= i < |defs| ==> defs[i].name in states && states[defs[i].name] == defs[i]
    ensures (forall i :: 0 <= i < |defs| ==> defs[i].name in states && states[defs[i].name] == defs[i])
            ==> (initial != "" ==> initial in states && states[initial].isInitial)
  {
    forall i | 0 <= i < |defs| && forall i, j :: 0 <= i < j < |defs| ==> defs[i].name != defs[j].name
      ensures defs[i].name in states && states[defs[i].name] == defs[i]
    {
      assert LastNamed(defs, defs[i].name, states[defs[i].name]);
    }
  }

  /** The regions given to a parallel builder become the children of the parallel state, each starting at its
      first state, as long as no later option takes one of the names. */
  lemma RegionsBecomeChildren(p: string, region: string, states: seq<StateOption>, defs: seq<StateDef>,
                              collected: map<string, StateDef>, wired: map<string, StateDef>)
    requires Collects(defs, collected) && Wires(collected, wired, collected.Keys)
    requires forall o :: o in RegionOptions(p, region, states) ==> LastNamed(defs, o.def.name, o.def)
    requires p != "" && p in collected && region != ""
    ensures region in wired && region in wired[p].children && wired[region].isCompound
    ensures wired[region].initialChild == if states == [] then "" else states[0].def.name
    ensures forall o :: o in states && o.def.parent in {"", region} ==> o.def.name in wired[region].children
    ensures forall o :: o in states ==> o.def.name in wired && KeepsOption(wired[o.def.name], o.def, region)
  {
    var options := RegionOptions(p, region, states);
    var r := options[0];
    assert r in options;
    Keeps(defs, collected, r.def);
    assert WiresState(collected, wired[p], p, collected.Keys)
           && WiresState(collected, wired[region], region, collected.Keys);
    forall o | o in states && o.def.parent in {"", region} ensures o.def.name in wired[region].children {
      AdoptedHolds(region, states, o);
      assert Adopt(region, o) in options;
      Keeps(defs, collected, Adopt(region, o).def);
    }
    forall o | o in states ensures o.def.name in wired && KeepsOption(wired[o.def.name], o.def, region) {
      AdoptedHolds(region, states, o);
      assert Adopt(region, o) in options;
      Keeps(defs, collected, Adopt(region, o).def);
      assert WiresState(collected, wired[o.def.name], o.def.name, collected.Keys);
    }
  }

  /** A state without a parent gets the region, one with a parent keeps it, and nothing else is touched but what
      wiring adds. */
  predicate KeepsOption(w: StateDef, d: StateDef, region: string) {
    && w.parent == (if d.parent == "" then region else d.parent)
    && w == d.(parent := w.parent, children := w.children, isCompound := w.isCompound)
    && w.isCompound == (d.isCompound || w.children != [])
  }

  lemma Keeps(defs: seq<StateDef>, states: map<string, StateDef>, d: StateDef)
    requires Collects(defs, states) && LastNamed(defs, d.name, d)
    ensures d.name in states && states[d.name] == d
  {
    assert LastNamed(defs, d.name, states[d.name]);
  }

  lemma {:induction false} AdoptedHolds(region: string, states: seq<StateOption>, o: StateOption)
    requires o in states
    ensures Adopt(region, o) in Adopted(region, states)
  {
    var n := |states| - 1;
    if o != states[n] { AdoptedHolds(region, states[..n], o); }
  }
}
