/** The imperative step function of the source (internal/runtime/executor.go, helpers.go, parallel.go),
    proved to compute what `Step` says. Every operation takes a record that shares its maps with
    the store; each contract gives the whole store as seen through its maps, so a step that does
    not commit leaves the stored instances unchanged although it works on shared objects. */
module Executor {
  import opened Definitions
  import opened Hierarchy
  import opened Names
  import opened Step
  import opened Records

  // ---- History and regions: copy on write -------------------------------------------------------------------

  method DirectChild(def: Definition, exits: seq<string>, c: string) returns (child: string)
    ensures child == ChildAmong(def, exits, c)
  {
    child := "";
    for i := 0 to |exits|
      invariant child == "" && ChildAmong(def, exits, c) == ChildAmong(def, exits[i..], c)
    {
      if ParentOf(def, exits[i]) == c {
        child := exits[i];
        break;
      }
    }
  }

  /** Replaces the history maps by extended copies; the old map objects stay as they are. */
  method RecordHistory(inst: InstanceRef, sourceLeaf: string, exits: seq<string>, def: Definition)
    modifies inst
    ensures View(inst.it) == Recorded(def, old(View(inst.it)), sourceLeaf, exits)
    ensures SameFixed(inst.it, old(inst.it))
  {
    ghost var start := View(inst.it);
    for i := 0 to |exits|
      invariant View(inst.it) == WithHistory(start, Step.Record(def, HistoryOf(start), sourceLeaf, exits, i))
      invariant SameFixed(inst.it, old(inst.it))
    {
      var c := exits[i];
      if !IsCompound(def, c) { continue; }
      var child := DirectChild(def, exits, c);
      if child == "" { continue; }
      var newShallow := new StringMap(Contents(inst.it.shallow)[c := child]);
      inst.it := inst.it.(shallow := newShallow);
      var newDeep := new StringMap(Contents(inst.it.deep)[c := sourceLeaf]);
      inst.it := inst.it.(deep := newDeep);
    }
  }

  method EnterParallelRegions(inst: InstanceRef, cm: CompiledMachine, p: string)
    modifies inst
    ensures View(inst.it) == old(View(inst.it)).(active := InitialRegions(cm, p))
    ensures SameFixed(inst.it, old(inst.it))
  {
    var regions := RegionsOf(cm, p);
    var aip := new StringMap(map[]);
    for i := 0 to |regions|
      invariant fresh(aip) && inst.it == old(inst.it)
      invariant aip.m == map r | r in regions[..i] :: LeafOf(cm, r)
    {
      var leaf := regions[i];
      if regions[i] in cm.initialLeaf { leaf := cm.initialLeaf[regions[i]]; }
      assert regions[..i + 1] == regions[..i] + [regions[i]];
      aip.m := aip.m[regions[i] := leaf];
    }
    assert regions[..|regions|] == regions;
    inst.it := inst.it.(active := aip);
  }

  // ---- Running activities --------------------------------------------------------------------------------------

  /** `ran` is what remains of running `acts` after `before`: all of them, or up to the first failure. */
  ghost predicate RanOk(call: Call, before: seq<Act>, acts: seq<Act>, ran: seq<Act>, failed: bool) {
    if failed then exists k: nat :: FailsAt(call, before, acts, ran, k)
    else ran == before + acts && forall j: nat :: |before| <= j < |ran| ==> !call.fails(j)
  }

  ghost predicate FailsAt(call: Call, before: seq<Act>, acts: seq<Act>, ran: seq<Act>, k: nat) {
    && k < |acts| && ran == before + acts[..k + 1] && call.fails(|before| + k)
    && forall j: nat :: |before| <= j < |before| + k ==> !call.fails(j)
  }

  lemma RanThen(call: Call, before: seq<Act>, a: seq<Act>, mid: seq<Act>, b: seq<Act>, ran: seq<Act>, failed: bool)
    requires RanOk(call, before, a, mid, false) && RanOk(call, mid, b, ran, failed)
    ensures RanOk(call, before, a + b, ran, failed)
  {
    if failed {
      var k: nat :| FailsAt(call, mid, b, ran, k);
      assert (a + b)[..|a| + k + 1] == a + b[..k + 1];
      assert FailsAt(call, before, a + b, ran, |a| + k);
    } else {
      assert before + (a + b) == before + a + b;
    }
  }

  lemma FailedEarly(call: Call, before: seq<Act>, a: seq<Act>, b: seq<Act>, ran: seq<Act>)
    requires RanOk(call, before, a, ran, true)
    ensures RanOk(call, before, a + b, ran, true)
  {
    var k: nat :| FailsAt(call, before, a, ran, k);
    assert (a + b)[..k + 1] == a[..k + 1];
    assert FailsAt(call, before, a + b, ran, k);
  }

  /** From the start, this is exactly the first failing position. */
  lemma RanIsFirstFail(call: Call, acts: seq<Act>, ran: seq<Act>, failed: bool)
    requires RanOk(call, [], acts, ran, failed)
    ensures var k := FirstFail(call.fails, |acts|);
      failed == (k < |acts|) && ran == (if failed then acts[..k + 1] else acts)
  {
    var f := FirstFail(call.fails, |acts|);
    if failed {
      var k: nat :| FailsAt(call, [], acts, ran, k);
      assert call.fails(k);
      assert f == k;
    }
  }

  lemma {:induction false} ExitActsConcat(def: Definition, a: seq<string>, b: seq<string>)
    ensures ExitActs(def, a + b) == ExitActs(def, a) + ExitActs(def, b)
  {
    if a == [] {
      assert a + b == b;
    } else {
      ExitActsConcat(def, a[1..], b);
      assert (a + b)[1..] == a[1..] + b && (a + b)[0] == a[0];
    }
  }

  lemma {:induction false} EntryActsConcat(def: Definition, a: seq<string>, b: seq<string>)
    ensures EntryActs(def, a + b) == EntryActs(def, a) + EntryActs(def, b)
  {
    if a == [] {
      assert a + b == b;
    } else {
      EntryActsConcat(def, a[1..], b);
      assert (a + b)[1..] == a[1..] + b && (a + b)[0] == a[0];
    }
  }

  /** Runs one activity: logs it and asks the oracle. */
  method RunSyncActivity(call: Call, before: seq<Act>, a: Act) returns (ran: seq<Act>, failed: bool)
    ensures RanOk(call, before, [a], ran, failed)
  {
    ran := before + [a];
    failed := call.fails(|before|);
    if failed { assert FailsAt(call, before, [a], ran, 0); }
  }

  method RunExits(def: Definition, states: seq<string>, call: Call, before: seq<Act>)
    returns (ran: seq<Act>, failed: bool)
    ensures RanOk(call, before, ExitActs(def, states), ran, failed)
  {
    ran, failed := before, false;
    for i := 0 to |states|
      invariant !failed && RanOk(call, before, ExitActs(def, states[..i]), ran, false)
    {
      var s := states[i];
      ghost var mid := ran;
      assert states == states[..i + 1] + states[i + 1..] && states[..i + 1] == states[..i] + [s];
      ExitActsConcat(def, states[..i], [s]);
      ExitActsConcat(def, states[..i + 1], states[i + 1..]);
      if s !in def.states || def.states[s].exitActivity == "" { continue; }
      var a := ExitAct(s, def.states[s].exitActivity);
      assert ExitActs(def, [s]) == [a];
      ran, failed := RunSyncActivity(call, ran, a);
      RanThen(call, before, ExitActs(def, states[..i]), mid, [a], ran, failed);
      if failed {
        FailedEarly(call, before, ExitActs(def, states[..i + 1]), ExitActs(def, states[i + 1..]), ran);
        return;
      }
    }
    assert states[..|states|] == states;
  }

  method RunEntries(def: Definition, states: seq<string>, call: Call, before: seq<Act>)
    returns (ran: seq<Act>, failed: bool)
    ensures RanOk(call, before, EntryActs(def, states), ran, failed)
  {
    ran, failed := before, false;
    for i := 0 to |states|
      invariant !failed && RanOk(call, before, EntryActs(def, states[..i]), ran, false)
    {
      var s := states[i];
      ghost var mid := ran;
      assert states == states[..i + 1] + states[i + 1..] && states[..i + 1] == states[..i] + [s];
      EntryActsConcat(def, states[..i], [s]);
      EntryActsConcat(def, states[..i + 1], states[i + 1..]);
      if s !in def.states || def.states[s].entryActivity == "" { continue; }
      var a := EntryAct(s, def.states[s].entryActivity);
      assert EntryActs(def, [s]) == [a];
      ran, failed := RunSyncActivity(call, ran, a);
      RanThen(call, before, EntryActs(def, states[..i]), mid, [a], ran, failed);
      if failed {
        FailedEarly(call, before, EntryActs(def, states[..i + 1]), EntryActs(def, states[i + 1..]), ran);
        return;
      }
    }
    assert states[..|states|] == states;
  }

  /** How running the exit activities `xs` and then the entry activities `es` ended. */
  predicate Ended(xs: seq<Act>, es: seq<Act>, call: Call, ran: seq<Act>, exitFailed: bool, entryFailed: bool) {
    var k := FirstFail(call.fails, |xs + es|);
    && (exitFailed <==> k < |xs|)
    && (entryFailed <==> |xs| <= k < |xs + es|)
    && ran == if k < |xs + es| then (xs + es)[..k + 1] else xs + es
  }

  /** Exits then entries; the entries run only if every exit succeeded. */
  method RunAll(def: Definition, exits: seq<string>, entries: seq<string>, call: Call)
    returns (ran: seq<Act>, exitFailed: bool, entryFailed: bool)
    ensures Ended(ExitActs(def, exits), EntryActs(def, entries), call, ran, exitFailed, entryFailed)
  {
    ghost var xs, es := ExitActs(def, exits), EntryActs(def, entries);
    ran, exitFailed := RunExits(def, exits, call, []);
    entryFailed := false;
    if exitFailed {
      FailedEarly(call, [], xs, es, ran);
      RanIsFirstFail(call, xs + es, ran, true);
      ghost var k: nat :| FailsAt(call, [], xs, ran, k);
      return;
    }
    ghost var mid := ran;
    ran, entryFailed := RunEntries(def, entries, call, ran);
    RanThen(call, [], xs, mid, es, ran, entryFailed);
    RanIsFirstFail(call, xs + es, ran, entryFailed);
  }

  // ---- Guards, routes, sources --------------------------------------------------------------------------------------

  method CheckGuards(guards: seq<string>, inst: Instance, call: Call) returns (rejected: Option<string>)
    ensures rejected == RunGuards(guards, inst, call)
  {
    for i := 0 to |guards|
      invariant RunGuards(guards, inst, call) == RunGuards(guards[i..], inst, call)
    {
      if !call.guard(guards[i], inst) { return Some(guards[i]); }
    }
    return None;
  }

  method ResolveRoute(routes: seq<Route>, inst: Instance, call: Call) returns (r: Result<string, Failure>)
    ensures r == ChooseRoute(routes, "", inst, call)
  {
    var default := "";
    for i := 0 to |routes|
      invariant ChooseRoute(routes, "", inst, call) == ChooseRoute(routes[i..], default, inst, call)
    {
      var route := routes[i];
      if route.isDefault {
        default := route.target;
        continue;
      }
      if route.condition.Some? {
        var matched := call.condition(route.condition.value, inst);
        if matched == Broken { return Err(ConditionBroken); }
        if matched == Matched { return Ok(route.target); }
      }
    }
    if default != "" { return Ok(default); }
    return Err(NoMatchingRoute);
  }

  method FindTransition(list: seq<TransitionDef>, name: string) returns (ct: Option<TransitionDef>)
    ensures ct == FindNamed(list, name)
  {
    for i := 0 to |list|
      invariant FindNamed(list, name) == FindNamed(list[i..], name)
    {
      if list[i].name == name { return Some(list[i]); }
    }
    return None;
  }

  /** Bubbling: the leaf first, then its ancestors nearest first. */
  method FindSource(cm: CompiledMachine, tr: TransitionDef, s: string) returns (source: Option<string>)
    ensures source == EffectiveSource(cm, tr, s)
  {
    if s in tr.sources { return Some(s); }
    var c := Anc(cm, s);
    for i := 0 to |c|
      invariant forall k :: 0 <= k < i ==> c[k] !in tr.sources
    {
      if c[i] in tr.sources {
        assert FirstIn(c, Elements(tr.sources)) == i;
        return Some(c[i]);
      }
    }
    return None;
  }

  method Validate(cm: CompiledMachine, inst: Instance, name: string, call: Call)
    returns (r: Result<(TransitionDef, string), Failure>)
    ensures r == ValidateTransition(cm, inst, name, call)
  {
    if name !in cm.def.transitions { return Err(UnknownTransition); }
    var tr := cm.def.transitions[name];
    if IsTerminal(cm.def, inst.currentState) { return Err(AlreadyTerminal); }
    var source := FindSource(cm, tr, inst.currentState);
    if source.None? { return Err(InvalidSource); }
    var ct := FindTransition(TransitionsAt(cm, source.value), name);
    if ct.None? { return Err(IndexMiss); }
    var rejected := CheckGuards(ct.value.guards, inst, call);
    if rejected.Some? { return Err(GuardRejected(rejected.value)); }
    var target := tr.target;
    if |tr.routes| > 0 {
      var resolved := ResolveRoute(tr.routes, inst, call);
      if resolved.Err? { return Err(resolved.error); }
      target := resolved.value;
    }
    return Ok((ct.value, target));
  }

  /** History-aware resolution of the target. */
  method Resolve(cm: CompiledMachine, inst: Instance, target: string, mode: HistoryMode) returns (resolved: string)
    ensures resolved == ResolveTarget(cm, inst, target, mode)
  {
    resolved := target;
    match mode
    case Shallow =>
      if target in inst.shallow {
        resolved := inst.shallow[target];
        if resolved in cm.initialLeaf { resolved := cm.initialLeaf[resolved]; }
      } else if target in cm.initialLeaf {
        resolved := cm.initialLeaf[target];
      }
    case Deep =>
      if target in inst.deep { resolved := inst.deep[target]; }
      else if target in cm.initialLeaf { resolved := cm.initialLeaf[target]; }
    case NoHistory =>
      if target in cm.initialLeaf { resolved := cm.initialLeaf[target]; }
  }

  // ---- Sequences of parallel states -------------------------------------------------------------

  method ComputeParallelEntrySequence(cm: CompiledMachine, lca: string, p: string) returns (seq': seq<string>)
    requires p in cm.regions
    ensures seq' == EntriesFor(cm, lca, p)
  {
    var parentSeq := ComputeEntrySequence(cm, lca, p);
    var regions := cm.regions[p];
    var extra: seq<string> := [];
    for i := 0 to |regions|
      invariant extra + RegionEntries(cm, regions[i..]) == RegionEntries(cm, regions)
    {
      extra := extra + [regions[i]];
      if regions[i] in cm.initialLeaf { extra := extra + [cm.initialLeaf[regions[i]]]; }
    }
    seq' := parentSeq + extra;
  }

  function LeafThenRegion(leaf: string, region: string): seq<string> {
    if leaf != region then [leaf] + [region] else [leaf]
  }

  lemma OneMoreExited(before: seq<string>, active: map<string, string>, regions: seq<string>, i: nat)
    requires i < |regions| && forall r :: r in regions ==> r in active
    requires before + RegionExits(active, regions[i..]) == RegionExits(active, regions)
    ensures (before + LeafThenRegion(active[regions[i]], regions[i])) + RegionExits(active, regions[i + 1..])
            == RegionExits(active, regions)
  {
    assert regions[i..][0] == regions[i] && regions[i..][1..] == regions[i + 1..];
  }

  method ExitRegions(active: map<string, string>, regions: seq<string>) returns (exits: seq<string>)
    requires forall r :: r in regions ==> r in active
    ensures exits == RegionExits(active, regions)
  {
    exits := [];
    for i := 0 to |regions|
      invariant exits + RegionExits(active, regions[i..]) == RegionExits(active, regions)
    {
      var leaf := active[regions[i]];
      ghost var before := exits;
      exits := exits + [leaf];
      if leaf != regions[i] { exits := exits + [regions[i]]; }
      assert exits == before + LeafThenRegion(leaf, regions[i]);
      OneMoreExited(before, active, regions, i);
    }
  }

  method ComputeParallelExitSequence(inst: Instance) returns (exits: seq<string>)
    ensures exits == ParallelExitSeq(inst)
  {
    var regions := SortNames(inst.active.Keys);
    assert regions == ActiveRegions(inst);
    exits := ExitRegions(inst.active, regions);
    exits := exits + [inst.currentState];
  }
}
