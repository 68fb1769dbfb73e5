/** Parallel steps, forced states and the dispatch of a transition on the heap
    (internal/runtime/parallel.go:28-402, internal/runtime/executor.go:70-133, 402-443 and 447-552). */
module ParallelCommits {
  import opened Definitions
  import opened Hierarchy
  import opened Names
  import opened Step
  import opened Records
  import opened Executor
  import opened Commits

  /** Stores the instance as it is now, with its event. */
  method Conclude(db: Database, inst: InstanceRef, event: Event, commits: bool) returns (refused: Option<Failure>)
    requires db.Valid()
    modifies db
    ensures refused == Refused(LockOk(old(db.view), KeyOf(inst.it.header), inst.it.lastReadUpdatedAt), commits)
    ensures Stored(db, inst.it.header, inst.it.extra, refused, View(inst.it), [event], [])
  {
    var tx := new Tx();
    refused := Persist(db, tx, Some(event), inst.it, commits);
  }

  // ---- Leaving a parallel state ------------------------------------------------------------------------------

  /** Each region, in ascending order, records its own active leaf. */
  method RecordRegions(inst: InstanceRef, cm: CompiledMachine, p: string)
    modifies inst
    ensures View(inst.it) == RecordedRegions(cm, old(View(inst.it)), p, ActiveRegions(old(View(inst.it))),
                                             |ActiveRegions(old(View(inst.it)))|)
    ensures SameFixed(inst.it, old(inst.it))
  {
    var active := Contents(inst.it.active);
    var regions := SortNames(active.Keys);
    RecordEach(inst, cm, p, active, regions, View(inst.it));
  }

  method RecordEach(inst: InstanceRef, cm: CompiledMachine, p: string, active: map<string, string>,
                    regions: seq<string>, ghost start: Instance)
    requires View(inst.it) == start && start.active == active && forall r :: r in regions ==> r in active
    modifies inst
    ensures View(inst.it) == RecordedRegions(cm, start, p, regions, |regions|)
    ensures SameFixed(inst.it, old(inst.it))
  {
    for i := 0 to |regions|
      invariant View(inst.it) == RecordedRegions(cm, start, p, regions, i)
      invariant SameFixed(inst.it, old(inst.it))
    {
      RecordRegion(inst, cm, active[regions[i]], p);
      OneMoreRecorded(cm, start, p, regions, i);
    }
  }

  lemma OneMoreRecorded(cm: CompiledMachine, start: Instance, p: string, regions: seq<string>, i: nat)
    requires i < |regions| && forall r :: r in regions ==> r in start.active
    ensures var leaf := start.active[regions[i]];
      RecordedRegions(cm, start, p, regions, i + 1)
      == Recorded(cm.def, RecordedRegions(cm, start, p, regions, i), leaf, ExitSeq(cm, leaf, p))
  {}

  method RecordRegion(inst: InstanceRef, cm: CompiledMachine, leaf: string, p: string)
    modifies inst
    ensures View(inst.it) == Recorded(cm.def, old(View(inst.it)), leaf, ExitSeq(cm, leaf, p))
    ensures SameFixed(inst.it, old(inst.it))
  {
    var exits := ComputeExitSequence(cm, leaf, p);
    RecordHistory(inst, leaf, exits, cm.def);
  }

  /** How running `acts` in order ended. */
  predicate EndedActs(acts: seq<Act>, call: Call, ran: seq<Act>, failed: bool) {
    var k := FirstFail(call.fails, |acts|);
    failed == (k < |acts|) && ran == if failed then acts[..k + 1] else acts
  }

  /** What a parallel step has to write, by whether an activity failed. */
  predicate WholeCase(written: Instance, event: Event, call: Call, e: Effect, ran: seq<Act>, failed: bool) {
    && e.ran == ran && e.cancels == {}
    && (failed ==> ran != [] && e.written.None? && e.outcome == Failed(Failing(ran[|ran| - 1])))
    && (!failed && !call.commits ==> e.written.None? && e.outcome == Failed(NotCommitted))
    && (!failed && call.commits ==> e.written == Some(written) && e.event == Some(event) && e.outcome.Done?)
  }

  /** Stores the finished instance and reports. */
  method StoreWhole(db: Database, inst: InstanceRef, event: Event, call: Call, ghost v: Instance, ghost e: Effect,
                    ghost ran: seq<Act>)
    returns (failure: Option<Failure>, stored: bool)
    requires db.Valid() && WholeCase(View(inst.it), event, call, e, ran, false)
    requires inst.it.header == v.header && inst.it.lastReadUpdatedAt == v.updatedAt
    modifies db
    ensures Reports(old(db.view), v, call, e, ran, failure, stored)
    ensures Settled(db, v.header, old(inst.it.extra), e, stored)
  {
    failure := Conclude(db, inst, event, call.commits);
    stored := failure.None?;
  }

  /** Reports the failed activity, or stores. */
  method ConcludeWhole(db: Database, inst: InstanceRef, event: Event, call: Call, ran: seq<Act>, failed: bool,
                       ghost v: Instance, ghost written: Instance, ghost e: Effect)
    returns (failure: Option<Failure>, stored: bool)
    requires db.Valid() && WholeCase(written, event, call, e, ran, failed)
    requires !failed ==> View(inst.it) == written
    requires !failed ==> inst.it.header == v.header && inst.it.lastReadUpdatedAt == v.updatedAt
    modifies db
    ensures Reports(old(db.view), v, call, e, ran, failure, stored)
    ensures Settled(db, v.header, old(inst.it.extra), e, stored)
  {
    if failed { return Some(Failing(ran[|ran| - 1])), false; }
    failure, stored := StoreWhole(db, inst, event, call, v, e, ran);
  }

  function Leave(left: Instance, resolved: string, now: int): Instance {
    Touch(left, now).(currentState := resolved, active := map[])
  }

  /** What a parallel step has to write, however its activities end. */
  ghost predicate WholeSpec(acts: seq<Act>, written: Instance, event: Event, call: Call, e: Effect) {
    forall ran, failed :: EndedActs(acts, call, ran, failed) ==> WholeCase(written, event, call, e, ran, failed)
  }

  lemma LastRan(acts: seq<Act>, call: Call, ran: seq<Act>, failed: bool)
    requires EndedActs(acts, call, ran, failed)
    ensures var k := FirstFail(call.fails, |acts|); k < |acts| ==> ran != [] && ran[|ran| - 1] == acts[k]
  {}

  ghost function LeavingActs(cm: CompiledMachine, inst: Instance, resolved: string): seq<Act> {
    ExitActs(cm.def, ParallelExitSeq(inst)) + EntryActs(cm.def, EntrySeq(cm, "", resolved))
  }

  ghost function Departed(cm: CompiledMachine, inst: Instance, resolved: string, now: int): Instance {
    Leave(LeftRegions(cm, inst), resolved, now)
  }

  lemma ExitMeetsSpec(cm: CompiledMachine, inst: Instance, tr: TransitionDef, target: string, call: Call)
    ensures WholeSpec(LeavingActs(cm, inst, LeafOf(cm, target)), Departed(cm, inst, LeafOf(cm, target), call.now),
                      MakeEvent(cm, inst, tr, call), call, CommitParallelExit(cm, inst, tr, target, call))
  {
    var acts := LeavingActs(cm, inst, LeafOf(cm, target));
    forall ran, failed | EndedActs(acts, call, ran, failed)
      ensures WholeCase(Departed(cm, inst, LeafOf(cm, target), call.now), MakeEvent(cm, inst, tr, call), call,
                        CommitParallelExit(cm, inst, tr, target, call), ran, failed)
    {
      LastRan(acts, call, ran, failed);
    }
  }

  method LeaveParallel(inst: InstanceRef, resolved: string, now: int)
    modifies inst
    ensures View(inst.it) == Leave(old(View(inst.it)), resolved, now)
    ensures SameFixed(inst.it, old(inst.it)) && inst.it.lastReadUpdatedAt == old(inst.it.updatedAt)
  {
    inst.it := inst.it.(lastReadUpdatedAt := inst.it.updatedAt);
    inst.it := inst.it.(currentState := resolved);
    inst.it := inst.it.(active := null);
    inst.it := inst.it.(updatedAt := now);
  }

  method RunLeaving(cm: CompiledMachine, exits: seq<string>, resolved: string, call: Call)
    returns (ran: seq<Act>, failed: bool)
    ensures EndedActs(ExitActs(cm.def, exits) + EntryActs(cm.def, EntrySeq(cm, "", resolved)), call, ran, failed)
  {
    var entries := ComputeEntrySequence(cm, "", resolved);
    var exitFailed, entryFailed;
    ran, exitFailed, entryFailed := RunAll(cm.def, exits, entries, call);
    failed := exitFailed || entryFailed;
  }

  /** Records the regions' history, runs the activities and, if they all succeed, leaves the state. */
  method ApplyExit(cm: CompiledMachine, inst: InstanceRef, exits: seq<string>, resolved: string, call: Call)
    returns (ran: seq<Act>, failed: bool)
    modifies inst
    ensures EndedActs(ExitActs(cm.def, exits) + EntryActs(cm.def, EntrySeq(cm, "", resolved)), call, ran, failed)
    ensures !failed ==> View(inst.it) == Departed(cm, old(View(inst.it)), resolved, call.now)
    ensures !failed ==> SameFixed(inst.it, old(inst.it)) && inst.it.lastReadUpdatedAt == old(inst.it.updatedAt)
  {
    ghost var v := View(inst.it);
    RecordRegions(inst, cm, inst.it.currentState);
    RegionsKeepRest(cm, v, v.currentState, ActiveRegions(v), |ActiveRegions(v)|);
    ran, failed := RunLeaving(cm, exits, resolved, call);
    if !failed { LeaveParallel(inst, resolved, call.now); }
  }

  method ExitCore(cm: CompiledMachine, db: Database, inst: InstanceRef, exits: seq<string>, resolved: string,
                  event: Event, call: Call,
                  ghost acts: seq<Act>, ghost written: Instance, ghost e: Effect)
    returns (ran: seq<Act>, failure: Option<Failure>, stored: bool)
    requires db.Valid() && WholeSpec(acts, written, event, call, e)
    requires acts == ExitActs(cm.def, exits) + EntryActs(cm.def, EntrySeq(cm, "", resolved))
    requires written == Departed(cm, View(inst.it), resolved, call.now)
    modifies db, inst
    ensures Reports(old(db.view), old(View(inst.it)), call, e, ran, failure, stored)
    ensures Settled(db, old(inst.it.header), old(inst.it.extra), e, stored)
  {
    ghost var v := View(inst.it);
    var failed;
    ran, failed := ApplyExit(cm, inst, exits, resolved, call);
    assert WholeCase(written, event, call, e, ran, failed);
    failure, stored := ConcludeWhole(db, inst, event, call, ran, failed, v, written, e);
  }

  method CommitExit(cm: CompiledMachine, db: Database, inst: InstanceRef, tr: TransitionDef, target: string, call: Call)
    returns (ran: seq<Act>, failure: Option<Failure>, stored: bool)
    requires db.Valid()
    modifies db, inst
    ensures Reports(old(db.view), old(View(inst.it)), call,
                    CommitParallelExit(cm, old(View(inst.it)), tr, target, call), ran, failure, stored)
    ensures Settled(db, old(inst.it.header), old(inst.it.extra),
                    CommitParallelExit(cm, old(View(inst.it)), tr, target, call), stored)
  {
    var exits := ComputeParallelExitSequence(View(inst.it));
    var resolved := target;
    if target in cm.initialLeaf { resolved := cm.initialLeaf[target]; }
    ExitMeetsSpec(cm, View(inst.it), tr, target, call);
    ran, failure, stored := ExitCore(cm, db, inst, exits, resolved, MakeEvent(cm, View(inst.it), tr, call), call,
                                     LeavingActs(cm, View(inst.it), resolved),
                                       Departed(cm, View(inst.it), resolved, call.now),
                                         CommitParallelExit(cm, View(inst.it), tr, target, call));
  }

  // ---- Candidates in the regions ----------------------------------------------------------------------------------

  method FindBounded(cm: CompiledMachine, tr: TransitionDef, leaf: string, p: string) returns (source: string)
    ensures source == BoundedSource(cm, tr, leaf, p)
  {
    if leaf in tr.sources { return leaf; }
    var c := Anc(cm, leaf);
    ghost var stop := Elements(tr.sources) + {p};
    for i := 0 to |c|
      invariant forall k :: 0 <= k < i ==> c[k] !in stop
    {
      if c[i] == p {
        assert FirstIn(c, stop) == i;
        return "";
      }
      if c[i] in tr.sources {
        assert FirstIn(c, stop) == i;
        return c[i];
      }
    }
    return "";
  }

  method FindCandidate(cm: CompiledMachine, inst: Instance, name: string, region: string, call: Call)
    returns (r: Result<seq<Candidate>, Failure>)
    requires name in cm.def.transitions && region in inst.active
    ensures r == CandidateIn(cm, inst, name, region, call)
  {
    var tr := cm.def.transitions[name];
    var leaf := inst.active[region];
    var source := FindBounded(cm, tr, leaf, inst.currentState);
    if source == "" { return Ok([]); }
    var ct := FindTransition(TransitionsAt(cm, source), name);
    if ct.None? { return Ok([]); }
    var rejected := CheckGuards(ct.value.guards, inst, call);
    if rejected.Some? { return Err(GuardRejected(rejected.value)); }
    var target := tr.target;
    if |tr.routes| > 0 {
      var resolved := ResolveRoute(tr.routes, inst, call);
      if resolved.Err? { return Err(resolved.error); }
      target := resolved.value;
    }
    return Ok([Candidate(region, leaf, ct.value, target)]);
  }

  lemma OneMoreRegion(cm: CompiledMachine, inst: Instance, name: string, regions: seq<string>, i: nat, call: Call,
                      cs: seq<Candidate>)
    requires name in cm.def.transitions && i < |regions| && forall r :: r in regions ==> r in inst.active
    requires Candidates(cm, inst, name, regions, i, call) == Ok(cs)
    ensures var c := CandidateIn(cm, inst, name, regions[i], call);
      Candidates(cm, inst, name, regions, i + 1, call) == if c.Err? then c else Ok(cs + c.value)
  {}

  method CollectCandidates(cm: CompiledMachine, inst: Instance, name: string, call: Call)
    returns (r: Result<seq<Candidate>, Failure>)
    requires name in cm.def.transitions
    ensures r == AllCandidates(cm, inst, name, call)
  {
    var regions := SortNames(inst.active.Keys);
    assert regions == ActiveRegions(inst);
    var cs: seq<Candidate> := [];
    for i := 0 to |regions|
      invariant Candidates(cm, inst, name, regions, i, call) == Ok(cs)
    {
      var c := FindCandidate(cm, inst, name, regions[i], call);
      OneMoreRegion(cm, inst, name, regions, i, call, cs);
      if c.Err? {
        CandidatesStop(cm, inst, name, regions, i + 1, |regions|, call);
        return c;
      }
      cs := cs + c.value;
    }
    r := Ok(cs);
  }

  /** Once a region fails, the result is settled. */
  lemma {:induction false} CandidatesStop(cm: CompiledMachine, inst: Instance, name: string, regions: seq<string>,
                                          i: nat, n: nat, call: Call)
    requires name in cm.def.transitions && i <= n <= |regions| && forall r :: r in regions ==> r in inst.active
    requires Candidates(cm, inst, name, regions, i, call).Err?
    ensures Candidates(cm, inst, name, regions, n, call) == Candidates(cm, inst, name, regions, i, call)
  {
    if i < n { CandidatesStop(cm, inst, name, regions, i, n - 1, call); }
  }

  // ---- Moving inside a parallel state -----------------------------------------------------------

  datatype RegionUpdate = RegionUpdate(candidate: Candidate, exits: seq<string>, entries: seq<string>)

  predicate UpdateFor(cm: CompiledMachine, c: Candidate, u: RegionUpdate) {
    && u.candidate == c
    && ExitActs(cm.def, u.exits) == ExitsOf(cm, c)
    && EntryActs(cm.def, u.entries) == EntriesOf(cm, c)
  }

  method PlanUpdates(cm: CompiledMachine, cs: seq<Candidate>) returns (us: seq<RegionUpdate>)
    requires ChainsOk(cm)
    ensures |us| == |cs| && forall i :: 0 <= i < |cs| ==> UpdateFor(cm, cs[i], us[i])
  {
    us := [];
    for i := 0 to |cs|
      invariant |us| == i && forall k :: 0 <= k < i ==> UpdateFor(cm, cs[k], us[k])
    {
      var lca, _ := ComputeLca(cm, cs[i].leaf, cs[i].target);
      var exits := ComputeExitSequence(cm, cs[i].leaf, lca);
      var entries := ComputeEntrySequence(cm, lca, cs[i].target);
      us := us + [RegionUpdate(cs[i], exits, entries)];
    }
  }

  lemma {:induction false} ConcatSplit(f: Candidate -> seq<Act>, a: seq<Candidate>, b: seq<Candidate>)
    ensures Concat(f, a + b) == Concat(f, a) + Concat(f, b)
  {
    if a == [] {
      assert a + b == b;
    } else {
      ConcatSplit(f, a[1..], b);
      assert (a + b)[1..] == a[1..] + b && (a + b)[0] == a[0];
    }
  }

  lemma ConcatAt(f: Candidate -> seq<Act>, cs: seq<Candidate>, i: nat)
    requires i < |cs|
    ensures Concat(f, cs[..i + 1]) == Concat(f, cs[..i]) + f(cs[i])
    ensures Concat(f, cs) == Concat(f, cs[..i + 1]) + Concat(f, cs[i + 1..])
  {
    ConcatSplit(f, cs[..i], [cs[i]]);
    assert cs[..i + 1] == cs[..i] + [cs[i]];
    assert Concat(f, [cs[i]]) == f(cs[i]);
    ConcatSplit(f, cs[..i + 1], cs[i + 1..]);
    assert cs == cs[..i + 1] + cs[i + 1..];
  }

  method RunCandidateExits(cm: CompiledMachine, cs: seq<Candidate>, us: seq<RegionUpdate>, call: Call)
    returns (ran: seq<Act>, failed: bool)
    requires |us| == |cs| && forall i :: 0 <= i < |cs| ==> UpdateFor(cm, cs[i], us[i])
    ensures RanOk(call, [], Concat(ExitsFor(cm), cs), ran, failed)
  {
    ran, failed := [], false;
    for i := 0 to |us|
      invariant !failed && RanOk(call, [], Concat(ExitsFor(cm), cs[..i]), ran, false)
    {
      ghost var mid := ran;
      assert UpdateFor(cm, cs[i], us[i]);
      ConcatAt(ExitsFor(cm), cs, i);
      ran, failed := RunExits(cm.def, us[i].exits, call, ran);
      RanThen(call, [], Concat(ExitsFor(cm), cs[..i]), mid, ExitsOf(cm, cs[i]), ran, failed);
      if failed {
        FailedEarly(call, [], Concat(ExitsFor(cm), cs[..i + 1]), Concat(ExitsFor(cm), cs[i + 1..]), ran);
        return;
      }
    }
    assert cs[..|cs|] == cs;
  }

  method RunCandidateEntries(cm: CompiledMachine, cs: seq<Candidate>, us: seq<RegionUpdate>, call: Call,
                             before: seq<Act>) returns (ran: seq<Act>, failed: bool)
    requires |us| == |cs| && forall i :: 0 <= i < |cs| ==> UpdateFor(cm, cs[i], us[i])
    ensures RanOk(call, before, Concat(EntriesInto(cm), cs), ran, failed)
  {
    ran, failed := before, false;
    for i := 0 to |us|
      invariant !failed && RanOk(call, before, Concat(EntriesInto(cm), cs[..i]), ran, false)
    {
      ghost var mid := ran;
      assert UpdateFor(cm, cs[i], us[i]);
      ConcatAt(EntriesInto(cm), cs, i);
      ran, failed := RunEntries(cm.def, us[i].entries, call, ran);
      RanThen(call, before, Concat(EntriesInto(cm), cs[..i]), mid, EntriesOf(cm, cs[i]), ran, failed);
      if failed {
        FailedEarly(call, before, Concat(EntriesInto(cm), cs[..i + 1]), Concat(EntriesInto(cm), cs[i + 1..]), ran);
        return;
      }
    }
    assert cs[..|cs|] == cs;
  }

  method RunCandidates(cm: CompiledMachine, cs: seq<Candidate>, call: Call) returns (ran: seq<Act>, failed: bool)
    requires ChainsOk(cm)
    ensures EndedActs(CandidateActs(cm, cs), call, ran, failed)
  {
    var us := PlanUpdates(cm, cs);
    ghost var xs, es := Concat(ExitsFor(cm), cs), Concat(EntriesInto(cm), cs);
    assert xs + es == CandidateActs(cm, cs);
    ran, failed := RunCandidateExits(cm, cs, us, call);
    if failed {
      FailedEarly(call, [], xs, es, ran);
    } else {
      ghost var mid := ran;
      ran, failed := RunCandidateEntries(cm, cs, us, call, ran);
      RanThen(call, [], xs, mid, es, ran, failed);
    }
    RanIsFirstFail(call, xs + es, ran, failed);
  }

  function Moved(inst: Instance, cs: seq<Candidate>, now: int): Instance {
    Touch(inst, now).(active := MovedTo(inst.active, cs), parallelClock := Tick(inst.parallelClock))
  }

  /** The new active leaves go into a new map; the stored one stays as it is. */
  method MoveRegions(inst: InstanceRef, cs: seq<Candidate>, now: int)
    modifies inst
    ensures View(inst.it) == Moved(old(View(inst.it)), cs, now)
    ensures SameFixed(inst.it, old(inst.it)) && inst.it.lastReadUpdatedAt == old(inst.it.updatedAt)
  {
    ghost var active := Contents(inst.it.active);
    var aip := new StringMap(Contents(inst.it.active));
    for i := 0 to |cs|
      invariant fresh(aip) && inst.it == old(inst.it) && aip.m == MovedRegions(active, cs, i)
    {
      aip.m := aip.m[cs[i].region := cs[i].target];
    }
    inst.it := inst.it.(lastReadUpdatedAt := inst.it.updatedAt);
    inst.it := inst.it.(active := aip);
    inst.it := inst.it.(parallelClock := Tick(inst.it.parallelClock));
    inst.it := inst.it.(updatedAt := now);
  }

  method Delta(cs: seq<Candidate>) returns (changed: map<string, (string, string)>)
    ensures changed == Changes(cs)
  {
    changed := map[];
    for i := 0 to |cs|
      invariant changed == ChangedRegions(cs, i)
    {
      changed := changed[cs[i].region := (cs[i].leaf, cs[i].target)];
    }
  }

  function IntraEvent(cm: CompiledMachine, inst: Instance, name: string, cs: seq<Candidate>, call: Call): Event {
    Event(call.eventId, Origin(cm, inst.header), "ParallelTransition", name, Changes(cs), call.now)
  }

  lemma IntraMeetsSpec(cm: CompiledMachine, inst: Instance, name: string, cs: seq<Candidate>, call: Call)
    requires cs != []
    ensures WholeSpec(CandidateActs(cm, cs), Moved(inst, cs, call.now), IntraEvent(cm, inst, name, cs, call), call,
                      CommitParallelIntra(cm, inst, name, cs, call))
  {
    var acts := CandidateActs(cm, cs);
    forall ran, failed | EndedActs(acts, call, ran, failed)
      ensures WholeCase(Moved(inst, cs, call.now), IntraEvent(cm, inst, name, cs, call), call,
                        CommitParallelIntra(cm, inst, name, cs, call), ran, failed)
    {
      LastRan(acts, call, ran, failed);
    }
  }

  method IntraCore(cm: CompiledMachine, db: Database, inst: InstanceRef, cs: seq<Candidate>, event: Event, call: Call,
                   ghost e: Effect)
    returns (ran: seq<Act>, failure: Option<Failure>, stored: bool)
    requires db.Valid() && ChainsOk(cm)
             && WholeSpec(CandidateActs(cm, cs), Moved(View(inst.it), cs, call.now), event, call, e)
    modifies db, inst
    ensures Reports(old(db.view), old(View(inst.it)), call, e, ran, failure, stored)
    ensures Settled(db, old(inst.it.header), old(inst.it.extra), e, stored)
  {
    ghost var v := View(inst.it);
    var failed;
    ran, failed := RunCandidates(cm, cs, call);
    assert EndedActs(CandidateActs(cm, cs), call, ran, failed);
    if !failed { MoveRegions(inst, cs, call.now); }
    failure, stored := ConcludeWhole(db, inst, event, call, ran, failed, v, Moved(v, cs, call.now), e);
  }

  method CommitIntra(cm: CompiledMachine, db: Database, inst: InstanceRef, name: string, cs: seq<Candidate>, call: Call)
    returns (ran: seq<Act>, failure: Option<Failure>, stored: bool)
    requires db.Valid() && ChainsOk(cm) && cs != []
    modifies db, inst
    ensures Reports(old(db.view), old(View(inst.it)), call,
                    CommitParallelIntra(cm, old(View(inst.it)), name, cs, call), ran, failure, stored)
    ensures Settled(db, old(inst.it.header), old(inst.it.extra),
                    CommitParallelIntra(cm, old(View(inst.it)), name, cs, call), stored)
  {
    var changed := Delta(cs);
    var event := Event(call.eventId, Origin(cm, inst.it.header), "ParallelTransition", name, changed, call.now);
    IntraMeetsSpec(cm, View(inst.it), name, cs, call);
    ran, failure, stored := IntraCore(cm, db, inst, cs, event, call,
                                      CommitParallelIntra(cm, View(inst.it), name, cs, call));
  }
}
