/** A restored instance behaves as the original does: when guards and conditions look neither at the
    aggregate id nor at the time stamps, every later run takes both through the same states. */
module Likeness {
  import opened Definitions
  import opened Hierarchy
  import opened Step
  import Snapshots

  /** All of an instance but its aggregate id and its stamps. */
  function Core(inst: Instance): Instance {
    inst.(header := inst.header.(aggregateId := ""), updatedAt := 0, lastReadUpdatedAt := 0)
  }

  predicate Alike(a: Instance, b: Instance) {
    Core(a) == Core(b)
  }

  /** The two calls get the same answers on alike instances. Clock, event id and the rest may differ. */
  ghost predicate SameAnswers(c: Call, d: Call) {
    && (forall g, a, b :: Alike(a, b) ==> c.guard(g, a) == d.guard(g, b))
    && (forall k, a, b :: Alike(a, b) ==> c.condition(k, a) == d.condition(k, b))
    && c.fails == d.fails && c.savepoints == d.savepoints && c.commits == d.commits
  }

  ghost predicate SameOp(o: Op, p: Op) {
    match (o, p)
    case (Fire(n, c), Fire(m, d)) => n == m && SameAnswers(c, d)
    case (Force(t, c), Force(u, d)) => t == u && SameAnswers(c, d)
    case _ => false
  }

  /** The same outcome and activities, alike instances written, events saying the same. */
  ghost predicate EffectsAlike(e: Effect, f: Effect) {
    && e.outcome == f.outcome && e.ran == f.ran && e.cancels == f.cancels
    && e.written.Some? == f.written.Some? && (e.written.Some? ==> Alike(e.written.value, f.written.value))
    && e.event.Some? == f.event.Some? && (e.event.Some? ==> EventsAlike(e.event.value, f.event.value))
  }

  predicate EventsAlike(e: Event, f: Event) {
    e.eventType == f.eventType && e.transition == f.transition && e.changed == f.changed
  }

  lemma {:induction false} GuardsAlike(guards: seq<string>, a: Instance, b: Instance, c: Call, d: Call)
    requires Alike(a, b) && SameAnswers(c, d)
    ensures RunGuards(guards, a, c) == RunGuards(guards, b, d)
  {
    if guards != [] {
      assert c.guard(guards[0], a) == d.guard(guards[0], b);
      GuardsAlike(guards[1..], a, b, c, d);
    }
  }

  lemma {:induction false} RoutesAlike(routes: seq<Route>, default: string, a: Instance, b: Instance, c: Call, d: Call)
    requires Alike(a, b) && SameAnswers(c, d)
    ensures ChooseRoute(routes, default, a, c) == ChooseRoute(routes, default, b, d)
  {
    if routes != [] {
      RoutesAlike(routes[1..], if routes[0].isDefault then routes[0].target else default, a, b, c, d);
      if routes[0].condition.Some? {
        assert c.condition(routes[0].condition.value, a) == d.condition(routes[0].condition.value, b);
      }
    }
  }

  lemma TargetsAlike(tr: TransitionDef, a: Instance, b: Instance, c: Call, d: Call)
    requires Alike(a, b) && SameAnswers(c, d)
    ensures TargetOf(tr, a, c) == TargetOf(tr, b, d)
  {
    RoutesAlike(tr.routes, "", a, b, c, d);
  }

  lemma ValidatedAlike(cm: CompiledMachine, a: Instance, b: Instance, name: string, c: Call, d: Call)
    requires Alike(a, b) && SameAnswers(c, d)
    ensures ValidateTransition(cm, a, name, c) == ValidateTransition(cm, b, name, d)
  {
    assert a.currentState == b.currentState;
    if name in cm.def.transitions {
      var tr := cm.def.transitions[name];
      TargetsAlike(tr, a, b, c, d);
      var source := EffectiveSource(cm, tr, a.currentState);
      if source.Some? {
        var ct := FindNamed(TransitionsAt(cm, source.value), name);
        if ct.Some? { GuardsAlike(ct.value.guards, a, b, c, d); }
      }
    }
  }

  lemma PlansAlike(cm: CompiledMachine, a: Instance, b: Instance, tr: TransitionDef, target: string)
    requires Alike(a, b)
    ensures PlanFor(cm, a, tr, target) == PlanFor(cm, b, tr, target) && a.currentState == b.currentState
  {
    assert a.shallow == b.shallow && a.deep == b.deep;
  }

  lemma LeftAlike(def: Definition, a: Instance, b: Instance, leaf: string, exits: seq<string>)
    requires Alike(a, b)
    ensures Alike(Recorded(def, a, leaf, exits), Recorded(def, b, leaf, exits))
  {
    assert HistoryOf(a) == HistoryOf(b);
  }

  lemma ArrivalsAlike(cm: CompiledMachine, a: Instance, b: Instance, state: string, now: int, later: int)
    requires Alike(a, b)
    ensures Alike(Arrive(cm, a, state, now), Arrive(cm, b, state, later))
            && Alike(Stuck(a, state, now), Stuck(b, state, later))
  {}

  lemma TransactedAlike(e: Effect, f: Effect, c: Call, d: Call)
    requires EffectsAlike(e, f) && c.commits == d.commits && c.savepoints == d.savepoints
    ensures EffectsAlike(Transact(c, e), Transact(d, f))
  {}

  /** How a plain transition ends, by where the first activity fails. */
  function PlainEffect(cm: CompiledMachine, left: Instance, tr: TransitionDef, plan: Plan, event: Event,
                       call: Call): Effect {
    var xs, es := ExitActs(cm.def, plan.exits), EntryActs(cm.def, plan.entries);
    var acts := xs + es;
    var k := FirstFail(call.fails, |acts|);
    var cancels := Subtrees(cm, plan.exits);
    if k < |xs| then Effect(None, None, {}, acts[..k + 1], Failed(Failing(acts[k])))
    else if k < |acts| then
      Effect(Some(Stuck(left, acts[k].state, call.now)), if call.savepoints then Some(event) else None,
             if call.savepoints then cancels else {}, acts[..k + 1], Failed(Failing(acts[k])))
    else Effect(Some(Arrive(cm, left, plan.resolved, call.now)), Some(event), cancels, acts, Done(Some(tr)))
  }

  lemma PlainIsTransacted(cm: CompiledMachine, a: Instance, tr: TransitionDef, target: string, call: Call)
    ensures var plan := PlanFor(cm, a, tr, target);
      CommitPlain(cm, a, tr, target, call)
      == Transact(call, PlainEffect(cm, Recorded(cm.def, a, a.currentState, plan.exits), tr, plan,
                                    MakeEvent(cm, a, tr, call), call))
  {}

  lemma PlainEffectsAlike(cm: CompiledMachine, a: Instance, b: Instance, tr: TransitionDef, plan: Plan, e: Event,
                          f: Event, c: Call, d: Call)
    requires Alike(a, b) && c.fails == d.fails && c.savepoints == d.savepoints && EventsAlike(e, f)
    ensures EffectsAlike(PlainEffect(cm, a, tr, plan, e, c), PlainEffect(cm, b, tr, plan, f, d))
  {
    var acts := ExitActs(cm.def, plan.exits) + EntryActs(cm.def, plan.entries);
    var k := FirstFail(c.fails, |acts|);
    ArrivalsAlike(cm, a, b, plan.resolved, c.now, d.now);
    if k < |acts| { ArrivalsAlike(cm, a, b, acts[k].state, c.now, d.now); }
  }

  lemma PlainAlike(cm: CompiledMachine, a: Instance, b: Instance, tr: TransitionDef, target: string, c: Call, d: Call)
    requires Alike(a, b) && SameAnswers(c, d)
    ensures EffectsAlike(CommitPlain(cm, a, tr, target, c), CommitPlain(cm, b, tr, target, d))
  {
    PlansAlike(cm, a, b, tr, target);
    var plan := PlanFor(cm, a, tr, target);
    LeftAlike(cm.def, a, b, a.currentState, plan.exits);
    PlainIsTransacted(cm, a, tr, target, c);
    PlainIsTransacted(cm, b, tr, target, d);
    var left, left' := Recorded(cm.def, a, a.currentState, plan.exits), Recorded(cm.def, b, b.currentState, plan.exits);
    var e, f := MakeEvent(cm, a, tr, c), MakeEvent(cm, b, tr, d);
    PlainEffectsAlike(cm, left, left', tr, plan, e, f, c, d);
    TransactedAlike(PlainEffect(cm, left, tr, plan, e, c), PlainEffect(cm, left', tr, plan, f, d), c, d);
  }

  lemma {:induction false} RegionsAlike(cm: CompiledMachine, a: Instance, b: Instance, p: string,
                                        regions: seq<string>, n: nat)
    requires Alike(a, b) && n <= |regions| && forall r :: r in regions ==> r in a.active
    ensures Alike(RecordedRegions(cm, a, p, regions, n), RecordedRegions(cm, b, p, regions, n))
  {
    assert a.active == b.active;
    if n > 0 { RegionsAlike(cm, a, b, p, regions, n - 1); }
  }

  /** How leaving a parallel state ends, by what remains of the instance and which activities run. */
  function LeaveEffect(left: Instance, acts: seq<Act>, resolved: string, event: Event, tr: TransitionDef,
                       call: Call): Effect {
    var k := FirstFail(call.fails, |acts|);
    if k < |acts| then Effect(None, None, {}, acts[..k + 1], Failed(Failing(acts[k])))
    else Effect(Some(Touch(left, call.now).(currentState := resolved, active := map[])), Some(event), {}, acts,
                Done(Some(tr)))
  }

  ghost function LeaveActs(cm: CompiledMachine, inst: Instance, target: string): seq<Act> {
    ExitActs(cm.def, ParallelExitSeq(inst)) + EntryActs(cm.def, EntrySeq(cm, "", LeafOf(cm, target)))
  }

  lemma ExitIsTransacted(cm: CompiledMachine, inst: Instance, tr: TransitionDef, target: string, call: Call)
    ensures CommitParallelExit(cm, inst, tr, target, call)
            == Transact(call, LeaveEffect(LeftRegions(cm, inst), LeaveActs(cm, inst, target), LeafOf(cm, target),
                                          MakeEvent(cm, inst, tr, call), tr, call))
  {}

  lemma LeaveEffectsAlike(a: Instance, b: Instance, acts: seq<Act>, resolved: string, e: Event, f: Event,
                          tr: TransitionDef,
                          c: Call, d: Call)
    requires Alike(a, b) && c.fails == d.fails && EventsAlike(e, f)
    ensures EffectsAlike(LeaveEffect(a, acts, resolved, e, tr, c), LeaveEffect(b, acts, resolved, f, tr, d))
  {}

  lemma ExitAlike(cm: CompiledMachine, a: Instance, b: Instance, tr: TransitionDef, target: string, c: Call, d: Call)
    requires Alike(a, b) && SameAnswers(c, d)
    ensures EffectsAlike(CommitParallelExit(cm, a, tr, target, c), CommitParallelExit(cm, b, tr, target, d))
  {
    LeavingAlike(cm, a, b);
    ExitIsTransacted(cm, a, tr, target, c);
    ExitIsTransacted(cm, b, tr, target, d);
    var l, m, acts, t := LeftRegions(cm, a), LeftRegions(cm, b), LeaveActs(cm, a, target), LeafOf(cm, target);
    var e, f := MakeEvent(cm, a, tr, c), MakeEvent(cm, b, tr, d);
    LeaveEffectsAlike(l, m, acts, t, e, f, tr, c, d);
    TransactedAlike(LeaveEffect(l, acts, t, e, tr, c), LeaveEffect(m, acts, t, f, tr, d), c, d);
  }

  lemma LeavingAlike(cm: CompiledMachine, a: Instance, b: Instance)
    requires Alike(a, b)
    ensures Alike(LeftRegions(cm, a), LeftRegions(cm, b)) && ParallelExitSeq(a) == ParallelExitSeq(b)
  {
    assert a.active == b.active && a.currentState == b.currentState && ActiveRegions(a) == ActiveRegions(b);
    RegionsAlike(cm, a, b, a.currentState, ActiveRegions(a), |ActiveRegions(a)|);
  }

  lemma {:induction false} CandidatesAlike(cm: CompiledMachine, a: Instance, b: Instance, name: string,
                                           regions: seq<string>, n: nat, c: Call, d: Call)
    requires Alike(a, b) && SameAnswers(c, d)
    requires name in cm.def.transitions && n <= |regions| && forall r :: r in regions ==> r in a.active
    ensures a.active == b.active && Candidates(cm, a, name, regions, n, c) == Candidates(cm, b, name, regions, n, d)
  {
    assert Core(a).active == Core(b).active && Core(a).currentState == Core(b).currentState;
    if n > 0 {
      CandidatesAlike(cm, a, b, name, regions, n - 1, c, d);
      var tr := cm.def.transitions[name];
      TargetsAlike(tr, a, b, c, d);
      var ct := FindNamed(TransitionsAt(cm, BoundedSource(cm, tr, a.active[regions[n - 1]], a.currentState)), name);
      if ct.Some? { GuardsAlike(ct.value.guards, a, b, c, d); }
    }
  }

  lemma IntraAlike(cm: CompiledMachine, a: Instance, b: Instance, name: string, cs: seq<Candidate>, c: Call, d: Call)
    requires Alike(a, b) && SameAnswers(c, d) && cs != []
    ensures EffectsAlike(CommitParallelIntra(cm, a, name, cs, c), CommitParallelIntra(cm, b, name, cs, d))
  {}

  lemma ParallelAlike(cm: CompiledMachine, a: Instance, b: Instance, name: string, c: Call, d: Call)
    requires Alike(a, b) && SameAnswers(c, d)
    ensures EffectsAlike(ParallelTransition(cm, a, name, c), ParallelTransition(cm, b, name, d))
  {
    assert a.active == b.active && a.currentState == b.currentState;
    if name in cm.def.transitions && !IsTerminal(cm.def, a.currentState) {
      if a.currentState in cm.def.transitions[name].sources {
        ValidatedAlike(cm, a, b, name, c, d);
        var v := ValidateTransition(cm, a, name, c);
        if v.Ok? { ExitAlike(cm, a, b, v.value.0, v.value.1, c, d); }
      } else {
        assert ActiveRegions(a) == ActiveRegions(b);
        CandidatesAlike(cm, a, b, name, ActiveRegions(a), |ActiveRegions(a)|, c, d);
        var cs := AllCandidates(cm, a, name, c);
        if cs.Ok? && cs.value != [] { IntraAlike(cm, a, b, name, cs.value, c, d); }
      }
    }
  }

  /** One operation has like effects on like instances. */
  lemma PerformedAlike(cm: CompiledMachine, a: Instance, b: Instance, o: Op, p: Op)
    requires Alike(a, b) && SameOp(o, p)
    ensures EffectsAlike(Perform(cm, a, o), Perform(cm, b, p))
  {
    match o
    case Force(target, call) =>
    case Fire(name, call) =>
      assert a.active == b.active;
      if |a.active| > 0 {
        ParallelAlike(cm, a, b, name, call, p.call);
      } else {
        ValidatedAlike(cm, a, b, name, call, p.call);
        var v := ValidateTransition(cm, a, name, call);
        if v.Ok? { PlainAlike(cm, a, b, v.value.0, v.value.1, call, p.call); }
      }
  }

  lemma {:induction false} RunsAlike(cm: CompiledMachine, a: Instance, b: Instance, os: seq<Op>, ps: seq<Op>)
    requires Alike(a, b) && |os| == |ps| && forall i :: 0 <= i < |os| ==> SameOp(os[i], ps[i])
    ensures Alike(Run(cm, a, os), Run(cm, b, ps))
  {
    if os != [] {
      var n := |os| - 1;
      RunsAlike(cm, a, b, os[..n], ps[..n]);
      assert SameOp(os[n], ps[n]);
      PerformedAlike(cm, Run(cm, a, os[..n]), Run(cm, b, ps[..n]), os[n], ps[n]);
    }
  }

  /** Snapshot an instance, restore it under any aggregate id at any time: after any operations the copy
      has the same current state, regions, history and stuck mark as the original after the same ones,
      and the next operation ends the same way. */
  lemma CopiesRunAlike(cm: CompiledMachine, f: Snapshots.Full, hash: string, now: int, later: int, id: string,
                       os: seq<Op>, ps: seq<Op>, o: Op, p: Op)
    requires |os| == |ps| && (forall i :: 0 <= i < |os| ==> SameOp(os[i], ps[i])) && SameOp(o, p)
    ensures var image := Snapshots.SnapOf(f, hash, now);
      var copied := Snapshots.RestoreOf(image.(saved :=
                                               image.saved.(header := image.saved.header.(aggregateId := id))), later);
      var a, b := Run(cm, Snapshots.InstanceOf(f), os), Run(cm, Snapshots.InstanceOf(copied), ps);
      && a.currentState == b.currentState && a.active == b.active && a.shallow == b.shallow && a.deep == b.deep
      && a.isStuck == b.isStuck && a.parallelClock == b.parallelClock
      && EffectsAlike(Perform(cm, a, o), Perform(cm, b, p))
  {
    var image := Snapshots.SnapOf(f, hash, now);
    var copied := Snapshots.RestoreOf(image.(saved := image.saved.(header := image.saved.header.(aggregateId := id))),
                                      later);
    var x, y := Snapshots.InstanceOf(f), Snapshots.InstanceOf(copied);
    assert Alike(x, y);
    RunsAlike(cm, x, y, os, ps);
    var a, b := Run(cm, x, os), Run(cm, y, ps);
    assert Core(a).active == Core(b).active;
    PerformedAlike(cm, a, b, o, p);
  }
}
