/** What routes and guards decide, what an inner step announces and what a forced state forgets, said
    without following the loops (internal/runtime/helpers.go:16-48, internal/runtime/parallel.go:222-267,
    internal/runtime/executor.go:447-552). */
module Choices {
  import opened Definitions
  import opened Step
  import opened Configuration

  /** The route ends the search: a condition that matches or breaks. */
  predicate Decides(r: Route, inst: Instance, call: Call) {
    !r.isDefault && r.condition.Some? && call.condition(r.condition.value, inst) != NotMatched
  }

  ghost predicate FirstDecides(routes: seq<Route>, i: nat, inst: Instance, call: Call) {
    i < |routes| && Decides(routes[i], inst, call) && forall j :: 0 <= j < i ==> !Decides(routes[j], inst, call)
  }

  ghost predicate LastDefault(routes: seq<Route>, i: nat) {
    i < |routes| && routes[i].isDefault && forall j :: i < j < |routes| ==> !routes[j].isDefault
  }

  /** The first deciding route wins or breaks, wherever the defaults stand ... */
  lemma {:induction false} FirstDecisionWins(routes: seq<Route>, default: string, inst: Instance, call: Call, i: nat)
    requires FirstDecides(routes, i, inst, call)
    ensures ChooseRoute(routes, default, inst, call)
            == if call.condition(routes[i].condition.value, inst) == Matched then Ok(routes[i].target)
              else Err(ConditionBroken)
  {
    if i > 0 {
      var rest := routes[1..];
      assert rest[i - 1] == routes[i] && !Decides(routes[0], inst, call);
      assert forall j :: 0 <= j < i - 1 ==> rest[j] == routes[j + 1];
      FirstDecisionWins(rest, if routes[0].isDefault then routes[0].target else default, inst, call, i - 1);
    }
  }

  /** ... without one the last default is taken, and an empty target counts as none. */
  lemma {:induction false} LastDefaultWins(routes: seq<Route>, default: string, inst: Instance, call: Call)
    requires forall j :: 0 <= j < |routes| ==> !Decides(routes[j], inst, call)
    ensures forall i: nat :: LastDefault(routes, i) ==>
      ChooseRoute(routes, default, inst, call) == if routes[i].target != "" then Ok(routes[i].target)
        else Err(NoMatchingRoute)
    ensures (forall j :: 0 <= j < |routes| ==> !routes[j].isDefault) ==>
      ChooseRoute(routes, default, inst, call) == if default != "" then Ok(default) else Err(NoMatchingRoute)
  {
    if routes != [] {
      var rest := routes[1..];
      assert forall j :: 0 <= j < |rest| ==> rest[j] == routes[j + 1];
      assert !Decides(routes[0], inst, call);
      var d := if routes[0].isDefault then routes[0].target else default;
      LastDefaultWins(rest, d, inst, call);
      forall i: nat | LastDefault(routes, i)
        ensures ChooseRoute(routes, default, inst, call) == if routes[i].target != "" then Ok(routes[i].target)
                else Err(NoMatchingRoute)
      {
        if i > 0 {
          assert LastDefault(rest, i - 1);
        } else {
          assert forall j :: 0 <= j < |rest| ==> !rest[j].isDefault;
        }
      }
    }
  }

  /** Guards pass exactly when each does; otherwise the first to fail is named. */
  lemma {:induction false} FirstGuardNamed(guards: seq<string>, inst: Instance, call: Call)
    ensures RunGuards(guards, inst, call).None? <==> forall j :: 0 <= j < |guards| ==> call.guard(guards[j], inst)
    ensures forall g :: RunGuards(guards, inst, call) == Some(g) <==> FirstRejects(guards, g, inst, call)
  {
    if guards != [] {
      var rest := guards[1..];
      assert forall j :: 0 <= j < |rest| ==> rest[j] == guards[j + 1];
      FirstGuardNamed(rest, inst, call);
      if call.guard(guards[0], inst) {
        forall g ensures FirstRejects(guards, g, inst, call) <==> FirstRejects(rest, g, inst, call) {
          if FirstRejects(rest, g, inst, call) {
            var i :| 0 <= i < |rest| && rest[i] == g && !call.guard(g, inst)
                && forall j :: 0 <= j < i ==> call.guard(rest[j], inst);
            assert guards[i + 1] == g;
          }
          if FirstRejects(guards, g, inst, call) {
            var i :| 0 <= i < |guards| && guards[i] == g && !call.guard(g, inst)
                && forall j :: 0 <= j < i ==> call.guard(guards[j], inst);
            assert rest[i - 1] == g;
          }
        }
      }
    }
  }

  ghost predicate FirstRejects(guards: seq<string>, g: string, inst: Instance, call: Call) {
    exists i :: 0 <= i < |guards| && guards[i] == g && !call.guard(g, inst)
      && forall j :: 0 <= j < i ==> call.guard(guards[j], inst)
  }

  // ---- What an inner step announces -----------------------------------------------------------------------

  lemma {:induction false} ChangesExact(cs: seq<Candidate>, n: nat)
    requires n <= |cs| && forall i, j :: 0 <= i < j < |cs| ==> cs[i].region != cs[j].region
    ensures var m := ChangedRegions(cs, n);
      && (forall i :: 0 <= i < n ==> cs[i].region in m && m[cs[i].region] == (cs[i].leaf, cs[i].target))
      && (forall r :: r in m ==> exists i :: 0 <= i < n && cs[i].region == r)
  {
    if n > 0 { ChangesExact(cs, n - 1); }
  }

  /** The event of an inner step is an exact delta: undoing it gives the old active leaves, applying it the
      new ones, and regions it does not name are the same before and after. */
  lemma InnerDelta(cm: CompiledMachine, inst: Instance, name: string, cs: seq<Candidate>, call: Call)
    requires cs != [] && AreCandidates(inst, cs)
    requires CommitParallelIntra(cm, inst, name, cs, call).written.Some?
    ensures var e := CommitParallelIntra(cm, inst, name, cs, call);
      var now := e.written.value.active;
      && e.event.Some? && e.event.value.changed.Keys <= inst.active.Keys == now.Keys
      && (forall r :: r in e.event.value.changed ==> e.event.value.changed[r] == (inst.active[r], now[r]))
      && (forall r :: r in inst.active && r !in e.event.value.changed ==> now[r] == inst.active[r])
  {
    ChangesExact(cs, |cs|);
    MovedRegionsExact(inst.active, cs, |cs|);
    var e := CommitParallelIntra(cm, inst, name, cs, call);
    assert e.event.value.changed == Changes(cs) && e.written.value.active == MovedTo(inst.active, cs);
  }

  /** A forced state forgets the past: whatever state, history and stuck mark two instances had, they are
      the same afterwards but for the stamp that was read. */
  lemma ForceForgets(cm: CompiledMachine, a: Instance, b: Instance, target: string, call: Call)
    requires a.header == b.header && a.parallelClock == b.parallelClock && target in cm.def.states
    ensures call.commits ==>
      After(a, ForceState(cm, a, target, call))
        == After(b, ForceState(cm, b, target, call)).(lastReadUpdatedAt := a.updatedAt)
    ensures !call.commits ==> After(a, ForceState(cm, a, target, call)) == a
  {}
}
