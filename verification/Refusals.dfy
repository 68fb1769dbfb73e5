/** When a call is turned down before any activity, and why; where it goes when it is not. Said about the step alone:
    which sources count, that every guard is asked, and what the routes decide
    (internal/runtime/executor.go:136-204, internal/runtime/parallel.go:28-159, internal/runtime/helpers.go:16-48). */
module Refusals {
  import opened Definitions
  import opened Hierarchy
  import opened Names
  import opened Step
  import opened Machines
  import opened Configuration
  import opened Choices
  import opened Progress

  // ---- Where a transition leads ----------------------------------------------------------------------------

  /** The first deciding route matched, or without one there is a last default with a target; without any routes
      the transition's own target. */
  ghost predicate Leads(tr: TransitionDef, inst: Instance, call: Call, target: string) {
    if tr.routes == [] then target == tr.target
    else if exists i: nat :: FirstDecides(tr.routes, i, inst, call) then
      exists i: nat :: FirstDecides(tr.routes, i, inst, call) && tr.routes[i].target == target
        && call.condition(tr.routes[i].condition.value, inst) == Matched
    else exists i: nat :: LastDefault(tr.routes, i) && tr.routes[i].target == target && target != ""
  }

  ghost predicate RouteBreaks(tr: TransitionDef, inst: Instance, call: Call) {
    exists i: nat :: FirstDecides(tr.routes, i, inst, call)
      && call.condition(tr.routes[i].condition.value, inst) == Broken
  }

  lemma FirstIsOne(routes: seq<Route>, inst: Instance, call: Call, i: nat, j: nat)
    requires FirstDecides(routes, i, inst, call) && FirstDecides(routes, j, inst, call)
    ensures i == j
  {}

  lemma LeadsOnce(tr: TransitionDef, inst: Instance, call: Call, a: string, b: string)
    requires Leads(tr, inst, call, a) && Leads(tr, inst, call, b)
    ensures a == b
  {
    if i: nat :| FirstDecides(tr.routes, i, inst, call) {
      forall j: nat | FirstDecides(tr.routes, j, inst, call) ensures j == i { FirstIsOne(tr.routes, inst, call, i, j); }
    } else if tr.routes != [] {
      var i: nat :| LastDefault(tr.routes, i) && tr.routes[i].target == a;
      var j: nat :| LastDefault(tr.routes, j) && tr.routes[j].target == b;
    }
  }

  lemma SomeFirst(routes: seq<Route>, inst: Instance, call: Call, n: nat) returns (i: nat)
    requires n < |routes| && Decides(routes[n], inst, call)
    ensures FirstDecides(routes, i, inst, call)
  {
    if j :| 0 <= j < n && Decides(routes[j], inst, call) { i := SomeFirst(routes, inst, call, j); } else { i := n; }
  }

  lemma SomeLast(routes: seq<Route>, n: nat) returns (i: nat)
    requires n < |routes| && routes[n].isDefault
    ensures LastDefault(routes, i)
    decreases |routes| - n
  {
    if j :| n < j < |routes| && routes[j].isDefault { i := SomeLast(routes, j); } else { i := n; }
  }

  /** The search for the target finds exactly that. */
  lemma TargetLeads(tr: TransitionDef, inst: Instance, call: Call)
    ensures forall t :: TargetOf(tr, inst, call) == Ok(t) <==> Leads(tr, inst, call, t)
    ensures TargetOf(tr, inst, call) == Err(ConditionBroken) <==> RouteBreaks(tr, inst, call)
  {
    if tr.routes != [] {
      if i: nat :| FirstDecides(tr.routes, i, inst, call) {
        FirstDecisionWins(tr.routes, "", inst, call, i);
        forall j: nat | FirstDecides(tr.routes, j, inst, call) ensures j == i {
          FirstIsOne(tr.routes, inst, call, i, j);
        }
      } else {
        NobodyDecides(tr, inst, call);
      }
    }
  }

  lemma NobodyDecides(tr: TransitionDef, inst: Instance, call: Call)
    requires tr.routes != [] && forall i: nat :: !FirstDecides(tr.routes, i, inst, call)
    ensures TargetOf(tr, inst, call) != Err(ConditionBroken)
    ensures forall t :: TargetOf(tr, inst, call) == Ok(t)
              <==> exists i: nat :: LastDefault(tr.routes, i) && tr.routes[i].target == t && t != ""
  {
    forall j: nat | j < |tr.routes| ensures !Decides(tr.routes[j], inst, call) {
      if Decides(tr.routes[j], inst, call) { var i := SomeFirst(tr.routes, inst, call, j); }
    }
    LastDefaultWins(tr.routes, "", inst, call);
    if j: nat :| j < |tr.routes| && tr.routes[j].isDefault { var i := SomeLast(tr.routes, j); }
  }

  // ---- Sources, guards and reasons ------------------------------------------------------------------------------

  /** A source of the transition is active: outside parallel states at or above the current state; in one the state
      itself, or at or above an active leaf and not at or above the state. */
  ghost predicate Sourced(cm: CompiledMachine, inst: Instance, tr: TransitionDef) {
    if |inst.active| == 0 then exists x :: x in tr.sources && x in Config(cm, inst.currentState)
    else inst.currentState in tr.sources || exists r :: r in inst.active && SourcedIn(cm, inst, tr, r)
  }

  predicate SourcedIn(cm: CompiledMachine, inst: Instance, tr: TransitionDef, r: string)
    requires r in inst.active
  {
    exists x :: x in tr.sources && x in Config(cm, inst.active[r]) && x !in Config(cm, inst.currentState)
  }

  /** The transition exists, the instance has not ended, and a source is active. */
  ghost predicate Asked(cm: CompiledMachine, inst: Instance, name: string) {
    name in cm.def.transitions && !IsTerminal(cm.def, inst.currentState) && Sourced(cm, inst, cm.def.transitions[name])
  }

  predicate AllPass(tr: TransitionDef, inst: Instance, call: Call) {
    forall g :: g in tr.guards ==> call.guard(g, inst)
  }

  /** The call goes on to the activities. */
  ghost predicate Admitted(cm: CompiledMachine, inst: Instance, name: string, call: Call, target: string) {
    && Asked(cm, inst, name) && AllPass(cm.def.transitions[name], inst, call)
    && Leads(cm.def.transitions[name], inst, call, target)
  }

  /** Why a call is turned down. */
  ghost predicate Reason(cm: CompiledMachine, inst: Instance, name: string, call: Call, f: Failure) {
    match f
    case UnknownTransition => name !in cm.def.transitions
    case AlreadyTerminal => name in cm.def.transitions && IsTerminal(cm.def, inst.currentState)
    case InvalidSource => Unsourced(cm, inst, name) && |inst.active| == 0
    case NoActiveLeafMatches => Unsourced(cm, inst, name) && |inst.active| > 0
    case GuardRejected(g) => Asked(cm, inst, name) && FirstRejects(cm.def.transitions[name].guards, g, inst, call)
    case ConditionBroken =>
      Asked(cm, inst, name) && AllPass(cm.def.transitions[name], inst, call)
      && RouteBreaks(cm.def.transitions[name], inst, call)
    case NoMatchingRoute =>
      && Asked(cm, inst, name) && AllPass(cm.def.transitions[name], inst, call)
      && !RouteBreaks(cm.def.transitions[name], inst, call)
      && forall t :: !Leads(cm.def.transitions[name], inst, call, t)
    case _ => false
  }

  ghost predicate Unsourced(cm: CompiledMachine, inst: Instance, name: string) {
    name in cm.def.transitions && !IsTerminal(cm.def, inst.currentState) && !Sourced(cm, inst, cm.def.transitions[name])
  }

  /** What guards and routes say, whatever the source. */
  function Verdict(tr: TransitionDef, inst: Instance, call: Call): Result<string, Failure> {
    var rejected := RunGuards(tr.guards, inst, call);
    if rejected.Some? then Err(GuardRejected(rejected.value)) else TargetOf(tr, inst, call)
  }

  lemma VerdictMeans(tr: TransitionDef, inst: Instance, call: Call)
    ensures forall t :: Verdict(tr, inst, call) == Ok(t) <==> AllPass(tr, inst, call) && Leads(tr, inst, call, t)
    ensures forall g :: Verdict(tr, inst, call) == Err(GuardRejected(g)) <==> FirstRejects(tr.guards, g, inst, call)
    ensures Verdict(tr, inst, call) == Err(ConditionBroken)
            <==> AllPass(tr, inst, call) && RouteBreaks(tr, inst, call)
    ensures Verdict(tr, inst, call) == Err(NoMatchingRoute)
            <==> AllPass(tr, inst, call) && !RouteBreaks(tr, inst, call) && forall t :: !Leads(tr, inst, call, t)
    ensures Verdict(tr, inst, call).Err? ==> OnlyGuardsOrRoutes(Verdict(tr, inst, call).error)
  {
    FirstGuardNamed(tr.guards, inst, call);
    TargetLeads(tr, inst, call);
    assert AllPass(tr, inst, call) <==> RunGuards(tr.guards, inst, call).None?;
    var t := TargetOf(tr, inst, call);
    if t.Ok? { assert Leads(tr, inst, call, t.value); }
  }

  // ---- Plain steps and parallel exits ---------------------------------------------------------------------------

  lemma ValidIsVerdict(cm: CompiledMachine, inst: Instance, name: string, call: Call)
    requires TransitionsProper(cm) && name in cm.def.transitions && !IsTerminal(cm.def, inst.currentState)
    ensures var tr, v := cm.def.transitions[name], ValidateTransition(cm, inst, name, call);
      if exists x :: x in tr.sources && x in Config(cm, inst.currentState) then
        match Verdict(tr, inst, call)
        case Ok(t) => v == Ok((tr, t))
        case Err(f) => v == Err(f)
      else v == Err(InvalidSource)
  {
    var tr := cm.def.transitions[name];
    EffectiveSourceIs(cm, tr, inst.currentState);
    assert TransitionProper(cm, name, tr);
  }

  // ---- Inside a parallel state -------------------------------------------------------------------------------------

  /** Exactly the regions with a source fire, in ascending order, all to the same target. */
  ghost predicate FiresExactly(cm: CompiledMachine, inst: Instance, tr: TransitionDef, target: string,
                               cs: seq<Candidate>) {
    && (forall r :: r in inst.active ==> (SourcedIn(cm, inst, tr, r) <==> HasRegion(cs, r)))
    && (forall i :: 0 <= i < |cs| ==> FiresAt(inst, tr, target, cs[i]))
    && (forall i, j :: 0 <= i < j < |cs| ==> cs[i].region != cs[j].region && Leq(cs[i].region, cs[j].region))
  }

  predicate FiresAt(inst: Instance, tr: TransitionDef, target: string, c: Candidate) {
    c.region in inst.active && c == Candidate(c.region, inst.active[c.region], tr, target)
  }

  ghost predicate InParallel(cm: CompiledMachine, inst: Instance) {
    && ChainsOk(cm) && RegionsProper(cm) && RestsWell(cm, inst) && IsParallel(cm.def, inst.currentState)
    && "" !in inst.active.Values
  }

  lemma CandidateInIs(cm: CompiledMachine, inst: Instance, name: string, r: string, call: Call)
    requires InParallel(cm, inst) && TransitionsProper(cm) && name in cm.def.transitions && r in inst.active
    ensures var tr := cm.def.transitions[name];
      CandidateIn(cm, inst, name, r, call)
      == if !SourcedIn(cm, inst, tr, r) then Ok([])
         else match Verdict(tr, inst, call)
           case Ok(t) => Ok([Candidate(r, inst.active[r], tr, t)])
           case Err(f) => Err(f)
  {
    var tr, leaf, p := cm.def.transitions[name], inst.active[r], inst.currentState;
    LeafBelowParallel(cm, inst, r);
    assert leaf in inst.active.Values;
    if x :| x in tr.sources && x in Config(cm, leaf) && x !in Config(cm, p) { BoundedSourceExists(cm, tr, leaf, p, x); }
    if BoundedSource(cm, tr, leaf, p) != "" {
      BoundedSourceBelow(cm, tr, leaf, p);
      assert TransitionProper(cm, name, tr);
    }
  }

  ghost function SourcedRegions(cm: CompiledMachine, inst: Instance, tr: TransitionDef): set<string> {
    set r | r in inst.active && SourcedIn(cm, inst, tr, r)
  }

  /** The first `n` names without those that are not in `s`. */
  function Chosen(names: seq<string>, s: set<string>, n: nat): seq<string>
    requires n <= |names|
  {
    if n == 0 then [] else Chosen(names, s, n - 1) + Pick(names[n - 1], s)
  }

  function Pick(name: string, s: set<string>): seq<string> {
    if name in s then [name] else []
  }

  function LeafIn(inst: Instance, r: string): string {
    if r in inst.active then inst.active[r] else ""
  }

  function CandidatesFor(inst: Instance, tr: TransitionDef, target: string, rs: seq<string>): (cs: seq<Candidate>)
    ensures |cs| == |rs| && forall i :: 0 <= i < |rs| ==> cs[i] == Candidate(rs[i], LeafIn(inst, rs[i]), tr, target)
  {
    seq(|rs|, i requires 0 <= i < |rs| => Candidate(rs[i], LeafIn(inst, rs[i]), tr, target))
  }

  ghost predicate Ascending(names: seq<string>) {
    forall i, j :: 0 <= i < j < |names| ==> names[i] != names[j] && Leq(names[i], names[j])
  }

  lemma {:induction false} ChosenAscends(names: seq<string>, s: set<string>, n: nat)
    requires n <= |names| && Ascending(names)
    ensures Ascending(Chosen(names, s, n))
    ensures forall x :: x in Chosen(names, s, n) <==> x in names[..n] && x in s
  {
    if n > 0 {
      ChosenAscends(names, s, n - 1);
      assert names[..n] == names[..n - 1] + [names[n - 1]];
      var before := Chosen(names, s, n - 1);
      forall i | 0 <= i < |before| ensures before[i] != names[n - 1] && Leq(before[i], names[n - 1]) {
        assert before[i] in names[..n - 1];
      }
    }
  }

  /** The candidates of the first `n` regions when the verdict on the transition is `v`. */
  function Collected(inst: Instance, tr: TransitionDef, v: Result<string, Failure>, rs: seq<string>)
    : Result<seq<Candidate>, Failure>
  {
    if rs == [] then Ok([]) else match v
      case Ok(t) => Ok(CandidatesFor(inst, tr, t, rs))
      case Err(f) => Err(f)
  }

  function Both(a: Result<seq<Candidate>, Failure>, b: Result<seq<Candidate>, Failure>)
    : Result<seq<Candidate>, Failure>
  {
    if a.Err? then a else if b.Err? then b else Ok(a.value + b.value)
  }

  lemma CollectedJoins(inst: Instance, tr: TransitionDef, v: Result<string, Failure>, a: seq<string>, b: seq<string>)
    ensures Collected(inst, tr, v, a + b) == Both(Collected(inst, tr, v, a), Collected(inst, tr, v, b))
  {
    if v.Ok? {
      assert Collected(inst, tr, v, a) == Ok(CandidatesFor(inst, tr, v.value, a));
      assert Collected(inst, tr, v, b) == Ok(CandidatesFor(inst, tr, v.value, b));
      assert Collected(inst, tr, v, a + b) == Ok(CandidatesFor(inst, tr, v.value, a + b));
      assert CandidatesFor(inst, tr, v.value, a + b)
          == CandidatesFor(inst, tr, v.value, a) + CandidatesFor(inst, tr, v.value, b);
    } else {
      assert a == [] ==> a + b == b;
    }
  }

  /** The loop over the regions, whatever each of them answers. */
  function Gathered(answer: string -> Result<seq<Candidate>, Failure>, regions: seq<string>, n: nat)
    : Result<seq<Candidate>, Failure>
    requires n <= |regions|
  {
    if n == 0 then Ok([]) else Both(Gathered(answer, regions, n - 1), answer(regions[n - 1]))
  }

  function AnswerOf(cm: CompiledMachine, inst: Instance, name: string, call: Call)
    : string -> Result<seq<Candidate>, Failure>
    requires name in cm.def.transitions
  {
    r => if r in inst.active then CandidateIn(cm, inst, name, r, call) else Ok([])
  }

  lemma {:induction false} CandidatesGather(cm: CompiledMachine, inst: Instance, name: string, regions: seq<string>,
                                            n: nat, call: Call)
    requires name in cm.def.transitions && n <= |regions| && forall r :: r in regions ==> r in inst.active
    ensures Candidates(cm, inst, name, regions, n, call) == Gathered(AnswerOf(cm, inst, name, call), regions, n)
  {
    if n > 0 { CandidatesGather(cm, inst, name, regions, n - 1, call); }
  }

  /** The `k`-th region adds to what is collected what it answers. */
  ghost predicate AddsAt(answer: string -> Result<seq<Candidate>, Failure>,
                         collect: seq<string> -> Result<seq<Candidate>, Failure>, regions: seq<string>, s: set<string>,
                         k: nat)
    requires k < |regions|
  {
    collect(Chosen(regions, s, k + 1)) == Both(collect(Chosen(regions, s, k)), answer(regions[k]))
  }

  /** Then the loop collects the answers of the regions in `s`. */
  lemma {:induction false} GatheredAre(answer: string -> Result<seq<Candidate>, Failure>,
                                       collect: seq<string> -> Result<seq<Candidate>, Failure>, regions: seq<string>,
                                       n: nat, s: set<string>)
    requires n <= |regions| && collect([]) == Ok([])
    requires forall k: nat :: k < n ==> AddsAt(answer, collect, regions, s, k)
    ensures Gathered(answer, regions, n) == collect(Chosen(regions, s, n))
  {
    if n > 0 {
      GatheredAre(answer, collect, regions, n - 1, s);
      assert AddsAt(answer, collect, regions, s, n - 1);
    }
  }

  /** The region answers the verdict if it is in `s`, and nothing otherwise. */
  predicate AnswersAt(answer: string -> Result<seq<Candidate>, Failure>, inst: Instance, tr: TransitionDef,
                      s: set<string>, v: Result<string, Failure>, r: string) {
    answer(r) == Collected(inst, tr, v, Pick(r, s))
  }

  function CollectBy(inst: Instance, tr: TransitionDef, v: Result<string, Failure>)
    : seq<string> -> Result<seq<Candidate>, Failure>
  {
    rs => Collected(inst, tr, v, rs)
  }

  lemma AnswerAdds(answer: string -> Result<seq<Candidate>, Failure>, inst: Instance, tr: TransitionDef,
                   s: set<string>, v: Result<string, Failure>, regions: seq<string>, k: nat)
    requires k < |regions| && AnswersAt(answer, inst, tr, s, v, regions[k])
    ensures AddsAt(answer, CollectBy(inst, tr, v), regions, s, k)
  {
    CollectedJoins(inst, tr, v, Chosen(regions, s, k), Pick(regions[k], s));
  }

  lemma RegionAnswers(cm: CompiledMachine, inst: Instance, name: string, call: Call, r: string)
    requires InParallel(cm, inst) && TransitionsProper(cm) && name in cm.def.transitions && r in inst.active
    ensures var tr := cm.def.transitions[name];
      AnswersAt(AnswerOf(cm, inst, name, call), inst, tr, SourcedRegions(cm, inst, tr), Verdict(tr, inst, call), r)
  {
    CandidateInIs(cm, inst, name, r, call);
    var tr := cm.def.transitions[name];
    if Verdict(tr, inst, call).Ok? {
      var t := Verdict(tr, inst, call).value;
      assert CandidatesFor(inst, tr, t, [r]) == [Candidate(r, inst.active[r], tr, t)];
    }
  }

  lemma AllAnswer(cm: CompiledMachine, inst: Instance, name: string, call: Call) returns (rs: seq<string>)
    requires InParallel(cm, inst) && TransitionsProper(cm) && name in cm.def.transitions
    ensures var tr := cm.def.transitions[name];
      && Ascending(rs) && Elements(rs) == SourcedRegions(cm, inst, tr) && (forall r :: r in rs ==> r in inst.active)
      && AllCandidates(cm, inst, name, call) == Collected(inst, tr, Verdict(tr, inst, call), rs)
  {
    var regions := ActiveRegions(inst);
    var tr := cm.def.transitions[name];
    var s := SourcedRegions(cm, inst, tr);
    var v := Verdict(tr, inst, call);
    var answer := AnswerOf(cm, inst, name, call);
    forall k: nat | k < |regions| ensures AddsAt(answer, CollectBy(inst, tr, v), regions, s, k) {
      RegionAnswers(cm, inst, name, call, regions[k]);
      AnswerAdds(answer, inst, tr, s, v, regions, k);
    }
    CandidatesGather(cm, inst, name, regions, |regions|, call);
    GatheredAre(answer, CollectBy(inst, tr, v), regions, |regions|, s);
    rs := Chosen(regions, s, |regions|);
    ChosenAll(inst.active.Keys, s);
  }

  lemma ChosenAll(names: set<string>, s: set<string>)
    requires s <= names
    ensures var rs := Chosen(Sorted(names), s, |Sorted(names)|);
      Ascending(rs) && Elements(rs) == s
  {
    var all := Sorted(names);
    ChosenAscends(all, s, |all|);
    assert all[..|all|] == all;
    forall x ensures x in Chosen(all, s, |all|) <==> x in s { assert x in all <==> x in Elements(all); }
  }

  /** With a source active, guards and routes turn the whole call down or exactly those regions fire. */
  lemma CandidatesExactly(cm: CompiledMachine, inst: Instance, name: string, call: Call)
    requires InParallel(cm, inst) && TransitionsProper(cm) && name in cm.def.transitions
    ensures var tr, cs := cm.def.transitions[name], AllCandidates(cm, inst, name, call);
      if SourcedRegions(cm, inst, tr) == {} then cs == Ok([])
      else match Verdict(tr, inst, call)
        case Err(f) => cs == Err(f)
        case Ok(t) => cs.Ok? && cs.value != [] && FiresExactly(cm, inst, tr, t, cs.value)
  {
    var rs := AllAnswer(cm, inst, name, call);
    var tr := cm.def.transitions[name];
    assert rs == [] <==> Elements(rs) == {} by { if rs != [] { assert rs[0] in Elements(rs); } }
    assert forall r :: r in rs <==> r in Elements(rs);
    if Verdict(tr, inst, call).Ok? { TheyFire(cm, inst, tr, Verdict(tr, inst, call).value, rs); }
  }

  lemma TheyFire(cm: CompiledMachine, inst: Instance, tr: TransitionDef, target: string, rs: seq<string>)
    requires Ascending(rs) && forall r :: r in rs <==> r in SourcedRegions(cm, inst, tr)
    ensures FiresExactly(cm, inst, tr, target, CandidatesFor(inst, tr, target, rs))
  {
    var cs := CandidatesFor(inst, tr, target, rs);
    forall i | 0 <= i < |cs| ensures FiresAt(inst, tr, target, cs[i]) { assert rs[i] in rs; }
    forall r | r in inst.active ensures SourcedIn(cm, inst, tr, r) <==> HasRegion(cs, r) {
      if r in rs {
        var i :| 0 <= i < |rs| && rs[i] == r;
        assert cs[i] in cs;
      }
    }
  }

  // ---- The step ---------------------------------------------------------------------------------

  /** An instance that rests well and has no active leaf without a name. */
  ghost predicate Meets(cm: CompiledMachine, inst: Instance) {
    ChainsOk(cm) && RegionsProper(cm) && RestsWell(cm, inst) && "" !in inst.active.Values
  }

  /** Nothing is written, announced, cancelled or run. */
  ghost predicate Quiet(e: Effect) {
    e.written.None? && e.event.None? && e.cancels == {} && e.ran == []
  }

  predicate TurnedDown(e: Effect) {
    e.outcome.Failed? && Early(e.outcome.failure)
  }

  lemma FirstRejectsOnce(guards: seq<string>, a: string, b: string, inst: Instance, call: Call)
    requires FirstRejects(guards, a, inst, call) && FirstRejects(guards, b, inst, call)
    ensures a == b
  {
    FirstGuardNamed(guards, inst, call);
  }

  lemma RejectsOrPasses(tr: TransitionDef, inst: Instance, call: Call)
    ensures AllPass(tr, inst, call) <==> forall g :: !FirstRejects(tr.guards, g, inst, call)
    ensures RouteBreaks(tr, inst, call) ==> forall t :: !Leads(tr, inst, call, t)
  {
    VerdictMeans(tr, inst, call);
    FirstGuardNamed(tr.guards, inst, call);
    TargetLeads(tr, inst, call);
    var r := RunGuards(tr.guards, inst, call);
    if r.Some? { assert FirstRejects(tr.guards, r.value, inst, call); }
  }

  /** There is at most one reason, and none for a call that is admitted. */
  lemma OneReason(cm: CompiledMachine, inst: Instance, name: string, call: Call, f: Failure)
    requires Reason(cm, inst, name, call, f)
    ensures forall g :: Reason(cm, inst, name, call, g) ==> g == f
    ensures forall t :: !Admitted(cm, inst, name, call, t)
  {
    if name in cm.def.transitions {
      var tr := cm.def.transitions[name];
      RejectsOrPasses(tr, inst, call);
      forall g | Reason(cm, inst, name, call, g) ensures g == f {
        if g.GuardRejected? && f.GuardRejected? { FirstRejectsOnce(tr.guards, g.guard, f.guard, inst, call); }
      }
    }
  }

  /** The verdict of guards and routes as a reason or a target. */
  lemma VerdictReason(cm: CompiledMachine, inst: Instance, name: string, call: Call)
    requires Asked(cm, inst, name)
    ensures match Verdict(cm.def.transitions[name], inst, call)
      case Ok(t) => Admitted(cm, inst, name, call, t)
      case Err(f) => Early(f) && Reason(cm, inst, name, call, f)
  {
    VerdictMeans(cm.def.transitions[name], inst, call);
  }

  /** Either there is a reason and the effect is that rejection, or the call goes on to the activities. */
  ghost predicate Decided(cm: CompiledMachine, inst: Instance, name: string, call: Call, e: Effect) {
    || (e.outcome.Failed? && e == Reject(e.outcome.failure) && Early(e.outcome.failure)
        && Reason(cm, inst, name, call, e.outcome.failure))
    || (!TurnedDown(e) && exists t :: Admitted(cm, inst, name, call, t))
  }

  /** Outside parallel states. */
  lemma PlainDecided(cm: CompiledMachine, inst: Instance, name: string, call: Call)
    requires TransitionsProper(cm) && inst.active == map[]
    ensures Decided(cm, inst, name, call, Perform(cm, inst, Fire(name, call)))
    ensures forall t :: Admitted(cm, inst, name, call, t) ==>
      Perform(cm, inst, Fire(name, call)) == CommitPlain(cm, inst, cm.def.transitions[name], t, call)
  {
    if name in cm.def.transitions && !IsTerminal(cm.def, inst.currentState) {
      var tr := cm.def.transitions[name];
      ValidIsVerdict(cm, inst, name, call);
      VerdictMeans(tr, inst, call);
      var v := ValidateTransition(cm, inst, name, call);
      if Sourced(cm, inst, tr) {
        VerdictReason(cm, inst, name, call);
        if v.Ok? { PlainLate(cm, inst, tr, v.value.1, call); }
      }
    }
  }

  lemma PlainLate(cm: CompiledMachine, inst: Instance, tr: TransitionDef, target: string, call: Call)
    ensures !TurnedDown(CommitPlain(cm, inst, tr, target, call))
  {}

  lemma ExitLate(cm: CompiledMachine, inst: Instance, tr: TransitionDef, target: string, call: Call)
    ensures !TurnedDown(CommitParallelExit(cm, inst, tr, target, call))
  {}

  /** Out of a parallel state. */
  lemma ExitDecided(cm: CompiledMachine, inst: Instance, name: string, call: Call)
    requires TransitionsProper(cm) && |inst.active| > 0
    requires name in cm.def.transitions && inst.currentState in cm.def.transitions[name].sources
    ensures Decided(cm, inst, name, call, Perform(cm, inst, Fire(name, call)))
    ensures forall t :: Admitted(cm, inst, name, call, t) ==>
      Perform(cm, inst, Fire(name, call)) == CommitParallelExit(cm, inst, cm.def.transitions[name], t, call)
  {
    if !IsTerminal(cm.def, inst.currentState) {
      var tr := cm.def.transitions[name];
      ValidIsVerdict(cm, inst, name, call);
      VerdictMeans(tr, inst, call);
      VerdictReason(cm, inst, name, call);
      var v := ValidateTransition(cm, inst, name, call);
      if v.Ok? { ExitLate(cm, inst, tr, v.value.1, call); }
    }
  }

  lemma InnerStep(cm: CompiledMachine, inst: Instance, name: string, call: Call)
    requires |inst.active| > 0 && name in cm.def.transitions && !IsTerminal(cm.def, inst.currentState)
    requires inst.currentState !in cm.def.transitions[name].sources
    ensures var cs := AllCandidates(cm, inst, name, call);
      Perform(cm, inst, Fire(name, call))
      == if cs.Err? then Reject(cs.error)
         else if cs.value == [] then Reject(NoActiveLeafMatches)
         else CommitParallelIntra(cm, inst, name, cs.value, call)
  {}

  /** A source is active and guards and routes lead somewhere: exactly the regions with a source fire. */
  lemma InnerFires(cm: CompiledMachine, inst: Instance, name: string, call: Call, t: string)
    requires Meets(cm, inst) && TransitionsProper(cm) && |inst.active| > 0 && Admitted(cm, inst, name, call, t)
    requires inst.currentState !in cm.def.transitions[name].sources
    ensures var cs := AllCandidates(cm, inst, name, call);
      && cs.Ok? && cs.value != [] && FiresExactly(cm, inst, cm.def.transitions[name], t, cs.value)
      && Perform(cm, inst, Fire(name, call)) == CommitParallelIntra(cm, inst, name, cs.value, call)
  {
    ActiveMeansParallel(cm, inst);
    InnerStep(cm, inst, name, call);
    CandidatesExactly(cm, inst, name, call);
    VerdictMeans(cm.def.transitions[name], inst, call);
    SourcedMeansRegions(cm, inst, cm.def.transitions[name]);
  }

  lemma InnerRefused(cm: CompiledMachine, inst: Instance, name: string, call: Call)
    requires Meets(cm, inst) && TransitionsProper(cm) && |inst.active| > 0
    requires name in cm.def.transitions && !IsTerminal(cm.def, inst.currentState)
    requires inst.currentState !in cm.def.transitions[name].sources
    ensures var tr := cm.def.transitions[name];
      && (!Sourced(cm, inst, tr) ==> Perform(cm, inst, Fire(name, call)) == Reject(NoActiveLeafMatches))
      && (Sourced(cm, inst, tr) && Verdict(tr, inst, call).Err? ==>
            Perform(cm, inst, Fire(name, call)) == Reject(Verdict(tr, inst, call).error))
  {
    ActiveMeansParallel(cm, inst);
    InnerStep(cm, inst, name, call);
    CandidatesExactly(cm, inst, name, call);
    SourcedMeansRegions(cm, inst, cm.def.transitions[name]);
  }

  lemma DecidedByVerdict(cm: CompiledMachine, inst: Instance, name: string, call: Call, e: Effect)
    requires name in cm.def.transitions && !IsTerminal(cm.def, inst.currentState)
    requires var tr := cm.def.transitions[name];
      && (!Sourced(cm, inst, tr) ==>
            e == Reject(if |inst.active| == 0 then InvalidSource else NoActiveLeafMatches))
      && (Sourced(cm, inst, tr) ==>
            match Verdict(tr, inst, call) case Ok(t) => !TurnedDown(e) case Err(f) => e == Reject(f))
    ensures Decided(cm, inst, name, call, e)
  {
    if Sourced(cm, inst, cm.def.transitions[name]) { VerdictReason(cm, inst, name, call); }
  }

  lemma InnerPasses(cm: CompiledMachine, inst: Instance, name: string, call: Call)
    requires Meets(cm, inst) && TransitionsProper(cm) && |inst.active| > 0 && Asked(cm, inst, name)
    requires inst.currentState !in cm.def.transitions[name].sources
    requires Verdict(cm.def.transitions[name], inst, call).Ok?
    ensures !TurnedDown(Perform(cm, inst, Fire(name, call)))
  {
    VerdictReason(cm, inst, name, call);
    InnerFires(cm, inst, name, call, Verdict(cm.def.transitions[name], inst, call).value);
    InnerLate(cm, inst, name, AllCandidates(cm, inst, name, call).value, call);
  }

  lemma UnknownDecided(cm: CompiledMachine, inst: Instance, name: string, call: Call)
    requires |inst.active| > 0 && (name !in cm.def.transitions || IsTerminal(cm.def, inst.currentState))
    ensures Decided(cm, inst, name, call, Perform(cm, inst, Fire(name, call)))
  {}

  /** Inside a parallel state. */
  lemma InnerDecided(cm: CompiledMachine, inst: Instance, name: string, call: Call, e: Effect)
    requires Meets(cm, inst) && TransitionsProper(cm) && |inst.active| > 0
    requires name in cm.def.transitions && !IsTerminal(cm.def, inst.currentState)
    requires inst.currentState !in cm.def.transitions[name].sources && e == Perform(cm, inst, Fire(name, call))
    ensures Decided(cm, inst, name, call, e)
  {
    var tr := cm.def.transitions[name];
    InnerRefused(cm, inst, name, call);
    if Sourced(cm, inst, tr) && Verdict(tr, inst, call).Ok? { InnerPasses(cm, inst, name, call); }
    DecidedByVerdict(cm, inst, name, call, e);
  }

  lemma SourcedMeansRegions(cm: CompiledMachine, inst: Instance, tr: TransitionDef)
    requires |inst.active| > 0 && inst.currentState !in tr.sources
    ensures Sourced(cm, inst, tr) <==> SourcedRegions(cm, inst, tr) != {}
  {
    if r :| r in inst.active && SourcedIn(cm, inst, tr, r) { assert r in SourcedRegions(cm, inst, tr); }
  }

  lemma InnerLate(cm: CompiledMachine, inst: Instance, name: string, cs: seq<Candidate>, call: Call)
    requires cs != []
    ensures !TurnedDown(CommitParallelIntra(cm, inst, name, cs, call))
  {}

  lemma StepDecided(cm: CompiledMachine, inst: Instance, name: string, call: Call)
    requires Meets(cm, inst) && TransitionsProper(cm)
    ensures Decided(cm, inst, name, call, Perform(cm, inst, Fire(name, call)))
  {
    if |inst.active| == 0 {
      assert inst.active == map[];
      PlainDecided(cm, inst, name, call);
    } else if name !in cm.def.transitions || IsTerminal(cm.def, inst.currentState) {
      UnknownDecided(cm, inst, name, call);
    } else if inst.currentState in cm.def.transitions[name].sources {
      ExitDecided(cm, inst, name, call);
    } else {
      InnerDecided(cm, inst, name, call, Perform(cm, inst, Fire(name, call)));
    }
  }

  /** Every kind of step is turned down exactly for its reason, and then nothing happens; otherwise the instance had not
      ended, a source was active, every guard passed and the routes led somewhere. */
  lemma RefusedExactly(cm: CompiledMachine, inst: Instance, name: string, call: Call)
    requires Meets(cm, inst) && TransitionsProper(cm)
    ensures var e := Perform(cm, inst, Fire(name, call));
      && (forall f :: Early(f) ==> (e.outcome == Failed(f) <==> Reason(cm, inst, name, call, f)))
      && (TurnedDown(e) ==> Quiet(e))
      && (!TurnedDown(e) <==> exists t :: Admitted(cm, inst, name, call, t))
  {
    var e := Perform(cm, inst, Fire(name, call));
    StepDecided(cm, inst, name, call);
    forall f | Reason(cm, inst, name, call, f) ensures e.outcome == Failed(f) && TurnedDown(e) {
      OneReason(cm, inst, name, call, f);
    }
    if TurnedDown(e) { OneReason(cm, inst, name, call, e.outcome.failure); }
  }

  /** So no step writes, announces or runs anything unless every guard of the transition was asked and passed. */
  lemma EveryGuardIsAsked(cm: CompiledMachine, inst: Instance, name: string, call: Call, g: string)
    requires Meets(cm, inst) && TransitionsProper(cm)
    requires name in cm.def.transitions && g in cm.def.transitions[name].guards && !call.guard(g, inst)
    ensures var e := Perform(cm, inst, Fire(name, call));
      e.outcome.Failed? && Quiet(e) && After(inst, e) == inst
  {
    RefusedExactly(cm, inst, name, call);
  }

  lemma EveryRunMeets(cm: CompiledMachine, header: Header, ops: seq<Op>)
    requires Machine(cm) && RegionLocal(cm) && StartsAtRest(cm) && "" !in cm.def.states
    ensures Meets(cm, Run(cm, NewInstance(cm, header), ops)) && TransitionsProper(cm)
  {
    EveryRunRests(cm, header, ops);
    MachineIsSane(cm);
    NoNamelessLeaf(cm, Run(cm, NewInstance(cm, header), ops));
  }

  /** In every run too, whatever the earlier operations did. */
  lemma EveryRunAsksGuards(cm: CompiledMachine, header: Header, ops: seq<Op>, name: string, call: Call, g: string)
    requires Machine(cm) && RegionLocal(cm) && StartsAtRest(cm) && "" !in cm.def.states
    requires name in cm.def.transitions && g in cm.def.transitions[name].guards
    requires !call.guard(g, Run(cm, NewInstance(cm, header), ops))
    ensures Run(cm, NewInstance(cm, header), ops + [Fire(name, call)]) == Run(cm, NewInstance(cm, header), ops)
  {
    var inst := Run(cm, NewInstance(cm, header), ops);
    EveryRunMeets(cm, header, ops);
    EveryGuardIsAsked(cm, inst, name, call, g);
    RunGrows(cm, NewInstance(cm, header), ops, Fire(name, call));
  }
}
