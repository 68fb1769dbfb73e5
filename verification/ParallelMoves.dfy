/** What leaving a parallel state and a step inside one do, said by the instance and the answers of the call alone
    (internal/runtime/parallel.go:28-402, internal/runtime/helpers.go:206-228). */
module ParallelMoves {
  import opened Definitions
  import opened Hierarchy
  import opened Names
  import opened Compile
  import opened Step
  import opened Descent
  import opened Machines
  import opened Configuration
  import opened Choices
  import opened Orthogonal
  import opened Progress
  import opened Recall
  import opened Activities
  import opened Refusals
  import opened Moves

  // ---- All or nothing -----------------------------------------------------------------------------------------------

  /** The activities are run up to the first failure; if all succeed and the commit does, `w` and the event are
      stored, otherwise nothing is. */
  ghost predicate WholeEffect(call: Call, acts: seq<Act>, tr: TransitionDef, w: Instance, event: Event, e: Effect) {
    && (NoneFails(call, |acts|) ==>
         e == if call.commits then Effect(Some(w), Some(event), {}, acts, Done(Some(tr)))
           else Effect(None, None, {}, acts, Failed(NotCommitted)))
    && (forall k: nat :: FailsFirst(call, k) && k < |acts| ==>
         e == Effect(None, None, {}, acts[..k + 1],
                     Failed(if acts[k].ExitAct? then ExitActivityFailed(acts[k].state)
                            else EntryActivityFailed(acts[k].state))))
  }

  // ---- Leaving a parallel state ------------------------------------------------------------------------------------

  /** Every compound between the parallel state and an active leaf remembers that leaf, every other state what it
      remembered before. */
  ghost predicate RemembersRegions(cm: CompiledMachine, inst: Instance, w: Instance) {
    forall c :: RegionRemembered(cm, inst, w, c)
  }

  ghost predicate RegionRemembered(cm: CompiledMachine, inst: Instance, w: Instance, c: string) {
    && (IsCompound(cm.def, c) ==>
         forall r :: r in inst.active && Between(cm, c, inst.active[r], inst.currentState) ==>
             Matches(cm, HistoryOf(w), c, Some(inst.active[r])))
    && (!IsCompound(cm.def, c) || (forall r :: r in inst.active ==> !Between(cm, c, inst.active[r], inst.currentState))
        ==> SameAt(HistoryOf(inst), HistoryOf(w), c))
  }

  lemma {:induction false} RegionsIgnoreLeaves(cm: CompiledMachine, inst: Instance, p: string, regions: seq<string>,
                                               n: nat, c: string)
    requires n <= |regions| && (forall r :: r in regions ==> r in inst.active) && !IsCompound(cm.def, c)
    ensures SameAt(HistoryOf(inst), HistoryOf(RecordedRegions(cm, inst, p, regions, n)), c)
  {
    if n > 0 {
      RegionsIgnoreLeaves(cm, inst, p, regions, n - 1, c);
      var before, leaf := RecordedRegions(cm, inst, p, regions, n - 1), inst.active[regions[n - 1]];
      var exits := ExitSeq(cm, leaf, p);
      RecordUntouched(cm.def, HistoryOf(before), leaf, exits, |exits|, c);
    }
  }

  lemma LeftRemembers(cm: CompiledMachine, inst: Instance, w: Instance)
    requires ChainsOk(cm) && RegionsProper(cm) && "" !in cm.def.states
    requires RestsWell(cm, inst) && IsParallel(cm.def, inst.currentState)
             && HistoryOf(w) == HistoryOf(LeftRegions(cm, inst))
    ensures RemembersRegions(cm, inst, w)
  {
    var regions := ActiveRegions(inst);
    forall c ensures RegionRemembered(cm, inst, w, c) {
      if IsCompound(cm.def, c) {
        AllRegionsRecord(cm, inst, c);
      } else {
        RegionsIgnoreLeaves(cm, inst, inst.currentState, regions, |regions|, c);
      }
    }
  }

  /** Each active leaf and its region, and the parallel state. */
  function Leaving(inst: Instance): set<string> {
    inst.active.Keys + inst.active.Values + {inst.currentState}
  }

  /** Whoever stands earlier belongs to a region with a smaller name, to the same region, or comes before the state
      itself. */
  ghost predicate Alphabetical(inst: Instance, states: seq<string>) {
    forall i, j :: 0 <= i < j < |states| ==> InAlphabet(inst, states[i], states[j])
  }

  ghost predicate InAlphabet(inst: Instance, x: string, y: string) {
    y == inst.currentState || exists r, q :: InBlock(inst.active, r, x) && InBlock(inst.active, q, y) && Leq(r, q)
  }

  ghost predicate ActsAlphabetical(inst: Instance, acts: seq<Act>) {
    forall i, j :: 0 <= i < j < |acts| ==> InAlphabet(inst, acts[i].state, acts[j].state)
  }

  lemma ActiveIsRooted(cm: CompiledMachine, inst: Instance)
    requires ChainsOk(cm) && RegionsProper(cm) && RestsWell(cm, inst) && IsParallel(cm.def, inst.currentState)
    ensures Rooted(cm, inst.currentState, ActiveRegions(inst), inst.active)
  {
    forall r | r in ActiveRegions(inst) ensures IsRegion(cm, inst.currentState, r) && r in Anc(cm, inst.active[r]) {
      RegionUp(cm, inst, r);
    }
  }

  lemma TurnIsAlphabetical(inst: Instance, x: string, y: string)
    requires InTurn(ActiveRegions(inst), inst.active, x, y)
    ensures InAlphabet(inst, x, y)
  {
    var rs := ActiveRegions(inst);
    var r, q :| r in rs && q in rs && InBlock(inst.active, r, x) && InBlock(inst.active, q, y)
        && (r == q || Ordered(rs, r, q));
    if r == q { LeqTotal(r, r); } else { OrderedLeq(inst.active.Keys, r, q); }
  }

  lemma OrderedLeq(names: set<string>, r: string, q: string)
    requires Ordered(Sorted(names), r, q)
    ensures Leq(r, q)
  {}

  /** The sequence of states that are left: no state before one below it, none twice, the regions by their names, and
      the parallel state last. */
  lemma ParallelExitOrder(cm: CompiledMachine, inst: Instance)
    requires ChainsOk(cm) && RegionsProper(cm) && RestsWell(cm, inst) && IsParallel(cm.def, inst.currentState)
    ensures var states := ParallelExitSeq(inst);
      && Elements(states) == Leaving(inst) && Rising(cm, states) && Alphabetical(inst, states)
      && states != [] && states[|states| - 1] == inst.currentState
  {
    var p, rs := inst.currentState, ActiveRegions(inst);
    var inner := RegionExits(inst.active, rs);
    ActiveIsRooted(cm, inst);
    RegionExitsRise(cm, p, rs, inst.active);
    ParallelExitCovers(inst);
    InnerThenState(cm, p, rs, inst.active, inner);
    InnerAlphabetical(inst, inner);
  }

  lemma InnerThenState(cm: CompiledMachine, p: string, rs: seq<string>, active: map<string, string>,
                       inner: seq<string>)
    requires ChainsOk(cm) && Rooted(cm, p, rs, active) && ByRegion(rs, active, inner) && Rising(cm, inner)
    ensures Rising(cm, inner + [p])
  {
    forall x, y | x in inner && y in [p] ensures x != y && x !in Anc(cm, y) {
      InnerBelow(cm, p, rs, active, inner, x);
      AboveIsNotBelow(cm, x, p);
    }
    RisingJoins(cm, inner, [p]);
  }

  lemma InnerAlphabetical(inst: Instance, inner: seq<string>)
    requires ByRegion(ActiveRegions(inst), inst.active, inner)
    ensures Alphabetical(inst, inner + [inst.currentState])
  {
    var states := inner + [inst.currentState];
    forall i, j | 0 <= i < j < |states| ensures InAlphabet(inst, states[i], states[j]) {
      if j < |inner| {
        assert InTurn(ActiveRegions(inst), inst.active, inner[i], inner[j]);
        TurnIsAlphabetical(inst, states[i], states[j]);
      }
    }
  }

  lemma ExitActsOrder(cm: CompiledMachine, inst: Instance)
    requires ChainsOk(cm) && RegionsProper(cm) && RestsWell(cm, inst) && IsParallel(cm.def, inst.currentState)
    ensures var xs := ExitActs(cm.def, ParallelExitSeq(inst));
      ExitsExactly(cm.def, xs, Leaving(inst)) && ChildFirst(cm, xs) && ActsAlphabetical(inst, xs)
  {
    var states := ParallelExitSeq(inst);
    ParallelExitOrder(cm, inst);
    ExitsOfRising(cm, states);
    var xs := ExitActs(cm.def, states);
    forall i, j | 0 <= i < j < |xs| ensures InAlphabet(inst, xs[i].state, xs[j].state) {
      assert Ordered(states, xs[i].state, xs[j].state);
    }
  }

  /** The effect by the number `k` of activities that succeed. */
  lemma WholeByCount(call: Call, acts: seq<Act>, tr: TransitionDef, w: Instance, event: Event, e: Effect, k: nat)
    requires k == FirstFail(call.fails, |acts|)
    requires k < |acts| ==> e == Effect(None, None, {}, acts[..k + 1], Failed(Failing(acts[k])))
    requires k == |acts| ==> e == Transact(call, Effect(Some(w), Some(event), {}, acts, Done(Some(tr))))
    ensures WholeEffect(call, acts, tr, w, event, e)
  {
    FirstFailIs(call, |acts|);
  }

  lemma ExitFails(cm: CompiledMachine, inst: Instance, tr: TransitionDef, target: string, call: Call, acts: seq<Act>,
                  k: nat)
    requires acts == ExitActs(cm.def, ParallelExitSeq(inst)) + EntryActs(cm.def, EntrySeq(cm, "", LeafOf(cm, target)))
    requires k == FirstFail(call.fails, |acts|) && k < |acts|
    ensures CommitParallelExit(cm, inst, tr, target, call)
            == Effect(None, None, {}, acts[..k + 1], Failed(Failing(acts[k])))
  {}

  lemma ExitDone(cm: CompiledMachine, inst: Instance, tr: TransitionDef, target: string, call: Call, acts: seq<Act>,
                 w: Instance)
    requires acts == ExitActs(cm.def, ParallelExitSeq(inst)) + EntryActs(cm.def, EntrySeq(cm, "", LeafOf(cm, target)))
    requires FirstFail(call.fails, |acts|) == |acts|
    requires w == Touch(LeftRegions(cm, inst), call.now).(currentState := LeafOf(cm, target), active := map[])
    ensures CommitParallelExit(cm, inst, tr, target, call)
            == Transact(call, Effect(Some(w), Some(MakeEvent(cm, inst, tr, call)), {}, acts, Done(Some(tr))))
  {}

  lemma ExitUnfolds(cm: CompiledMachine, inst: Instance, tr: TransitionDef, target: string, call: Call, acts: seq<Act>,
                    w: Instance)
    requires acts == ExitActs(cm.def, ParallelExitSeq(inst)) + EntryActs(cm.def, EntrySeq(cm, "", LeafOf(cm, target)))
    requires w == Touch(LeftRegions(cm, inst), call.now).(currentState := LeafOf(cm, target), active := map[])
    ensures WholeEffect(call, acts, tr, w, MakeEvent(cm, inst, tr, call),
                        CommitParallelExit(cm, inst, tr, target, call))
  {
    var k := FirstFail(call.fails, |acts|);
    if k < |acts| {
      ExitFails(cm, inst, tr, target, call, acts, k);
    } else {
      ExitDone(cm, inst, tr, target, call, acts, w);
    }
    WholeByCount(call, acts, tr, w, MakeEvent(cm, inst, tr, call), CommitParallelExit(cm, inst, tr, target, call), k);
  }

  lemma EntriesFromRoot(cm: CompiledMachine, s: string)
    requires ChainsOk(cm)
    ensures var es := EntryActs(cm.def, EntrySeq(cm, "", s));
      EntriesExactly(cm.def, es, Config(cm, s)) && ParentFirst(cm, es)
  {
    PathFalls(cm, "", s);
    EntriesOfFalling(cm, EntrySeq(cm, "", s));
    EntryFromRoot(cm, s);
  }

  lemma LeftKeeps(cm: CompiledMachine, inst: Instance)
    ensures var left := LeftRegions(cm, inst);
      left == inst.(shallow := left.shallow, deep := left.deep)
  {
    RegionsKeepRest(cm, inst, inst.currentState, ActiveRegions(inst), |ActiveRegions(inst)|);
  }

  /** What a transition out of a parallel state does. Whatever its history mode, it lands where the target starts; it
      leaves each active leaf and its region, children first and regions by name, and the parallel state last; it enters
      where it lands and all above that, parents first; no region starts there. */
  lemma ExitStep(cm: CompiledMachine, inst: Instance, name: string, call: Call, target: string)
    returns (w: Instance, xs: seq<Act>, es: seq<Act>)
    requires Reads(cm) && Meets(cm, inst) && TransitionsProper(cm) && "" !in cm.def.states
    requires |inst.active| > 0 && Admitted(cm, inst, name, call, target)
    requires inst.currentState in cm.def.transitions[name].sources
    ensures ExitsExactly(cm.def, xs, Leaving(inst)) && ChildFirst(cm, xs) && ActsAlphabetical(inst, xs)
    ensures EntriesExactly(cm.def, es, Config(cm, w.currentState)) && ParentFirst(cm, es)
    ensures StartsAt(cm.def, target, w.currentState) && RemembersRegions(cm, inst, w)
    ensures w == inst.(currentState := w.currentState, active := map[], shallow := w.shallow, deep := w.deep,
                       updatedAt := call.now, lastReadUpdatedAt := inst.updatedAt)
    ensures var tr := cm.def.transitions[name];
      WholeEffect(call, xs + es, tr, w, Announced(cm, inst, tr, call), Perform(cm, inst, Fire(name, call)))
  {
    var tr, s := cm.def.transitions[name], LeafOf(cm, target);
    w := Touch(LeftRegions(cm, inst), call.now).(currentState := s, active := map[]);
    xs, es := ExitActs(cm.def, ParallelExitSeq(inst)), EntryActs(cm.def, EntrySeq(cm, "", s));
    ActiveMeansParallel(cm, inst);
    ExitDecided(cm, inst, name, call);
    ExitUnfolds(cm, inst, tr, target, call, xs + es, w);
    ExitActsOrder(cm, inst);
    EntriesFromRoot(cm, s);
    LeftKeeps(cm, inst);
    LeftRemembers(cm, inst, w);
  }

  // ---- Inside a parallel state -------------------------------------------------------------------------------------

  function Flat(parts: seq<seq<Act>>): seq<Act> {
    if parts == [] then [] else parts[0] + Flat(parts[1..])
  }

  /** The `i`-th firing region leaves and enters the states by which its leaf and the target differ. */
  ghost predicate MovesAt(cm: CompiledMachine, leaf: string, target: string, xs: seq<Act>, es: seq<Act>) {
    && ExitsExactly(cm.def, xs, Left(cm, leaf, target)) && ChildFirst(cm, xs)
    && EntriesExactly(cm.def, es, Entered(cm, leaf, target)) && ParentFirst(cm, es)
  }

  lemma {:induction false} ConcatIsFlat(f: Candidate -> seq<Act>, cs: seq<Candidate>) returns (parts: seq<seq<Act>>)
    ensures |parts| == |cs| && (forall i :: 0 <= i < |cs| ==> parts[i] == f(cs[i])) && Concat(f, cs) == Flat(parts)
  {
    if cs == [] {
      parts := [];
    } else {
      var rest := ConcatIsFlat(f, cs[1..]);
      parts := [f(cs[0])] + rest;
      assert parts[1..] == rest;
    }
  }

  lemma {:induction false} MovedIs(active: map<string, string>, cs: seq<Candidate>, n: nat, target: string)
    requires n <= |cs| && forall i :: 0 <= i < |cs| ==> cs[i].region in active && cs[i].target == target
    ensures MovedRegions(active, cs, n)
            == map r | r in active :: if exists i :: 0 <= i < n && cs[i].region == r then target else active[r]
  {
    if n > 0 { MovedIs(active, cs, n - 1, target); }
  }

  /** The active leaves after the firing regions have moved. */
  function MovedLeaves(inst: Instance, rs: seq<string>, target: string): map<string, string> {
    map r | r in inst.active :: if r in rs then target else inst.active[r]
  }

  function InnerEvent(cm: CompiledMachine, inst: Instance, name: string, rs: seq<string>, target: string,
                      call: Call): Event
    requires forall r :: r in rs ==> r in inst.active
  {
    Event(call.eventId, ByMachine(cm, inst.header), "ParallelTransition", name,
          map r | r in rs :: (inst.active[r], target), call.now)
  }

  /** ParallelClock is an int64. */
  function NextClock(clock: int): int {
    if clock == 0x7fff_ffff_ffff_ffff then -0x8000_0000_0000_0000 else clock + 1
  }

  function RegionsOfCandidates(cs: seq<Candidate>): (rs: seq<string>)
    ensures |rs| == |cs| && forall i :: 0 <= i < |cs| ==> rs[i] == cs[i].region
  {
    seq(|cs|, i requires 0 <= i < |cs| => cs[i].region)
  }

  lemma FiringRegions(cm: CompiledMachine, inst: Instance, tr: TransitionDef, target: string, cs: seq<Candidate>)
    requires FiresExactly(cm, inst, tr, target, cs)
    ensures var rs := RegionsOfCandidates(cs);
      Ascending(rs) && forall r :: r in rs <==> r in SourcedRegions(cm, inst, tr)
  {
    var rs := RegionsOfCandidates(cs);
    forall r ensures r in rs <==> r in SourcedRegions(cm, inst, tr) {
      if r in rs {
        var i :| 0 <= i < |rs| && rs[i] == r;
        assert FiresAt(inst, tr, target, cs[i]) && cs[i] in cs;
        assert HasRegion(cs, r);
      }
      if r in SourcedRegions(cm, inst, tr) {
        assert HasRegion(cs, r);
        var c :| c in cs && c.region == r;
        var i :| 0 <= i < |cs| && cs[i] == c;
        assert rs[i] == r;
      }
    }
  }

  lemma LeavesMoved(inst: Instance, tr: TransitionDef, cs: seq<Candidate>, target: string)
    requires forall i :: 0 <= i < |cs| ==> FiresAt(inst, tr, target, cs[i])
    ensures MovedTo(inst.active, cs) == MovedLeaves(inst, RegionsOfCandidates(cs), target)
  {
    assert forall i :: 0 <= i < |cs| ==> FiresAt(inst, tr, target, cs[i]) && cs[i].region in inst.active;
    MovedIs(inst.active, cs, |cs|, target);
    var rs := RegionsOfCandidates(cs);
    forall r | r in inst.active ensures (exists i :: 0 <= i < |cs| && cs[i].region == r) <==> r in rs {
      if i :| 0 <= i < |cs| && cs[i].region == r { assert rs[i] in rs; }
      if r in rs { var i :| 0 <= i < |rs| && rs[i] == r; assert cs[i].region == r; }
    }
  }

  lemma EventAnnounces(inst: Instance, tr: TransitionDef, cs: seq<Candidate>, target: string)
    requires forall i :: 0 <= i < |cs| ==> FiresAt(inst, tr, target, cs[i])
    requires forall i, j :: 0 <= i < j < |cs| ==> cs[i].region != cs[j].region
    ensures var rs := RegionsOfCandidates(cs);
      (forall r :: r in rs ==> r in inst.active) && Changes(cs) == map r | r in rs :: (inst.active[r], target)
  {
    ChangesExact(cs, |cs|);
    var rs := RegionsOfCandidates(cs);
    forall i | 0 <= i < |cs| ensures rs[i] in inst.active { assert FiresAt(inst, tr, target, cs[i]); }
    forall r ensures r in Changes(cs) <==> r in rs {
      if r in rs { var i :| 0 <= i < |rs| && rs[i] == r; assert cs[i].region in Changes(cs); }
      if r in Changes(cs) { var i :| 0 <= i < |cs| && cs[i].region == r; assert rs[i] in rs; }
    }
    forall r | r in rs ensures Changes(cs)[r] == (inst.active[r], target) {
      var i :| 0 <= i < |rs| && rs[i] == r;
      assert FiresAt(inst, tr, target, cs[i]) && Changes(cs)[cs[i].region] == (cs[i].leaf, cs[i].target);
    }
  }

  lemma InnerUnfolds(cm: CompiledMachine, inst: Instance, name: string, cs: seq<Candidate>, call: Call, acts: seq<Act>)
    requires cs != [] && acts == CandidateActs(cm, cs)
    ensures WholeEffect(call, acts, cs[0].tr,
                        inst.(active := MovedTo(inst.active, cs), parallelClock := NextClock(inst.parallelClock),
                              updatedAt := call.now, lastReadUpdatedAt := inst.updatedAt),
                        Event(call.eventId, ByMachine(cm, inst.header), "ParallelTransition", name, Changes(cs),
                              call.now),
                        CommitParallelIntra(cm, inst, name, cs, call))
  {
    FirstFailIs(call, |acts|);
  }

  lemma CandidateMoves(cm: CompiledMachine, cs: seq<Candidate>, target: string)
    returns (xss: seq<seq<Act>>, ess: seq<seq<Act>>)
    requires ChainsOk(cm) && forall i :: 0 <= i < |cs| ==> cs[i].target == target
    ensures |xss| == |ess| == |cs| && CandidateActs(cm, cs) == Flat(xss) + Flat(ess)
    ensures forall i :: 0 <= i < |cs| ==> MovesAt(cm, cs[i].leaf, target, xss[i], ess[i])
  {
    xss := ConcatIsFlat(ExitsFor(cm), cs);
    ess := ConcatIsFlat(EntriesInto(cm), cs);
    forall i | 0 <= i < |cs| ensures MovesAt(cm, cs[i].leaf, target, xss[i], ess[i]) {
      assert xss[i] == ExitsOf(cm, cs[i]) && ess[i] == EntriesOf(cm, cs[i]);
      PathActivities(cm, cs[i].leaf, target);
    }
  }

  /** What a step inside a parallel state does. Exactly the regions with an active source fire, by name, all to the same
      target; first each leaves what its leaf and the target differ by, children first, then each enters it, parents
      first; only their leaves, the clock and the stamps change. */
  lemma InnerMove(cm: CompiledMachine, inst: Instance, name: string, call: Call, target: string)
    returns (rs: seq<string>, xss: seq<seq<Act>>, ess: seq<seq<Act>>)
    requires Meets(cm, inst) && TransitionsProper(cm) && |inst.active| > 0 && Admitted(cm, inst, name, call, target)
    requires inst.currentState !in cm.def.transitions[name].sources
    ensures Ascending(rs) && rs != [] && |xss| == |ess| == |rs|
    ensures forall r :: r in rs <==> r in inst.active && SourcedIn(cm, inst, cm.def.transitions[name], r)
    ensures forall i :: 0 <= i < |rs| ==>
      rs[i] in inst.active && MovesAt(cm, inst.active[rs[i]], target, xss[i], ess[i])
    ensures WholeEffect(call, Flat(xss) + Flat(ess), cm.def.transitions[name],
                        inst.(active := MovedLeaves(inst, rs, target), parallelClock := NextClock(inst.parallelClock),
                              updatedAt := call.now, lastReadUpdatedAt := inst.updatedAt),
                        InnerEvent(cm, inst, name, rs, target, call), Perform(cm, inst, Fire(name, call)))
  {
    InnerFires(cm, inst, name, call, target);
    rs, xss, ess := CandidatesMove(cm, inst, cm.def.transitions[name], name, call, target,
                                   AllCandidates(cm, inst, name, call).value);
  }

  lemma CandidatesMove(cm: CompiledMachine, inst: Instance, tr: TransitionDef, name: string, call: Call, target: string,
                       cs: seq<Candidate>) returns (rs: seq<string>, xss: seq<seq<Act>>, ess: seq<seq<Act>>)
    requires ChainsOk(cm) && cs != [] && FiresExactly(cm, inst, tr, target, cs)
    ensures Ascending(rs) && rs != [] && |xss| == |ess| == |rs|
    ensures forall r :: r in rs <==> r in inst.active && SourcedIn(cm, inst, tr, r)
    ensures forall i :: 0 <= i < |rs| ==>
      rs[i] in inst.active && MovesAt(cm, inst.active[rs[i]], target, xss[i], ess[i])
    ensures WholeEffect(call, Flat(xss) + Flat(ess), tr,
                        inst.(active := MovedLeaves(inst, rs, target), parallelClock := NextClock(inst.parallelClock),
                              updatedAt := call.now, lastReadUpdatedAt := inst.updatedAt),
                        InnerEvent(cm, inst, name, rs, target, call), CommitParallelIntra(cm, inst, name, cs, call))
  {
    rs := RegionsOfCandidates(cs);
    FiringRegions(cm, inst, tr, target, cs);
    assert forall i :: 0 <= i < |cs| ==> FiresAt(inst, tr, target, cs[i]);
    xss, ess := CandidateMoves(cm, cs, target);
    InnerUnfolds(cm, inst, name, cs, call, Flat(xss) + Flat(ess));
    LeavesMoved(inst, tr, cs, target);
    EventAnnounces(inst, tr, cs, target);
    forall i | 0 <= i < |rs| ensures rs[i] in inst.active && MovesAt(cm, inst.active[rs[i]], target, xss[i], ess[i]) {
      assert FiresAt(inst, tr, target, cs[i]);
    }
  }

  // ---- Every activity of an inner step -----------------------------------------------------------------------------

  lemma {:induction false} FlatHolds(parts: seq<seq<Act>>)
    ensures forall i, a :: 0 <= i < |parts| && a in parts[i] ==> a in Flat(parts)
    ensures forall a :: a in Flat(parts) ==> InPart(parts, a)
  {
    if parts != [] {
      var rest := parts[1..];
      FlatHolds(rest);
      forall a | a in Flat(parts) ensures InPart(parts, a) {
        if a in parts[0] {
        } else {
          assert InPart(rest, a);
          var i :| 0 <= i < |rest| && a in rest[i];
          assert a in parts[i + 1];
        }
      }
      forall i, a | 0 <= i < |parts| && a in parts[i] ensures a in Flat(parts) {
        if i > 0 { assert a in rest[i - 1]; }
      }
    }
  }

  ghost predicate InPart(parts: seq<seq<Act>>, a: Act) {
    exists i :: 0 <= i < |parts| && a in parts[i]
  }

  /** What some firing region leaves ... */
  ghost function StatesLeft(cm: CompiledMachine, inst: Instance, tr: TransitionDef, target: string): set<string> {
    set r, x | r in SourcedRegions(cm, inst, tr) && x in Left(cm, inst.active[r], target) :: x
  }

  /** ... and what some firing region enters. */
  ghost function StatesEntered(cm: CompiledMachine, inst: Instance, tr: TransitionDef, target: string): set<string> {
    set r, x | r in SourcedRegions(cm, inst, tr) && x in Entered(cm, inst.active[r], target) :: x
  }

  /** When an inner step is done it has run the exit activity of every state that some region leaves, then the entry
      activity of every state that some region enters, and nothing else. */
  lemma InnerRunsAll(cm: CompiledMachine, inst: Instance, name: string, call: Call, target: string)
    returns (xs: seq<Act>, es: seq<Act>)
    requires Meets(cm, inst) && TransitionsProper(cm) && |inst.active| > 0 && Admitted(cm, inst, name, call, target)
    requires inst.currentState !in cm.def.transitions[name].sources
    requires Perform(cm, inst, Fire(name, call)).outcome.Done?
    ensures Perform(cm, inst, Fire(name, call)).ran == xs + es
    ensures AllExits(cm.def, xs, StatesLeft(cm, inst, cm.def.transitions[name], target))
    ensures AllEntries(cm.def, es, StatesEntered(cm, inst, cm.def.transitions[name], target))
  {
    var tr, e := cm.def.transitions[name], Perform(cm, inst, Fire(name, call));
    var rs, xss, ess := InnerMove(cm, inst, name, call, target);
    xs, es := Flat(xss), Flat(ess);
    WholeDone(call, xs + es, tr, e);
    ExitPartsAreAll(cm, inst, tr, target, rs, xss);
    EntryPartsAreAll(cm, inst, tr, target, rs, ess);
  }

  lemma ExitPartsAreAll(cm: CompiledMachine, inst: Instance, tr: TransitionDef, target: string, rs: seq<string>,
                        xss: seq<seq<Act>>)
    requires |xss| == |rs| && forall r :: r in rs <==> r in SourcedRegions(cm, inst, tr)
    requires forall i :: 0 <= i < |rs| ==>
      rs[i] in inst.active && AllExits(cm.def, xss[i], Left(cm, inst.active[rs[i]], target))
    ensures AllExits(cm.def, Flat(xss), StatesLeft(cm, inst, tr, target))
  {
    FlatHolds(xss);
    var acts, left := Flat(xss), StatesLeft(cm, inst, tr, target);
    forall k | 0 <= k < |acts| ensures acts[k].ExitAct? && Own(cm.def, acts[k]) && acts[k].state in left {
      assert InPart(xss, acts[k]);
      var i :| 0 <= i < |xss| && acts[k] in xss[i];
      assert rs[i] in rs;
    }
    forall s | s in left && s in cm.def.states && cm.def.states[s].exitActivity != ""
      ensures ExitAct(s, cm.def.states[s].exitActivity) in acts
    {
      var r :| r in SourcedRegions(cm, inst, tr) && s in Left(cm, inst.active[r], target);
      assert r in rs;
      var i :| 0 <= i < |rs| && rs[i] == r;
      assert ExitAct(s, cm.def.states[s].exitActivity) in xss[i];
    }
  }

  lemma EntryPartsAreAll(cm: CompiledMachine, inst: Instance, tr: TransitionDef, target: string, rs: seq<string>,
                         ess: seq<seq<Act>>)
    requires |ess| == |rs| && forall r :: r in rs <==> r in SourcedRegions(cm, inst, tr)
    requires forall i :: 0 <= i < |rs| ==>
      rs[i] in inst.active && AllEntries(cm.def, ess[i], Entered(cm, inst.active[rs[i]], target))
    ensures AllEntries(cm.def, Flat(ess), StatesEntered(cm, inst, tr, target))
  {
    FlatHolds(ess);
    var acts, entered := Flat(ess), StatesEntered(cm, inst, tr, target);
    forall k | 0 <= k < |acts| ensures acts[k].EntryAct? && Own(cm.def, acts[k]) && acts[k].state in entered {
      assert InPart(ess, acts[k]);
      var i :| 0 <= i < |ess| && acts[k] in ess[i];
      assert rs[i] in rs;
    }
    forall s | s in entered && s in cm.def.states && cm.def.states[s].entryActivity != ""
      ensures EntryAct(s, cm.def.states[s].entryActivity) in acts
    {
      var r :| r in SourcedRegions(cm, inst, tr) && s in Entered(cm, inst.active[r], target);
      assert r in rs;
      var i :| 0 <= i < |rs| && rs[i] == r;
      assert EntryAct(s, cm.def.states[s].entryActivity) in ess[i];
    }
  }

  lemma WholeDone(call: Call, acts: seq<Act>, tr: TransitionDef, e: Effect)
    requires e.outcome.Done? && exists w, event :: WholeEffect(call, acts, tr, w, event, e)
    ensures e.ran == acts
  {
    FirstFailIs(call, |acts|);
  }
}
