/** What every operation does, said by the definition, the instance and the answers of the call alone: where it leads,
    which activities it runs in which order, what it writes, announces and cancels, and how it ends
    (internal/runtime/executor.go:207-552, internal/runtime/parallel.go:163-402). */
module Moves {
  import opened Definitions
  import opened Hierarchy
  import opened Compile
  import opened Step
  import opened Descent
  import opened Machines
  import opened Configuration
  import opened Orthogonal
  import opened Recall
  import opened Activities
  import opened Refusals

  /** Leaves are where the walks along initial children end, and regions are the children in their order. */
  ghost predicate Reads(cm: CompiledMachine) {
    && ChainsOk(cm) && LeavesRest(cm) && RegionsProper(cm)
    && (forall s {:trigger LeafOf(cm, s)} :: StartsAt(cm.def, s, LeafOf(cm, s)))
    && (forall p :: p in cm.regions ==> p in cm.def.states && cm.regions[p] == cm.def.states[p].children)
    && (forall p, r :: r in RegionsOf(cm, p) ==> r in cm.initialLeaf)
  }

  lemma MachineReads(cm: CompiledMachine)
    requires Machine(cm)
    ensures Reads(cm) && TransitionsProper(cm)
  {
    MachineIsSane(cm);
    forall s ensures StartsAt(cm.def, s, LeafOf(cm, s)) { LookupIsStart(cm, s); }
    forall p, r | r in RegionsOf(cm, p) ensures r in cm.initialLeaf { assert IsRegion(cm, p, r); }
  }

  predicate NoneFails(call: Call, n: nat) {
    forall j: nat :: j < n ==> !call.fails(j)
  }

  /** The first activity to fail is the `k`-th that is run. */
  predicate FailsFirst(call: Call, k: nat) {
    call.fails(k) && NoneFails(call, k)
  }

  lemma FirstFailIs(call: Call, n: nat)
    ensures NoneFails(call, n) <==> FirstFail(call.fails, n) == n
    ensures forall k: nat :: k < n && FailsFirst(call, k) ==> FirstFail(call.fails, n) == k
    ensures NoneFails(call, n) || exists k: nat :: k < n && FailsFirst(call, k)
  {
    var k := FirstFail(call.fails, n);
    if k < n { assert FailsFirst(call, k); }
  }

  // ---- Plain transitions ----------------------------------------------------------------------------------------

  /** Deep history leads to the recorded leaf, shallow history to where the recorded child starts, and without a record
      or a mode the target itself says where it starts. */
  ghost predicate Lands(cm: CompiledMachine, inst: Instance, mode: HistoryMode, target: string, s: string) {
    if mode == Deep && target in inst.deep then s == inst.deep[target]
    else if mode == Shallow && target in inst.shallow then StartsAt(cm.def, inst.shallow[target], s)
    else StartsAt(cm.def, target, s)
  }

  /** Every child of a parallel state is active where it starts; elsewhere nothing is. */
  ghost predicate StartsRegions(cm: CompiledMachine, s: string, active: map<string, string>) {
    && active.Keys == (if IsParallel(cm.def, s) then Elements(cm.def.states[s].children) else {})
    && forall r :: r in active ==> StartsAt(cm.def, r, active[r])
  }

  /** The compounds that a move to `s` leaves remember the present leaf and their child towards it, every other state
      what it remembered before. */
  ghost predicate Remembers(cm: CompiledMachine, inst: Instance, s: string, w: Instance) {
    forall c :: RemembersAt(cm, inst, s, w, c)
  }

  ghost predicate RemembersAt(cm: CompiledMachine, inst: Instance, s: string, w: Instance, c: string) {
    if IsCompound(cm.def, c) && c in Left(cm, inst.currentState, s) then
      Matches(cm, HistoryOf(w), c, Some(inst.currentState))
    else SameAt(HistoryOf(inst), HistoryOf(w), c)
  }

  /** The states that are left, and all states below them. */
  ghost predicate Cleans(cm: CompiledMachine, left: set<string>, cancels: set<string>) {
    forall x :: x in cancels <==> x in left || (x in cm.def.states && exists y :: y in left && y in Anc(cm, x))
  }

  /** The same aggregate and correlation, with the workflow type and the version of the machine. */
  function ByMachine(cm: CompiledMachine, h: Header): Header {
    Header(h.id, cm.def.workflowType, cm.def.version, h.aggregateType, h.aggregateId, h.correlationId, h.createdAt)
  }

  function Announced(cm: CompiledMachine, inst: Instance, tr: TransitionDef, call: Call): Event {
    Event(call.eventId, ByMachine(cm, inst.header), tr.event, tr.name, map[], call.now)
  }

  /** All activities succeeded. */
  ghost predicate Arrives(cm: CompiledMachine, inst: Instance, tr: TransitionDef, s: string, active: map<string,
                          string>,
                          call: Call, e: Effect) {
    if !call.commits then e.written.None? && e.event.None? && e.cancels == {} && e.outcome == Failed(NotCommitted)
    else
      && e.outcome == Done(Some(tr)) && e.event == Some(Announced(cm, inst, tr, call)) && e.written.Some?
      && Cleans(cm, Left(cm, inst.currentState, s), e.cancels)
      && var w := e.written.value;
      && w == inst.(currentState := s, active := active, shallow := w.shallow, deep := w.deep, updatedAt := call.now,
                    lastReadUpdatedAt := inst.updatedAt)
      && Remembers(cm, inst, s, w)
  }

  /** The entry activity of `at` failed. */
  ghost predicate Sticks(cm: CompiledMachine, inst: Instance, tr: TransitionDef, s: string, at: string, call: Call,
                         e: Effect) {
    if !call.commits then
      && e.written.None? && e.event.None? && e.cancels == {}
      && e.outcome == Failed(if call.savepoints then NotCommitted else EntryActivityFailed(at))
    else
      && e.outcome == Failed(EntryActivityFailed(at)) && e.written.Some?
      && e.event == (if call.savepoints then Some(Announced(cm, inst, tr, call)) else None)
      && (if call.savepoints then Cleans(cm, Left(cm, inst.currentState, s), e.cancels) else e.cancels == {})
      && var w := e.written.value;
      && w == inst.(isStuck := true, stuckReason := at, shallow := w.shallow, deep := w.deep, updatedAt := call.now,
                    lastReadUpdatedAt := inst.updatedAt)
      && Remembers(cm, inst, s, w)
  }

  /** The exits `xs` and then the entries `es` are run up to the first failure. */
  ghost predicate PlainEffect(cm: CompiledMachine, inst: Instance, tr: TransitionDef, s: string,
                              active: map<string, string>, xs: seq<Act>, es: seq<Act>, call: Call, e: Effect) {
    && (NoneFails(call, |xs| + |es|) ==> e.ran == xs + es && Arrives(cm, inst, tr, s, active, call, e))
    && (forall k: nat :: FailsFirst(call, k) && k < |xs| ==>
         e == Effect(None, None, {}, xs[..k + 1], Failed(ExitActivityFailed(xs[k].state))))
    && (forall k: nat :: FailsFirst(call, k) && |xs| <= k < |xs| + |es| ==>
         e.ran == (xs + es)[..k + 1] && Sticks(cm, inst, tr, s, es[k - |xs|].state, call, e))
  }

  /** The exits and entries of a move from `a` to `s` that starts the regions in `active`. */
  ghost predicate PlainActivities(cm: CompiledMachine, a: string, s: string, active: map<string, string>, xs: seq<Act>,
                                  es: seq<Act>) {
    && ExitsExactly(cm.def, xs, Left(cm, a, s)) && ChildFirst(cm, xs)
    && EntriesExactly(cm.def, es, Entered(cm, a, s) + active.Keys + active.Values) && ParentFirst(cm, es)
    && (IsParallel(cm.def, s) ==> EntersInTurn(cm.def.states[s].children, active, es))
  }

  /** Regions are entered in the order of the children. */
  ghost predicate EntersInTurn(regions: seq<string>, active: map<string, string>, es: seq<Act>) {
    forall i, j :: 0 <= i < j < |es| && SomeBlock(regions, active, es[i].state)
      && SomeBlock(regions, active, es[j].state)
      ==> InTurn(regions, active, es[i].state, es[j].state)
  }

  lemma LandsResolved(cm: CompiledMachine, inst: Instance, tr: TransitionDef, target: string)
    requires Reads(cm)
    ensures Lands(cm, inst, tr.historyMode, target, ResolveTarget(cm, inst, target, tr.historyMode))
  {
    assert StartsAt(cm.def, target, LeafOf(cm, target));
    if target in inst.shallow { assert StartsAt(cm.def, inst.shallow[target], LeafOf(cm, inst.shallow[target])); }
  }

  lemma RegionsStart(cm: CompiledMachine, s: string)
    requires Reads(cm)
    ensures StartsRegions(cm, s, InitialRegions(cm, s))
  {
    var active := InitialRegions(cm, s);
    assert active.Keys == Elements(RegionsOf(cm, s));
    forall r | r in active ensures StartsAt(cm.def, r, active[r]) { assert active[r] == LeafOf(cm, r); }
  }

  lemma RecordedRemembers(cm: CompiledMachine, inst: Instance, s: string, w: Instance)
    requires ChainsOk(cm) && inst.currentState != "" && IsLeaf(cm.def, inst.currentState)
    requires HistoryOf(w) == HistoryOf(Recorded(cm.def, inst, inst.currentState,
                                                ExitSeq(cm, inst.currentState, Lca(cm, inst.currentState, s))))
    ensures Remembers(cm, inst, s, w)
  {
    var a := inst.currentState;
    var lca := Lca(cm, a, s);
    LeftIsExited(cm, a, s);
    var exits := ExitSeq(cm, a, lca);
    forall c ensures RemembersAt(cm, inst, s, w, c) {
      assert c in exits <==> c in Elements(exits);
      if IsCompound(cm.def, c) {
        RecordExact(cm, HistoryOf(inst), a, lca, c);
      } else {
        RecordUntouched(cm.def, HistoryOf(inst), a, exits, |exits|, c);
      }
    }
  }

  lemma SubtreesClean(cm: CompiledMachine, roots: seq<string>)
    ensures Cleans(cm, Elements(roots), Subtrees(cm, roots))
  {
    forall x ensures x in Subtrees(cm, roots)
                     <==> x in Elements(roots) || (x in cm.def.states
                                                   && exists y :: y in Elements(roots) && y in Anc(cm, x)) {
      if y :| y in Elements(roots) && y in Anc(cm, x) { assert y in roots; }
      if r :| r in roots && r in Anc(cm, x) { assert r in Elements(roots); }
    }
  }

  // ---- The activities of a plain transition ----------------------------------------------------------------------

  lemma StartsAreRooted(cm: CompiledMachine, p: string)
    requires Reads(cm) && IsParallel(cm.def, p)
    ensures Rooted(cm, p, cm.regions[p], InitialRegions(cm, p)) && AtStarts(cm, cm.regions[p], InitialRegions(cm, p))
    ensures cm.regions[p] == cm.def.states[p].children
  {
    forall r | r in cm.regions[p]
      ensures r in cm.initialLeaf && IsRegion(cm, p, r) && r in Anc(cm, LeafOf(cm, r))
    {
      assert r in RegionsOf(cm, p) && IsRegion(cm, p, r);
      assert RestsAt(cm, r, LeafOf(cm, r));
    }
  }

  /** The states on the way to a parallel state, then its regions. */
  lemma EntriesFallInto(cm: CompiledMachine, lca: string, p: string, active: map<string, string>)
    requires ChainsOk(cm) && p in cm.regions && active == InitialRegions(cm, p)
    requires Rooted(cm, p, cm.regions[p], active) && AtStarts(cm, cm.regions[p], active)
    ensures Falling(cm, EntriesFor(cm, lca, p)) && ByRegion(cm.regions[p], active, RegionEntries(cm, cm.regions[p]))
    ensures Elements(EntriesFor(cm, lca, p)) == Elements(EntrySeq(cm, lca, p)) + active.Keys + active.Values
    ensures forall x :: x in EntrySeq(cm, lca, p) ==> !SomeBlock(cm.regions[p], active, x)
  {
    var rs := cm.regions[p];
    var path, inner := EntrySeq(cm, lca, p), RegionEntries(cm, rs);
    PathFalls(cm, lca, p);
    RegionEntriesFall(cm, p, rs, active);
    forall x | x in path ensures !SomeBlock(rs, active, x) {
      if r :| r in rs && InBlock(active, r, x) { PathOutside(cm, lca, p, x, rs, active, r); }
    }
    PathThenInner(cm, lca, p, rs, active, inner);
    FallingJoins(cm, path, inner);
    EntriesCover(cm, lca, p);
  }

  lemma PathThenInner(cm: CompiledMachine, lca: string, p: string, rs: seq<string>, active: map<string, string>,
                      inner: seq<string>)
    requires ChainsOk(cm) && Rooted(cm, p, rs, active) && ByRegion(rs, active, inner)
    ensures forall x, y :: x in EntrySeq(cm, lca, p) && y in inner ==> x != y && y !in Anc(cm, x)
  {
    forall x, y | x in EntrySeq(cm, lca, p) && y in inner ensures x != y && y !in Anc(cm, x) {
      InnerBelow(cm, p, rs, active, inner, y);
      PathAbove(cm, lca, p, x);
      BelowIsOutside(cm, y, p);
      if x != p && y in Anc(cm, x) { AncTransitive(cm, p, x, y); }
    }
  }

  lemma PathAbove(cm: CompiledMachine, lca: string, p: string, x: string)
    requires x in EntrySeq(cm, lca, p)
    ensures x in Config(cm, p)
  {
    ExitEntrySame(cm, p, lca);
    assert x in Elements(EntrySeq(cm, lca, p));
  }

  lemma PathOutside(cm: CompiledMachine, lca: string, p: string, x: string, rs: seq<string>,
                    active: map<string, string>, r: string)
    requires ChainsOk(cm) && Rooted(cm, p, rs, active) && x in EntrySeq(cm, lca, p) && r in rs
    ensures !InBlock(active, r, x)
  {
    PathAbove(cm, lca, p, x);
    if InBlock(active, r, x) {
      BlockIsBelow(cm, p, rs, active, r, x);
      BelowIsOutside(cm, x, p);
      assert false;
    }
  }

  lemma InnerBelow(cm: CompiledMachine, p: string, rs: seq<string>, active: map<string, string>, inner: seq<string>,
                   y: string)
    requires ChainsOk(cm) && Rooted(cm, p, rs, active) && ByRegion(rs, active, inner) && y in inner
    ensures p in Anc(cm, y)
  {
    var k :| 0 <= k < |inner| && inner[k] == y;
    assert SomeBlock(rs, active, inner[k]);
    var r :| r in rs && InBlock(active, r, y);
    BlockIsBelow(cm, p, rs, active, r, y);
  }

  /** Activities that follow a path and then regions take the regions in turn. */
  lemma FollowsInTurn(rs: seq<string>, active: map<string, string>, path: seq<string>, inner: seq<string>,
                      es: seq<Act>)
    requires Follows(es, path + inner) && ByRegion(rs, active, inner)
    requires forall x :: x in path ==> !SomeBlock(rs, active, x)
    ensures EntersInTurn(rs, active, es)
  {
    assert forall k :: 0 <= k < |path| ==> !SomeBlock(rs, active, path[k]);
    forall i, j | 0 <= i < j < |es| && SomeBlock(rs, active, es[i].state) && SomeBlock(rs, active, es[j].state)
      ensures InTurn(rs, active, es[i].state, es[j].state)
    {
      assert Ordered(path + inner, es[i].state, es[j].state);
      var a, b :| 0 <= a < b < |path + inner| && (path + inner)[a] == es[i].state && (path + inner)[b] == es[j].state;
      assert a >= |path|;
      assert InTurn(rs, active, inner[a - |path|], inner[b - |path|]);
    }
  }

  lemma ParallelEntries(cm: CompiledMachine, a: string, p: string, active: map<string, string>)
    requires Reads(cm) && IsParallel(cm.def, p) && active == InitialRegions(cm, p)
    ensures var es := EntryActs(cm.def, EntriesFor(cm, Lca(cm, a, p), p));
      && EntriesExactly(cm.def, es, Entered(cm, a, p) + active.Keys + active.Values) && ParentFirst(cm, es)
      && EntersInTurn(cm.def.states[p].children, active, es)
  {
    var lca := Lca(cm, a, p);
    StartsAreRooted(cm, p);
    LeftIsExited(cm, a, p);
    EntriesFallInto(cm, lca, p, active);
    EntriesOfFalling(cm, EntriesFor(cm, lca, p));
    FollowsInTurn(cm.regions[p], active, EntrySeq(cm, lca, p), RegionEntries(cm, cm.regions[p]),
                  EntryActs(cm.def, EntriesFor(cm, lca, p)));
  }

  lemma LeafEntries(cm: CompiledMachine, a: string, s: string, active: map<string, string>)
    requires Reads(cm) && !IsParallel(cm.def, s) && active == InitialRegions(cm, s)
    ensures var es := EntryActs(cm.def, EntriesFor(cm, Lca(cm, a, s), s));
      EntriesExactly(cm.def, es, Entered(cm, a, s) + active.Keys + active.Values) && ParentFirst(cm, es)
  {
    PathActivities(cm, a, s);
    assert active == map[];
    assert Entered(cm, a, s) + active.Keys + active.Values == Entered(cm, a, s);
  }

  lemma PlainActs(cm: CompiledMachine, a: string, s: string)
    requires Reads(cm)
    ensures var lca := Lca(cm, a, s);
      PlainActivities(cm, a, s, InitialRegions(cm, s), ExitActs(cm.def, ExitSeq(cm, a, lca)),
                      EntryActs(cm.def, EntriesFor(cm, lca, s)))
  {
    PathActivities(cm, a, s);
    if IsParallel(cm.def, s) {
      ParallelEntries(cm, a, s, InitialRegions(cm, s));
    } else {
      LeafEntries(cm, a, s, InitialRegions(cm, s));
    }
  }

  // ---- The effect of a plain transition ---------------------------------------------------------------------------

  /** What is written, announced and cancelled, by the number of activities that succeed. */
  ghost predicate ByCount(cm: CompiledMachine, inst: Instance, tr: TransitionDef, plan: Plan, call: Call, xs: seq<Act>,
                          acts: seq<Act>, k: nat, e: Effect)
    requires |xs| <= |acts|
  {
    var left := Recorded(cm.def, inst, inst.currentState, plan.exits);
    && (k < |xs| ==> e == Effect(None, None, {}, acts[..k + 1], Failed(Failing(acts[k]))))
    && (|xs| <= k < |acts| ==>
          e == Transact(call, Effect(Some(Stuck(left, acts[k].state, call.now)),
                                     if call.savepoints then Some(MakeEvent(cm, inst, tr, call)) else None,
                                     if call.savepoints then Subtrees(cm, plan.exits) else {}, acts[..k + 1],
                                     Failed(Failing(acts[k])))))
    && (k == |acts| ==>
          e == Transact(call, Effect(Some(Arrive(cm, left, plan.resolved, call.now)),
                                     Some(MakeEvent(cm, inst, tr, call)),
                                     Subtrees(cm, plan.exits), acts, Done(Some(tr)))))
  }

  lemma UnfoldOut(cm: CompiledMachine, inst: Instance, tr: TransitionDef, target: string, call: Call, xs: seq<Act>,
                  acts: seq<Act>, k: nat, plan: Plan)
    requires plan == PlanFor(cm, inst, tr, target) && xs == ExitActs(cm.def, plan.exits)
    requires acts == xs + EntryActs(cm.def, plan.entries) && k == FirstFail(call.fails, |acts|)
    requires k < |xs|
    ensures CommitPlain(cm, inst, tr, target, call)
            == Effect(None, None, {}, acts[..k + 1], Failed(Failing(acts[k])))
  {}

  lemma UnfoldStuck(cm: CompiledMachine, inst: Instance, tr: TransitionDef, target: string, call: Call, xs: seq<Act>,
                    acts: seq<Act>, k: nat, plan: Plan)
    requires plan == PlanFor(cm, inst, tr, target) && xs == ExitActs(cm.def, plan.exits)
    requires acts == xs + EntryActs(cm.def, plan.entries) && k == FirstFail(call.fails, |acts|)
    requires |xs| <= k < |acts|
    ensures CommitPlain(cm, inst, tr, target, call)
            == Transact(call, Effect(Some(Stuck(Recorded(cm.def, inst, inst.currentState, plan.exits), acts[k].state,
                                                call.now)),
                                     if call.savepoints then Some(MakeEvent(cm, inst, tr, call)) else None,
                                     if call.savepoints then Subtrees(cm, plan.exits) else {}, acts[..k + 1],
                                     Failed(Failing(acts[k]))))
  {}

  lemma UnfoldDone(cm: CompiledMachine, inst: Instance, tr: TransitionDef, target: string, call: Call, xs: seq<Act>,
                   acts: seq<Act>, k: nat, plan: Plan)
    requires plan == PlanFor(cm, inst, tr, target) && xs == ExitActs(cm.def, plan.exits)
    requires acts == xs + EntryActs(cm.def, plan.entries) && k == FirstFail(call.fails, |acts|)
    requires k == |acts|
    ensures CommitPlain(cm, inst, tr, target, call)
            == Transact(call, Effect(Some(Arrive(cm, Recorded(cm.def, inst, inst.currentState, plan.exits),
                                                 plan.resolved, call.now)),
                                     Some(MakeEvent(cm, inst, tr, call)), Subtrees(cm, plan.exits), acts,
                                       Done(Some(tr))))
  {}

  lemma PlainUnfolds(cm: CompiledMachine, inst: Instance, tr: TransitionDef, target: string, call: Call, xs: seq<Act>,
                     acts: seq<Act>, k: nat, plan: Plan)
    requires plan == PlanFor(cm, inst, tr, target) && xs == ExitActs(cm.def, plan.exits)
    requires acts == xs + EntryActs(cm.def, plan.entries) && k == FirstFail(call.fails, |acts|)
    ensures ByCount(cm, inst, tr, plan, call, xs, acts, k, CommitPlain(cm, inst, tr, target, call))
  {
    if k < |xs| {
      UnfoldOut(cm, inst, tr, target, call, xs, acts, k, plan);
    } else if k < |acts| {
      UnfoldStuck(cm, inst, tr, target, call, xs, acts, k, plan);
    } else {
      UnfoldDone(cm, inst, tr, target, call, xs, acts, k, plan);
    }
  }

  lemma RecordingKeeps(def: Definition, inst: Instance, leaf: string, exits: seq<string>)
    ensures var left := Recorded(def, inst, leaf, exits);
      left == inst.(shallow := left.shallow, deep := left.deep)
  {}

  lemma ArrivalIs(cm: CompiledMachine, inst: Instance, tr: TransitionDef, s: string, call: Call, exits: seq<string>,
                  acts: seq<Act>, e: Effect)
    requires ChainsOk(cm) && inst.currentState != "" && IsLeaf(cm.def, inst.currentState)
    requires exits == ExitSeq(cm, inst.currentState, Lca(cm, inst.currentState, s))
    requires e == Transact(call, Effect(Some(Arrive(cm, Recorded(cm.def, inst, inst.currentState, exits), s, call.now)),
                                        Some(MakeEvent(cm, inst, tr, call)), Subtrees(cm, exits), acts, Done(Some(tr))))
    ensures e.ran == acts && Arrives(cm, inst, tr, s, InitialRegions(cm, s), call, e)
  {
    RecordingKeeps(cm.def, inst, inst.currentState, exits);
    SubtreesClean(cm, exits);
    LeftIsExited(cm, inst.currentState, s);
    if e.written.Some? { RecordedRemembers(cm, inst, s, e.written.value); }
  }

  lemma StickingIs(cm: CompiledMachine, inst: Instance, tr: TransitionDef, s: string, at: string, call: Call,
                   exits: seq<string>, acts: seq<Act>, e: Effect)
    requires ChainsOk(cm) && inst.currentState != "" && IsLeaf(cm.def, inst.currentState)
    requires exits == ExitSeq(cm, inst.currentState, Lca(cm, inst.currentState, s))
    requires e == Transact(call, Effect(Some(Stuck(Recorded(cm.def, inst, inst.currentState, exits), at, call.now)),
                                        if call.savepoints then Some(MakeEvent(cm, inst, tr, call)) else None,
                                        if call.savepoints then Subtrees(cm, exits) else {}, acts,
                                        Failed(EntryActivityFailed(at))))
    ensures e.ran == acts && Sticks(cm, inst, tr, s, at, call, e)
  {
    RecordingKeeps(cm.def, inst, inst.currentState, exits);
    SubtreesClean(cm, exits);
    LeftIsExited(cm, inst.currentState, s);
    if e.written.Some? { RecordedRemembers(cm, inst, s, e.written.value); }
  }

  lemma PlainCommits(cm: CompiledMachine, inst: Instance, tr: TransitionDef, target: string, call: Call, xs: seq<Act>,
                     es: seq<Act>, s: string)
    requires ChainsOk(cm) && inst.currentState != "" && IsLeaf(cm.def, inst.currentState)
    requires var plan := PlanFor(cm, inst, tr, target);
      s == plan.resolved && xs == ExitActs(cm.def, plan.exits) && es == EntryActs(cm.def, plan.entries)
    requires forall i :: 0 <= i < |xs| ==> xs[i].ExitAct?
    requires forall i :: 0 <= i < |es| ==> es[i].EntryAct?
    ensures PlainEffect(cm, inst, tr, s, InitialRegions(cm, s), xs, es, call, CommitPlain(cm, inst, tr, target, call))
  {
    PlainUnfolds(cm, inst, tr, target, call, xs, xs + es, FirstFail(call.fails, |xs + es|),
                 PlanFor(cm, inst, tr, target));
    CountMeans(cm, inst, tr, PlanFor(cm, inst, tr, target), call, xs, es, CommitPlain(cm, inst, tr, target, call));
  }

  lemma CountMeans(cm: CompiledMachine, inst: Instance, tr: TransitionDef, plan: Plan, call: Call, xs: seq<Act>,
                   es: seq<Act>, e: Effect)
    requires ChainsOk(cm) && inst.currentState != "" && IsLeaf(cm.def, inst.currentState)
    requires plan.exits == ExitSeq(cm, inst.currentState, Lca(cm, inst.currentState, plan.resolved))
    requires forall i :: 0 <= i < |xs| ==> xs[i].ExitAct?
    requires forall i :: 0 <= i < |es| ==> es[i].EntryAct?
    requires ByCount(cm, inst, tr, plan, call, xs, xs + es, FirstFail(call.fails, |xs + es|), e)
    ensures PlainEffect(cm, inst, tr, plan.resolved, InitialRegions(cm, plan.resolved), xs, es, call, e)
  {
    var k, exits, s := FirstFail(call.fails, |xs + es|), plan.exits, plan.resolved;
    FirstFailIs(call, |xs + es|);
    if k < |xs| {
      assert (xs + es)[..k + 1] == xs[..k + 1];
    } else if k < |xs| + |es| {
      assert Failing((xs + es)[k]) == EntryActivityFailed(es[k - |xs|].state);
      StickingIs(cm, inst, tr, s, es[k - |xs|].state, call, exits, (xs + es)[..k + 1], e);
    } else {
      ArrivalIs(cm, inst, tr, s, call, exits, xs + es, e);
    }
  }

  /** What a transition outside parallel states does. It lands where its history mode says; it leaves and enters exactly
      the states by which the two configurations differ, children first on the way out and parents first on the way in;
      and
      its effect follows from the first activity that fails. */
  lemma PlainStep(cm: CompiledMachine, inst: Instance, name: string, call: Call, target: string)
    returns (s: string, active: map<string, string>, xs: seq<Act>, es: seq<Act>)
    requires Reads(cm) && Meets(cm, inst) && TransitionsProper(cm)
    requires inst.active == map[] && inst.currentState != "" && Admitted(cm, inst, name, call, target)
    ensures Lands(cm, inst, cm.def.transitions[name].historyMode, target, s) && StartsRegions(cm, s, active)
    ensures PlainActivities(cm, inst.currentState, s, active, xs, es)
    ensures PlainEffect(cm, inst, cm.def.transitions[name], s, active, xs, es, call,
                        Perform(cm, inst, Fire(name, call)))
  {
    var tr := cm.def.transitions[name];
    var plan := PlanFor(cm, inst, tr, target);
    s, active := plan.resolved, InitialRegions(cm, plan.resolved);
    xs, es := ExitActs(cm.def, plan.exits), EntryActs(cm.def, plan.entries);
    PlainDecided(cm, inst, name, call);
    LandsResolved(cm, inst, tr, target);
    RegionsStart(cm, s);
    PlainActs(cm, inst.currentState, s);
    ActiveMeansParallel(cm, inst);
    PlainCommits(cm, inst, tr, target, call, xs, es, s);
  }

  /** In every run: a transition to a compound that was left before resumes it as its history mode says, by the leaf of
      the last exit; without a mode, or never left or forced since, the compound starts anew. */
  lemma EveryStepResumes(cm: CompiledMachine, header: Header, ops: seq<Op>, name: string, call: Call, c: string)
    requires Machine(cm) && RegionLocal(cm) && StartsAtRest(cm) && "" !in cm.def.states && Outside(cm, c)
    requires var inst := Run(cm, NewInstance(cm, header), ops);
      && inst.active == map[] && c !in Config(cm, inst.currentState) && Admitted(cm, inst, name, call, c)
      && Perform(cm, inst, Fire(name, call)).outcome.Done?
    ensures var mode := cm.def.transitions[name].historyMode;
      var last := LastLeaf(cm, Trace(cm, NewInstance(cm, header), ops), c);
      var now := Run(cm, NewInstance(cm, header), ops + [Fire(name, call)]).currentState;
      && (mode == Deep && last.Some? ==> now == last.value)
      && (mode == Shallow && last.Some? ==>
            exists x :: IsChildToward(cm, x, c, last.value) && StartsAt(cm.def, x, now))
      && (mode == NoHistory || last.None? ==> StartsAt(cm.def, c, now))
  {
    MachineReads(cm);
    EveryRunMeets(cm, header, ops);
    EveryRunRecalls(cm, header, ops, c);
    RunGrows(cm, NewInstance(cm, header), ops, Fire(name, call));
    StepResumes(cm, Run(cm, NewInstance(cm, header), ops), name, call, c,
                LastLeaf(cm, Trace(cm, NewInstance(cm, header), ops), c));
  }

  /** A step to a compound with that history. */
  lemma StepResumes(cm: CompiledMachine, inst: Instance, name: string, call: Call, c: string, last: Option<string>)
    requires Reads(cm) && Meets(cm, inst) && TransitionsProper(cm) && "" !in cm.def.states
    requires inst.active == map[] && Admitted(cm, inst, name, call, c) && Matches(cm, HistoryOf(inst), c, last)
    requires Perform(cm, inst, Fire(name, call)).outcome.Done?
    ensures var mode, now := cm.def.transitions[name].historyMode,
                After(inst, Perform(cm, inst, Fire(name, call))).currentState;
      && (mode == Deep && last.Some? ==> now == last.value)
      && (mode == Shallow && last.Some? ==>
            exists x :: IsChildToward(cm, x, c, last.value) && StartsAt(cm.def, x, now))
      && (mode == NoHistory || last.None? ==> StartsAt(cm.def, c, now))
  {
    ActiveMeansParallel(cm, inst);
    var s, active, xs, es := PlainStep(cm, inst, name, call, c);
    DoneArrives(cm, inst, cm.def.transitions[name], s, active, xs, es, call, Perform(cm, inst, Fire(name, call)));
    Resumes(cm, inst, cm.def.transitions[name].historyMode, c, s, last);
  }

  lemma DoneArrives(cm: CompiledMachine, inst: Instance, tr: TransitionDef, s: string, active: map<string, string>,
                    xs: seq<Act>, es: seq<Act>, call: Call, e: Effect)
    requires PlainEffect(cm, inst, tr, s, active, xs, es, call, e) && e.outcome.Done?
    ensures e.ran == xs + es && call.commits && Arrives(cm, inst, tr, s, active, call, e)
  {
    FirstFailIs(call, |xs| + |es|);
  }

  lemma Resumes(cm: CompiledMachine, inst: Instance, mode: HistoryMode, c: string, s: string, last: Option<string>)
    requires Lands(cm, inst, mode, c, s) && Matches(cm, HistoryOf(inst), c, last)
    ensures mode == Deep && last.Some? ==> s == last.value
    ensures mode == Shallow && last.Some? ==> exists x :: IsChildToward(cm, x, c, last.value) && StartsAt(cm.def, x, s)
    ensures mode == NoHistory || last.None? ==> StartsAt(cm.def, c, s)
  {
    assert HistoryOf(inst).deep == inst.deep && HistoryOf(inst).shallow == inst.shallow;
  }

  // ---- Forced states and new instances ----------------------------------------------------------

  /** Forcing an unknown state does nothing; forcing a known one leads to where it starts, whatever it remembered, and
      leaves no history and no stuck mark. */
  lemma ForceStep(cm: CompiledMachine, inst: Instance, target: string, call: Call)
    returns (s: string, active: map<string, string>)
    requires Reads(cm)
    ensures StartsAt(cm.def, target, s) && StartsRegions(cm, s, active)
    ensures Perform(cm, inst, Force(target, call))
            == if target !in cm.def.states then Effect(None, None, {}, [], Failed(UnknownTarget))
               else if !call.commits then Effect(None, None, {}, [], Failed(NotCommitted))
               else Effect(
                   Some(Instance(inst.header, s, map[], map[], active, inst.parallelClock, false, "", call.now,
                                 inst.updatedAt)),
                   Some(Event(call.eventId, ByMachine(cm, inst.header), "StateForced", "_force_state",
                              map["" := (inst.currentState, s)], call.now)),
                   {}, [], Done(None))
  {
    s, active := LeafOf(cm, target), InitialRegions(cm, LeafOf(cm, target));
    RegionsStart(cm, s);
  }

  /** A new instance is where the initial state starts, without history, active regions or stuck mark, its clock at zero
      and its stamp the time of its creation. */
  lemma NewbornIs(cm: CompiledMachine, header: Header)
    requires Reads(cm)
    ensures var inst := NewInstance(cm, header);
      && StartsAt(cm.def, cm.def.initialState, inst.currentState)
      && inst == Instance(header, inst.currentState, map[], map[], map[], 0, false, "", header.createdAt, 0)
  {
    assert StartsAt(cm.def, cm.def.initialState, LeafOf(cm, cm.def.initialState));
  }
}
