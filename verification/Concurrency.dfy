/** Any number of callers on one existing instance, interleaved in any order
    (adapters/memstore/instance_store.go:47-66, internal/runtime/executor.go:363-393,
    internal/runtime/parallel.go:269-288). A caller loads the instance, reads the clock and computes
    its effect, and then commits it: event and instance together, guarded by the comparison of
    LastReadUpdatedAt with the stored UpdatedAt. Committing is atomic, as the contract of the
    transaction provider says. The callers' clocks need not agree: each reading only has to be greater than
    the stamp its caller read. `LostUpdate` says what happens without that. */
module Concurrency {
  import opened Definitions
  import opened Step
  import opened Machines
  import opened Configuration
  import opened Orthogonal

  // ---- The state machine ------------------------------------------------------------------------------------

  datatype Caller =
    | Loaded(op: Op, read: Instance)
    | Prepared(op: Op, read: Instance)     // op carries the clock reading by now
    | Finished(stored: bool, told: Option<Failure>)

  /** One commit, as the history remembers it. */
  datatype Commit = Commit(op: Op, read: Instance, written: Instance, event: Option<Event>)

  datatype World = World(stored: Instance, events: seq<Event>, callers: map<nat, Caller>, log: seq<Commit>)

  function At(op: Op, now: int): Op {
    match op
    case Fire(name, call) => Fire(name, call.(now := now))
    case Force(target, call) => Force(target, call.(now := now))
  }

  function Stamp(op: Op): int {
    op.call.now
  }

  ghost predicate Start(inst: Instance, w: World) {
    w.stored == inst && w.events == [] && w.callers == map[] && w.log == [] && 0 < inst.updatedAt
  }

  datatype Action = Load(who: nat, op: Op) | Prepare(who: nat, now: int) | TryCommit(who: nat)

  /** The comparison in Update with the stamp that was read (`WrittenStamps`); a zero stamp skips it. */
  predicate LockPasses(stored: Instance, stamp: int) {
    stamp == 0 || stored.updatedAt == stamp
  }

  ghost predicate Enabled(w: World, a: Action) {
    match a
    case Load(who, op) => who !in w.callers || w.callers[who].Finished?
    case Prepare(who, now) => who in w.callers && w.callers[who].Loaded? && now > w.callers[who].read.updatedAt
    case TryCommit(who) => who in w.callers && w.callers[who].Prepared?
  }

  ghost function Next(cm: CompiledMachine, w: World, a: Action): World
    requires Enabled(w, a)
  {
    match a
    case Load(who, op) => w.(callers := w.callers[who := Loaded(op, w.stored)])
    case Prepare(who, now) =>
      var c := w.callers[who];
      w.(callers := w.callers[who := Prepared(At(c.op, now), c.read)])
    case TryCommit(who) =>
      var c := w.callers[who];
      var e := Perform(cm, c.read, c.op);
      var passes := LockPasses(w.stored, c.read.updatedAt);
      var told := Told(c.op.call, e, passes);
      if e.written.None? || !passes then
        w.(callers := w.callers[who := Finished(false, told)])
      else
        w.(stored := e.written.value,
           events := w.events + EventsOf(e.event),
           callers := w.callers[who := Finished(true, told)],
           log := w.log + [Commit(c.op, c.read, e.written.value, e.event)])
  }

  /** An interleaving: what happens from `start` when the actions are taken one after the other. */
  ghost predicate Interleaving(cm: CompiledMachine, start: Instance, worlds: seq<World>, actions: seq<Action>) {
    && |worlds| == |actions| + 1 && Start(start, worlds[0])
    && forall i {:trigger TakesStep(cm, worlds, actions, i)} :: 0 <= i < |actions| ==> TakesStep(cm, worlds, actions, i)
  }

  ghost predicate TakesStep(cm: CompiledMachine, worlds: seq<World>, actions: seq<Action>, i: nat)
    requires |worlds| == |actions| + 1 && i < |actions|
  {
    Enabled(worlds[i], actions[i]) && worlds[i + 1] == Next(cm, worlds[i], actions[i])
  }

  // ---- The stamps an effect carries ---------------------------------------------------------------------------

  /** Whatever is written carries the stamp that was read and the new clock reading. */
  lemma WrittenStamps(cm: CompiledMachine, inst: Instance, op: Op)
    ensures var e := Perform(cm, inst, op);
      e.written.Some? ==> e.written.value.lastReadUpdatedAt == inst.updatedAt && e.written.value.updatedAt == Stamp(op)
  {
    match op
    case Force(target, call) =>
    case Fire(name, call) =>
      if |inst.active| > 0 {
        ParallelStamps(cm, inst, name, call);
      } else {
        var v := ValidateTransition(cm, inst, name, call);
        if v.Ok? { PlainStamps(cm, inst, v.value.0, v.value.1, call); }
      }
  }

  lemma PlainStamps(cm: CompiledMachine, inst: Instance, tr: TransitionDef, target: string, call: Call)
    ensures var e := CommitPlain(cm, inst, tr, target, call);
      e.written.Some? ==> e.written.value.lastReadUpdatedAt == inst.updatedAt && e.written.value.updatedAt == call.now
  {}

  lemma ParallelStamps(cm: CompiledMachine, inst: Instance, name: string, call: Call)
    ensures var e := ParallelTransition(cm, inst, name, call);
      e.written.Some? ==> e.written.value.lastReadUpdatedAt == inst.updatedAt && e.written.value.updatedAt == call.now
  {
    ParallelOutcomes(cm, inst, name, call);
    RegionsKeepRest(cm, inst, inst.currentState, ActiveRegions(inst), |ActiveRegions(inst)|);
  }

  // ---- The invariant --------------------------------------------------------------------------------------------

  /** What a caller has read is the stored instance or carries an older stamp. */
  ghost predicate ReadOk(w: World, read: Instance) {
    0 < read.updatedAt <= w.stored.updatedAt && (read.updatedAt == w.stored.updatedAt ==> read == w.stored)
  }

  ghost predicate CallerOk(w: World, c: Caller) {
    match c
    case Loaded(op, read) => ReadOk(w, read)
    case Prepared(op, read) => ReadOk(w, read) && read.updatedAt < Stamp(op)
    case Finished(_, _) => true
  }

  function Ops(log: seq<Commit>): seq<Op> {
    if log == [] then [] else Ops(log[..|log| - 1]) + [log[|log| - 1].op]
  }

  function LoggedEvents(log: seq<Commit>): seq<Event> {
    if log == [] then [] else LoggedEvents(log[..|log| - 1]) + EventsOf(log[|log| - 1].event)
  }

  /** Each commit read exactly what the commit before it wrote, and wrote and announced what its
      operation does to what it read. */
  ghost predicate Chained(cm: CompiledMachine, start: Instance, log: seq<Commit>) {
    forall i :: 0 <= i < |log| ==> LinkAt(cm, start, log, i)
  }

  ghost predicate LinkAt(cm: CompiledMachine, start: Instance, log: seq<Commit>, i: nat)
    requires i < |log|
  {
    && log[i].read == (if i == 0 then start else log[i - 1].written)
    && Performed(cm, log[i])
  }

  ghost predicate Performed(cm: CompiledMachine, c: Commit) {
    var e := Perform(cm, c.read, c.op);
    e.written == Some(c.written) && e.event == c.event
  }

  ghost predicate Serial(cm: CompiledMachine, start: Instance, w: World) {
    && w.stored == Run(cm, start, Ops(w.log))
    && w.stored == (if w.log == [] then start else w.log[|w.log| - 1].written)
    && Chained(cm, start, w.log)
    && w.events == LoggedEvents(w.log)
  }

  ghost predicate Inv(cm: CompiledMachine, start: Instance, w: World) {
    && 0 < w.stored.updatedAt
    && (forall who :: who in w.callers ==> CallerOk(w, w.callers[who]))
    && Serial(cm, start, w)
  }

  /** Only a finished step or an instance marked stuck is ever written. */
  lemma WrittenOutcomes(cm: CompiledMachine, inst: Instance, op: Op)
    ensures var e := Perform(cm, inst, op);
      e.written.Some? ==> e.outcome.Done? || EntryFailed(e)
  {
    match op
    case Force(target, call) => ForceWrites(cm, inst, target, call);
    case Fire(name, call) =>
      if |inst.active| > 0 {
        ParallelAllOrNothing(cm, inst, name, call);
      } else {
        FireWrites(cm, inst, name, call);
      }
  }

  lemma ForceWrites(cm: CompiledMachine, inst: Instance, target: string, call: Call)
    ensures var e := ForceState(cm, inst, target, call);
      e.written.Some? ==> e.outcome.Done?
  {}

  lemma FireWrites(cm: CompiledMachine, inst: Instance, name: string, call: Call)
    ensures var e := PlainTransition(cm, inst, name, call);
      e.written.Some? ==> e.outcome.Done? || EntryFailed(e)
  {
    var v := ValidateTransition(cm, inst, name, call);
    if v.Ok? { PlainWrites(cm, inst, v.value.0, v.value.1, call); }
  }

  lemma PlainWrites(cm: CompiledMachine, inst: Instance, tr: TransitionDef, target: string, call: Call)
    ensures var e := CommitPlain(cm, inst, tr, target, call);
      e.written.Some? ==> e.outcome.Done? || EntryFailed(e)
  {
    EntryActsAre(cm.def, PlanFor(cm, inst, tr, target).entries);
  }

  /** The lock lets a write through exactly when nothing was committed since its read. The loser leaves no
      trace, and is told of the conflict exactly when its write was not the best-effort stuck mark that
      the engine makes without savepoints: then it hears of the activity only. */
  lemma CommitIffUnchanged(cm: CompiledMachine, start: Instance, w: World, who: nat)
    requires Inv(cm, start, w) && Enabled(w, TryCommit(who))
    ensures var c := w.callers[who];
      var w' := Next(cm, w, TryCommit(who));
      var r, e := w'.callers[who], Perform(cm, c.read, c.op);
      && r.Finished?
      && (r.stored <==> e.written.Some? && c.read == w.stored)
      && (!r.stored ==> w'.stored == w.stored && w'.events == w.events && w'.log == w.log)
      && (c.read == w.stored ==> r.told == FailureOf(e.outcome))
      && (e.written.Some? && c.read != w.stored ==>
            && (r.told == Some(ConcurrentModification) <==> !(EntryFailed(e) && !c.op.call.savepoints))
            && (r.told != Some(ConcurrentModification) ==> r.told == FailureOf(e.outcome)))
  {
    var c := w.callers[who];
    assert CallerOk(w, c);
    WrittenOutcomes(cm, c.read, c.op);
  }

  lemma ChainGrows(cm: CompiledMachine, start: Instance, log: seq<Commit>, c: Commit)
    requires Chained(cm, start, log) && c.read == if log == [] then start else log[|log| - 1].written
    requires Performed(cm, c)
    ensures Chained(cm, start, log + [c])
  {
    forall i | 0 <= i < |log| + 1 ensures LinkAt(cm, start, log + [c], i) {
      if i < |log| { assert LinkAt(cm, start, log, i); }
    }
  }

  lemma LogGrows(cm: CompiledMachine, start: Instance, w: World, c: Commit)
    requires Serial(cm, start, w) && c.read == w.stored && Performed(cm, c)
    ensures Serial(cm, start, w.(stored := c.written, events := w.events + EventsOf(c.event), log := w.log + [c]))
  {
    var log := w.log + [c];
    assert log[..|log| - 1] == w.log;
    RunGrows(cm, start, Ops(w.log), c.op);
    ChainGrows(cm, start, w.log, c);
  }

  /** Callers that do not move stay as good: the stored stamp only grows and never comes back. */
  lemma OthersKeep(w: World, w': World)
    requires forall who :: who in w.callers ==> CallerOk(w, w.callers[who])
    requires w'.stored == w.stored || w'.stored.updatedAt > w.stored.updatedAt
    ensures forall who :: who in w.callers ==> CallerOk(w', w.callers[who])
  {
    forall who | who in w.callers ensures CallerOk(w', w.callers[who]) { assert CallerOk(w, w.callers[who]); }
  }

  lemma SuccessKeeps(cm: CompiledMachine, start: Instance, w: World, who: nat)
    requires Inv(cm, start, w) && Enabled(w, TryCommit(who))
    requires w.callers[who].read == w.stored && Perform(cm, w.stored, w.callers[who].op).written.Some?
    ensures Inv(cm, start, Next(cm, w, TryCommit(who)))
  {
    var c := w.callers[who];
    var e := Perform(cm, c.read, c.op);
    assert CallerOk(w, c);
    WrittenStamps(cm, c.read, c.op);
    LogGrows(cm, start, w, Commit(c.op, c.read, e.written.value, e.event));
    OthersKeep(w, Next(cm, w, TryCommit(who)));
  }

  lemma CommitKeeps(cm: CompiledMachine, start: Instance, w: World, who: nat)
    requires Inv(cm, start, w) && Enabled(w, TryCommit(who))
    ensures Inv(cm, start, Next(cm, w, TryCommit(who)))
  {
    var c := w.callers[who];
    CommitIffUnchanged(cm, start, w, who);
    if c.read == w.stored && Perform(cm, w.stored, c.op).written.Some? {
      SuccessKeeps(cm, start, w, who);
    } else {
      OthersKeep(w, Next(cm, w, TryCommit(who)));
    }
  }

  lemma NextKeeps(cm: CompiledMachine, start: Instance, w: World, a: Action)
    requires Inv(cm, start, w) && Enabled(w, a)
    ensures Inv(cm, start, Next(cm, w, a))
  {
    match a
    case Load(who, op) => OthersKeep(w, Next(cm, w, a));
    case Prepare(who, now) =>
      assert CallerOk(w, w.callers[who]);
      OthersKeep(w, Next(cm, w, a));
    case TryCommit(who) => CommitKeeps(cm, start, w, who);
  }

  /** The invariant as a function of the world, for the induction. */
  ghost function Good(cm: CompiledMachine, start: Instance): World -> bool {
    w => Inv(cm, start, w)
  }

  lemma StartKeeps(cm: CompiledMachine, start: Instance, w: World)
    requires Start(start, w)
    ensures Good(cm, start)(w)
  {}

  lemma TransitionKeeps(cm: CompiledMachine, start: Instance, worlds: seq<World>, actions: seq<Action>, i: nat)
    requires Interleaving(cm, start, worlds, actions) && i < |actions| && Good(cm, start)(worlds[i])
    ensures Good(cm, start)(worlds[i + 1])
  {
    assert TakesStep(cm, worlds, actions, i);
    NextKeeps(cm, start, worlds[i], actions[i]);
  }

  lemma {:induction false} Inductive(good: World -> bool, worlds: seq<World>, i: nat)
    requires i < |worlds| && good(worlds[0])
    requires forall j {:trigger worlds[j]} :: 0 < j < |worlds| && good(worlds[j - 1]) ==> good(worlds[j])
    ensures good(worlds[i])
  {
    if i > 0 { Inductive(good, worlds, i - 1); }
  }

  lemma EveryWorldIsGood(cm: CompiledMachine, start: Instance, worlds: seq<World>, actions: seq<Action>, i: nat)
    requires Interleaving(cm, start, worlds, actions) && i < |worlds|
    ensures Good(cm, start)(worlds[i])
  {
    var good := Good(cm, start);
    StartKeeps(cm, start, worlds[0]);
    forall j | 0 < j < |worlds| && good(worlds[j - 1]) ensures good(worlds[j]) {
      TransitionKeeps(cm, start, worlds, actions, j - 1);
    }
    Inductive(good, worlds, i);
  }

  /** Serialisability: after any interleaving of any number of callers the stored instance is the one
      that the committed operations, performed one at a time in commit order, lead to; each of them
      read exactly the version committed before it; and the event log is theirs. */
  lemma EveryInterleavingIsSerial(cm: CompiledMachine, start: Instance, worlds: seq<World>, actions: seq<Action>,
                                  i: nat)
    requires Interleaving(cm, start, worlds, actions) && i < |worlds|
    ensures var w := worlds[i];
      && w.stored == Run(cm, start, Ops(w.log))
      && Chained(cm, start, w.log)
      && w.events == LoggedEvents(w.log)
  {
    EveryWorldIsGood(cm, start, worlds, actions, i);
  }

  /** So whatever every sequential run keeps, every interleaving keeps. */
  lemma EveryInterleavingRests(cm: CompiledMachine, start: Instance, worlds: seq<World>, actions: seq<Action>, i: nat)
    requires Interleaving(cm, start, worlds, actions) && i < |worlds|
    requires Machine(cm) && RegionLocal(cm) && ConfigOk(cm, start)
    ensures ConfigOk(cm, worlds[i].stored)
  {
    EveryWorldIsGood(cm, start, worlds, actions, i);
    MachineIsSane(cm);
    RunRests(cm, start, Ops(worlds[i].log));
  }

  // ---- Without increasing readings ------------------------------------------------------------------------------

  /** Two callers have read the stored instance and are about to write. */
  ghost predicate BothWrite(cm: CompiledMachine, w: World, a: nat, b: nat) {
    && a != b && a in w.callers && b in w.callers
    && WritesOver(cm, w, w.callers[a]) && WritesOver(cm, w, w.callers[b])
  }

  ghost predicate WritesOver(cm: CompiledMachine, w: World, c: Caller) {
    c.Prepared? && c.read == w.stored && Perform(cm, c.read, c.op).written.Some?
  }

  /** Exactly when the second of them is stored over the first, which is then lost: the first one's clock gave
      the very stamp that both had read, or that stamp was zero and the lock was skipped. */
  lemma LostUpdate(cm: CompiledMachine, w: World, a: nat, b: nat)
    requires BothWrite(cm, w, a, b)
    ensures var w' := Next(cm, w, TryCommit(a));
      && w'.callers[a] == Finished(true, FailureOf(Perform(cm, w.stored, w.callers[a].op).outcome))
      && Enabled(w', TryCommit(b))
      && (Next(cm, w', TryCommit(b)).callers[b].stored
          <==> Stamp(w.callers[a].op) == w.stored.updatedAt || w.stored.updatedAt == 0)
  {
    var c, d := w.callers[a], w.callers[b];
    WrittenStamps(cm, c.read, c.op);
    WrittenStamps(cm, d.read, d.op);
  }
}
