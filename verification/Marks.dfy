/** The stuck mark over runs: a failing entry activity sets it, a forced state clears it, and nothing else
    touches it (internal/runtime/executor.go:315-380 and 498-510, internal/runtime/parallel.go:163-402). */
module Marks {
  import opened Definitions
  import opened Step
  import opened Orthogonal

  lemma PlainMarks(cm: CompiledMachine, inst: Instance, tr: TransitionDef, target: string, call: Call)
    ensures var e := CommitPlain(cm, inst, tr, target, call);
      e.written.Some? ==> e.written.value.isStuck == (EntryFailed(e) || inst.isStuck)
                          && (e.outcome.Done? || EntryFailed(e))
  {
    EntryActsAre(cm.def, PlanFor(cm, inst, tr, target).entries);
  }

  /** One operation: cleared by a stored forced state, set by a stored entry failure, otherwise as before. */
  lemma StepMarks(cm: CompiledMachine, inst: Instance, op: Op)
    ensures var e := Perform(cm, inst, op);
      After(inst, e).isStuck
      == if e.written.None? then inst.isStuck else if op.Force? then false else EntryFailed(e) || inst.isStuck
  {
    match op
    case Force(target, call) =>
    case Fire(name, call) =>
      if |inst.active| > 0 {
        ParallelAllOrNothing(cm, inst, name, call);
      } else {
        var v := ValidateTransition(cm, inst, name, call);
        if v.Ok? { PlainMarks(cm, inst, v.value.0, v.value.1, call); }
      }
  }

  /** The i-th operation of the run is stored with a failing entry activity. */
  ghost predicate MarksAt(cm: CompiledMachine, inst: Instance, ops: seq<Op>, i: nat)
    requires i < |ops|
  {
    var e := Perform(cm, Run(cm, inst, ops[..i]), ops[i]);
    e.written.Some? && EntryFailed(e)
  }

  /** The i-th operation of the run is a stored forced state. */
  ghost predicate ClearsAt(cm: CompiledMachine, inst: Instance, ops: seq<Op>, i: nat)
    requires i < |ops|
  {
    ops[i].Force? && Perform(cm, Run(cm, inst, ops[..i]), ops[i]).written.Some?
  }

  /** What has been set since it was last cleared, within the first `n` steps. */
  ghost predicate SetSince(sets: nat -> bool, clears: nat -> bool, start: bool, n: nat) {
    || (exists i: nat :: i < n && sets(i) && forall j: nat :: i < j < n ==> !clears(j))
    || (start && forall j: nat :: j < n ==> !clears(j))
  }

  lemma SetSinceGrows(sets: nat -> bool, clears: nat -> bool, start: bool, n: nat)
    ensures SetSince(sets, clears, start, n + 1) <==> sets(n) || (SetSince(sets, clears, start, n) && !clears(n))
  {}

  ghost function Marking(cm: CompiledMachine, inst: Instance, ops: seq<Op>): nat -> bool {
    (i: nat) => i < |ops| && MarksAt(cm, inst, ops, i)
  }

  ghost function Clearing(cm: CompiledMachine, inst: Instance, ops: seq<Op>): nat -> bool {
    (i: nat) => i < |ops| && ClearsAt(cm, inst, ops, i)
  }

  lemma MarksOneMore(cm: CompiledMachine, inst: Instance, ops: seq<Op>, n: nat)
    requires n < |ops|
    ensures Run(cm, inst, ops[..n + 1]).isStuck
            <==> Marking(cm, inst, ops)(n) || (Run(cm, inst, ops[..n]).isStuck && !Clearing(cm, inst, ops)(n))
  {
    assert ops[..n + 1][..n] == ops[..n];
    var before := Run(cm, inst, ops[..n]);
    StepMarks(cm, before, ops[n]);
    assert Run(cm, inst, ops[..n + 1]) == After(before, Perform(cm, before, ops[n]));
    ForceNeverFails(cm, before, ops[n]);
  }

  lemma ForceNeverFails(cm: CompiledMachine, inst: Instance, op: Op)
    ensures var e := Perform(cm, inst, op);
      op.Force? && e.written.Some? ==> !EntryFailed(e)
  {}

  lemma {:induction false} MarkedUpTo(cm: CompiledMachine, inst: Instance, ops: seq<Op>, n: nat)
    requires n <= |ops|
    ensures Run(cm, inst, ops[..n]).isStuck
            <==> SetSince(Marking(cm, inst, ops), Clearing(cm, inst, ops), inst.isStuck, n)
  {
    if n > 0 {
      MarkedUpTo(cm, inst, ops, n - 1);
      MarksOneMore(cm, inst, ops, n - 1);
      SetSinceGrows(Marking(cm, inst, ops), Clearing(cm, inst, ops), inst.isStuck, n - 1);
    }
  }

  /** In every run: the instance is marked stuck exactly when, since the last stored forced state, a stored
      step ended in a failing entry activity, or it was marked from the start. Successes do not matter. */
  lemma EveryRunMarks(cm: CompiledMachine, inst: Instance, ops: seq<Op>)
    ensures Run(cm, inst, ops).isStuck
            <==> SetSince(Marking(cm, inst, ops), Clearing(cm, inst, ops), inst.isStuck, |ops|)
  {
    assert ops[..|ops|] == ops;
    MarkedUpTo(cm, inst, ops, |ops|);
  }
}
