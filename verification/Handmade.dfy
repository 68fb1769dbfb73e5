/** Definitions that are handed to the registry without the builder: nothing ties their children to their parents,
    and compilation follows initial children without an end (internal/graph/compiled.go:180-191). */
module Handmade {
  import opened Definitions
  import opened Hierarchy
  import opened Compile
  import opened Validate
  import opened Descent
  import opened Counterexamples

  // ---- A definition that passes validation ----------------------------------------------------------------

  /** Two root compounds that name each other as their initial child. */
  datatype Tangle = Tangle(wait: string, a: string, b: string, end: string)

  predicate TangleApart(n: Tangle) {
    "" !in {n.wait, n.a, n.b, n.end} && n.wait !in {n.a, n.b, n.end} && n.a !in {n.b, n.end} && n.b != n.end
  }

  ghost predicate IsTangle(n: Tangle, def: Definition) {
    && def.states.Keys == {n.wait, n.a, n.b, n.end}
    && def.states[n.wait] == Plain(n.wait, "").(isInitial := true)
    && def.states[n.a] == Above(n.a, "", n.b, n.b, false)
    && def.states[n.b] == Above(n.b, "", n.a, n.a, false)
    && def.states[n.end] == Plain(n.end, "").(isTerminal := true)
    && def.transitions.Keys == {"s", "ee"}
    && def.transitions["s"] == Go("s", n.wait, n.a) && def.transitions["ee"] == Go("ee", n.a, n.end)
    && def.initialState == n.wait
  }

  lemma TangleIsNested(n: Tangle, def: Definition)
    requires TangleApart(n) && IsTangle(n, def)
    ensures StatesKnown(def) && ParentsExist(def) && CompoundsHaveInitial(def) && ParallelStatesOk(def)
  {}

  lemma TangleStartsOnce(n: Tangle, def: Definition)
    requires TangleApart(n) && IsTangle(n, def)
    ensures OneInitialState(def) && HasTerminalState(def) && CompoundNotTerminal(def) && InitialNotCompound(def)
    ensures WaitLeafOnly(def)
  {
    assert InitialStates(def) == {n.wait};
    assert def.states[n.end].isTerminal;
  }

  lemma TangleEscapes(n: Tangle, def: Definition)
    requires TangleApart(n) && IsTangle(n, def)
    ensures NoDeadEnds(def)
  {
    assert n.wait in def.transitions["s"].sources;
    assert LeavesAt(def, n.wait, 0);
  }

  lemma TangleIsReachable(n: Tangle, def: Definition)
    requires TangleApart(n) && IsTangle(n, def)
    ensures AllReachable(def)
  {
    assert IsPath(def, [n.wait]);
    assert "s" in def.transitions && "ee" in def.transitions;
    assert FiresTo(def, n.wait, n.a) && FiresTo(def, n.a, n.end);
    ReachableStep(def, n.wait, n.a);
    ReachableStep(def, n.a, n.b);
    ReachableStep(def, n.a, n.end);
  }

  lemma {:induction false} TangleGoesOn(n: Tangle, def: Definition, k: nat)
    requires TangleApart(n) && IsTangle(n, def)
    ensures Down(def, n.a, k) in {n.a, n.b}
  {
    if k > 0 { TangleGoesOn(n, def, k - 1); }
  }

  lemma TangleHasNoCycle(n: Tangle, def: Definition)
    requires TangleApart(n) && IsTangle(n, def)
    ensures !HasParentCycle(def)
  {
    forall w | |w| >= 2 ensures !IsParentCycle(def, w) { assert !Climbs(def, w, 0); }
  }

  /** It passes every check and has no cycle of parents, and compiling it does not return. */
  lemma TangleNeverResolves(n: Tangle, def: Definition)
    requires TangleApart(n) && IsTangle(n, def)
    ensures Validated(def) && Returns(def) && !HasParentCycle(def) && !ResolutionEnds(def, n.a)
  {
    TangleIsNested(n, def);
    TangleStartsOnce(n, def);
    TangleEscapes(n, def);
    TangleIsReachable(n, def);
    WalksEndExactly(def);
    TangleHasNoCycle(n, def);
    forall k: nat ensures GoesOn(def, Down(def, n.a, k)) { TangleGoesOn(n, def, k); }
  }

  /** One of them written out. */
  lemma SomeTangleNeverResolves() returns (n: Tangle, def: Definition)
    ensures TangleApart(n) && IsTangle(n, def)
  {
    n := Tangle("1", "22", "333", "4444");
    assert |n.wait| == 1 && |n.a| == 2 && |n.b| == 3 && |n.end| == 4 && |"s"| == 1 && |"ee"| == 2;
    var states := map[n.wait := Plain(n.wait, "").(isInitial := true),
                      n.a := Above(n.a, "", n.b, n.b, false), n.b := Above(n.b, "", n.a, n.a, false),
                      n.end := Plain(n.end, "").(isTerminal := true)];
    def := Definition("t", "w", 1, states, map["s" := Go("s", n.wait, n.a), "ee" := Go("ee", n.a, n.end)], n.wait);
    assert def.states.Keys == {n.wait, n.a, n.b, n.end};
  }
}
