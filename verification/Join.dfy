/** Child workflows and the join of a group of children (internal/runtime/scheduler.go:156-256,
    internal/runtime/dispatcher.go:109-158, adapters/memstore/child_store.go:13-83). */
module Join {
  import opened Definitions

  datatype ChildStatus = Active | Completed

  datatype ChildRelation = ChildRelation(
    id: string,
    groupId: string,
    parentType: string,
    parentId: string,
    childType: string,
    childId: string,
    status: ChildStatus,
    terminalState: string,
    joinPolicy: string)

  type Child = (string, string)

  function ChildOf(c: ChildRelation): Child { (c.childType, c.childId) }

  // ---- The store ---------------------------------------------------------------------------------------------

  /** The first relation of the child, or the length. */
  function IndexOf(children: seq<ChildRelation>, child: Child): (i: nat)
    ensures i <= |children|
    ensures forall k :: 0 <= k < i ==> ChildOf(children[k]) != child
    ensures i < |children| ==> ChildOf(children[i]) == child
  {
    if children == [] || ChildOf(children[0]) == child then 0 else 1 + IndexOf(children[1..], child)
  }

  function CompleteIn(children: seq<ChildRelation>, child: Child, terminal: string): seq<ChildRelation> {
    var i := IndexOf(children, child);
    if i < |children| then children[i := children[i].(status := Completed, terminalState := terminal)] else children
  }

  /** The first relation of the child is completed, in place, and no other changes. */
  predicate CompletesAt(before: seq<ChildRelation>, after: seq<ChildRelation>, i: nat, child: Child, terminal: string) {
    && i < |before| && ChildOf(before[i]) == child && (forall k :: 0 <= k < i ==> ChildOf(before[k]) != child)
    && after == before[i := before[i].(status := Completed, terminalState := terminal)]
  }

  function InGroup(children: seq<ChildRelation>, group: string): seq<ChildRelation> {
    if children == [] then []
    else InGroup(children[..|children| - 1], group)
         + (if children[|children| - 1].groupId == group then [children[|children| - 1]] else [])
  }

  class ChildStore {
    var children: seq<ChildRelation>

    constructor ()
      ensures children == []
    {
      children := [];
    }

    method Create(c: ChildRelation)
      modifies this
      ensures children == old(children) + [c]
    {
      children := children + [c];
    }

    method GetByChild(child: Child) returns (r: Option<ChildRelation>)
      ensures var i := IndexOf(children, child);
        r == if i < |children| then Some(children[i]) else None
    {
      for i := 0 to |children|
        invariant forall k :: 0 <= k < i ==> ChildOf(children[k]) != child
      {
        if ChildOf(children[i]) == child {
          assert IndexOf(children, child) == i;
          return Some(children[i]);
        }
      }
      return None;
    }

    method GetByGroup(group: string) returns (r: seq<ChildRelation>)
      ensures r == InGroup(children, group)
    {
      r := [];
      for i := 0 to |children|
        invariant r == InGroup(children[..i], group)
      {
        assert children[..i + 1][..i] == children[..i];
        if children[i].groupId == group { r := r + [children[i]]; }
      }
      assert children[..|children|] == children;
    }

    /** Marks the child completed in place; marking it again only replaces its terminal state. */
    method Complete(child: Child, terminal: string) returns (ok: bool)
      modifies this
      ensures children == CompleteIn(old(children), child, terminal)
      ensures ok <==> exists i :: 0 <= i < |old(children)| && ChildOf(old(children)[i]) == child
      ensures !ok ==> children == old(children)
      ensures ok ==> exists i: nat :: CompletesAt(old(children), children, i, child, terminal)
    {
      for i := 0 to |children|
        invariant children == old(children)
        invariant forall k :: 0 <= k < i ==> ChildOf(children[k]) != child
      {
        if ChildOf(children[i]) == child {
          assert IndexOf(children, child) == i;
          children := children[i := children[i].(status := Completed, terminalState := terminal)];
          assert CompletesAt(old(children), children, i, child, terminal);
          return true;
        }
      }
      return false;
    }
  }

  // ---- The join policy --------------------------------------------------------------------------------------------

  function CountCompleted(siblings: seq<ChildRelation>): nat {
    if siblings == [] then 0
    else CountCompleted(siblings[..|siblings| - 1]) + (if siblings[|siblings| - 1].status == Completed then 1 else 0)
  }

  predicate IsNMode(tr: TransitionDef) {
    tr.childrenDef.Some? && tr.childrenDef.value.mode == "N"
  }

  function NModes(def: Definition): set<string> {
    set n | n in def.transitions && IsNMode(def.transitions[n])
  }

  /** The completions an N-mode fan-out waits for; a negative count waits for none. */
  function Awaited(def: Definition, n: string): nat
    requires n in NModes(def)
  {
    var count := def.transitions[n].childrenDef.value.count;
    if count < 0 then 0 else count
  }

  /** All N-mode fan-outs wait for the same number. */
  ghost predicate OneCount(def: Definition) {
    forall m, n :: m in NModes(def) && n in NModes(def) ==> Awaited(def, m) == Awaited(def, n)
  }

  /** The number of completions that satisfies the join; none if the mode is unknown or has no count. */
  ghost function Threshold(def: Definition, mode: string, total: nat): Option<nat>
    requires OneCount(def)
  {
    if mode == "ALL" || mode == "" then Some(total)
    else if mode == "ANY" then Some(1)
    else if mode == "N" && NModes(def) != {} then
      var n :| n in NModes(def);
      Some(Awaited(def, n))
    else None
  }

  ghost predicate Satisfied(def: Definition, mode: string, completed: nat, total: nat)
    requires OneCount(def)
  {
    var t := Threshold(def, mode, total);
    t.Some? && completed >= t.value
  }

  /** The verdicts the source can reach: in mode N it compares with the first N-mode fan-out of the map
      iteration, whichever transition that belongs to. */
  ghost predicate CanSay(def: Definition, mode: string, completed: nat, total: nat, verdict: bool) {
    if mode == "ALL" || mode == "" then verdict == (completed == total)
    else if mode == "ANY" then verdict == (completed >= 1)
    else if mode == "N" && NModes(def) != {} then
      exists n :: n in NModes(def) && verdict == (completed >= Awaited(def, n))
    else !verdict
  }

  method EvaluateJoin(def: Definition, store: ChildStore, relation: ChildRelation) returns (satisfied: bool)
    ensures var siblings := InGroup(store.children, relation.groupId);
      CanSay(def, relation.joinPolicy, CountCompleted(siblings), |siblings|, satisfied)
  {
    var siblings := store.GetByGroup(relation.groupId);
    var completed := 0;
    for i := 0 to |siblings|
      invariant completed == CountCompleted(siblings[..i]) <= i
    {
      assert siblings[..i + 1][..i] == siblings[..i];
      if siblings[i].status == Completed { completed := completed + 1; }
    }
    assert siblings[..|siblings|] == siblings;
    var mode := relation.joinPolicy;
    satisfied := false;
    if mode == "ALL" || mode == "" {
      satisfied := completed == |siblings|;
    } else if mode == "ANY" {
      satisfied := completed >= 1;
    } else if mode == "N" {
      var todo := def.transitions.Keys;
      while todo != {}
        invariant todo <= def.transitions.Keys
        invariant forall n :: n in NModes(def) ==> n in todo
        decreases todo
      {
        var n :| n in todo;
        if IsNMode(def.transitions[n]) {
          satisfied := completed >= def.transitions[n].childrenDef.value.count;
          assert n in NModes(def) && satisfied == (completed >= Awaited(def, n));
          return;
        }
        todo := todo - {n};
      }
      assert NModes(def) == {};
    }
  }

  /** The verdict does not depend on the iteration order exactly when the mode is not N or all N-mode
      fan-outs of the definition wait for the same number. */
  lemma VerdictDetermined(def: Definition, mode: string)
    ensures mode != "N" || OneCount(def)
            <==> forall completed: nat, total: nat :: completed <= total ==>
                !(CanSay(def, mode, completed, total, true) && CanSay(def, mode, completed, total, false))
  {
    if mode == "N" && !OneCount(def) {
      var m, n :| m in NModes(def) && n in NModes(def) && Awaited(def, m) != Awaited(def, n);
      var k := if Awaited(def, m) < Awaited(def, n) then Awaited(def, m) else Awaited(def, n);
      assert CanSay(def, mode, k, k, true);
      assert CanSay(def, mode, k, k, false);
    }
  }

  /** Then it is the comparison with the threshold. */
  lemma SaysSatisfied(def: Definition, mode: string, completed: nat, total: nat, verdict: bool)
    requires OneCount(def) && completed <= total && CanSay(def, mode, completed, total, verdict)
    ensures verdict == Satisfied(def, mode, completed, total)
  {}

  // ---- Runs of completions ----------------------------------------------------------------------

  /** No two relations are about the same child: children get fresh ids. */
  predicate Distinct(children: seq<ChildRelation>) {
    forall i, j :: 0 <= i < j < |children| ==> ChildOf(children[i]) != ChildOf(children[j])
  }

  /** The store after ChildCompleted was called for `calls` in that order, repeats included. */
  function After(children: seq<ChildRelation>, calls: seq<(Child, string)>): seq<ChildRelation> {
    if calls == [] then children
    else CompleteIn(After(children, calls[..|calls| - 1]), calls[|calls| - 1].0, calls[|calls| - 1].1)
  }

  function Members(children: seq<ChildRelation>, group: string): set<Child> {
    set i | 0 <= i < |children| && children[i].groupId == group :: ChildOf(children[i])
  }

  /** The children of the group that are completed. */
  function Finished(children: seq<ChildRelation>, group: string): set<Child> {
    set i | 0 <= i < |children| && children[i].groupId == group
      && children[i].status == Completed :: ChildOf(children[i])
  }

  function Called(calls: seq<(Child, string)>): set<Child> {
    set i | 0 <= i < |calls| :: calls[i].0
  }

  /** Only statuses and terminal states change. */
  ghost predicate SameChildren(a: seq<ChildRelation>, b: seq<ChildRelation>) {
    |a| == |b| && forall i :: 0 <= i < |a| ==> ChildOf(a[i]) == ChildOf(b[i]) && a[i].groupId == b[i].groupId
  }

  lemma CompleteAdds(children: seq<ChildRelation>, child: Child, terminal: string, group: string)
    requires Distinct(children)
    ensures SameChildren(CompleteIn(children, child, terminal), children)
    ensures Finished(CompleteIn(children, child, terminal), group)
            == Finished(children, group) + ({child} * Members(children, group))
  {
    var i := IndexOf(children, child);
    var after := CompleteIn(children, child, terminal);
    if i < |children| {
      forall x | x in Finished(children, group) + ({child} * Members(children, group))
        ensures x in Finished(after, group) {
        var k :| 0 <= k < |children| && children[k].groupId == group && ChildOf(children[k]) == x
                 && (children[k].status == Completed || x == child);
        assert x == child ==> k == i;
        assert after[k].groupId == group && after[k].status == Completed && ChildOf(after[k]) == x;
      }
      forall x | x in Finished(after, group)
        ensures x in Finished(children, group) + ({child} * Members(children, group)) {
        var k :| 0 <= k < |after| && after[k].groupId == group && after[k].status == Completed
            && ChildOf(after[k]) == x;
        assert children[k].groupId == group && ChildOf(children[k]) == x;
      }
    } else {
      assert child !in Members(children, group);
    }
  }

  /** What any order of completions with any repeats adds up to. */
  lemma {:induction false} FinishedAfter(children: seq<ChildRelation>, calls: seq<(Child, string)>, group: string)
    requires Distinct(children)
    ensures SameChildren(After(children, calls), children) && Distinct(After(children, calls))
    ensures Finished(After(children, calls), group)
            == Finished(children, group) + Called(calls) * Members(children, group)
    decreases |calls|
  {
    if calls == [] {
      assert Called(calls) == {};
    } else {
      var before, last := calls[..|calls| - 1], calls[|calls| - 1];
      FinishedAfter(children, before, group);
      CompleteAdds(After(children, before), last.0, last.1, group);
      SameMembers(After(children, before), children, group);
      CalledSplit(calls);
    }
  }

  lemma CalledSplit(calls: seq<(Child, string)>)
    requires calls != []
    ensures Called(calls) == Called(calls[..|calls| - 1]) + {calls[|calls| - 1].0}
  {
    forall x | x in Called(calls) ensures x in Called(calls[..|calls| - 1]) + {calls[|calls| - 1].0} {
      var i :| 0 <= i < |calls| && calls[i].0 == x;
      if i < |calls| - 1 { assert calls[..|calls| - 1][i].0 == x; }
    }
    forall x | x in Called(calls[..|calls| - 1]) ensures x in Called(calls) {
      var i :| 0 <= i < |calls| - 1 && calls[..|calls| - 1][i].0 == x;
      assert calls[i].0 == x;
    }
  }

  lemma SameMembers(a: seq<ChildRelation>, b: seq<ChildRelation>, group: string)
    requires SameChildren(a, b)
    ensures Members(a, group) == Members(b, group)
  {
    forall x ensures x in Members(a, group) <==> x in Members(b, group) {
      if x in Members(a, group) {
        var i :| 0 <= i < |a| && a[i].groupId == group && ChildOf(a[i]) == x;
        assert ChildOf(b[i]) == x && b[i].groupId == group;
      }
      if x in Members(b, group) {
        var i :| 0 <= i < |b| && b[i].groupId == group && ChildOf(b[i]) == x;
        assert ChildOf(a[i]) == x && a[i].groupId == group;
      }
    }
  }

  /** The counts of the source are the sizes of these sets. */
  lemma CountsAreSizes(children: seq<ChildRelation>, group: string)
    requires Distinct(children)
    ensures |InGroup(children, group)| == |Members(children, group)|
    ensures CountCompleted(InGroup(children, group)) == |Finished(children, group)|
  {
    TotalIsSize(children, group);
    CompletedIsSize(children, group);
  }

  lemma {:induction false} TotalIsSize(children: seq<ChildRelation>, group: string)
    requires Distinct(children)
    ensures |InGroup(children, group)| == |Members(children, group)|
    decreases |children|
  {
    if children == [] {
      assert Members(children, group) == {};
    } else {
      TotalIsSize(children[..|children| - 1], group);
      LastMember(children, group);
    }
  }

  lemma CountOneMore(g: seq<ChildRelation>, c: ChildRelation)
    ensures CountCompleted(g + [c]) == CountCompleted(g) + (if c.status == Completed then 1 else 0)
  {
    assert (g + [c])[..|g|] == g;
  }

  lemma {:induction false} CompletedIsSize(children: seq<ChildRelation>, group: string)
    requires Distinct(children)
    ensures CountCompleted(InGroup(children, group)) == |Finished(children, group)|
    decreases |children|
  {
    if children == [] {
      assert Finished(children, group) == {};
    } else {
      var init, last := children[..|children| - 1], children[|children| - 1];
      CompletedIsSize(init, group);
      LastMember(children, group);
      CountOneMore(InGroup(init, group), last);
      assert InGroup(init, group) + [] == InGroup(init, group);
    }
  }

  lemma LastMember(children: seq<ChildRelation>, group: string)
    requires Distinct(children) && children != []
    ensures var init, last := children[..|children| - 1], children[|children| - 1];
      && ChildOf(last) !in Members(init, group) && ChildOf(last) !in Finished(init, group)
      && Members(children, group) == Members(init, group) + (if last.groupId == group then {ChildOf(last)} else {})
      && Finished(children, group) == Finished(init, group)
        + (if last.groupId == group && last.status == Completed then {ChildOf(last)} else {})
  {
    var init, n := children[..|children| - 1], |children| - 1;
    assert forall i :: 0 <= i < n ==> init[i] == children[i];
    forall x | x in Members(children, group)
      ensures x in Members(init, group) || (x == ChildOf(children[n]) && children[n].groupId == group) {
      var i :| 0 <= i < |children| && children[i].groupId == group && ChildOf(children[i]) == x;
      if i < n { assert ChildOf(init[i]) == x; }
    }
    forall x | x in Finished(children, group)
      ensures x in Finished(init, group)
              || (x == ChildOf(children[n]) && children[n].groupId == group && children[n].status == Completed)
    {
      var i :| 0 <= i < |children| && children[i].groupId == group && children[i].status == Completed
          && ChildOf(children[i]) == x;
      if i < n { assert ChildOf(init[i]) == x; }
    }
    forall x | x in Members(init, group) ensures x in Members(children, group) {
      var i :| 0 <= i < n && init[i].groupId == group && ChildOf(init[i]) == x;
      assert ChildOf(children[i]) == x;
    }
    forall x | x in Finished(init, group) ensures x in Finished(children, group) {
      var i :| 0 <= i < n && init[i].groupId == group && init[i].status == Completed && ChildOf(init[i]) == x;
      assert ChildOf(children[i]) == x;
    }
  }

  ghost predicate Joined(def: Definition, mode: string, children: seq<ChildRelation>, group: string)
    requires OneCount(def)
  {
    Satisfied(def, mode, CountCompleted(InGroup(children, group)), |InGroup(children, group)|)
  }

  /** The join of a group none of whose children had completed is satisfied exactly when the number of
      distinct members among the calls has reached the threshold: any order, any repeats, and calls for
      children of other groups count for nothing. */
  lemma JoinCountsDistinct(def: Definition, mode: string, children: seq<ChildRelation>, group: string,
                           calls: seq<(Child, string)>)
    requires OneCount(def) && Distinct(children) && Finished(children, group) == {}
    ensures var t := Threshold(def, mode, |Members(children, group)|);
      Joined(def, mode, After(children, calls), group)
      <==> t.Some? && |Called(calls) * Members(children, group)| >= t.value
  {
    FinishedAfter(children, calls, group);
    CountsAreSizes(After(children, calls), group);
    SameMembers(After(children, calls), children, group);
  }

  /** So a group joins, mode by mode: when all its members have been called, or one, or as many as the fan-out says; in
      no other mode ever. */
  lemma JoinMeans(def: Definition, mode: string, children: seq<ChildRelation>, group: string,
                  calls: seq<(Child, string)>)
    requires OneCount(def) && Distinct(children) && Finished(children, group) == {}
    ensures var called, members := Called(calls), Members(children, group);
      var joined := Joined(def, mode, After(children, calls), group);
      && (mode in {"ALL", ""} ==> (joined <==> members <= called))
      && (mode == "ANY" ==> (joined <==> exists c :: c in members && c in called))
      && (mode == "N" ==> (joined <==> SomeFansOut(def, |called * members|)))
      && (mode !in {"ALL", "", "ANY", "N"} ==> !joined)
  {
    JoinCountsDistinct(def, mode, children, group, calls);
    CallsCount(Called(calls), Members(children, group));
    if mode == "N" { EnoughForN(def, |Called(calls) * Members(children, group)|); }
  }

  /** Some N-mode fan-out waits for no more than `k` completions. */
  predicate SomeFansOut(def: Definition, k: nat) {
    exists n :: n in def.transitions && FansOut(def.transitions[n], k)
  }

  predicate FansOut(tr: TransitionDef, k: nat) {
    tr.childrenDef.Some? && tr.childrenDef.value.mode == "N" && k >= tr.childrenDef.value.count
  }

  lemma CallsCount(called: set<Child>, members: set<Child>)
    ensures |called * members| >= |members| <==> members <= called
    ensures |called * members| >= 1 <==> exists c :: c in members && c in called
  {
    var both := called * members;
    assert |members| == |both| + |members - both| by { assert members == both + (members - both); }
    if |both| >= 1 { var c :| c in both; }
    if c :| c in members && c in called { assert c in both; }
    if |members - both| == 0 { assert members - both == {}; }
  }

  lemma EnoughForN(def: Definition, k: nat)
    requires OneCount(def)
    ensures var t := Threshold(def, "N", 0);
      t.Some? && k >= t.value <==> SomeFansOut(def, k)
  {
    if n :| n in NModes(def) { assert IsNMode(def.transitions[n]); }
    if n :| n in def.transitions && FansOut(def.transitions[n], k) { assert n in NModes(def); }
  }

  /** Order and repeats do not matter. */
  lemma JoinIgnoresOrder(def: Definition, mode: string, children: seq<ChildRelation>, group: string,
                         a: seq<(Child, string)>, b: seq<(Child, string)>)
    requires OneCount(def) && Distinct(children)
    requires Called(a) * Members(children, group) == Called(b) * Members(children, group)
    ensures Joined(def, mode, After(children, a), group) == Joined(def, mode, After(children, b), group)
  {
    FinishedAfter(children, a, group);
    FinishedAfter(children, b, group);
    CountsAreSizes(After(children, a), group);
    CountsAreSizes(After(children, b), group);
    SameMembers(After(children, a), children, group);
    SameMembers(After(children, b), children, group);
  }

  /** Once satisfied, satisfied for good. */
  lemma JoinStays(def: Definition, mode: string, children: seq<ChildRelation>, group: string,
                  calls: seq<(Child, string)>, more: seq<(Child, string)>)
    requires OneCount(def) && Distinct(children)
    requires Joined(def, mode, After(children, calls), group)
    ensures Joined(def, mode, After(children, calls + more), group)
  {
    FinishedAfter(children, calls, group);
    FinishedAfter(children, calls + more, group);
    CountsAreSizes(After(children, calls), group);
    CountsAreSizes(After(children, calls + more), group);
    SameMembers(After(children, calls), children, group);
    SameMembers(After(children, calls + more), children, group);
    forall x | x in Called(calls) ensures x in Called(calls + more) {
      var i :| 0 <= i < |calls| && calls[i].0 == x;
      assert (calls + more)[i].0 == x;
    }
    var few, many := Finished(After(children, calls), group), Finished(After(children, calls + more), group);
    assert few <= many;
    assert |many| == |few| + |many - few| by { assert many == few + (many - few); }
  }

  // ---- Spawning a group -------------------------------------------------------------------------

  /** One relation per input, all active, with fresh child ids. */
  method SpawnChildren(store: ChildStore, parentType: string, parentId: string, spec: ChildrenDef, groupId: string,
                       ids: seq<string>)
    requires Distinct(store.children) && NoDuplicates(ids)
    requires forall c, i :: c in store.children && i in ids ==> c.childId != i && c.groupId != groupId
    modifies store
    ensures Distinct(store.children) && old(store.children) <= store.children
    ensures |store.children| == |old(store.children)| + |ids|
    ensures forall k :: 0 <= k < |ids| ==>
      store.children[|old(store.children)| + k]
      == ChildRelation(ids[k], groupId, parentType, parentId, spec.workflowType, ids[k], Active, "", spec.mode)
    ensures ids != [] ==> Members(store.children, groupId) == set i | i in ids :: (spec.workflowType, i)
    ensures ids != [] ==> Finished(store.children, groupId) == {}
  {
    ghost var before := store.children;
    for k := 0 to |ids|
      invariant store.children == before + Relations(parentType, parentId, spec, groupId, ids[..k])
    {
      var c := ChildRelation(ids[k], groupId, parentType, parentId, spec.workflowType, ids[k], Active, "", spec.mode);
      assert ids[..k + 1] == ids[..k] + [ids[k]];
      RelationsAppend(parentType, parentId, spec, groupId, ids[..k], ids[k]);
      store.Create(c);
    }
    assert ids[..|ids|] == ids;
    GroupOf(before, parentType, parentId, spec, groupId, ids);
  }

  function Relations(parentType: string, parentId: string, spec: ChildrenDef, groupId: string,
                     ids: seq<string>): (r: seq<ChildRelation>)
    ensures |r| == |ids|
    ensures forall k :: 0 <= k < |ids| ==>
      r[k] == ChildRelation(ids[k], groupId, parentType, parentId, spec.workflowType, ids[k], Active, "", spec.mode)
  {
    seq(|ids|, k requires 0 <= k < |ids| => ChildRelation(ids[k], groupId, parentType, parentId, spec.workflowType,
                                                          ids[k], Active, "", spec.mode))
  }

  lemma RelationsAppend(parentType: string, parentId: string, spec: ChildrenDef, groupId: string, ids: seq<string>,
                        id: string)
    ensures Relations(parentType, parentId, spec, groupId, ids + [id])
            == Relations(parentType, parentId, spec, groupId, ids)
               + [ChildRelation(id, groupId, parentType, parentId, spec.workflowType, id, Active, "", spec.mode)]
  {}

  lemma GroupOf(before: seq<ChildRelation>, parentType: string, parentId: string, spec: ChildrenDef, groupId: string,
                ids: seq<string>)
    requires Distinct(before) && NoDuplicates(ids)
    requires forall c, i :: c in before && i in ids ==> c.childId != i && c.groupId != groupId
    ensures var all := before + Relations(parentType, parentId, spec, groupId, ids);
      && Distinct(all)
      && (ids != [] ==> Members(all, groupId) == set i | i in ids :: (spec.workflowType, i))
      && (ids != [] ==> Finished(all, groupId) == {})
  {
    var fresh' := Relations(parentType, parentId, spec, groupId, ids);
    var all := before + fresh';
    forall i, j | 0 <= i < j < |all| ensures ChildOf(all[i]) != ChildOf(all[j]) {
      if i < |before| && j >= |before| {
        assert before[i] in before && ids[j - |before|] in ids;
      } else if i >= |before| {
        assert ids[i - |before|] != ids[j - |before|];
      }
    }
    if ids != [] {
      assert ids[0] in ids;
      forall i | 0 <= i < |before| ensures all[i].groupId != groupId { assert before[i] in before; }
      forall x | x in set i | i in ids :: (spec.workflowType, i) ensures x in Members(all, groupId) {
        var k :| 0 <= k < |ids| && ids[k] == x.1;
        assert all[|before| + k] == fresh'[k] && ChildOf(all[|before| + k]) == x;
      }
      forall x | x in Members(all, groupId) ensures x in set i | i in ids :: (spec.workflowType, i) {
        var k :| 0 <= k < |all| && all[k].groupId == groupId && ChildOf(all[k]) == x;
        assert all[k] == fresh'[k - |before|];
      }
    }
  }
}
