/** Which activities a move runs and in which order, said by sets of states and the parent order alone
    (internal/runtime/executor.go:295-349, internal/runtime/parallel.go:189-220, internal/runtime/helpers.go:52-88
    and 187-228). */
module Activities {
  import opened Definitions
  import opened Hierarchy
  import opened Step
  import opened Machines
  import opened Configuration

  // ---- The states a move leaves and enters --------------------------------------------------------------------

  /** What lies above both states. */
  function Common(cm: CompiledMachine, a: string, b: string): set<string> {
    Elements(Anc(cm, a)) * Elements(Anc(cm, b))
  }

  /** A move from `a` to `b` leaves `a` and all above it that is not above both ... */
  function Left(cm: CompiledMachine, a: string, b: string): set<string> {
    Config(cm, a) - Common(cm, a, b)
  }

  /** ... and enters `b` and all above it that is not above both. */
  function Entered(cm: CompiledMachine, a: string, b: string): set<string> {
    Config(cm, b) - Common(cm, a, b)
  }

  lemma LeftIsExited(cm: CompiledMachine, a: string, b: string)
    requires ChainsOk(cm)
    ensures Elements(ExitSeq(cm, a, Lca(cm, a, b))) == Left(cm, a, b)
    ensures Elements(EntrySeq(cm, Lca(cm, a, b), b)) == Entered(cm, a, b)
  {
    var lca := Lca(cm, a, b);
    LcaExact(cm, a, b);
    ConfigSplit(cm, a, lca);
    ConfigSplit(cm, b, lca);
    ExitEntrySame(cm, a, lca);
    ExitEntrySame(cm, b, lca);
  }

  /** Leaving the one and entering the other turns the one configuration into the other. */
  lemma MoveExact(cm: CompiledMachine, a: string, b: string)
    requires ChainsOk(cm)
    ensures Config(cm, a) - Left(cm, a, b) + Entered(cm, a, b) == Config(cm, b)
    ensures a in Left(cm, a, b) && b in Entered(cm, a, b)
  {
    AncDistinct(cm, a);
    AncDistinct(cm, b);
  }

  // ---- Activities of states -----------------------------------------------------------------------------------

  /** The activity is the one the definition gives the state for leaving or entering it. */
  predicate Own(def: Definition, a: Act) {
    && a.state in def.states && a.activity != ""
    && a.activity == if a.ExitAct? then def.states[a.state].exitActivity else def.states[a.state].entryActivity
  }

  ghost predicate Once(acts: seq<Act>) {
    forall i, j :: 0 <= i < j < |acts| ==> acts[i].state != acts[j].state
  }

  /** The exit activities of the states in `left`, all of them and nothing else. */
  ghost predicate AllExits(def: Definition, acts: seq<Act>, left: set<string>) {
    && (forall i :: 0 <= i < |acts| ==> acts[i].ExitAct? && Own(def, acts[i]) && acts[i].state in left)
    && (forall s :: s in left && s in def.states && def.states[s].exitActivity != "" ==>
         ExitAct(s, def.states[s].exitActivity) in acts)
  }

  /** And once each. */
  ghost predicate ExitsExactly(def: Definition, acts: seq<Act>, left: set<string>) {
    AllExits(def, acts, left) && Once(acts)
  }

  /** The entry activities of the states in `entered`, all of them and nothing else. */
  ghost predicate AllEntries(def: Definition, acts: seq<Act>, entered: set<string>) {
    && (forall i :: 0 <= i < |acts| ==> acts[i].EntryAct? && Own(def, acts[i]) && acts[i].state in entered)
    && (forall s :: s in entered && s in def.states && def.states[s].entryActivity != "" ==>
         EntryAct(s, def.states[s].entryActivity) in acts)
  }

  /** And once each. */
  ghost predicate EntriesExactly(def: Definition, acts: seq<Act>, entered: set<string>) {
    AllEntries(def, acts, entered) && Once(acts)
  }

  /** No state before one below it. */
  ghost predicate ChildFirst(cm: CompiledMachine, acts: seq<Act>) {
    forall i, j :: 0 <= i < j < |acts| ==> acts[i].state !in Anc(cm, acts[j].state)
  }

  /** No state before one above it. */
  ghost predicate ParentFirst(cm: CompiledMachine, acts: seq<Act>) {
    forall i, j :: 0 <= i < j < |acts| ==> acts[j].state !in Anc(cm, acts[i].state)
  }

  /** Two activities stand in the order of their states. */
  ghost predicate Follows(acts: seq<Act>, states: seq<string>) {
    forall i, j :: 0 <= i < j < |acts| ==> Ordered(states, acts[i].state, acts[j].state)
  }

  ghost predicate Ordered(states: seq<string>, x: string, y: string) {
    exists a, b :: 0 <= a < b < |states| && states[a] == x && states[b] == y
  }

  lemma OrderedIn(first: string, rest: seq<string>)
    ensures forall y :: y in rest ==> Ordered([first] + rest, first, y)
    ensures forall x, y :: Ordered(rest, x, y) ==> Ordered([first] + rest, x, y)
  {
    var all := [first] + rest;
    forall y | y in rest ensures Ordered(all, first, y) {
      var k :| 0 <= k < |rest| && rest[k] == y;
      assert all[0] == first && all[k + 1] == y;
    }
    forall x, y | Ordered(rest, x, y) ensures Ordered(all, x, y) {
      var a, b :| 0 <= a < b < |rest| && rest[a] == x && rest[b] == y;
      assert all[a + 1] == x && all[b + 1] == y;
    }
  }

  lemma {:induction false} ExitActsFollow(def: Definition, states: seq<string>)
    ensures var acts := ExitActs(def, states);
      && Follows(acts, states)
      && (forall i :: 0 <= i < |acts| ==> acts[i].ExitAct? && Own(def, acts[i]) && acts[i].state in states)
      && forall s :: s in states && s in def.states && def.states[s].exitActivity != "" ==>
           ExitAct(s, def.states[s].exitActivity) in acts
  {
    if states != [] {
      var first, rest := states[0], states[1..];
      ExitActsFollow(def, rest);
      OrderedIn(first, rest);
      assert states == [first] + rest;
    }
  }

  lemma {:induction false} EntryActsFollow(def: Definition, states: seq<string>)
    ensures var acts := EntryActs(def, states);
      && Follows(acts, states)
      && (forall i :: 0 <= i < |acts| ==> acts[i].EntryAct? && Own(def, acts[i]) && acts[i].state in states)
      && forall s :: s in states && s in def.states && def.states[s].entryActivity != "" ==>
           EntryAct(s, def.states[s].entryActivity) in acts
  {
    if states != [] {
      var first, rest := states[0], states[1..];
      EntryActsFollow(def, rest);
      OrderedIn(first, rest);
      assert states == [first] + rest;
    }
  }

  /** Nothing stands before a state below it, and nothing stands twice. */
  ghost predicate Rising(cm: CompiledMachine, states: seq<string>) {
    NoDuplicates(states) && forall i, j :: 0 <= i < j < |states| ==> states[i] !in Anc(cm, states[j])
  }

  /** Nothing stands before a state above it, and nothing stands twice. */
  ghost predicate Falling(cm: CompiledMachine, states: seq<string>) {
    NoDuplicates(states) && forall i, j :: 0 <= i < j < |states| ==> states[j] !in Anc(cm, states[i])
  }

  lemma ExitsOfRising(cm: CompiledMachine, states: seq<string>)
    requires Rising(cm, states)
    ensures ExitsExactly(cm.def, ExitActs(cm.def, states), Elements(states))
    ensures ChildFirst(cm, ExitActs(cm.def, states)) && Follows(ExitActs(cm.def, states), states)
  {
    ExitActsFollow(cm.def, states);
    var acts := ExitActs(cm.def, states);
    forall i, j | 0 <= i < j < |acts|
      ensures acts[i].state != acts[j].state && acts[i].state !in Anc(cm, acts[j].state)
    {
      assert Ordered(states, acts[i].state, acts[j].state);
    }
  }

  lemma EntriesOfFalling(cm: CompiledMachine, states: seq<string>)
    requires Falling(cm, states)
    ensures EntriesExactly(cm.def, EntryActs(cm.def, states), Elements(states))
    ensures ParentFirst(cm, EntryActs(cm.def, states)) && Follows(EntryActs(cm.def, states), states)
  {
    EntryActsFollow(cm.def, states);
    var acts := EntryActs(cm.def, states);
    forall i, j | 0 <= i < j < |acts|
      ensures acts[i].state != acts[j].state && acts[j].state !in Anc(cm, acts[i].state)
    {
      assert Ordered(states, acts[i].state, acts[j].state);
    }
  }

  // ---- One path ------------------------------------------------------------------------------------------------

  lemma AboveIsNotBelow(cm: CompiledMachine, x: string, y: string)
    requires ChainsOk(cm) && y in Anc(cm, x)
    ensures x != y && x !in Anc(cm, y)
  {
    AncDistinct(cm, x);
    if x in Anc(cm, y) { AncTransitive(cm, x, y, x); }
  }

  lemma PathRises(cm: CompiledMachine, s: string, lca: string)
    requires ChainsOk(cm)
    ensures Rising(cm, ExitSeq(cm, s, lca))
  {
    ExitsUpward(cm, s, lca);
    var xs := ExitSeq(cm, s, lca);
    forall i, j | 0 <= i < j < |xs| ensures xs[i] !in Anc(cm, xs[j]) { AboveIsNotBelow(cm, xs[i], xs[j]); }
  }

  lemma PathFalls(cm: CompiledMachine, lca: string, t: string)
    requires ChainsOk(cm)
    ensures Falling(cm, EntrySeq(cm, lca, t))
  {
    EntriesDownward(cm, lca, t);
    var es := EntrySeq(cm, lca, t);
    forall i, j | 0 <= i < j < |es| ensures es[j] !in Anc(cm, es[i]) { AboveIsNotBelow(cm, es[j], es[i]); }
  }

  /** The activities of a move along one path. */
  lemma PathActivities(cm: CompiledMachine, a: string, b: string)
    requires ChainsOk(cm)
    ensures var lca := Lca(cm, a, b);
      var xs, es := ExitActs(cm.def, ExitSeq(cm, a, lca)), EntryActs(cm.def, EntrySeq(cm, lca, b));
      && ExitsExactly(cm.def, xs, Left(cm, a, b)) && ChildFirst(cm, xs)
      && EntriesExactly(cm.def, es, Entered(cm, a, b)) && ParentFirst(cm, es)
  {
    var lca := Lca(cm, a, b);
    LeftIsExited(cm, a, b);
    PathRises(cm, a, lca);
    PathFalls(cm, lca, b);
    ExitsOfRising(cm, ExitSeq(cm, a, lca));
    EntriesOfFalling(cm, EntrySeq(cm, lca, b));
  }

  // ---- The regions of a parallel state ----------------------------------------------------------------------------

  /** `rs` are regions of `p`, each with a state below it. */
  ghost predicate Rooted(cm: CompiledMachine, p: string, rs: seq<string>, active: map<string, string>) {
    NoDuplicates(rs) && forall r :: r in rs ==> r in active && IsRegion(cm, p, r) && r in Anc(cm, active[r])
  }

  /** Nothing at or below one region lies at, above or below something at or below another. */
  lemma Apart(cm: CompiledMachine, p: string, a: string, b: string, x: string, y: string)
    requires ChainsOk(cm) && IsRegion(cm, p, a) && IsRegion(cm, p, b) && a != b
    requires a in Config(cm, x) && b in Config(cm, y)
    ensures x != y && y !in Anc(cm, x)
  {
    if y in Config(cm, x) {
      if b in Anc(cm, y) && y in Anc(cm, x) { AncTransitive(cm, x, y, b); }
      assert a in Config(cm, x) && b in Config(cm, x);
      if a in Anc(cm, x) && b in Anc(cm, x) { RegionsDisjoint(cm, p, a, b, x); }
      SiblingsApart(cm, p, a, b);
      SiblingsApart(cm, p, b, a);
    }
  }

  lemma SiblingsApart(cm: CompiledMachine, p: string, a: string, b: string)
    requires ChainsOk(cm) && IsRegion(cm, p, a) && IsRegion(cm, p, b) && a != b
    ensures b !in Anc(cm, a)
  {
    AncUnfold(cm, a);
    AncUnfold(cm, b);
    AncDistinct(cm, b);
    if b in Anc(cm, p) { AncTransitive(cm, b, p, b); }
  }

  predicate InBlock(active: map<string, string>, r: string, x: string) {
    r in active && (x == r || x == active[r])
  }

  lemma BlockIsBelow(cm: CompiledMachine, p: string, rs: seq<string>, active: map<string, string>, r: string, x: string)
    requires ChainsOk(cm) && Rooted(cm, p, rs, active) && r in rs && InBlock(active, r, x)
    ensures r in Config(cm, x) && p in Anc(cm, x) && IsRegion(cm, p, r)
  {
    assert IsRegion(cm, p, r);
    AncUnfold(cm, r);
    if x != r { AncTransitive(cm, x, r, p); }
  }

  /** Whoever stands earlier belongs to an earlier region or to the same. */
  ghost predicate ByRegion(rs: seq<string>, active: map<string, string>, states: seq<string>) {
    && (forall i :: 0 <= i < |states| ==> SomeBlock(rs, active, states[i]))
    && forall i, j :: 0 <= i < j < |states| ==> InTurn(rs, active, states[i], states[j])
  }

  ghost predicate SomeBlock(rs: seq<string>, active: map<string, string>, x: string) {
    exists r :: r in rs && InBlock(active, r, x)
  }

  ghost predicate InTurn(rs: seq<string>, active: map<string, string>, x: string, y: string) {
    exists r, q :: r in rs && q in rs && InBlock(active, r, x) && InBlock(active, q, y) && (r == q || Ordered(rs, r, q))
  }

  lemma RisingJoins(cm: CompiledMachine, a: seq<string>, b: seq<string>)
    requires Rising(cm, a) && Rising(cm, b)
    requires forall x, y :: x in a && y in b ==> x != y && x !in Anc(cm, y)
    ensures Rising(cm, a + b)
  {
    var states := a + b;
    forall i, j | 0 <= i < j < |states| ensures states[i] != states[j] && states[i] !in Anc(cm, states[j]) {
      if i < |a| <= j { assert a[i] in a && b[j - |a|] in b; }
    }
  }

  lemma FallingJoins(cm: CompiledMachine, a: seq<string>, b: seq<string>)
    requires Falling(cm, a) && Falling(cm, b)
    requires forall x, y :: x in a && y in b ==> x != y && y !in Anc(cm, x)
    ensures Falling(cm, a + b)
  {
    var states := a + b;
    forall i, j | 0 <= i < j < |states| ensures states[i] != states[j] && states[j] !in Anc(cm, states[i]) {
      if i < |a| <= j { assert a[i] in a && b[j - |a|] in b; }
    }
  }

  /** One more region in front. */
  lemma ByRegionJoins(r: string, rest: seq<string>, active: map<string, string>, a: seq<string>, b: seq<string>)
    requires ByRegion(rest, active, b) && forall x :: x in a ==> InBlock(active, r, x)
    ensures ByRegion([r] + rest, active, a + b)
  {
    var rs, states := [r] + rest, a + b;
    OrderedIn(r, rest);
    forall i | 0 <= i < |states| ensures SomeBlock(rs, active, states[i]) {
      if i < |a| {
        assert InBlock(active, r, a[i]) && r in rs;
      } else {
        assert SomeBlock(rest, active, b[i - |a|]);
        var q :| q in rest && InBlock(active, q, states[i]);
        assert q in rs;
      }
    }
    forall i, j | 0 <= i < j < |states| ensures InTurn(rs, active, states[i], states[j]) {
      if j < |a| {
        assert InBlock(active, r, a[i]) && InBlock(active, r, a[j]) && r in rs;
      } else if i < |a| {
        assert InBlock(active, r, a[i]) && r in rs;
        assert SomeBlock(rest, active, b[j - |a|]);
        var q :| q in rest && InBlock(active, q, states[j]);
        assert Ordered(rs, r, q) && q in rs;
      } else {
        assert InTurn(rest, active, b[i - |a|], b[j - |a|]);
        var x, y :| x in rest && y in rest && InBlock(active, x, states[i]) && InBlock(active, y, states[j])
            && (x == y || Ordered(rest, x, y));
        assert x in rs && y in rs;
      }
    }
  }

  lemma BlocksApart(cm: CompiledMachine, p: string, r: string, rest: seq<string>, active: map<string, string>,
                    a: seq<string>, b: seq<string>)
    requires ChainsOk(cm) && Rooted(cm, p, [r] + rest, active)
    requires (forall x :: x in a ==> InBlock(active, r, x)) && ByRegion(rest, active, b)
    ensures forall x, y :: x in a && y in b ==> x != y && x !in Anc(cm, y) && y !in Anc(cm, x)
  {
    forall x, y | x in a && y in b ensures x != y && x !in Anc(cm, y) && y !in Anc(cm, x) {
      var j :| 0 <= j < |b| && b[j] == y;
      assert SomeBlock(rest, active, b[j]);
      var q :| q in rest && InBlock(active, q, y);
      var rs := [r] + rest;
      assert rs[0] == r && q in rs && r != q by { var k :| 0 <= k < |rest| && rest[k] == q; assert rs[k + 1] == q; }
      BlockIsBelow(cm, p, rs, active, r, x);
      BlockIsBelow(cm, p, rs, active, q, y);
      Apart(cm, p, r, q, x, y);
      Apart(cm, p, q, r, y, x);
    }
  }

  lemma RootedRest(cm: CompiledMachine, p: string, rs: seq<string>, active: map<string, string>)
    requires Rooted(cm, p, rs, active) && rs != []
    ensures Rooted(cm, p, rs[1..], active) && rs == [rs[0]] + rs[1..]
    ensures rs[0] in active && IsRegion(cm, p, rs[0]) && rs[0] in Anc(cm, active[rs[0]])
  {
    assert rs[0] in rs;
  }

  /** The regions are left in their order, each leaf before its region. */
  lemma {:induction false} RegionExitsRise(cm: CompiledMachine, p: string, rs: seq<string>, active: map<string, string>)
    requires ChainsOk(cm) && Rooted(cm, p, rs, active)
    ensures Rising(cm, RegionExits(active, rs)) && ByRegion(rs, active, RegionExits(active, rs))
  {
    if rs != [] {
      RootedRest(cm, p, rs, active);
      RegionExitsRise(cm, p, rs[1..], active);
      var r, leaf := rs[0], active[rs[0]];
      AboveIsNotBelow(cm, leaf, r);
      var head := [leaf] + [r];
      var rest := RegionExits(active, rs[1..]);
      BlocksApart(cm, p, r, rs[1..], active, head, rest);
      RisingJoins(cm, head, rest);
      ByRegionJoins(r, rs[1..], active, head, rest);
      assert RegionExits(active, rs) == head + rest;
    }
  }

  ghost predicate AtStarts(cm: CompiledMachine, rs: seq<string>, active: map<string, string>) {
    forall r :: r in rs ==> r in active && r in cm.initialLeaf && active[r] == cm.initialLeaf[r]
  }

  lemma AtStartsRest(cm: CompiledMachine, rs: seq<string>, active: map<string, string>)
    requires AtStarts(cm, rs, active) && rs != []
    ensures AtStarts(cm, rs[1..], active)
    ensures rs[0] in active && rs[0] in cm.initialLeaf && active[rs[0]] == cm.initialLeaf[rs[0]]
  {
    assert rs[0] in rs;
  }

  lemma RegionEntriesUnfold(cm: CompiledMachine, rs: seq<string>)
    requires rs != [] && rs[0] in cm.initialLeaf
    ensures RegionEntries(cm, rs) == ([rs[0]] + [cm.initialLeaf[rs[0]]]) + RegionEntries(cm, rs[1..])
  {}

  /** The regions are entered in their order, each before the leaf it starts at. */
  lemma {:induction false} RegionEntriesFall(cm: CompiledMachine, p: string, rs: seq<string>,
                                             active: map<string, string>)
    requires ChainsOk(cm) && Rooted(cm, p, rs, active) && AtStarts(cm, rs, active)
    ensures Falling(cm, RegionEntries(cm, rs)) && ByRegion(rs, active, RegionEntries(cm, rs))
  {
    if rs != [] {
      RootedRest(cm, p, rs, active);
      AtStartsRest(cm, rs, active);
      RegionEntriesFall(cm, p, rs[1..], active);
      RegionEntriesUnfold(cm, rs);
      RegionInFront(cm, p, rs, active, RegionEntries(cm, rs[1..]));
    }
  }

  lemma RegionInFront(cm: CompiledMachine, p: string, rs: seq<string>, active: map<string, string>, rest: seq<string>)
    requires ChainsOk(cm) && rs != [] && Rooted(cm, p, rs, active) && rs[0] in active
    requires Falling(cm, rest) && ByRegion(rs[1..], active, rest)
    ensures var states := ([rs[0]] + [active[rs[0]]]) + rest;
      Falling(cm, states) && ByRegion(rs, active, states)
  {
    RootedRest(cm, p, rs, active);
    var r, leaf := rs[0], active[rs[0]];
    AboveIsNotBelow(cm, leaf, r);
    var head := [r] + [leaf];
    BlocksApart(cm, p, r, rs[1..], active, head, rest);
    FallingJoins(cm, head, rest);
    ByRegionJoins(r, rs[1..], active, head, rest);
  }
}
