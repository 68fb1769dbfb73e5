/** Ancestor chains, the lowest common ancestor, and the states a step exits and enters
    (internal/graph/compiled.go:50-72, internal/runtime/helpers.go:56-88). */
module Hierarchy {
  import opened Definitions

  // ---- Parent chains ------------------------------------------------------------------------

  /** `c` is the parent chain of `s`, nearest first, ending at a root. */
  predicate IsChain(def: Definition, s: string, c: seq<string>)
    decreases c
  {
    if c == [] then ParentOf(def, s) == ""
    else c[0] != "" && c[0] == ParentOf(def, s) && IsChain(def, c[0], c[1..])
  }

  lemma {:induction false} ChainUnique(def: Definition, s: string, c: seq<string>, c': seq<string>)
    requires IsChain(def, s, c) && IsChain(def, s, c')
    ensures c == c'
    decreases c
  {
    if c != [] && c' != [] {
      ChainUnique(def, c[0], c[1..], c'[1..]);
      assert c == [c[0]] + c[1..] && c' == [c'[0]] + c'[1..];
    }
  }

  /** The chain of the i-th ancestor is the rest of the chain. */
  lemma {:induction false} ChainSuffix(def: Definition, s: string, c: seq<string>, i: nat)
    requires IsChain(def, s, c) && i < |c|
    ensures IsChain(def, c[i], c[i + 1..])
    decreases c
  {
    if i > 0 {
      ChainSuffix(def, c[0], c[1..], i - 1);
      assert c[1..][i..] == c[i + 1..];
    }
  }

  /** A walk along parents that comes back to where it began. */
  predicate IsParentCycle(def: Definition, w: seq<string>) {
    && |w| >= 2 && w[0] == w[|w| - 1]
    && forall i :: 0 <= i < |w| - 1 ==> Climbs(def, w, i)
  }

  predicate Climbs(def: Definition, w: seq<string>, i: nat)
    requires i < |w| - 1
  {
    ParentOf(def, w[i]) == w[i + 1] && w[i + 1] != ""
  }

  ghost predicate HasParentCycle(def: Definition) {
    exists w :: IsParentCycle(def, w)
  }

  lemma {:induction false} WalkFollowsChain(def: Definition, w: seq<string>, c: seq<string>, i: nat)
    requires |w| >= 1 && IsChain(def, w[0], c) && i < |w|
    requires forall k :: 0 <= k < |w| - 1 ==> Climbs(def, w, k)
    ensures i <= |c| && IsChain(def, w[i], c[i..])
  {
    if i > 0 {
      WalkFollowsChain(def, w, c, i - 1);
      assert Climbs(def, w, i - 1);
      assert c[i - 1..] != [];
      assert c[i - 1..][1..] == c[i..];
    }
  }

  /** A state with a chain lies on no cycle. */
  lemma ChainMeansNoCycle(def: Definition, w: seq<string>, c: seq<string>)
    requires |w| >= 1 && IsChain(def, w[0], c)
    ensures !IsParentCycle(def, w)
  {
    if IsParentCycle(def, w) {
      WalkFollowsChain(def, w, c, |w| - 1);
      ChainUnique(def, w[0], c, c[|w| - 1..]);
      assert false;
    }
  }

  // ---- The compiled ancestry -----------------------------------------------------------------

  /** The lookup `cm.Ancestry[s]`: the empty chain for a missing key. */
  function Anc(cm: CompiledMachine, s: string): seq<string> {
    if s in cm.ancestry then cm.ancestry[s] else []
  }

  /** What compilation establishes about the ancestry map (proved in `Compile`). */
  ghost predicate ChainsOk(cm: CompiledMachine) {
    forall s: string :: IsChain(cm.def, s, Anc(cm, s))
  }

  /** The configuration of a resting state: itself and its ancestors. */
  function Config(cm: CompiledMachine, s: string): set<string> {
    {s} + Elements(Anc(cm, s))
  }

  lemma AncUnfold(cm: CompiledMachine, s: string)
    requires ChainsOk(cm)
    ensures ParentOf(cm.def, s) == "" <==> Anc(cm, s) == []
    ensures ParentOf(cm.def, s) != "" ==> Anc(cm, s) == [ParentOf(cm.def, s)] + Anc(cm, ParentOf(cm.def, s))
    ensures "" !in Anc(cm, s)
  {
    var c := Anc(cm, s);
    assert IsChain(cm.def, s, c);
    if c != [] {
      ChainUnique(cm.def, c[0], c[1..], Anc(cm, c[0]));
    }
    ChainNonEmptyNames(cm.def, s, c);
  }

  lemma {:induction false} ChainNonEmptyNames(def: Definition, s: string, c: seq<string>)
    requires IsChain(def, s, c)
    ensures "" !in c
    decreases c
  {
    if c != [] {
      ChainNonEmptyNames(def, c[0], c[1..]);
      assert c == [c[0]] + c[1..];
    }
  }

  lemma AncTail(cm: CompiledMachine, s: string, i: nat)
    requires ChainsOk(cm) && i < |Anc(cm, s)|
    ensures Anc(cm, Anc(cm, s)[i]) == Anc(cm, s)[i + 1..]
  {
    var c := Anc(cm, s);
    assert IsChain(cm.def, s, c);
    ChainSuffix(cm.def, s, c, i);
    ChainUnique(cm.def, c[i], c[i + 1..], Anc(cm, c[i]));
  }

  /** No state is its own ancestor and no chain repeats a state. */
  lemma AncDistinct(cm: CompiledMachine, s: string)
    requires ChainsOk(cm)
    ensures s !in Anc(cm, s)
    ensures NoDuplicates(Anc(cm, s))
    ensures NoDuplicates([s] + Anc(cm, s))
  {
    var c := Anc(cm, s);
    forall i | 0 <= i < |c|
      ensures |Anc(cm, c[i])| == |c| - i - 1
    {
      AncTail(cm, s, i);
    }
    forall i, j | 0 <= i < j < |c|
      ensures c[i] != c[j]
    {
      assert |Anc(cm, c[i])| != |Anc(cm, c[j])|;
    }
    forall i | 0 <= i < |c|
      ensures c[i] != s
    {
      assert |Anc(cm, c[i])| != |Anc(cm, s)|;
    }
  }

  lemma AncTransitive(cm: CompiledMachine, a: string, b: string, c: string)
    requires ChainsOk(cm) && b in Anc(cm, a) && c in Anc(cm, b)
    ensures c in Anc(cm, a)
  {
    var i :| 0 <= i < |Anc(cm, a)| && Anc(cm, a)[i] == b;
    AncTail(cm, a, i);
  }

  /** Ancestors of one state are linearly ordered: two of them are equal or one is above the other. */
  lemma AncLinear(cm: CompiledMachine, s: string, a: string, b: string)
    requires ChainsOk(cm) && a in Anc(cm, s) && b in Anc(cm, s)
    ensures a == b || a in Anc(cm, b) || b in Anc(cm, a)
  {
    var c := Anc(cm, s);
    var i :| 0 <= i < |c| && c[i] == a;
    var j :| 0 <= j < |c| && c[j] == b;
    AncTail(cm, s, i);
    AncTail(cm, s, j);
    if i < j {
      assert c[i + 1..][j - i - 1] == b;
    } else if j < i {
      assert c[j + 1..][i - j - 1] == a;
    }
  }

  // ---- Lowest common ancestor -----------------------------------------------------------------

  /** The position of the first element of `xs` that lies in `s`, or |xs|. */
  function FirstIn(xs: seq<string>, s: set<string>): (i: nat)
    ensures i <= |xs|
    ensures forall k :: 0 <= k < i ==> xs[k] !in s
    ensures i < |xs| ==> xs[i] in s
  {
    if xs == [] || xs[0] in s then 0 else 1 + FirstIn(xs[1..], s)
  }

  /** The nearest proper ancestor of `a` that is also a proper ancestor of `b`; "" for none. */
  function Lca(cm: CompiledMachine, a: string, b: string): string {
    var i := FirstIn(Anc(cm, a), Elements(Anc(cm, b)));
    if i < |Anc(cm, a)| then Anc(cm, a)[i] else ""
  }

  /** The common proper ancestors of two states are the LCA and everything above it. */
  lemma LcaExact(cm: CompiledMachine, a: string, b: string)
    requires ChainsOk(cm)
    ensures Lca(cm, a, b) != "" ==> Lca(cm, a, b) in Anc(cm, a) && Lca(cm, a, b) in Anc(cm, b)
    ensures Elements(Anc(cm, a)) * Elements(Anc(cm, b)) == if Lca(cm, a, b) == "" then {} else Config(cm, Lca(cm, a, b))
  {
    AncUnfold(cm, a);
    var c := Anc(cm, a);
    var i := FirstIn(c, Elements(Anc(cm, b)));
    if i < |c| {
      AncTail(cm, a, i);
      assert c[i] in Elements(Anc(cm, b));
      forall x | x in c && x in Anc(cm, b)
        ensures x in Config(cm, c[i])
      {
        var k :| 0 <= k < |c| && c[k] == x;
        assert k >= i;
        if k > i { assert c[i + 1..][k - i - 1] == x; }
      }
      forall x | x in Config(cm, c[i])
        ensures x in c && x in Anc(cm, b)
      {
        if x != c[i] {
          AncTransitive(cm, a, c[i], x);
          AncTransitive(cm, b, c[i], x);
        }
      }
    }
  }

  /** The LCA is the deepest common proper ancestor: every other one lies above it. */
  lemma LcaDeepest(cm: CompiledMachine, a: string, b: string, x: string)
    requires ChainsOk(cm) && x in Anc(cm, a) && x in Anc(cm, b)
    ensures Lca(cm, a, b) != ""
    ensures x == Lca(cm, a, b) || x in Anc(cm, Lca(cm, a, b))
  {
    LcaExact(cm, a, b);
    assert x in Elements(Anc(cm, a)) * Elements(Anc(cm, b));
  }

  lemma LcaSymmetric(cm: CompiledMachine, a: string, b: string)
    requires ChainsOk(cm)
    ensures Lca(cm, a, b) == Lca(cm, b, a)
  {
    LcaExact(cm, a, b);
    LcaExact(cm, b, a);
    var p, q := Lca(cm, a, b), Lca(cm, b, a);
    assert p != "" ==> p in Elements(Anc(cm, a)) * Elements(Anc(cm, b));
    assert q != "" ==> q in Elements(Anc(cm, b)) * Elements(Anc(cm, a));
    assert Elements(Anc(cm, a)) * Elements(Anc(cm, b)) == Elements(Anc(cm, b)) * Elements(Anc(cm, a));
    if p != "" && q != "" && p != q {
      LcaDeepest(cm, b, a, p);
      LcaDeepest(cm, a, b, q);
      AncTransitive(cm, p, q, p);
      AncDistinct(cm, p);
      assert false;
    }
  }

  // ---- Exit and entry sequences ---------------------------------------------------------------

  /** `c` up to but without the first `lca`. */
  function Below(c: seq<string>, lca: string): seq<string> {
    c[..FirstIn(c, {lca})]
  }

  function Reversed(s: seq<string>): (r: seq<string>)
    ensures |r| == |s|
    ensures forall k :: 0 <= k < |s| ==> r[k] == s[|s| - 1 - k]
  {
    if s == [] then [] else Reversed(s[1..]) + [s[0]]
  }

  /** The states left when `source` is left up to `lca`, leaf first. */
  function ExitSeq(cm: CompiledMachine, source: string, lca: string): seq<string> {
    [source] + Below(Anc(cm, source), lca)
  }

  /** The states entered on the way from `lca` down to `target`, outermost first. */
  function EntrySeq(cm: CompiledMachine, lca: string, target: string): seq<string> {
    Reversed(Below(Anc(cm, target), lca)) + [target]
  }

  lemma ReversedElements(s: seq<string>)
    ensures Elements(Reversed(s)) == Elements(s)
  {
    forall x | x in s ensures x in Reversed(s) {
      var k :| 0 <= k < |s| && s[k] == x;
      assert Reversed(s)[|s| - 1 - k] == x;
    }
  }

  lemma ExitEntrySame(cm: CompiledMachine, s: string, lca: string)
    ensures Elements(ExitSeq(cm, s, lca)) == {s} + Elements(Below(Anc(cm, s), lca))
    ensures Elements(EntrySeq(cm, lca, s)) == {s} + Elements(Below(Anc(cm, s), lca))
  {
    var low := Below(Anc(cm, s), lca);
    ReversedElements(low);
    assert forall x :: x in Elements(EntrySeq(cm, lca, s)) <==> x in Elements(Reversed(low)) || x == s;
  }

  /** Splitting a configuration at one of its proper ancestors, or at nothing. */
  lemma ConfigSplit(cm: CompiledMachine, s: string, lca: string)
    requires ChainsOk(cm) && (lca == "" || lca in Anc(cm, s))
    ensures var low, kept := {s} + Elements(Below(Anc(cm, s), lca)), if lca == "" then {} else Config(cm, lca);
      Config(cm, s) == low + kept && low !! kept
  {
    AncUnfold(cm, s);
    AncDistinct(cm, s);
    var c := Anc(cm, s);
    var i := FirstIn(c, {lca});
    if lca == "" {
      assert Below(c, lca) == c;
    } else {
      AncTail(cm, s, i);
      SplitElements(c, i);
    }
  }

  lemma SplitElements(c: seq<string>, i: nat)
    requires i < |c| && NoDuplicates(c)
    ensures Elements(c) == Elements(c[..i]) + {c[i]} + Elements(c[i + 1..])
    ensures Elements(c[..i]) !! {c[i]} + Elements(c[i + 1..])
  {
    assert c == c[..i] + [c[i]] + c[i + 1..];
    forall x | x in c[i + 1..] ensures x !in c[..i] {
      var k :| 0 <= k < |c| - i - 1 && c[i + 1..][k] == x;
      assert c[i + 1 + k] == x;
    }
  }

  /** Any source, any target: leaving the exit states and entering the entry states turns the one
      configuration into the other ... */
  lemma SequencesExact(cm: CompiledMachine, source: string, target: string)
    requires ChainsOk(cm)
    ensures var lca := Lca(cm, source, target);
      Config(cm, source) - Elements(ExitSeq(cm, source, lca)) + Elements(EntrySeq(cm, lca, target))
        == Config(cm, target)
  {
    var lca := Lca(cm, source, target);
    LcaExact(cm, source, target);
    ExitEntrySame(cm, source, lca);
    ExitEntrySame(cm, target, lca);
    ConfigSplit(cm, source, lca);
    ConfigSplit(cm, target, lca);
  }

  /** ... and exactly what lies at or above the LCA is kept: neither left nor entered again. */
  lemma SequencesKeep(cm: CompiledMachine, source: string, target: string)
    requires ChainsOk(cm)
    ensures var lca := Lca(cm, source, target);
      var kept := if lca == "" then {} else Config(cm, lca);
      Config(cm, source) - Elements(ExitSeq(cm, source, lca)) == kept && kept !! Elements(EntrySeq(cm, lca, target))
  {
    var lca := Lca(cm, source, target);
    LcaExact(cm, source, target);
    ExitEntrySame(cm, source, lca);
    ExitEntrySame(cm, target, lca);
    ConfigSplit(cm, source, lca);
    ConfigSplit(cm, target, lca);
  }

  /** Child before parent, one parent at a time, nothing twice. */
  ghost predicate Upward(cm: CompiledMachine, xs: seq<string>) {
    && NoDuplicates(xs)
    && (forall i :: 0 <= i < |xs| - 1 ==> ParentOf(cm.def, xs[i]) == xs[i + 1])
    && (forall i, j :: 0 <= i < j < |xs| ==> xs[j] in Anc(cm, xs[i]))
  }

  /** Parent before child, one child at a time, nothing twice. */
  ghost predicate Downward(cm: CompiledMachine, xs: seq<string>) {
    && NoDuplicates(xs)
    && (forall i :: 0 <= i < |xs| - 1 ==> ParentOf(cm.def, xs[i + 1]) == xs[i])
    && (forall i, j :: 0 <= i < j < |xs| ==> xs[i] in Anc(cm, xs[j]))
  }

  /** Exits run child before parent, entries parent before child, and nothing runs twice. */
  lemma SequencesOrdered(cm: CompiledMachine, source: string, target: string)
    requires ChainsOk(cm)
    ensures var lca := Lca(cm, source, target);
      Upward(cm, ExitSeq(cm, source, lca)) && Downward(cm, EntrySeq(cm, lca, target))
  {
    var lca := Lca(cm, source, target);
    ExitsUpward(cm, source, lca);
    EntriesDownward(cm, lca, target);
  }

  lemma ExitsUpward(cm: CompiledMachine, source: string, lca: string)
    requires ChainsOk(cm)
    ensures Upward(cm, ExitSeq(cm, source, lca))
  {
    var exits := ExitSeq(cm, source, lca);
    assert exits == ([source] + Anc(cm, source))[..|exits|];
    ChainOrdered(cm, source, |exits|);
  }

  lemma EntriesDownward(cm: CompiledMachine, lca: string, target: string)
    requires ChainsOk(cm)
    ensures Downward(cm, EntrySeq(cm, lca, target))
  {
    var entries := EntrySeq(cm, lca, target);
    var up := ([target] + Anc(cm, target))[..|entries|];
    ChainOrdered(cm, target, |entries|);
    assert forall k :: 0 <= k < |entries| ==> entries[k] == up[|entries| - 1 - k];
    UpwardReversed(cm, up, entries);
  }

  lemma UpwardReversed(cm: CompiledMachine, up: seq<string>, down: seq<string>)
    requires Upward(cm, up) && |down| == |up| && forall k :: 0 <= k < |up| ==> down[k] == up[|up| - 1 - k]
    ensures Downward(cm, down)
  {
    forall i | 0 <= i < |down| - 1 ensures ParentOf(cm.def, down[i + 1]) == down[i] {
      var k := |up| - 2 - i;
      assert ParentOf(cm.def, up[k]) == up[k + 1];
    }
    forall i, j | 0 <= i < j < |down| ensures down[i] in Anc(cm, down[j]) && down[i] != down[j] {
      var k, l := |up| - 1 - j, |up| - 1 - i;
      assert up[l] in Anc(cm, up[k]) && up[k] != up[l];
    }
  }

  /** Every prefix of a state and its chain climbs one parent at a time. */
  lemma ChainOrdered(cm: CompiledMachine, s: string, n: nat)
    requires ChainsOk(cm) && n <= |Anc(cm, s)| + 1
    ensures Upward(cm, ([s] + Anc(cm, s))[..n])
  {
    AncDistinct(cm, s);
    var c := Anc(cm, s);
    var up := ([s] + c)[..n];
    forall i | 0 <= i < n - 1 ensures ParentOf(cm.def, up[i]) == up[i + 1] {
      ChainAt(cm, s, i);
      AncUnfold(cm, up[i]);
      assert c[i..][0] == up[i + 1];
    }
    forall i, j | 0 <= i < j < n ensures up[j] in Anc(cm, up[i]) {
      ChainAt(cm, s, i);
      assert c[i..][j - 1 - i] == up[j];
    }
  }

  lemma ChainAt(cm: CompiledMachine, s: string, i: nat)
    requires ChainsOk(cm) && i <= |Anc(cm, s)|
    ensures Anc(cm, ([s] + Anc(cm, s))[i]) == Anc(cm, s)[i..]
  {
    if i > 0 { AncTail(cm, s, i - 1); }
  }

  // ---- The loops of the source ------------------------------------------------------------------

  method ComputeLca(cm: CompiledMachine, a: string, b: string) returns (lca: string, found: bool)
    requires ChainsOk(cm)
    ensures lca == Lca(cm, a, b)
    ensures found <==> exists x :: x in Anc(cm, a) && x in Anc(cm, b)
  {
    AncUnfold(cm, a);
    var ancestorsA := Anc(cm, a);
    if |ancestorsA| == 0 { return "", false; }
    var ancestorsB := Anc(cm, b);
    if |ancestorsB| == 0 { return "", false; }
    var bSet: set<string> := {};
    for i := 0 to |ancestorsB|
      invariant bSet == Elements(ancestorsB[..i])
    {
      assert ancestorsB[..i + 1] == ancestorsB[..i] + [ancestorsB[i]];
      bSet := bSet + {ancestorsB[i]};
    }
    assert ancestorsB[..|ancestorsB|] == ancestorsB;
    for i := 0 to |ancestorsA|
      invariant forall k :: 0 <= k < i ==> ancestorsA[k] !in bSet
    {
      if ancestorsA[i] in bSet { return ancestorsA[i], true; }
    }
    return "", false;
  }

  method ComputeExitSequence(cm: CompiledMachine, source: string, lca: string) returns (s: seq<string>)
    ensures s == ExitSeq(cm, source, lca)
  {
    s := [source];
    var c := Anc(cm, source);
    for i := 0 to |c|
      invariant s == [source] + c[..i]
      invariant lca !in c[..i]
    {
      if c[i] == lca { break; }
      s := s + [c[i]];
    }
  }

  method ComputeEntrySequence(cm: CompiledMachine, lca: string, target: string) returns (result: seq<string>)
    ensures result == EntrySeq(cm, lca, target)
  {
    var chain := Anc(cm, target);
    var lcaIdx := |chain|;
    for i := 0 to |chain|
      invariant lcaIdx == |chain| && lca !in chain[..i]
    {
      if chain[i] == lca { lcaIdx := i; break; }
    }
    var fromLca := chain[..lcaIdx];
    assert fromLca == Below(chain, lca);
    var buffer := new string[|fromLca| + 1];
    for i := 0 to |fromLca|
      invariant forall k :: 0 <= k < i ==> buffer[|fromLca| - 1 - k] == fromLca[k]
    {
      buffer[|fromLca| - 1 - i] := fromLca[i];
    }
    buffer[|fromLca|] := target;
    result := buffer[..];
    forall k | 0 <= k < |fromLca| ensures result[k] == Reversed(fromLca)[k] {
      assert buffer[|fromLca| - 1 - (|fromLca| - 1 - k)] == fromLca[|fromLca| - 1 - k];
    }
    assert result == EntrySeq(cm, lca, target);
  }
}
