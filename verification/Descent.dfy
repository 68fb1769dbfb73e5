/** Initial leaves, said without the recursion that finds them: where the walk along initial children ends, and when
    (internal/graph/compiled.go:108-115 and 180-191). */
module Descent {
  import opened Definitions
  import opened Compile
  import opened Step

  predicate GoesOn(def: Definition, s: string) {
    IsCompound(def, s) && def.states[s].initialChild != ""
  }

  /** Where the resolution of `s` is after `n` steps; it stays where it ends. */
  function Down(def: Definition, s: string, n: nat): string {
    if n == 0 then s
    else
      var p := Down(def, s, n - 1);
      if GoesOn(def, p) then def.states[p].initialChild else p
  }

  ghost predicate ResolutionEnds(def: Definition, s: string) {
    exists n: nat :: !GoesOn(def, Down(def, s, n))
  }

  lemma {:induction false} StaysEnded(def: Definition, s: string, n: nat, k: nat)
    requires n <= k && !GoesOn(def, Down(def, s, n))
    ensures Down(def, s, k) == Down(def, s, n)
  {
    if n < k { StaysEnded(def, s, n, k - 1); }
  }

  ghost function Trail(def: Definition, s: string, n: nat): (t: seq<string>)
    ensures |t| == n && forall i :: 0 <= i < n ==> t[i] == Down(def, s, i)
  {
    seq(n, i requires 0 <= i < n => Down(def, s, i))
  }

  /** From a repeated state on, the walk only meets what it has met. */
  lemma {:induction false} ComesBack(def: Definition, s: string, i: nat, j: nat, n: nat) returns (k: nat)
    requires i < j && Down(def, s, i) == Down(def, s, j)
    ensures k < j && Down(def, s, n) == Down(def, s, k)
  {
    if n < j { return n; }
    k := ComesBack(def, s, i, j, n - 1);
    k := if k + 1 < j then k + 1 else i;
  }

  /** The resolution of an initial leaf ends exactly if it has ended after as many steps as there are states. */
  lemma ResolutionEndsExactly(def: Definition, s: string)
    ensures ResolutionEnds(def, s) <==> !GoesOn(def, Down(def, s, |def.states|))
  {
    var n := |def.states|;
    if GoesOn(def, Down(def, s, n)) {
      forall k | 0 <= k <= n ensures GoesOn(def, Down(def, s, k)) {
        if !GoesOn(def, Down(def, s, k)) { StaysEnded(def, s, k, n); }
      }
      var t := Trail(def, s, n + 1);
      SubsetSize(Elements(t), def.states.Keys);
      if NoDuplicates(t) { SizeOfDistinct(t); }
      var i, j :| 0 <= i < j < |t| && t[i] == t[j];
      forall m: nat ensures GoesOn(def, Down(def, s, m)) { var k := ComesBack(def, s, i, j, m); }
    }
  }

  lemma {:induction false} OneFurther(def: Definition, s: string, n: nat)
    requires GoesOn(def, s)
    ensures Down(def, s, n + 1) == Down(def, def.states[s].initialChild, n)
  {
    if n > 0 { OneFurther(def, s, n - 1); } else { assert Down(def, s, 0) == s; }
  }

  // ---- What compilation finds ---------------------------------------------------------------------------------

  /** `l` is where the walk from `s` along initial children ends. */
  ghost predicate StartsAt(def: Definition, s: string, l: string) {
    exists n: nat :: Down(def, s, n) == l && !GoesOn(def, l)
  }

  lemma StartsOnce(def: Definition, s: string, a: string, b: string)
    requires StartsAt(def, s, a) && StartsAt(def, s, b)
    ensures a == b
  {
    var m: nat :| Down(def, s, m) == a && !GoesOn(def, a);
    var n: nat :| Down(def, s, n) == b && !GoesOn(def, b);
    if m <= n { StaysEnded(def, s, m, n); } else { StaysEnded(def, s, n, m); }
  }

  /** The recursion of the source ends where the walk does. */
  lemma {:induction false} LeafIsStart(def: Definition, s: string)
    requires Acyclic(def) && Assembled(def)
    ensures StartsAt(def, s, InitialLeaf(def, s))
    decreases Room(def, s)
  {
    assert Down(def, s, 0) == s;
    if GoesOn(def, s) {
      var child := def.states[s].initialChild;
      assert WiredState(def, s) && IsPlainCompound(def, s);
      ChildHasLessRoom(def, s, child);
      LeafIsStart(def, child);
      var n: nat :| Down(def, child, n) == InitialLeaf(def, child) && !GoesOn(def, InitialLeaf(def, child));
      OneFurther(def, s, n);
      assert Down(def, s, n + 1) == InitialLeaf(def, s);
    }
  }

  /** What the builder wires always ends, unless there is a cycle of parents. */
  lemma WiredEnds(def: Definition, s: string)
    requires Acyclic(def) && Assembled(def)
    ensures ResolutionEnds(def, s)
  {
    LeafIsStart(def, s);
    var n: nat :| Down(def, s, n) == InitialLeaf(def, s) && !GoesOn(def, Down(def, s, n));
  }

  /** So the compiled map answers for every state where an arrival at it comes to rest. */
  lemma LookupIsStart(cm: CompiledMachine, s: string)
    requires Faithful(cm)
    ensures StartsAt(cm.def, s, LeafOf(cm, s))
  {
    if s in cm.initialLeaf {
      LeafIsStart(cm.def, s);
    } else {
      assert s in cm.def.states ==> WiredState(cm.def, s);
      assert Down(cm.def, s, 0) == s;
    }
  }
}
