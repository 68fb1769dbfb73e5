/** Replacing a version: when the spawn check refuses more than it has to, and when the latest entry goes
    stale (internal/runtime/runtime.go:123-152). */
module Replacement {
  import opened Definitions
  import opened Spawn
  import opened Registry

  // ---- The spawn check counts the replaced definition --------------------------------------------------------

  ghost function Only(defs: seq<Definition>, keep: Definition -> bool): (r: seq<Definition>)
    ensures forall d :: d in r <==> d in defs && keep(d)
  {
    if defs == [] then [] else (if keep(defs[0]) then [defs[0]] else []) + Only(defs[1..], keep)
  }

  ghost predicate SpawnedBy(defs: seq<Definition>, keep: Definition -> bool, w: seq<string>, i: nat)
    requires i < |w| - 1
  {
    exists d :: d in defs && keep(d) && DefSpawns(d, w[i], w[i + 1])
  }

  lemma OnlyCycles(defs: seq<Definition>, keep: Definition -> bool, w: seq<string>)
    requires |w| >= 2 && w[0] == w[|w| - 1] && forall i :: 0 <= i < |w| - 1 ==> SpawnedBy(defs, keep, w, i)
    ensures HasSpawnCycle(Only(defs, keep))
  {
    forall i | 0 <= i < |w| - 1 ensures SpawnStepAt(Only(defs, keep), w, i) {
      assert SpawnedBy(defs, keep, w, i);
    }
    assert IsSpawnCycle(Only(defs, keep), w);
  }

  /** A closed walk, started at its i-th node. */
  function Rotated(w: seq<string>, i: nat): seq<string>
    requires i < |w| - 1
  {
    w[i..] + w[1..i + 1]
  }

  lemma RotatedWalks(defs: seq<Definition>, w: seq<string>, i: nat)
    requires IsSpawnCycle(defs, w) && i < |w| - 1
    ensures IsSpawnCycle(defs, Rotated(w, i)) && Rotated(w, i)[0] == w[i] && Rotated(w, i)[1] == w[i + 1]
  {
    var u := Rotated(w, i);
    forall k | 0 <= k < |u| - 1 ensures SpawnStepAt(defs, u, k) {
      var at := if k < |w| - 1 - i then i + k else k - (|w| - 1 - i);
      assert SpawnStepAt(defs, w, at);
    }
  }

  /** The first return of a closed walk to its start. */
  function FirstReturn(w: seq<string>, j: nat): (k: nat)
    requires 0 < j < |w| && w[|w| - 1] == w[0] && forall i :: 0 < i < j ==> w[i] != w[0]
    ensures 0 < k < |w| && w[k] == w[0] && forall i :: 0 < i < k ==> w[i] != w[0]
    decreases |w| - j
  {
    if w[j] == w[0] then j else FirstReturn(w, j + 1)
  }

  ghost function Kept(versions: Versions): Definition -> bool {
    d => Registered(versions, d)
  }

  /** In a cycle closed by `def` some step is taken by `def` only. */
  lemma SomeStepIsNew(versions: Versions, def: Definition, defs: seq<Definition>, w: seq<string>) returns (i: nat)
    requires SpawnFree(versions) && IsSpawnCycle(defs, w)
    requires forall d :: d in defs ==> Registered(versions, d) || d == def
    ensures i < |w| - 1 && def in defs && DefSpawns(def, w[i], w[i + 1])
  {
    if forall k :: 0 <= k < |w| - 1 ==> SpawnedBy(defs, Kept(versions), w, k) {
      OnlyCycles(defs, Kept(versions), w);
      assert false;
    }
    i :| 0 <= i < |w| - 1 && !SpawnedBy(defs, Kept(versions), w, i);
    assert SpawnStepAt(defs, w, i);
  }

  /** A registered definition of another workflow type outlives the replacement. */
  lemma OtherStays(versions: Versions, def: Definition, d: Definition)
    requires Registered(versions, d) && SameWorkflow(versions, def) && d.workflowType != def.workflowType
    ensures Registered(Put(versions, def.aggregateType, def.version, def), d)
  {
    var a, v :| a in versions && v in versions[a] && versions[a][v] == d;
    var after := Put(versions, def.aggregateType, def.version, def);
    assert a in after && v in after[a] && after[a][v] == d;
  }

  /** Nothing is replaced, or a definition of the same workflow type. */
  predicate SameWorkflow(versions: Versions, def: Definition) {
    var was := Lookup(versions, def.aggregateType, def.version);
    was.None? || was.value.workflowType == def.workflowType
  }

  /** Then the check refuses exactly the definitions that would close a cycle: a shortest cycle leaves the
      type once, through the new definition, and so needs nothing of the replaced one. */
  lemma RefusesExactly(versions: Versions, def: Definition)
    requires SpawnFree(versions) && SameWorkflow(versions, def)
    ensures CycleWith(versions, def) <==> !SpawnFree(Put(versions, def.aggregateType, def.version, def))
  {
    if CycleWith(versions, def) {
      var defs: seq<Definition> :| (forall d :: d in defs ==> Registered(versions, d) || d == def)
          && HasSpawnCycle(defs);
      var w :| IsSpawnCycle(defs, w);
      var i := SomeStepIsNew(versions, def, defs, w);
      RotatedWalks(defs, w, i);
      CycleStays(versions, def, defs, Rotated(w, i));
    } else {
      PutSpawnFree(versions, def);
    }
  }

  lemma CycleStays(versions: Versions, def: Definition, defs: seq<Definition>, u: seq<string>)
    requires SameWorkflow(versions, def) && forall d :: d in defs ==> Registered(versions, d) || d == def
    requires IsSpawnCycle(defs, u) && def in defs && DefSpawns(def, u[0], u[1])
    ensures !SpawnFree(Put(versions, def.aggregateType, def.version, def))
  {
    var after := Put(versions, def.aggregateType, def.version, def);
    var j := FirstReturn(u, 1);
    var v := u[..j + 1];
    NewStays(versions, def);
    forall k | 0 <= k < |v| - 1 ensures SpawnedBy(defs, Kept(after), v, k) {
      assert SpawnStepAt(defs, u, k);
      if k > 0 {
        var d :| d in defs && DefSpawns(d, u[k], u[k + 1]);
        OtherStays(versions, def, d);
      }
    }
    OnlyCycles(defs, Kept(after), v);
  }

  lemma NewStays(versions: Versions, def: Definition)
    ensures Registered(Put(versions, def.aggregateType, def.version, def), def)
  {
    var after := Put(versions, def.aggregateType, def.version, def);
    assert def.aggregateType in after && after[def.aggregateType][def.version] == def;
  }

  // ---- What the check would have to count ----------------------------------------------------------------------

  /** The registry without the entry that is being replaced. */
  function Without(versions: Versions, a: string, v: int): Versions {
    if a in versions then versions[a := versions[a] - {v}] else versions
  }

  lemma PutIsWithoutAndNew(versions: Versions, def: Definition, d: Definition)
    ensures Registered(Put(versions, def.aggregateType, def.version, def), d)
            <==> d == def || Registered(Without(versions, def.aggregateType, def.version), d)
  {
    var after := Put(versions, def.aggregateType, def.version, def);
    var rest := Without(versions, def.aggregateType, def.version);
    NewStays(versions, def);
    if Registered(after, d) {
      var a, v :| a in after && v in after[a] && after[a][v] == d;
      if a != def.aggregateType || v != def.version { assert a in rest && v in rest[a] && rest[a][v] == d; }
    }
    if Registered(rest, d) {
      var a, v :| a in rest && v in rest[a] && rest[a][v] == d;
      assert a in after && v in after[a] && after[a][v] == d;
    }
  }

  /** For every registry and every definition: registering it closes a cycle exactly when the check without the
      replaced entry finds one. */
  lemma ClosesExactly(versions: Versions, def: Definition)
    ensures CycleWith(Without(versions, def.aggregateType, def.version), def)
            <==> !SpawnFree(Put(versions, def.aggregateType, def.version, def))
  {
    var rest, after := Without(versions, def.aggregateType, def.version),
        Put(versions, def.aggregateType, def.version, def);
    forall d ensures Registered(after, d) <==> d == def || Registered(rest, d) { PutIsWithoutAndNew(versions, def, d); }
    if CycleWith(rest, def) {
      var defs: seq<Definition> :| (forall d :: d in defs ==> Registered(rest, d) || d == def) && HasSpawnCycle(defs);
      assert forall d :: d in defs ==> Registered(after, d);
    }
    if !SpawnFree(after) {
      var defs: seq<Definition> :| (forall d :: d in defs ==> Registered(after, d)) && HasSpawnCycle(defs);
      ClosesCycle(rest, def, defs);
    }
  }

  /** So a refusal is unjustified exactly when the check without the replaced entry passes. */
  lemma UnjustifiedExactly(versions: Versions, def: Definition)
    requires CycleWith(versions, def)
    ensures SpawnFree(Put(versions, def.aggregateType, def.version, def))
            <==> !CycleWith(Without(versions, def.aggregateType, def.version), def)
  {
    ClosesExactly(versions, def);
  }

  /** The definition spawns exactly one workflow type. */
  ghost predicate SpawnsOnly(def: Definition, b: string) {
    forall x :: DefSpawns(def, def.workflowType, x) <==> x == b
  }

  lemma AloneSpawnFree(a: string, v: int, def: Definition, b: string)
    requires SpawnsOnly(def, b) && def.workflowType != b
    ensures SpawnFree(map[a := map[v := def]])
  {
    forall defs: seq<Definition> | forall d :: d in defs ==> Registered(map[a := map[v := def]], d)
      ensures !HasSpawnCycle(defs) {
      forall d | d in defs ensures d == def {}
      if w :| IsSpawnCycle(defs, w) {
        assert SpawnStepAt(defs, w, 0);
        if |w| > 2 { assert SpawnStepAt(defs, w, 1); }
      }
    }
  }

  lemma ClosesCycle(versions: Versions, def: Definition, defs: seq<Definition>)
    requires (forall d :: d in defs ==> Registered(versions, d) || d == def) && HasSpawnCycle(defs)
    ensures CycleWith(versions, def)
  {}

  /** With another workflow type under the replaced number the check refuses too much: the two definitions
      spawn each other, but never both of them are registered. */
  lemma RefusesTooMuch(was: Definition, def: Definition)
    requires was.aggregateType == def.aggregateType && was.version == def.version
    requires was.workflowType != def.workflowType
    requires SpawnsOnly(was, def.workflowType) && SpawnsOnly(def, was.workflowType)
    ensures var a, v := def.aggregateType, def.version;
      var versions := map[a := map[v := was]];
      SpawnFree(versions) && CycleWith(versions, def) && SpawnFree(Put(versions, a, v, def))
  {
    var a, v := def.aggregateType, def.version;
    var versions := map[a := map[v := was]];
    AloneSpawnFree(a, v, was, def.workflowType);
    AloneSpawnFree(a, v, def, was.workflowType);
    var one: map<int, Definition> := map[v := was];
    assert one[v := def] == map[v := def];
    assert versions[a] == one;
    assert Put(versions, a, v, def) == map[a := map[v := def]];
    assert a in versions && v in versions[a] && versions[a][v] == was;
    assert Registered(versions, was);
    var defs, w := [was, def], [was.workflowType, def.workflowType, was.workflowType];
    assert was in defs && def in defs;
    assert DefSpawns(was, w[0], w[1]) && DefSpawns(def, w[1], w[2]);
    assert SpawnStepAt(defs, w, 0) && SpawnStepAt(defs, w, 1);
    assert IsSpawnCycle(defs, w);
    assert HasSpawnCycle(defs);
    ClosesCycle(versions, def, defs);
  }

  /** A definition of workflow `w` whose one transition spawns workflow `b`. */
  function Spawner(w: string, b: string): Definition {
    Definition("t", w, 1, map[],
               map["s" := TransitionDef("s", [], "", [], "", [], None, Some(b), None, Direct, "", NoHistory)], "")
  }

  lemma SpawnerSpawns(w: string, b: string)
    requires b != ""
    ensures SpawnsOnly(Spawner(w, b), b)
  {
    var def := Spawner(w, b);
    assert "s" in def.transitions && SpawnsBy(def.transitions["s"], b);
  }

  /** Two such definitions under one type and number. */
  lemma SomeRefusedTooMuch()
    ensures var first, second := Spawner("a", "b"), Spawner("b", "a");
      var versions := map["t" := map[1 := first]];
      SpawnFree(versions) && CycleWith(versions, second) && SpawnFree(Put(versions, "t", 1, second))
  {
    assert "a"[0] != "b"[0];
    SpawnerSpawns("a", "b");
    SpawnerSpawns("b", "a");
    RefusesTooMuch(Spawner("a", "b"), Spawner("b", "a"));
  }
}
