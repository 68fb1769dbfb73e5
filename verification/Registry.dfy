/** The registry of workflow versions (internal/runtime/runtime.go:100-173). */
module Registry {
  import opened Definitions
  import opened Hierarchy
  import opened Compile
  import opened Validate
  import opened Machines
  import opened Spawn

  type Versions = map<string, map<int, Definition>>

  ghost predicate Registered(versions: Versions, d: Definition) {
    exists a, v :: a in versions && v in versions[a] && versions[a][v] == d
  }

  /** No choice of registered definitions forms a spawn cycle. */
  ghost predicate SpawnFree(versions: Versions) {
    forall defs: seq<Definition> :: (forall d :: d in defs ==> Registered(versions, d)) ==> !HasSpawnCycle(defs)
  }

  /** The registered definitions together with one more. */
  ghost predicate CycleWith(versions: Versions, def: Definition) {
    exists defs: seq<Definition> :: (forall d :: d in defs ==> Registered(versions, d) || d == def)
      && HasSpawnCycle(defs)
  }

  datatype Outcome = Accepted | Unchanged | Invalid(check: Check) | CircularHierarchy | SpawnCycle

  function Lookup<T>(m: map<string, map<int, T>>, a: string, v: int): Option<T> {
    if a in m && v in m[a] then Some(m[a][v]) else None
  }

  function Put<T>(m: map<string, map<int, T>>, a: string, v: int, t: T): map<string, map<int, T>> {
    m[a := (if a in m then m[a] else map[])[v := t]]
  }

  lemma SomeKey(m: map<int, Definition>)
    ensures m != map[] <==> exists v: int :: v in m
  {
    assert (forall v: int :: v !in m) ==> m == map[];
  }

  method DefinitionsOf(numbers: map<int, Definition>) returns (all: seq<Definition>)
    ensures forall d :: d in all <==> exists v :: v in numbers && numbers[v] == d
  {
    all := [];
    var left := numbers;
    while left != map[]
      invariant forall v :: v in left ==> v in numbers && left[v] == numbers[v]
      invariant forall d :: d in all <==> exists v :: v in numbers && v !in left && numbers[v] == d
      decreases |left|
    {
      SomeKey(left);
      var v :| v in left;
      all := all + [left[v]];
      left := left - {v};
    }
  }

  class Registry {
    const hash: Definition -> string       // HashDefinition, uninterpreted
    var versions: Versions
    var latest: map<string, Definition>
    var compiled: map<string, map<int, CompiledMachine>>
    var latestCompiled: map<string, CompiledMachine>

    ghost predicate Valid() reads this {
      && MapsAgree(EntryOk, versions, latest, compiled, latestCompiled)
      && SpawnFree(versions)
    }

    constructor (hash: Definition -> string)
      ensures Valid() && versions == map[] && this.hash == hash
    {
      this.hash := hash;
      versions, latest, compiled, latestCompiled := map[], map[], map[], map[];
      new;
      forall defs: seq<Definition> | forall d :: d in defs ==> Registered(map[], d) ensures !HasSpawnCycle(defs) {
        NoDefinitionsNoCycle(defs);
      }
    }

    method AllDefinitions() returns (all: seq<Definition>)
      ensures forall d :: d in all <==> Registered(versions, d)
    {
      all := [];
      var types := versions.Keys;
      while types != {}
        invariant types <= versions.Keys
        invariant forall d ::
          d in all <==> exists a, v :: a in versions && a !in types && v in versions[a] && versions[a][v] == d
        decreases types
      {
        var a :| a in types;
        var added := DefinitionsOf(versions[a]);
        all := all + added;
        types := types - {a};
      }
    }

    /** Accepts exactly the valid, acyclic definitions that close no spawn cycle; whatever it does not
        accept leaves all four maps as they were. */
    method Register(def: Definition) returns (r: Outcome)
      requires Valid() && Wired(def) && Returns(def)
      modifies this
      ensures Valid()
      ensures r.Invalid? <==> !Validated(def)
      ensures r.Unchanged? <==> Validated(def) && SameHash(old(compiled), hash, def)
      ensures r.CircularHierarchy? <==> Validated(def) && !SameHash(old(compiled), hash, def) && HasParentCycle(def)
      ensures r.SpawnCycle? <==>
        Validated(def) && !SameHash(old(compiled), hash, def) && !HasParentCycle(def) && CycleWith(old(versions), def)
      ensures !r.Accepted? ==>
        && versions == old(versions) && latest == old(latest)
        && compiled == old(compiled) && latestCompiled == old(latestCompiled)
      ensures r.Accepted? ==> versions == Put(old(versions), def.aggregateType, def.version, def)
      ensures r.Accepted? ==> latest == Newer(old(latest), def.aggregateType, def, Supersedes(old(latest), def))
      ensures r.Accepted? ==>
        (LatestStored(versions, latest, def.aggregateType) <==> KeepsLatest(old(versions), old(latest), def))
    {
      var check := ValidateDefinition(def);
      if check.Some? { return Invalid(check.value); }
      AssembledOf(def);
      var existing := Lookup(compiled, def.aggregateType, def.version);
      if existing.Some? && hash(existing.value.def) == hash(def) { return Unchanged; }
      var cm := Compile.Compile(def);
      if cm.Err? { return CircularHierarchy; }
      var all := AllDefinitions();
      var cycle := DetectSpawnCycles(all + [def]);
      UnionCycle(versions, def, all);
      if cycle.Some? { return SpawnCycle; }
      PutSpawnFree(versions, def);
      PutAgrees(EntryOk, versions, latest, compiled, latestCompiled, def, cm.value);
      LatestAgree(versions, latest, compiled, latestCompiled);
      LatestInStep(EntryOk, versions, latest, compiled, latestCompiled, def);
      Enter(def, cm.value);
      return Accepted;
    }

    method Enter(def: Definition, cm: CompiledMachine)
      requires versions.Keys == compiled.Keys == latest.Keys == latestCompiled.Keys && cm.def == def
      requires forall a :: a in latest ==> latestCompiled[a].def == latest[a]
      modifies this
      ensures versions == Put(old(versions), def.aggregateType, def.version, def)
      ensures compiled == Put(old(compiled), def.aggregateType, def.version, cm)
      ensures latest == Newer(old(latest), def.aggregateType, def, Supersedes(old(latest), def))
      ensures latestCompiled == Newer(old(latestCompiled), def.aggregateType, cm, Supersedes(old(latest), def))
    {
      EnterDefinition(def);
      EnterMachine(cm);
    }

    method EnterDefinition(def: Definition)
      requires versions.Keys == latest.Keys
      modifies this`versions, this`latest
      ensures versions == Put(old(versions), def.aggregateType, def.version, def)
      ensures latest == Newer(old(latest), def.aggregateType, def, Supersedes(old(latest), def))
    {
      var a := def.aggregateType;
      if a !in versions { versions := versions[a := map[]]; }
      versions := versions[a := versions[a][def.version := def]];
      if a !in latest || def.version > latest[a].version { latest := latest[a := def]; }
    }

    method EnterMachine(cm: CompiledMachine)
      requires compiled.Keys == latestCompiled.Keys
      modifies this`compiled, this`latestCompiled
      ensures compiled == Put(old(compiled), cm.def.aggregateType, cm.def.version, cm)
      ensures latestCompiled == Newer(old(latestCompiled), cm.def.aggregateType, cm,
                                      MachineSupersedes(old(latestCompiled), cm))
    {
      var a := cm.def.aggregateType;
      if a !in compiled { compiled := compiled[a := map[]]; }
      compiled := compiled[a := compiled[a][cm.def.version := cm]];
      if a !in latestCompiled || cm.def.version > latestCompiled[a].def.version {
        latestCompiled := latestCompiled[a := cm];
      }
    }

    ghost function Serving(aggregateType: string, version: int): Option<CompiledMachine>
      reads this
    {
      Served(compiled, latestCompiled, aggregateType, version)
    }

    method CompiledFor(aggregateType: string, version: int) returns (r: Option<CompiledMachine>)
      ensures r == Serving(aggregateType, version)
    {
      if version == 0 {
        if aggregateType in latestCompiled { return Some(latestCompiled[aggregateType]); }
        return None;
      }
      if aggregateType !in compiled { return None; }
      if version !in compiled[aggregateType] { return None; }
      return Some(compiled[aggregateType][version]);
    }

    /** Any sequence of registrations, accepted or not, keeps the registry valid. */
    method RegisterAll(defs: seq<Definition>)
      requires Valid() && forall d :: d in defs ==> Wired(d) && Returns(d)
      modifies this
      ensures Valid()
    {
      for i := 0 to |defs|
        invariant Valid()
      {
        var r := Register(defs[i]);
      }
    }
  }

  predicate SameHash(compiled: map<string, map<int, CompiledMachine>>, hash: Definition -> string, def: Definition) {
    var existing := Lookup(compiled, def.aggregateType, def.version);
    existing.Some? && hash(existing.value.def) == hash(def)
  }

  /** A strictly greater number, or the first of its type. An equal number replaces the version but not the
      latest entry. */
  predicate Supersedes(latest: map<string, Definition>, def: Definition) {
    def.aggregateType !in latest || def.version > latest[def.aggregateType].version
  }

  predicate MachineSupersedes(latest: map<string, CompiledMachine>, cm: CompiledMachine) {
    cm.def.aggregateType !in latest || cm.def.version > latest[cm.def.aggregateType].def.version
  }

  function Newer<T>(latest: map<string, T>, a: string, t: T, newer: bool): map<string, T> {
    if newer then latest[a := t] else latest
  }

  type EntryCheck = (Definition, CompiledMachine, string, int) -> bool

  /** The four maps tell the same story, and the latest entry has the greatest number. */
  ghost predicate MapsAgree(ok: EntryCheck, versions: Versions, latest: map<string, Definition>,
                            compiled: map<string, map<int, CompiledMachine>>, latestCompiled: map<string,
                              CompiledMachine>) {
    && versions.Keys == compiled.Keys == latest.Keys == latestCompiled.Keys
    && (forall a :: a in versions ==> TypeAgrees(ok, versions[a], latest[a], compiled[a], latestCompiled[a], a))
  }

  ghost predicate TypeAgrees(ok: EntryCheck, versions: map<int, Definition>, latest: Definition, compiled: map<int,
                             CompiledMachine>,
                             latestCompiled: CompiledMachine, a: string) {
    && versions.Keys == compiled.Keys
    && (forall v :: v in versions ==> ok(versions[v], compiled[v], a, v))
    && ok(latest, latestCompiled, a, latest.version)
    && latest.version in versions
    && (forall v :: v in versions ==> v <= latest.version)
  }

  /** An entry is the compiled form of its definition, under its own type and number. */
  ghost predicate EntryOk(def: Definition, cm: CompiledMachine, a: string, v: int) {
    cm.def == def && def.aggregateType == a && def.version == v && Validated(def) && Faithful(cm)
  }

  /** So every proof about steps applies to what the registry serves, once transitions lead somewhere. */
  lemma EntriesAreMachines(def: Definition, cm: CompiledMachine, a: string, v: int)
    requires EntryOk(def, cm, a, v) && Targeted(def)
    ensures Machine(cm) && cm.def.aggregateType == a && cm.def.version == v
  {
    ValidatedGives(def);
    assert Passes(def, UnknownStates) && Passes(def, Check.ParallelStates);
  }

  lemma AssembledOf(def: Definition)
    requires Wired(def) && Validated(def)
    ensures Assembled(def)
  {
    ValidatedGives(def);
    assert Passes(def, OrphanedChildren) && Passes(def, CompoundStates);
  }

  lemma NoDefinitionsNoCycle(defs: seq<Definition>)
    requires forall d :: d in defs ==> Registered(map[], d)
    ensures !HasSpawnCycle(defs)
  {
    forall w: seq<string> | |w| >= 2 ensures !IsSpawnWalk(defs, w) {
      assert !SpawnStepAt(defs, w, 0);
    }
  }

  /** The sequence handed to the detector stands for every choice of definitions. */
  lemma UnionCycle(versions: Versions, def: Definition, all: seq<Definition>)
    requires forall d :: d in all <==> Registered(versions, d)
    ensures HasSpawnCycle(all + [def]) <==> CycleWith(versions, def)
  {
    if CycleWith(versions, def) {
      var defs: seq<Definition> :| (forall d :: d in defs ==> Registered(versions, d) || d == def)
          && HasSpawnCycle(defs);
      FewerDefinitions(defs, all + [def]);
    }
  }

  lemma PutSpawnFree(versions: Versions, def: Definition)
    requires SpawnFree(versions) && !CycleWith(versions, def)
    ensures SpawnFree(Put(versions, def.aggregateType, def.version, def))
  {
    var after := Put(versions, def.aggregateType, def.version, def);
    forall defs: seq<Definition> | forall d :: d in defs ==> Registered(after, d) ensures !HasSpawnCycle(defs) {
      forall d | d in defs ensures Registered(versions, d) || d == def { PutRegisters(versions, def, d); }
    }
  }

  lemma PutRegisters(versions: Versions, def: Definition, d: Definition)
    requires Registered(Put(versions, def.aggregateType, def.version, def), d)
    ensures Registered(versions, d) || d == def
  {
    var after := Put(versions, def.aggregateType, def.version, def);
    var a, v :| a in after && v in after[a] && after[a][v] == d;
    if a != def.aggregateType {
      assert a in versions && after[a] == versions[a];
    } else if v != def.version {
      assert a in versions && v in versions[a] && versions[a][v] == d;
    }
  }

  lemma PutAgrees(ok: EntryCheck, versions: Versions, latest: map<string, Definition>, compiled: map<string, map<int,
                  CompiledMachine>>,
                  latestCompiled: map<string, CompiledMachine>, def: Definition, cm: CompiledMachine)
    requires MapsAgree(ok, versions, latest, compiled, latestCompiled)
    requires ok(def, cm, def.aggregateType, def.version)
    ensures var a, newer := def.aggregateType, Supersedes(latest, def);
      MapsAgree(ok, Put(versions, a, def.version, def), Newer(latest, a, def, newer),
                Put(compiled, a, def.version, cm), Newer(latestCompiled, a, cm, newer))
  {
    var a, newer := def.aggregateType, Supersedes(latest, def);
    var vs, cs := Put(versions, a, def.version, def), Put(compiled, a, def.version, cm);
    var l, lc := Newer(latest, a, def, newer), Newer(latestCompiled, a, cm, newer);
    assert newer || a in versions;
    forall b | b in vs ensures TypeAgrees(ok, vs[b], l[b], cs[b], lc[b], b) {
      if b != a {
        assert TypeAgrees(ok, versions[b], latest[b], compiled[b], latestCompiled[b], b);
      } else if a in versions {
        OneTypeAgrees(ok, versions[a], latest[a], compiled[a], latestCompiled[a], def, cm);
      } else {
        assert vs[a] == map[def.version := def] && cs[a] == map[def.version := cm];
      }
    }
  }

  lemma OneTypeAgrees(ok: EntryCheck, versions: map<int, Definition>, latest: Definition, compiled: map<int,
                      CompiledMachine>,
                      latestCompiled: CompiledMachine, def: Definition, cm: CompiledMachine)
    requires TypeAgrees(ok, versions, latest, compiled, latestCompiled, def.aggregateType)
             && ok(def, cm, def.aggregateType, def.version)
    ensures var newer := def.version > latest.version;
      TypeAgrees(ok, versions[def.version := def], if newer then def else latest, compiled[def.version := cm],
                 if newer then cm else latestCompiled, def.aggregateType)
  {}

  /** Version 0 asks for the latest machine. */
  function Served(compiled: map<string, map<int, CompiledMachine>>, latestCompiled: map<string, CompiledMachine>,
                  a: string, v: int)
    : Option<CompiledMachine>
  {
    if v != 0 then Lookup(compiled, a, v)
    else if a in latestCompiled then Some(latestCompiled[a]) else None
  }

  /** Whatever is served has been accepted under that type and number. */
  lemma ServedIsEntry(ok: EntryCheck, versions: Versions, latest: map<string, Definition>, compiled: map<string,
                      map<int, CompiledMachine>>,
                      latestCompiled: map<string, CompiledMachine>, a: string, v: int)
    requires MapsAgree(ok, versions, latest, compiled, latestCompiled)
    ensures var r := Served(compiled, latestCompiled, a, v);
      r.Some? ==> exists def, n :: ok(def, r.value, a, n) && (v != 0 ==> n == v) && a in versions && n in versions[a]
  {
    if a in versions {
      assert TypeAgrees(ok, versions[a], latest[a], compiled[a], latestCompiled[a], a);
      if v != 0 {
        assert v in compiled[a] ==> ok(versions[a][v], compiled[a][v], a, v);
      } else {
        assert ok(latest[a], latestCompiled[a], a, latest[a].version);
      }
    }
  }

  /** Exactly the accepted numbers are served, each with the compiled form of the definition stored under it; zero asks
      for the latest, whose number is the greatest. */
  lemma ServesExactly(versions: Versions, latest: map<string, Definition>,
                      compiled: map<string, map<int, CompiledMachine>>, latestCompiled: map<string, CompiledMachine>,
                      a: string, v: int)
    requires MapsAgree(EntryOk, versions, latest, compiled, latestCompiled)
    ensures var r := Served(compiled, latestCompiled, a, v);
      && (v != 0 ==> (r.Some? <==> a in versions && v in versions[a]))
      && (v != 0 && r.Some? ==> r.value.def == versions[a][v] && Faithful(r.value))
      && (v == 0 ==> (r.Some? <==> a in versions))
      && (v == 0 && r.Some? ==> r.value.def == latest[a] && Faithful(r.value)
                                && forall n :: n in versions[a] ==> n <= r.value.def.version)
  {
    if a in versions {
      assert TypeAgrees(EntryOk, versions[a], latest[a], compiled[a], latestCompiled[a], a);
      if v in versions[a] { assert EntryOk(versions[a][v], compiled[a][v], a, v); }
      assert EntryOk(latest[a], latestCompiled[a], a, latest[a].version);
    }
  }

  /** A definition is taken for unchanged exactly when one of its number is registered with the same hash; so the same
      definition a second time is, unless another took its number. */
  lemma UnchangedMeans(versions: Versions, latest: map<string, Definition>,
                       compiled: map<string, map<int, CompiledMachine>>, latestCompiled: map<string, CompiledMachine>,
                       hash: Definition -> string, def: Definition)
    requires MapsAgree(EntryOk, versions, latest, compiled, latestCompiled)
    ensures SameHash(compiled, hash, def)
            <==> def.aggregateType in versions && def.version in versions[def.aggregateType]
                 && hash(versions[def.aggregateType][def.version]) == hash(def)
  {
    var a, v := def.aggregateType, def.version;
    LookupAgrees(EntryOk, versions, latest, compiled, latestCompiled, a, v);
    var r := Lookup(compiled, a, v);
    if r.Some? { EntryHolds(versions[a][v], r.value, a, v); }
  }

  lemma LookupAgrees(ok: EntryCheck, versions: Versions, latest: map<string, Definition>,
                     compiled: map<string, map<int, CompiledMachine>>, latestCompiled: map<string, CompiledMachine>,
                     a: string, v: int)
    requires MapsAgree(ok, versions, latest, compiled, latestCompiled)
    ensures Lookup(compiled, a, v).Some? <==> a in versions && v in versions[a]
    ensures Lookup(compiled, a, v).Some? ==> ok(versions[a][v], Lookup(compiled, a, v).value, a, v)
  {
    if a in versions { assert TypeAgrees(ok, versions[a], latest[a], compiled[a], latestCompiled[a], a); }
  }

  lemma EntryHolds(def: Definition, cm: CompiledMachine, a: string, v: int)
    requires EntryOk(def, cm, a, v)
    ensures cm.def == def
  {}

  lemma LatestAgree(versions: Versions, latest: map<string, Definition>, compiled: map<string, map<int,
                    CompiledMachine>>,
                    latestCompiled: map<string, CompiledMachine>)
    requires MapsAgree(EntryOk, versions, latest, compiled, latestCompiled)
    ensures forall a :: a in latest ==> latestCompiled[a].def == latest[a]
  {
    forall a | a in latest ensures latestCompiled[a].def == latest[a] {
      assert TypeAgrees(EntryOk, versions[a], latest[a], compiled[a], latestCompiled[a], a);
    }
  }

  /** The latest entry is the definition stored under its number, not one that has been replaced since. */
  predicate LatestStored(versions: Versions, latest: map<string, Definition>, a: string) {
    a in latest && a in versions && latest[a].version in versions[a] && versions[a][latest[a].version] == latest[a]
  }

  /** When an accepted definition leaves the latest entry in step with the versions: it supersedes it, or it
      has another number and nothing was out of step, or it is the latest definition once more. */
  predicate KeepsLatest(versions: Versions, latest: map<string, Definition>, def: Definition) {
    || Supersedes(latest, def)
    || if def.version == latest[def.aggregateType].version then latest[def.aggregateType] == def
       else LatestStored(versions, latest, def.aggregateType)
  }

  lemma LatestInStep(ok: EntryCheck, versions: Versions, latest: map<string, Definition>,
                     compiled: map<string, map<int, CompiledMachine>>, latestCompiled: map<string, CompiledMachine>,
                       def: Definition)
    requires MapsAgree(ok, versions, latest, compiled, latestCompiled)
    ensures var a := def.aggregateType;
      LatestStored(Put(versions, a, def.version, def), Newer(latest, a, def, Supersedes(latest, def)), a)
      <==> KeepsLatest(versions, latest, def)
  {
    var a := def.aggregateType;
    if a in versions { assert TypeAgrees(ok, versions[a], latest[a], compiled[a], latestCompiled[a], a); }
  }
}
