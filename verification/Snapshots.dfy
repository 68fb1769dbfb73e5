/** Snapshot and Restore (internal/runtime/snapshot.go, internal/runtime/helpers.go:241-264): deep copies on
    the heap, the round trips on values, and later runs of the copy beside runs of the original. */
module Snapshots {
  import opened Definitions
  import opened Step
  import opened Records
  import opened StateData
  import opened Registry

  // ---- Values ---------------------------------------------------------------------------------------------------

  /** What an instance and its snapshot have in common; None is a nil map. */
  datatype Saved = Saved(
    header: Header,
    currentState: string,
    data: Option<map<string, Value>>,
    shallow: Option<map<string, string>>,
    deep: Option<map<string, string>>,
    active: Option<map<string, string>>,
    parallelClock: int,
    isStuck: bool,
    stuckReason: string,
    stuckAt: Option<int>,
    retryCount: int)

  datatype Full = Full(saved: Saved, updatedAt: int, lastReadUpdatedAt: int)

  datatype Image = Image(saved: Saved, definitionHash: string, capturedAt: int)

  function NotNil<T>(m: Option<map<string, T>>): Option<map<string, T>> {
    if m.None? then Some(map[]) else m
  }

  function WithHistories(s: Saved): Saved {
    s.(shallow := NotNil(s.shallow), deep := NotNil(s.deep))
  }

  function SnapOf(f: Full, hash: string, now: int): Image {
    Image(WithHistories(f.saved), hash, now)
  }

  function RestoreOf(i: Image, now: int): Full {
    Full(WithHistories(i.saved).(data := NotNil(i.saved.data)), now, 0)
  }

  /** What the step function sees of it. */
  function InstanceOf(f: Full): Instance {
    var s := f.saved;
    Instance(s.header, s.currentState, NotNil(s.shallow).value, NotNil(s.deep).value, NotNil(s.active).value,
             s.parallelClock, s.isStuck, s.stuckReason, f.updatedAt, f.lastReadUpdatedAt)
  }

  /** Restoring and snapshotting again gives back the snapshot but for the time of capture exactly when
      no map but that of the regions is nil. */
  lemma SnapshotOfRestored(i: Image, now: int, later: int)
    ensures SnapOf(RestoreOf(i, now), i.definitionHash, later) == i.(capturedAt := later)
            <==> i.saved.data.Some? && i.saved.shallow.Some? && i.saved.deep.Some?
  {}

  /** Restoring a snapshot gives back the instance but for the stamps, under the same condition ... */
  lemma RestoreOfSnapshot(f: Full, hash: string, now: int, later: int)
    ensures RestoreOf(SnapOf(f, hash, now), later) == f.(updatedAt := later, lastReadUpdatedAt := 0)
            <==> f.saved.data.Some? && f.saved.shallow.Some? && f.saved.deep.Some?
    ensures InstanceOf(RestoreOf(SnapOf(f, hash, now), later))
            == InstanceOf(f).(updatedAt := later, lastReadUpdatedAt := 0)
  {}

  // ---- The heap ----------------------------------------------------------------------------------------------------

  datatype Snapshot = Snapshot(
    header: Header,
    currentState: string,
    shallow: StringMap?,
    deep: StringMap?,
    active: StringMap?,
    parallelClock: int,
    isStuck: bool,
    stuckReason: string,
    extra: Extra,
    definitionHash: string,
    capturedAt: int)

  function MapValue(m: StringMap?): Option<map<string, string>>
    reads m
  {
    if m == null then None else Some(m.m)
  }

  function TimeValue(t: TimeRef?): Option<int>
    reads t
  {
    if t == null then None else Some(t.t)
  }

  ghost function FullOf(l: Record, n: nat, repr: set<Dict>): Full
    requires Holds(l.extra.data, n, repr)
    reads l.shallow, l.deep, l.active, l.extra.stuckAt, repr
  {
    var r := l;
    Full(Saved(r.header, r.currentState, DictValue(l.extra.data, n, repr), MapValue(r.shallow), MapValue(r.deep),
               MapValue(r.active),
               r.parallelClock, r.isStuck, r.stuckReason, TimeValue(l.extra.stuckAt), l.extra.retryCount),
         r.updatedAt, r.lastReadUpdatedAt)
  }

  ghost function ImageOf(s: Snapshot, n: nat, repr: set<Dict>): Image
    requires Holds(s.extra.data, n, repr)
    reads s.shallow, s.deep, s.active, s.extra.stuckAt, repr
  {
    Image(Saved(s.header, s.currentState, DictValue(s.extra.data, n, repr), MapValue(s.shallow), MapValue(s.deep),
                MapValue(s.active),
                s.parallelClock, s.isStuck, s.stuckReason, TimeValue(s.extra.stuckAt), s.extra.retryCount),
          s.definitionHash, s.capturedAt)
  }

  method CopyStringMap(src: StringMap?) returns (dst: StringMap?)
    ensures MapValue(dst) == MapValue(src) && (dst != null ==> fresh(dst))
  {
    if src == null { return null; }
    dst := new StringMap(map[]);
    var left := src.m;
    while left != map[]
      invariant fresh(dst) && dst.m.Keys == src.m.Keys - left.Keys
      invariant (forall k :: k in left ==> k in src.m) && forall k :: k in dst.m ==> k in src.m && dst.m[k] == src.m[k]
      decreases |left|
    {
      var k :| k in left;
      dst.m := dst.m[k := src.m[k]];
      left := left - {k};
    }
    assert dst.m == src.m;
  }

  method CopyTime(t: TimeRef?) returns (cp: TimeRef?)
    ensures TimeValue(cp) == TimeValue(t) && (cp != null ==> fresh(cp))
  {
    if t == null { return null; }
    cp := new TimeRef(t.t);
  }

  method CopyExtra(e: Extra, ghost n: nat, ghost repr: set<Dict>) returns (cp: Extra, ghost made: set<Dict>)
    requires Holds(e.data, n, repr)
    ensures fresh(made) && Holds(cp.data, n, made) && DictValue(cp.data, n, made) == DictValue(e.data, n, repr)
    ensures TimeValue(cp.stuckAt) == TimeValue(e.stuckAt) && (cp.stuckAt != null ==> fresh(cp.stuckAt))
            && cp.retryCount == e.retryCount
  {
    var data;
    data, made := CopyMap(e.data, n, repr);
    var t := CopyTime(e.stuckAt);
    cp := Extra(data, t, e.retryCount);
  }

  method CopyHistory(m: StringMap?) returns (cp: StringMap?)
    ensures cp != null && fresh(cp) && Some(cp.m) == NotNil(MapValue(m))
  {
    cp := CopyStringMap(m);
    if cp == null { cp := new StringMap(map[]); }
  }

  datatype Refusal = InstanceNotFound | NoMachine | DefinitionMismatch | InstanceExists | RestoreNotCommitted

  function SnapshotMaps(s: Snapshot): set<StringMap?> {
    {s.shallow, s.deep, s.active}
  }

  /** The snapshot says what the instance is and shares no map with it. */
  method Capture(l: Record, hash: string, now: int, ghost n: nat, ghost repr: set<Dict>)
    returns (s: Snapshot, ghost made: set<Dict>)
    requires Holds(l.extra.data, n, repr)
    ensures fresh(made) && Holds(s.extra.data, n, made)
    ensures ImageOf(s, n, made) == SnapOf(FullOf(l, n, repr), hash, now)
    ensures fresh(SnapshotMaps(s) - {null}) && (s.extra.stuckAt != null ==> fresh(s.extra.stuckAt))
  {
    var r := l;
    var shallow := CopyHistory(r.shallow);
    var deep := CopyHistory(r.deep);
    var active := CopyStringMap(r.active);
    var extra;
    extra, made := CopyExtra(l.extra, n, repr);
    s := Snapshot(r.header, r.currentState, shallow, deep, active, r.parallelClock, r.isStuck, r.stuckReason, extra,
                  hash, now);
  }

  /** State data is never left nil. */
  method ReviveExtra(e: Extra, ghost n: nat, ghost repr: set<Dict>) returns (cp: Extra, ghost made: set<Dict>)
    requires Holds(e.data, n, repr)
    ensures fresh(made) && Holds(cp.data, n, made) && DictValue(cp.data, n, made) == NotNil(DictValue(e.data, n, repr))
    ensures TimeValue(cp.stuckAt) == TimeValue(e.stuckAt) && (cp.stuckAt != null ==> fresh(cp.stuckAt))
            && cp.retryCount == e.retryCount
  {
    cp, made := CopyExtra(e, n, repr);
    if cp.data == null {
      var empty := new Dict();
      cp := cp.(data := empty);
      made := {empty};
      assert DictValue(empty, n, made).value == map[];
    }
  }

  /** The new instance is what the snapshot says and shares no map with it. */
  method Revive(s: Snapshot, now: int, ghost n: nat, ghost repr: set<Dict>) returns (l: Record, ghost made: set<Dict>)
    requires Holds(s.extra.data, n, repr)
    ensures fresh(made) && Holds(l.extra.data, n, made)
    ensures FullOf(l, n, made) == RestoreOf(ImageOf(s, n, repr), now)
    ensures fresh(MapsOf(l) - {null}) && (l.extra.stuckAt != null ==> fresh(l.extra.stuckAt))
    ensures l.header == s.header && View(l) == InstanceOf(FullOf(l, n, made))
  {
    var shallow := CopyHistory(s.shallow);
    var deep := CopyHistory(s.deep);
    var active := CopyStringMap(s.active);
    var extra;
    extra, made := ReviveExtra(s.extra, n, repr);
    l := Record(s.header, s.currentState, shallow, deep, active, s.parallelClock, s.isStuck, s.stuckReason, now, 0,
                extra);
  }

  /** The hash of the definition that serves this instance. */
  ghost function HashFor(reg: Registry, h: Header): Option<string>
    reads reg
  {
    var cm := reg.Serving(h.aggregateType, h.version);
    if cm.Some? then Some(reg.hash(cm.value.def)) else None
  }

  /** The state data stored under a key contains no map in itself. */
  ghost predicate StoredHolds(db: Database, k: string, n: nat, repr: set<Dict>)
    reads db, repr
  {
    k in db.instances ==> Holds(db.instances[k].extra.data, n, repr)
  }

  method TakeSnapshot(reg: Registry, db: Database, aggregateType: string, aggregateId: string, now: int,
                      ghost n: nat, ghost repr: set<Dict>) returns (r: Result<Snapshot, Refusal>, ghost made: set<Dict>)
    requires db.Valid() && StoredHolds(db, Key(aggregateType, aggregateId), n, repr)
    ensures r == Err(InstanceNotFound) <==> Key(aggregateType, aggregateId) !in db.view
    ensures r.Err? ==> r.error in {InstanceNotFound, NoMachine}
    ensures r.Ok? ==> fresh(made) && Holds(r.value.extra.data, n, made) && fresh(SnapshotMaps(r.value) - {null})
    ensures Key(aggregateType, aggregateId) in db.view ==>
      var live := db.instances[Key(aggregateType, aggregateId)];
      var cm := reg.Serving(aggregateType, live.header.version);
      && (r.Err? <==> cm.None?)
      && (r.Ok? ==> ImageOf(r.value, n, made) == SnapOf(FullOf(live, n, repr), reg.hash(cm.value.def), now))
  {
    made := {};
    var inst := db.Get(aggregateType, aggregateId);
    if inst.None? { return Err(InstanceNotFound), made; }
    var cm := reg.CompiledFor(aggregateType, inst.value.it.header.version);
    if cm.None? { return Err(NoMachine), made; }
    var s;
    s, made := Capture(inst.value.it, reg.hash(cm.value.def), now, n, repr);
    return Ok(s), made;
  }

  /** Refuses an unknown version or another definition first, then an existing instance. */
  method Admit(reg: Registry, db: Database, s: Snapshot) returns (r: Result<CompiledMachine, Refusal>)
    requires db.Valid()
    ensures r.Err? ==> r.error in {DefinitionMismatch, InstanceExists}
    ensures r == Err(DefinitionMismatch) <==> HashFor(reg, s.header) != Some(s.definitionHash)
    ensures r == Err(InstanceExists) <==> HashFor(reg, s.header) == Some(s.definitionHash) && KeyOf(s.header) in db.view
    ensures r.Ok? ==> reg.Serving(s.header.aggregateType, s.header.version) == Some(r.value)
  {
    var cm := reg.CompiledFor(s.header.aggregateType, s.header.version);
    if cm.None? { return Err(DefinitionMismatch); }
    if s.definitionHash != reg.hash(cm.value.def) { return Err(DefinitionMismatch); }
    var existing := db.Get(s.header.aggregateType, s.header.aggregateId);
    if existing.Some? { return Err(InstanceExists); }
    return Ok(cm.value);
  }

  /** `l` is what the snapshot says, in maps of its own. */
  twostate predicate Revived(s: Snapshot, new l: Record, new made: set<Dict>, now: int, n: nat, repr: set<Dict>)
    requires old(Holds(s.extra.data, n, repr))
    reads made, s.shallow, s.deep, s.active, s.extra.stuckAt, repr, l.shallow, l.deep, l.active, l.extra.stuckAt
  {
    && fresh(made) && Holds(l.extra.data, n, made) && fresh(MapsOf(l) - {null})
    && FullOf(l, n, made) == RestoreOf(old(ImageOf(s, n, repr)), now)
  }

  /** The instance is stored under its key together with the event, and reads as the given one. */
  twostate predicate Added(db: Database, new rec: Record, inst: Instance, event: Event)
    reads db
  {
    && db.instances == old(db.instances)[KeyOf(rec.header) := rec]
    && db.view == old(db.view)[KeyOf(rec.header) := inst]
    && db.extras == old(db.extras)[KeyOf(rec.header) := rec.extra]
    && db.events == old(db.events) + [event]
  }

  twostate predicate Idle(db: Database)
    reads db
  {
    && db.instances == old(db.instances) && db.view == old(db.view) && db.extras == old(db.extras)
    && db.events == old(db.events)
  }

  method Store(db: Database, rec: Record, event: Event, commits: bool)
    requires db.Valid()
    modifies db
    ensures db.Valid()
    ensures if commits then Added(db, rec, old(View(rec)), event) else Idle(db)
  {
    var tx := Fill(db, rec, event);
    if commits { db.Commit(tx); }
  }

  method Fill(db: Database, rec: Record, event: Event) returns (tx: Tx)
    ensures fresh(tx) && tx.instance == Some(rec) && tx.events == [event]
  {
    tx := new Tx();
    db.Create(tx, rec);
    db.Append(tx, event);
  }

  /** A restored instance is stored together with one event, or neither is. */
  method Place(db: Database, s: Snapshot, event: Event, commits: bool, now: int, ghost n: nat, ghost repr: set<Dict>)
    returns (r: Result<Record, Refusal>, ghost made: set<Dict>)
    requires db.Valid() && Holds(s.extra.data, n, repr)
    modifies db
    ensures db.Valid() && if commits then r.Ok? else r == Err(RestoreNotCommitted)
    ensures r.Ok? ==> r.value.header == s.header && Revived(s, r.value, made, now, n, repr)
    ensures r.Ok? ==> Added(db, r.value, InstanceOf(RestoreOf(old(ImageOf(s, n, repr)), now)), event)
    ensures r.Err? ==> Idle(db)
  {
    var l;
    l, made := Revive(s, now, n, repr);
    Store(db, l, event, commits);
    r := if commits then Ok(l) else Err(RestoreNotCommitted);
  }

  method Restore(reg: Registry, db: Database, s: Snapshot, now: int, eventId: string, commits: bool,
                 ghost n: nat, ghost repr: set<Dict>) returns (r: Result<Record, Refusal>, ghost made: set<Dict>)
    requires db.Valid() && Holds(s.extra.data, n, repr)
    modifies db
    ensures db.Valid()
    ensures r.Ok? <==> HashFor(reg, s.header) == Some(s.definitionHash) && KeyOf(s.header) !in old(db.view) && commits
    ensures r == Err(InstanceExists)
            <==> HashFor(reg, s.header) == Some(s.definitionHash) && KeyOf(s.header) in old(db.view)
    ensures r == Err(DefinitionMismatch) <==> HashFor(reg, s.header) != Some(s.definitionHash)
    ensures r.Err? ==> Idle(db)
    ensures r.Ok? ==> r.value.header == s.header && Revived(s, r.value, made, now, n, repr)
    ensures r.Ok? ==>
      var def := reg.Serving(s.header.aggregateType, s.header.version).value.def;
      Added(db, r.value, InstanceOf(RestoreOf(old(ImageOf(s, n, repr)), now)),
            Event(eventId, s.header.(workflowType := def.workflowType, version := def.version), "SnapshotRestored",
                  "_snapshot_restore", map[], now))
  {
    made := {};
    var admitted := Admit(reg, db, s);
    if admitted.Err? { return Err(admitted.error), made; }
    var def := admitted.value.def;
    var event := Event(eventId, s.header.(workflowType := def.workflowType, version := def.version), "SnapshotRestored",
                       "_snapshot_restore", map[], now);
    r, made := Place(db, s, event, commits, now, n, repr);
  }
}
