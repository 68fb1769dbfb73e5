/** Instances as the source keeps them: struct values whose history and region fields are references
    to map objects, so that a struct copy shares its maps with the original
    (types/instance.go:6-38, adapters/memstore/instance_store.go:12-66). */
module Records {
  import opened Definitions
  import opened Step
  import opened Tasks
  import opened StateData

  /** A map[string]string: a reference to a mutable object. */
  class StringMap {
    var m: map<string, string>

    constructor (m: map<string, string>)
      ensures this.m == m
    {
      this.m := m;
    }
  }

  /** The WorkflowInstance struct. Copying it copies the three references, not the maps. */
  datatype Record = Record(
    header: Header,
    currentState: string,
    shallow: StringMap?,
    deep: StringMap?,
    active: StringMap?,
    parallelClock: int,
    isStuck: bool,
    stuckReason: string,
    updatedAt: int,
    lastReadUpdatedAt: int,
    extra: Extra)

  function Contents(m: StringMap?): map<string, string>
    reads m
  {
    if m == null then map[] else m.m
  }

  /** The instance a record stands for. */
  function View(r: Record): Instance
    reads r.shallow, r.deep, r.active
  {
    Instance(r.header, r.currentState, Contents(r.shallow), Contents(r.deep), Contents(r.active),
             r.parallelClock, r.isStuck, r.stuckReason, r.updatedAt, r.lastReadUpdatedAt)
  }

  /** The parts of a record that no step changes. */
  predicate SameFixed(a: Record, b: Record) {
    a.header == b.header && a.extra == b.extra
  }

  /** Through the present contents of its maps the record reads as the instance. */
  ghost predicate ReadsAs(r: Record, inst: Instance, x: Extra)
    reads r.shallow, r.deep, r.active
  {
    inst == View(r) && x == r.extra
  }

  function MapsOf(r: Record): set<StringMap?> {
    {r.shallow, r.deep, r.active}
  }

  /** A *WorkflowInstance: the engine assigns fields through it. */
  class InstanceRef {
    var it: Record

    constructor (it: Record)
      ensures this.it == it
    {
      this.it := it;
    }
  }

  // ---- Keys -----------------------------------------------------------------------------------------------

  function Key(aggregateType: string, aggregateId: string): string {
    aggregateType + ":" + aggregateId
  }

  function KeyOf(h: Header): string {
    Key(h.aggregateType, h.aggregateId)
  }

  /** The store tells two aggregates of one type apart ... */
  lemma KeysApart(t: string, i: string, i': string)
    requires Key(t, i) == Key(t, i')
    ensures i == i'
  {
    assert i == Key(t, i)[|t| + 1..] && i' == Key(t, i')[|t| + 1..];
  }

  lemma Continues(t: string, i: string, t': string, i': string)
    requires Key(t, i) == Key(t', i') && |t| <= |t'|
    ensures t == t' || t + ":" <= t'
  {
    var k := Key(t, i);
    assert t == k[..|t|] && t' == k[..|t'|];
    assert |t| < |t'| ==> t + ":" == k[..|t| + 1] == t'[..|t| + 1];
  }

  /** ... and confuses some of two types exactly when one type continues the other after a colon. */
  lemma KeysCollideExactly(t: string, t': string)
    requires t != t'
    ensures (exists i, i' :: Key(t, i) == Key(t', i')) <==> t + ":" <= t' || t' + ":" <= t
  {
    if i, i' :| Key(t, i) == Key(t', i') {
      if |t| <= |t'| { Continues(t, i, t', i'); } else { Continues(t', i', t, i); }
    }
    if t + ":" <= t' { assert Key(t, t'[|t| + 1..] + ":") == Key(t', ""); }
    if t' + ":" <= t { assert Key(t', t[|t'| + 1..] + ":") == Key(t, ""); }
  }

  lemma KeysCollide()
    ensures Key("a:b", "c") == Key("a", "b:c") && "a:b" != "a"
  {
    assert Key("a:b", "c") == "a:b:c" == Key("a", "b:c");
    assert |"a:b"| != |"a"|;
  }

  // ---- Stores and transactions --------------------------------------------------------------------------------

  /** A request to cancel the pending tasks of an aggregate that wait in the given states
      (carried out by `Tasks.TaskStore.InvalidateByStates`). */
  datatype Invalidation = Invalidation(owner: Aggregate, states: set<string>)

  /** What a transaction has buffered. */
  class Tx {
    var events: seq<Event>
    var instance: Option<Record>
    var invalidations: seq<Invalidation>

    constructor ()
      ensures events == [] && instance == None && invalidations == []
    {
      events, instance, invalidations := [], None, [];
    }
  }

  /** The comparison of the optimistic lock; a zero stamp skips it. */
  predicate LockOk(view: map<string, Instance>, key: string, stamp: int) {
    key in view && (stamp == 0 || view[key].updatedAt == stamp)
  }

  ghost predicate Shown(instances: map<string, Record>, view: map<string, Instance>, extras: map<string, Extra>,
                        repr: set<StringMap?>)
    reads repr
  {
    && view.Keys == instances.Keys == extras.Keys
    && forall k :: k in instances ==> ShownAt(instances, view, extras, repr, k)
  }

  ghost predicate ShownAt(instances: map<string, Record>, view: map<string, Instance>, extras: map<string, Extra>,
                          repr: set<StringMap?>, k: string)
    reads repr
  {
    && k in instances && k in view && k in extras && MapsOf(instances[k]) <= repr
    && ReadsAs(instances[k], view[k], extras[k])
  }

  lemma ShownPut(instances: map<string, Record>, view: map<string, Instance>, extras: map<string, Extra>,
                 repr: set<StringMap?>, k: string, rec: Record)
    requires Shown(instances, view, extras, repr)
    ensures Shown(instances[k := rec], view[k := View(rec)], extras[k := rec.extra], repr + MapsOf(rec))
  {
    var all := instances[k := rec];
    forall j | j in all ensures ShownAt(all, view[k := View(rec)], extras[k := rec.extra], repr + MapsOf(rec), j) {
      if j != k { assert ShownAt(instances, view, extras, repr, j); }
    }
  }

  /** The stores behind one transaction provider that keeps its contract: writes are buffered in the
      transaction and take effect together on commit, or not at all. */
  class Database {
    var instances: map<string, Record>
    var events: seq<Event>
    var invalidations: seq<Invalidation>
    ghost var view: map<string, Instance>   // the stored instances as read through their map objects
    ghost var extras: map<string, Extra>    // and what they hold beside that
    ghost var repr: set<StringMap?>         // all map objects the stored instances refer to

    constructor ()
      ensures instances == map[] && events == [] && invalidations == [] && view == map[] && extras == map[] && Valid()
    {
      instances, events, invalidations, view, extras, repr := map[], [], [], map[], map[], {};
    }

    /** `view` is what the stored records, read through the present contents of their maps, amount to:
        mutating a shared map object would break this. */
    ghost predicate Valid()
      reads this, repr
    {
      Shown(instances, view, extras, repr)
    }

    /** Hands out a struct copy, which shares its maps with the stored struct. */
    method Get(aggregateType: string, aggregateId: string) returns (r: Option<InstanceRef>)
      requires Valid()
      ensures r.Some? <==> Key(aggregateType, aggregateId) in view
      ensures r.Some? ==> fresh(r.value) && r.value.it == instances[Key(aggregateType, aggregateId)]
      ensures r.Some? ==> View(r.value.it) == view[Key(aggregateType, aggregateId)]
      ensures r.Some? ==> r.value.it.extra == extras[Key(aggregateType, aggregateId)]
    {
      var k := Key(aggregateType, aggregateId);
      if k !in instances { return None; }
      assert ShownAt(instances, view, extras, repr, k);
      var copy := new InstanceRef(instances[k]);
      return Some(copy);
    }

    method Append(tx: Tx, e: Event)
      modifies tx`events
      ensures tx.events == old(tx.events) + [e]
    {
      tx.events := tx.events + [e];
    }

    /** The optimistic lock: the stored stamp must be the one that was read. */
    method Update(tx: Tx, rec: Record) returns (ok: bool)
      requires Valid()
      modifies tx`instance
      ensures ok == LockOk(view, KeyOf(rec.header), rec.lastReadUpdatedAt)
      ensures ok <==> && KeyOf(rec.header) in view
                      && (rec.lastReadUpdatedAt == 0 || view[KeyOf(rec.header)].updatedAt == rec.lastReadUpdatedAt)
      ensures tx.instance == if ok then Some(rec) else old(tx.instance)
    {
      var k := KeyOf(rec.header);
      if k !in instances { return false; }
      assert ShownAt(instances, view, extras, repr, k);
      var existing := instances[k];
      if rec.lastReadUpdatedAt != 0 && existing.updatedAt != rec.lastReadUpdatedAt { return false; }
      tx.instance := Some(rec);
      return true;
    }

    /** Creates or overwrites. */
    method Create(tx: Tx, rec: Record)
      modifies tx`instance
      ensures tx.instance == Some(rec)
    {
      tx.instance := Some(rec);
    }

    method Invalidate(tx: Tx, owner: Aggregate, states: set<string>)
      modifies tx`invalidations
      ensures tx.invalidations == old(tx.invalidations) + [Invalidation(owner, states)]
    {
      tx.invalidations := tx.invalidations + [Invalidation(owner, states)];
    }

    /** Replaces one stored record. */
    method Put(rec: Record)
      requires Valid()
      modifies this`instances, this`view, this`extras, this`repr
      ensures Valid()
      ensures instances == old(instances)[KeyOf(rec.header) := rec]
      ensures view == old(view)[KeyOf(rec.header) := View(rec)]
      ensures extras == old(extras)[KeyOf(rec.header) := rec.extra]
    {
      var key, all := KeyOf(rec.header), instances[KeyOf(rec.header) := rec];
      ShownPut(instances, view, extras, repr, key, rec);
      Install(all, view[key := View(rec)], extras[key := rec.extra], repr + MapsOf(rec));
    }

    method Install(all: map<string, Record>, ghost shown: map<string, Instance>, ghost kept: map<string, Extra>,
                   ghost maps: set<StringMap?>)
      requires Shown(all, shown, kept, maps)
      modifies this`instances, this`view, this`extras, this`repr
      ensures Valid() && instances == all && view == shown && extras == kept
    {
      instances := all;
      view, extras, repr := shown, kept, maps;
    }

    method Commit(tx: Tx)
      requires Valid()
      modifies this
      ensures Valid()
      ensures tx.instance.Some? ==>
        var rec := tx.instance.value;
        && instances == old(instances)[KeyOf(rec.header) := rec] && view == old(view)[KeyOf(rec.header) := View(rec)]
        && extras == old(extras)[KeyOf(rec.header) := rec.extra]
      ensures tx.instance.None? ==> instances == old(instances) && view == old(view) && extras == old(extras)
      ensures events == old(events) + tx.events && invalidations == old(invalidations) + tx.invalidations
    {
      if tx.instance.Some? { Put(tx.instance.value); }
      TakeIn(tx);
    }

    method TakeIn(tx: Tx)
      requires Valid()
      modifies this`events, this`invalidations
      ensures Valid()
      ensures events == old(events) + tx.events && invalidations == old(invalidations) + tx.invalidations
    {
      events := events + tx.events;
      invalidations := invalidations + tx.invalidations;
    }
  }
}
