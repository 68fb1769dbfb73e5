/** The state data of an instance on the heap: nested maps, and their deep copies
    (internal/runtime/helpers.go:241-264). */
module StateData {
  import opened Definitions

  /** A value of type any: a map, a slice, or something that cannot be changed through a reference. */
  datatype Any = Scalar(value: int) | Nested(dict: Dict?) | Slice(list: List)

  class List {
    var items: seq<Any>

    constructor (items: seq<Any>)
      ensures this.items == items
    {
      this.items := items;
    }
  }

  /** A map[string]any. */
  class Dict {
    var m: map<string, Any>

    constructor ()
      ensures m == map[]
    {
      m := map[];
    }
  }

  /** The maps nested in `d` are in `repr` and at most `n` deep: no map contains itself. */
  ghost predicate Holds(d: Dict?, n: nat, repr: set<Dict>)
    reads repr
    decreases n, 1
  {
    d != null ==> d in repr && forall k :: k in d.m ==> Held(d.m[k], n, repr)
  }

  ghost predicate Held(a: Any, n: nat, repr: set<Dict>)
    reads repr
    decreases n, 0
  {
    a.Nested? && a.dict != null ==> n > 0 && Holds(a.dict, n - 1, repr)
  }

  /** The contents of a map; a slice is known by its identity only. */
  datatype Value = ScalarValue(value: int) | Contained(contents: Option<map<string, Value>>) | SliceValue(list: List)

  ghost function ValueOf(a: Any, n: nat, repr: set<Dict>): Value
    requires Held(a, n, repr)
    reads repr
    decreases n, 0
  {
    match a
    case Scalar(v) => ScalarValue(v)
    case Slice(l) => SliceValue(l)
    case Nested(d) => Contained(if d == null then None else DictValue(d, n - 1, repr))
  }

  ghost function DictValue(d: Dict?, n: nat, repr: set<Dict>): Option<map<string, Value>>
    requires Holds(d, n, repr)
    reads repr
    decreases n, 1
  {
    if d == null then None else Some(map k | k in d.m :: ValueOf(d.m[k], n, repr))
  }

  lemma {:induction false} MoreHolds(d: Dict?, n: nat, repr: set<Dict>, repr': set<Dict>)
    requires Holds(d, n, repr) && repr <= repr'
    ensures Holds(d, n, repr') && DictValue(d, n, repr') == DictValue(d, n, repr)
    decreases n, 1
  {
    if d != null {
      forall k | k in d.m ensures Held(d.m[k], n, repr') && ValueOf(d.m[k], n, repr') == ValueOf(d.m[k], n, repr) {
        MoreHeld(d.m[k], n, repr, repr');
      }
      assert DictValue(d, n, repr').value == DictValue(d, n, repr).value;
    }
  }

  lemma {:induction false} MoreHeld(a: Any, n: nat, repr: set<Dict>, repr': set<Dict>)
    requires Held(a, n, repr) && repr <= repr'
    ensures Held(a, n, repr') && ValueOf(a, n, repr') == ValueOf(a, n, repr)
    decreases n, 0
  {
    if a.Nested? && a.dict != null { MoreHolds(a.dict, n - 1, repr, repr'); }
  }

  /** The entries of `copy` hold what the same entries of `m` hold. */
  ghost predicate Copied(copy: map<string, Any>, made: set<Dict>, m: map<string, Any>, n: nat, repr: set<Dict>)
    reads made, repr
  {
    forall k :: k in copy ==> k in m && EntryCopied(copy[k], made, m[k], n, repr)
  }

  ghost predicate EntryCopied(copy: Any, made: set<Dict>, a: Any, n: nat, repr: set<Dict>)
    reads made, repr
  {
    Held(copy, n, made) && Held(a, n, repr) && ValueOf(copy, n, made) == ValueOf(a, n, repr)
  }

  lemma MoreCopied(copy: map<string, Any>, made: set<Dict>, made': set<Dict>, m: map<string, Any>, n: nat,
                   repr: set<Dict>)
    requires Copied(copy, made, m, n, repr) && made <= made'
    ensures Copied(copy, made', m, n, repr)
  {
    forall k | k in copy ensures k in m && EntryCopied(copy[k], made', m[k], n, repr) {
      assert EntryCopied(copy[k], made, m[k], n, repr);
      MoreHeld(copy[k], n, made, made');
    }
  }

  lemma AllCopied(cp: Dict, made: set<Dict>, m: Dict, n: nat, repr: set<Dict>)
    requires Holds(m, n, repr) && cp in made && cp.m.Keys == m.m.Keys && Copied(cp.m, made, m.m, n, repr)
    ensures Holds(cp, n, made) && DictValue(cp, n, made) == DictValue(m, n, repr)
  {
    forall k | k in cp.m ensures Held(cp.m[k], n, made) && ValueOf(cp.m[k], n, made) == ValueOf(m.m[k], n, repr) {
      assert EntryCopied(cp.m[k], made, m.m[k], n, repr);
    }
    assert DictValue(cp, n, made).value == DictValue(m, n, repr).value;
  }

  /** A deep copy: the same contents, made of new maps only; nil stays nil. Slices are shared. */
  method CopyMap(m: Dict?, ghost n: nat, ghost repr: set<Dict>) returns (cp: Dict?, ghost made: set<Dict>)
    requires Holds(m, n, repr)
    ensures fresh(made) && Holds(cp, n, made) && DictValue(cp, n, made) == DictValue(m, n, repr)
    decreases n, 1
  {
    made := {};
    if m == null { return null, made; }
    cp := new Dict();
    var left := m.m.Keys;
    while left != {}
      invariant left <= m.m.Keys && cp.m.Keys == m.m.Keys - left
      invariant fresh(made) && fresh(cp) && cp !in made && Copied(cp.m, made, m.m, n, repr)
      decreases left
    {
      var k :| k in left;
      var v, more := CopyAny(m.m[k], n, repr);
      MoreCopied(cp.m, made, made + more, m.m, n, repr);
      MoreHeld(v, n, more, made + more);
      made := made + more;
      cp.m := cp.m[k := v];
      left := left - {k};
    }
    MoreCopied(cp.m, made, made + {cp}, m.m, n, repr);
    made := made + {cp};
    AllCopied(cp, made, m, n, repr);
  }

  method CopyAny(a: Any, ghost n: nat, ghost repr: set<Dict>) returns (c: Any, ghost made: set<Dict>)
    requires Held(a, n, repr)
    ensures fresh(made) && EntryCopied(c, made, a, n, repr)
    decreases n, 0
  {
    made := {};
    c := a;
    if a.Nested? && a.dict != null {
      var inner;
      inner, made := CopyMap(a.dict, n - 1, repr);
      c := Nested(inner);
    }
  }

  /** A *time.Time. */
  class TimeRef {
    var t: int

    constructor (t: int)
      ensures this.t == t
    {
      this.t := t;
    }
  }

  /** The fields of an instance that no step reads or changes. */
  datatype Extra = Extra(data: Dict?, stuckAt: TimeRef?, retryCount: int)
}
