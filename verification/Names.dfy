/** The order in which `sort.Strings` puts names, used to process regions deterministically. */
module Names {
  import opened Definitions

  predicate Leq(a: string, b: string) {
    a == "" || (b != "" && (a[0] < b[0] || (a[0] == b[0] && Leq(a[1..], b[1..]))))
  }

  lemma LeqTotal(a: string, b: string)
    ensures Leq(a, b) || Leq(b, a)
  {}

  lemma {:induction false} LeqAntisymmetric(a: string, b: string)
    requires Leq(a, b) && Leq(b, a)
    ensures a == b
  {
    if a != "" && b != "" {
      LeqAntisymmetric(a[1..], b[1..]);
      assert a == [a[0]] + a[1..] && b == [b[0]] + b[1..];
    }
  }

  lemma LeqTransitive(a: string, b: string, c: string)
    requires Leq(a, b) && Leq(b, c)
    ensures Leq(a, c)
  {}

  /** It is the lexical order: `a` is where `b` begins, or the first character by which they differ is smaller. */
  lemma {:induction false} LeqIsLexical(a: string, b: string)
    ensures Leq(a, b) <==> a <= b || exists i :: FirstSmaller(a, b, i)
  {
    if a != "" && b != "" {
      var a', b' := a[1..], b[1..];
      assert a == [a[0]] + a' && b == [b[0]] + b';
      LeqIsLexical(a', b');
      if a[0] < b[0] { assert FirstSmaller(a, b, 0); }
      if i :| FirstSmaller(a', b', i) && a[0] == b[0] {
        assert a[..i + 1] == [a[0]] + a'[..i] && b[..i + 1] == [b[0]] + b'[..i];
        assert FirstSmaller(a, b, i + 1);
      }
      if i :| FirstSmaller(a, b, i) && i > 0 {
        assert a[..i][0] == b[..i][0];
        assert a'[..i - 1] == a[..i][1..] == b[..i][1..] == b'[..i - 1];
        assert FirstSmaller(a', b', i - 1);
      }
      if a <= b { assert a' <= b'; }
    }
  }

  predicate FirstSmaller(a: string, b: string, i: int) {
    0 <= i < |a| && i < |b| && a[..i] == b[..i] && a[i] < b[i]
  }

  ghost predicate IsLeast(x: string, s: set<string>) {
    x in s && forall y :: y in s ==> Leq(x, y)
  }

  lemma LeastExists(s: set<string>)
    requires s != {}
    ensures exists x :: IsLeast(x, s)
  {
    var x :| x in s;
    LeqTotal(x, x);
    if s - {x} == {} {
      assert s == {x};
      assert IsLeast(x, s);
    } else {
      LeastExists(s - {x});
      var y :| IsLeast(y, s - {x});
      LeqTotal(x, y);
      if Leq(x, y) {
        forall z | z in s ensures Leq(x, z) { if z != x { LeqTransitive(x, y, z); } }
        assert IsLeast(x, s);
      } else {
        assert IsLeast(y, s);
      }
    }
  }

  ghost function Least(s: set<string>): (x: string)
    requires s != {}
    ensures IsLeast(x, s)
  {
    LeastExists(s);
    var x :| IsLeast(x, s); x
  }

  lemma LeastUnique(x: string, s: set<string>)
    requires IsLeast(x, s)
    ensures s != {} && x == Least(s)
  {
    LeqAntisymmetric(x, Least(s));
  }

  /** The elements of `s`, each once, in ascending order. */
  ghost function Sorted(s: set<string>): (r: seq<string>)
    ensures Elements(r) == s && NoDuplicates(r)
    ensures forall i, j :: 0 <= i < j < |r| ==> Leq(r[i], r[j])
  {
    if s == {} then [] else
      var x := Least(s);
      var rest := Sorted(s - {x});
      assert forall y :: y in rest ==> y in Elements(rest);
      assert Elements([x] + rest) == {x} + Elements(rest);
      [x] + rest
  }

  method LeastOf(s: set<string>) returns (x: string)
    requires s != {}
    ensures x == Least(s)
  {
    x :| x in s;
    LeqTotal(x, x);
    var seen := {x};
    while s - seen != {}
      invariant seen <= s && IsLeast(x, seen)
      decreases s - seen
    {
      var y :| y in s - seen;
      LeqTotal(x, y);
      LeqTotal(y, y);
      if !Leq(x, y) {
        forall z | z in seen ensures Leq(y, z) { LeqTransitive(y, x, z); }
        x := y;
      }
      seen := seen + {y};
    }
    assert s == seen + (s - seen);
    LeastUnique(x, s);
  }

  lemma Regroup(r: seq<string>, x: string, todo: set<string>)
    requires todo != {} && x == Least(todo)
    ensures r + Sorted(todo) == (r + [x]) + Sorted(todo - {x})
  {
    assert Sorted(todo) == [x] + Sorted(todo - {x});
  }

  method SortNames(s: set<string>) returns (r: seq<string>)
    ensures r == Sorted(s)
  {
    r := [];
    var todo := s;
    while todo != {}
      invariant r + Sorted(todo) == Sorted(s)
      decreases todo
    {
      var x := LeastOf(todo);
      Regroup(r, x, todo);
      r := r + [x];
      todo := todo - {x};
    }
  }
}
