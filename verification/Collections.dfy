/** Sequences and finite sets, as every other module uses them. */
module Collections {

  datatype Option<+T> = None | Some(value: T)

  ghost predicate Distinct<T>(q: seq<T>) {
    forall i, j :: 0 <= i < j < |q| ==> q[i] != q[j]
  }

  function Elements<T>(q: seq<T>): set<T> {
    set x | x in q
  }

  lemma ElementsAppend<T>(q: seq<T>, x: T)
    ensures Elements(q + [x]) == Elements(q) + {x}
  {
    assert (q + [x])[|q|] == x;
    assert forall y :: y in q + [x] <==> y in q || y == x;
  }

  /** The rows of a query with no ORDER BY: each element once, in an order the caller cannot rely on. */
  method Enumerate<T(==)>(s: set<T>) returns (q: seq<T>)
    ensures Distinct(q) && Elements(q) == s
  {
    q := [];
    var rest := s;
    while rest != {}
      invariant rest <= s && Distinct(q) && Elements(q) == s - rest
      decreases rest
    {
      var x :| x in rest;
      assert x !in q by { assert x !in Elements(q); }
      ElementsAppend(q, x);
      q, rest := q + [x], rest - {x};
    }
  }

  lemma {:induction false} DistinctCardinality<T>(q: seq<T>)
    requires Distinct(q)
    ensures |Elements(q)| == |q|
  {
    if q != [] {
      var init := q[..|q| - 1];
      DistinctCardinality(init);
      assert q[|q| - 1] !in Elements(init);
      assert Elements(q) == Elements(init) + {q[|q| - 1]};
    }
  }

  lemma {:induction false} SubsetCardinality<T>(a: set<T>, b: set<T>)
    requires a <= b
    ensures |a| <= |b|
    ensures |a| == |b| ==> a == b
  {
    assert b == a + (b - a);
  }

  /** Summing a non-negative weight over a finite set. */
  ghost function SumOver<T(!new)>(s: set<T>, weight: T -> int): int {
    if s == {} then 0 else var x :| x in s; weight(x) + SumOver(s - {x}, weight)
  }

  lemma {:induction false} SumOverPick<T(!new)>(s: set<T>, weight: T -> int, x: T)
    requires x in s
    ensures SumOver(s, weight) == weight(x) + SumOver(s - {x}, weight)
  {
    var y :| y in s && SumOver(s, weight) == weight(y) + SumOver(s - {y}, weight);
    if y != x {
      SumOverPick(s - {y}, weight, x);
      SumOverPick(s - {x}, weight, y);
      assert s - {y} - {x} == s - {x} - {y};
    }
  }

  lemma {:induction false} SumOverSame(s: set<string>, f: string -> int, g: string -> int)
    requires forall x :: x in s ==> f(x) == g(x)
    ensures SumOver(s, f) == SumOver(s, g)
    decreases s
  {
    if s != {} {
      var x :| x in s;
      SumOverPick(s, f, x);
      SumOverPick(s, g, x);
      SumOverSame(s - {x}, f, g);
    }
  }
}

/** ORDER BY over a finite set of rows. */
module Ordering {
  import opened Collections

  ghost predicate StrictOrderOn<T(!new)>(less: (T, T) -> bool, s: set<T>) {
    && (forall x :: x in s ==> !less(x, x))
    && (forall x, y, z :: x in s && y in s && z in s && less(x, y) && less(y, z) ==> less(x, z))
    && (forall x, y :: x in s && y in s && x != y ==> less(x, y) || less(y, x))
  }

  ghost predicate Ordered<T>(less: (T, T) -> bool, q: seq<T>) {
    forall i, j :: 0 <= i < j < |q| ==> less(q[i], q[j])
  }

  /** q lists s in the order less, each element once. */
  ghost predicate Lists<T>(less: (T, T) -> bool, s: set<T>, q: seq<T>) {
    Ordered(less, q) && Distinct(q) && Elements(q) == s
  }

  ghost predicate IsFirst<T>(less: (T, T) -> bool, s: set<T>, x: T) {
    x in s && forall y :: y in s && y != x ==> less(x, y)
  }

  method TakeFirst<T(==,!new)>(less: (T, T) -> bool, s: set<T>) returns (x: T)
    requires s != {} && StrictOrderOn(less, s)
    ensures IsFirst(less, s, x)
  {
    x :| x in s;
    var rest := s - {x};
    while rest != {}
      invariant x in s && rest <= s && x !in rest
      invariant forall y :: y in s && y !in rest && y != x ==> less(x, y)
      decreases rest
    {
      var y :| y in rest;
      rest := rest - {y};
      if less(y, x) { x := y; }
    }
  }

  /** The rows of a query with an ORDER BY clause. */
  method Sort<T(==,!new)>(less: (T, T) -> bool, s: set<T>) returns (q: seq<T>)
    requires StrictOrderOn(less, s)
    ensures Lists(less, s, q)
  {
    q := [];
    var rest := s;
    while rest != {}
      invariant rest <= s && Ordered(less, q) && Distinct(q) && Elements(q) == s - rest
      invariant forall x, y :: x in q && y in rest ==> less(x, y)
      decreases rest
    {
      var x := TakeFirst(less, rest);
      assert x !in q by { assert x !in Elements(q); }
      ElementsAppend(q, x);
      q, rest := q + [x], rest - {x};
    }
  }

  lemma {:induction false} FirstExists<T(!new)>(less: (T, T) -> bool, s: set<T>)
    requires s != {} && StrictOrderOn(less, s)
    ensures exists x :: IsFirst(less, s, x)
  {
    var a :| a in s;
    var rest := s - {a};
    if rest == {} {
      assert forall y :: y in s && y != a ==> y in rest;
      assert IsFirst(less, s, a);
    } else {
      FirstExists(less, rest);
      var b :| IsFirst(less, rest, b);
      assert IsFirst(less, s, if less(a, b) then a else b);
    }
  }

  ghost function First<T(!new)>(less: (T, T) -> bool, s: set<T>): (x: T)
    requires s != {} && StrictOrderOn(less, s)
    ensures IsFirst(less, s, x)
  {
    FirstExists(less, s);
    var x :| IsFirst(less, s, x);
    x
  }

  lemma FirstUnique<T(!new)>(less: (T, T) -> bool, s: set<T>, x: T, y: T)
    requires StrictOrderOn(less, s) && IsFirst(less, s, x) && IsFirst(less, s, y)
    ensures x == y
  {
  }

  ghost function Sorted<T(!new)>(less: (T, T) -> bool, s: set<T>): (q: seq<T>)
    requires StrictOrderOn(less, s)
    ensures Lists(less, s, q)
    decreases s
  {
    if s == {} then [] else
      var x := First(less, s);
      var q := Sorted(less, s - {x});
      assert forall y :: y in q ==> y in Elements(q);
      assert Elements([x] + q) == {x} + Elements(q);
      [x] + q
  }

  /** A set has one listing in a given strict order. */
  lemma {:induction false} ListingUnique<T(!new)>(less: (T, T) -> bool, s: set<T>, p: seq<T>, q: seq<T>)
    requires StrictOrderOn(less, s) && Lists(less, s, p) && Lists(less, s, q)
    ensures p == q
    decreases p
  {
    assert forall x :: x in p <==> x in s;
    assert forall x :: x in q <==> x in s;
    DistinctCardinality(p);
    DistinctCardinality(q);
    if p != [] {
      assert p[0] in s && p[0] in q;
      assert q[0] in s && q[0] in p;
      var i :| 0 <= i < |q| && q[i] == p[0];
      var j :| 0 <= j < |p| && p[j] == q[0];
      assert p[0] == q[0];
      ListsTail(less, s, p);
      ListsTail(less, s, q);
      ListingUnique(less, s - {p[0]}, p[1..], q[1..]);
    }
  }

  lemma ListsTail<T(!new)>(less: (T, T) -> bool, s: set<T>, q: seq<T>)
    requires Lists(less, s, q) && q != []
    ensures Lists(less, s - {q[0]}, q[1..])
  {
    assert forall x :: x in q <==> x in Elements(q);
    forall x ensures x in q[1..] <==> x in s - {q[0]} {
      if x in s - {q[0]} {
        var i :| 0 <= i < |q| && q[i] == x;
        assert q[1..][i - 1] == x;
      }
    }
  }

  /** In an ordered listing, what stands before an entry is what is less than it. */
  lemma ListedBefore<T(!new)>(less: (T, T) -> bool, s: set<T>, q: seq<T>, i: nat)
    requires StrictOrderOn(less, s) && Lists(less, s, q) && i < |q|
    ensures forall x :: x in q[..i] <==> x in s && less(x, q[i])
  {
    forall x ensures x in q[..i] <==> x in s && less(x, q[i]) {
      assert x in s <==> x in Elements(q);
      assert q[i] in Elements(q);
      if x in s && less(x, q[i]) {
        var k :| 0 <= k < |q| && q[k] == x;
        assert k < i;
        assert q[..i][k] == x;
      }
      if x in q[..i] {
        var k :| 0 <= k < i && q[..i][k] == x;
        assert q[k] == x && x in Elements(q);
      }
    }
  }

  /** The first listed member of a subset is its first element. */
  lemma FirstListed<T(!new)>(less: (T, T) -> bool, s: set<T>, q: seq<T>, i: nat, part: set<T>)
    requires StrictOrderOn(less, s) && Lists(less, s, q) && i < |q|
    requires part <= s && q[i] in part && Elements(q[..i]) !! part
    ensures StrictOrderOn(less, part) && First(less, part) == q[i]
  {
    ListedBefore(less, s, q, i);
    assert forall x :: x in q[..i] <==> x in Elements(q[..i]);
    FirstUnique(less, part, First(less, part), q[i]);
  }
}
