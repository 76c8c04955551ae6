/** Ascending listings of finite id sets: what sorting a slice of map keys yields. */
module Ids {

  lemma {:induction false} Least(s: set<nat>) returns (m: nat)
    requires s != {}
    ensures m in s
    ensures forall y :: y in s ==> m <= y
    decreases |s|
  {
    var first :| first in s;
    m := first;
    if s - {first} != {} {
      var k := Least(s - {first});
      if k < first { m := k; }
    }
    forall y | y in s ensures m <= y {
      assert y == first || y in s - {first};
    }
  }

  lemma LeastExists(s: set<nat>)
    requires s != {}
    ensures exists x :: x in s && forall y :: y in s ==> x <= y
  {
    var m := Least(s);
  }

  function Min(s: set<nat>): (x: nat)
    requires s != {}
    ensures x in s
    ensures forall y :: y in s ==> x <= y
  {
    LeastExists(s);
    var x :| x in s && forall y :: y in s ==> x <= y;
    x
  }

  lemma {:induction false} Greatest(s: set<nat>) returns (m: nat)
    requires s != {}
    ensures m in s
    ensures forall y :: y in s ==> y <= m
    decreases |s|
  {
    var first :| first in s;
    m := first;
    if s - {first} != {} {
      var k := Greatest(s - {first});
      if k > first { m := k; }
    }
    forall y | y in s ensures y <= m {
      assert y == first || y in s - {first};
    }
  }

  lemma GreatestExists(s: set<nat>)
    requires s != {}
    ensures exists x :: x in s && forall y :: y in s ==> y <= x
  {
    var m := Greatest(s);
  }

  function Max(s: set<nat>): (x: nat)
    requires s != {}
    ensures x in s
    ensures forall y :: y in s ==> y <= x
  {
    GreatestExists(s);
    var x :| x in s && forall y :: y in s ==> y <= x;
    x
  }

  ghost predicate Ascending(q: seq<nat>) {
    forall i, j :: 0 <= i < j < |q| ==> q[i] < q[j]
  }

  function SortedIds(s: set<nat>): (q: seq<nat>)
    ensures Ascending(q) && Distinct(q)
    ensures forall x :: x in q <==> x in s
    decreases |s|
  {
    if s == {} then []
    else
      var rest := SortedIds(s - {Min(s)});
      assert forall x :: x in rest ==> Min(s) < x;
      [Min(s)] + rest
  }

  ghost predicate Distinct<T>(q: seq<T>) {
    forall i, j :: 0 <= i < j < |q| ==> q[i] != q[j]
  }

  lemma DistinctConcat<T>(a: seq<T>, b: seq<T>)
    requires Distinct(a) && Distinct(b)
    requires forall x :: x in b ==> x !in a
    ensures Distinct(a + b)
  {
    var q := a + b;
    forall i, j | 0 <= i < j < |q| ensures q[i] != q[j] {
      if i < |a| <= j { assert q[j] in b && q[i] in a; }
    }
  }
}
