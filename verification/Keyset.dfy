/** Rows identified by (time, id), newest first: ORDER BY, LIMIT and pushing a LIMIT into the
    legs of a union. */
module Keyset {
  import opened Ids

  datatype Key = Key(at: int, id: nat)

  /** The row-value comparison (b.at, b.id) < (a.at, a.id). */
  predicate Newer(a: Key, b: Key) { a.at > b.at || (a.at == b.at && a.id > b.id) }

  ghost predicate Desc(s: seq<Key>) { forall i, j :: 0 <= i < j < |s| ==> Newer(s[i], s[j]) }

  ghost predicate SameMembers(a: seq<Key>, b: seq<Key>) { forall k: Key :: k in a <==> k in b }

  function Take(s: seq<Key>, n: nat): seq<Key> { if n < |s| then s[..n] else s }

  function Insert(s: seq<Key>, k: Key): (r: seq<Key>)
    ensures |r| == |s| + 1
  {
    if s == [] then [k]
    else if Newer(s[|s|-1], k) then s + [k]
    else Insert(s[..|s|-1], k) + [s[|s|-1]]
  }

  /** ORDER BY at DESC, id DESC. */
  function Sort(xs: seq<Key>): (r: seq<Key>)
    ensures |r| == |xs|
  {
    if xs == [] then [] else Insert(Sort(xs[..|xs|-1]), xs[|xs|-1])
  }

  lemma LastOrBefore(s: seq<Key>, k: Key)
    requires s != []
    ensures k in s <==> k in s[..|s|-1] || k == s[|s|-1]
  {
    assert s == s[..|s|-1] + [s[|s|-1]];
  }

  lemma {:induction false} InsertMembers(s: seq<Key>, k: Key, x: Key)
    ensures x in Insert(s, k) <==> x in s || x == k
  {
    if s != [] && !Newer(s[|s|-1], k) {
      InsertMembers(s[..|s|-1], k, x);
      LastOrBefore(s, x);
    }
  }

  lemma {:induction false} SortMembers(xs: seq<Key>, x: Key)
    ensures x in Sort(xs) <==> x in xs
  {
    if xs == [] {
    } else {
      SortMembers(xs[..|xs|-1], x);
      InsertMembers(Sort(xs[..|xs|-1]), xs[|xs|-1], x);
      LastOrBefore(xs, x);
    }
  }

  lemma {:induction false} InsertDesc(s: seq<Key>, k: Key)
    requires Desc(s) && k !in s
    ensures Desc(Insert(s, k))
  {
    if s == [] {
    } else {
      var last := s[|s|-1];
      if Newer(last, k) {
        forall i | 0 <= i < |s| ensures Newer(s[i], k) { if i < |s|-1 { assert Newer(s[i], last); } }
      } else {
        InsertDesc(s[..|s|-1], k);
        var r := Insert(s[..|s|-1], k);
        forall i | 0 <= i < |r| ensures Newer(r[i], last) {
          InsertMembers(s[..|s|-1], k, r[i]);
          if r[i] != k {
            var j :| 0 <= j < |s|-1 && s[..|s|-1][j] == r[i];
            assert Newer(s[j], last);
          } else {
            assert last in s;
          }
        }
      }
    }
  }

  lemma {:induction false} SortDesc(xs: seq<Key>)
    requires Distinct(xs)
    ensures Desc(Sort(xs))
  {
    if xs == [] {
    } else {
      var before, last := xs[..|xs|-1], xs[|xs|-1];
      SortDesc(before);
      SortMembers(before, last);
      InsertDesc(Sort(before), last);
    }
  }

  lemma DescFirst(s: seq<Key>, k: Key)
    requires Desc(s) && k in s
    ensures k == s[0] || Newer(s[0], k)
  {
    var i :| 0 <= i < |s| && s[i] == k;
    if i > 0 { assert Newer(s[0], s[i]); }
  }

  lemma TailMembers(s: seq<Key>, k: Key)
    requires Desc(s) && s != []
    ensures k in s[1..] <==> k in s && k != s[0]
  {
    assert s == [s[0]] + s[1..];
    if k in s[1..] {
      var i :| 0 <= i < |s|-1 && s[1..][i] == k;
      assert Newer(s[0], s[i+1]);
    }
  }

  lemma HasMember(s: seq<Key>)
    requires s != []
    ensures exists k: Key :: k in s
  {
    assert s[0] in s;
  }

  /** A descending listing is determined by its members. */
  lemma {:induction false} DescUnique(a: seq<Key>, b: seq<Key>)
    requires Desc(a) && Desc(b) && SameMembers(a, b)
    ensures a == b
    decreases |a|
  {
    if a == [] {
      if b != [] { HasMember(b); }
    } else {
      assert a[0] in b;
      DescFirst(b, a[0]);
      assert b[0] in a;
      DescFirst(a, b[0]);
      forall k: Key | true ensures k in a[1..] <==> k in b[1..] {
        TailMembers(a, k);
        TailMembers(b, k);
      }
      DescUnique(a[1..], b[1..]);
      assert a == [a[0]] + a[1..] && b == [b[0]] + b[1..];
    }
  }

  /** The sorted listing depends on the rows only, not on the order they were scanned in. */
  lemma SortUnique(xs: seq<Key>, s: seq<Key>)
    requires Distinct(xs) && Desc(s) && SameMembers(xs, s)
    ensures Sort(xs) == s
  {
    SortDesc(xs);
    forall k: Key | true ensures k in Sort(xs) <==> k in s { SortMembers(xs, k); }
    DescUnique(Sort(xs), s);
  }

  /** What a LIMIT keeps of a descending listing, and that whatever it drops is older. */
  lemma TakeFacts(s: seq<Key>, n: nat, k: Key)
    requires Desc(s)
    ensures Desc(Take(s, n))
    ensures k in Take(s, n) ==> k in s
    ensures n >= 1 && k in s && k !in Take(s, n) ==> |s| > n && Newer(s[n-1], k)
  {
    if n >= 1 && k in s && k !in Take(s, n) {
      var i :| 0 <= i < |s| && s[i] == k;
    }
  }

  // ----- merging ----------------------------------------------------------

  function Merge(a: seq<Key>, b: seq<Key>): seq<Key>
    decreases |a| + |b|
  {
    if a == [] then b
    else if b == [] then a
    else if Newer(a[0], b[0]) then [a[0]] + Merge(a[1..], b)
    else [b[0]] + Merge(a, b[1..])
  }

  lemma HeadOrTail(s: seq<Key>, k: Key)
    requires s != []
    ensures k in s <==> k == s[0] || k in s[1..]
  {
    assert s == [s[0]] + s[1..];
  }

  lemma {:induction false} MergeMembers(a: seq<Key>, b: seq<Key>, k: Key)
    ensures k in Merge(a, b) <==> k in a || k in b
    decreases |a| + |b|
  {
    if a != [] && b != [] {
      HeadOrTail(a, k);
      HeadOrTail(b, k);
      if Newer(a[0], b[0]) { MergeMembers(a[1..], b, k); } else { MergeMembers(a, b[1..], k); }
    }
  }

  ghost predicate Disjoint(a: seq<Key>, b: seq<Key>) { forall i, j :: 0 <= i < |a| && 0 <= j < |b| ==> a[i] != b[j] }

  lemma {:induction false} MergeDesc(a: seq<Key>, b: seq<Key>)
    requires Desc(a) && Desc(b) && Disjoint(a, b)
    ensures Desc(Merge(a, b))
    decreases |a| + |b|
  {
    if a != [] && b != [] {
      var first := if Newer(a[0], b[0]) then a[0] else b[0];
      var rest := if Newer(a[0], b[0]) then Merge(a[1..], b) else Merge(a, b[1..]);
      if Newer(a[0], b[0]) { MergeDesc(a[1..], b); } else { MergeDesc(a, b[1..]); }
      forall i | 0 <= i < |rest| ensures Newer(first, rest[i]) {
        var k := rest[i];
        assert k in rest;
        if Newer(a[0], b[0]) { MergeMembers(a[1..], b, k); } else { MergeMembers(a, b[1..], k); }
        TailMembers(a, k);
        TailMembers(b, k);
        if k in a { DescFirst(a, k); } else { DescFirst(b, k); }
      }
    }
  }

  /** The first n of a merge come from the first n of each side. */
  lemma {:induction false} TakeMerge(a: seq<Key>, b: seq<Key>, n: nat)
    ensures Take(Merge(a, b), n) == Take(Merge(Take(a, n), Take(b, n)), n)
    decreases n
  {
    if n > 0 && a != [] && b != [] {
      if Newer(a[0], b[0]) {
        TakeMerge(a[1..], b, n-1);
        TakeMerge(Take(a[1..], n-1), Take(b, n), n-1);
        assert Take(a, n)[1..] == Take(a[1..], n-1);
        assert Take(Take(a[1..], n-1), n-1) == Take(a[1..], n-1) && Take(Take(b, n), n-1) == Take(b, n-1);
        TakeCons(a[0], Merge(a[1..], b), n);
        TakeCons(a[0], Merge(Take(a, n)[1..], Take(b, n)), n);
      } else {
        TakeMerge(a, b[1..], n-1);
        TakeMerge(Take(a, n), Take(b[1..], n-1), n-1);
        assert Take(b, n)[1..] == Take(b[1..], n-1);
        assert Take(Take(b[1..], n-1), n-1) == Take(b[1..], n-1) && Take(Take(a, n), n-1) == Take(a, n-1);
        TakeCons(b[0], Merge(a, b[1..]), n);
        TakeCons(b[0], Merge(Take(a, n), Take(b, n)[1..]), n);
      }
    }
  }

  lemma TakeCons(k: Key, s: seq<Key>, n: nat)
    requires n > 0
    ensures Take([k] + s, n) == [k] + Take(s, n-1)
  {
  }

  lemma SortConcat(a: seq<Key>, b: seq<Key>)
    requires Distinct(a + b)
    ensures Distinct(a) && Distinct(b) && Sort(a + b) == Merge(Sort(a), Sort(b))
  {
    DistinctParts(a, b);
    SortDesc(a);
    SortDesc(b);
    forall i, j | 0 <= i < |Sort(a)| && 0 <= j < |Sort(b)| ensures Sort(a)[i] != Sort(b)[j] {
      SortMembers(a, Sort(a)[i]);
      SortMembers(b, Sort(b)[j]);
      DisjointParts(a, b, Sort(a)[i]);
    }
    MergeDesc(Sort(a), Sort(b));
    forall k: Key | true ensures k in a + b <==> k in Merge(Sort(a), Sort(b)) {
      MergeMembers(Sort(a), Sort(b), k);
      SortMembers(a, k);
      SortMembers(b, k);
    }
    SortUnique(a + b, Merge(Sort(a), Sort(b)));
  }

  lemma DistinctParts(a: seq<Key>, b: seq<Key>)
    requires Distinct(a + b)
    ensures Distinct(a) && Distinct(b)
  {
    var q := a + b;
    forall i, j | 0 <= i < j < |a| ensures a[i] != a[j] { assert q[i] != q[j]; }
    forall i, j | 0 <= i < j < |b| ensures b[i] != b[j] { assert q[|a|+i] != q[|a|+j]; }
  }

  lemma DisjointParts(a: seq<Key>, b: seq<Key>, k: Key)
    requires Distinct(a + b) && k in a
    ensures k !in b
  {
    var q := a + b;
    var i :| 0 <= i < |a| && a[i] == k;
    forall j | 0 <= j < |b| ensures b[j] != k { assert q[i] != q[|a|+j]; }
  }

  // ----- limit pushdown ---------------------------------------------------

  function Concat(legs: seq<seq<Key>>): seq<Key> {
    if legs == [] then [] else legs[0] + Concat(legs[1..])
  }

  /** Each leg sorted and limited on its own, then all of them together. */
  function Limited(legs: seq<seq<Key>>, n: nat): (r: seq<seq<Key>>)
    ensures |r| == |legs| && forall i :: 0 <= i < |legs| ==> r[i] == Take(Sort(legs[i]), n)
  {
    seq(|legs|, i requires 0 <= i < |legs| => Take(Sort(legs[i]), n))
  }

  lemma TakeSortedLeg(leg: seq<Key>, n: nat)
    requires Distinct(leg)
    ensures Distinct(Take(Sort(leg), n)) && Sort(Take(Sort(leg), n)) == Take(Sort(leg), n)
    ensures forall k: Key :: k in Take(Sort(leg), n) ==> k in leg
  {
    SortDesc(leg);
    var t := Take(Sort(leg), n);
    forall i, j | 0 <= i < j < |t| ensures t[i] != t[j] { assert Newer(t[i], t[j]); }
    SortUnique(t, t);
    forall k: Key | k in t ensures k in leg { SortMembers(leg, k); }
  }

  lemma {:induction false} LimitedDistinct(legs: seq<seq<Key>>, n: nat)
    requires Distinct(Concat(legs))
    ensures Distinct(Concat(Limited(legs, n)))
    ensures forall k: Key :: k in Concat(Limited(legs, n)) ==> k in Concat(legs)
  {
    if legs == [] {
    } else {
      var leg, rest := legs[0], Concat(legs[1..]);
      DistinctParts(leg, rest);
      TakeSortedLeg(leg, n);
      LimitedDistinct(legs[1..], n);
      assert Limited(legs, n)[1..] == Limited(legs[1..], n);
      forall k: Key | k in Concat(Limited(legs[1..], n)) ensures k !in Take(Sort(leg), n) {
        if k in Take(Sort(leg), n) { DisjointParts(leg, rest, k); }
      }
      DistinctConcat(Take(Sort(leg), n), Concat(Limited(legs[1..], n)));
    }
  }

  /** Limiting every leg of a union loses nothing from the limited whole. */
  lemma {:induction false} LimitPushdown(legs: seq<seq<Key>>, n: nat)
    requires Distinct(Concat(legs))
    ensures Take(Sort(Concat(Limited(legs, n))), n) == Take(Sort(Concat(legs)), n)
  {
    if legs == [] {
    } else {
      var leg, rest := legs[0], Concat(legs[1..]);
      var t, u := Take(Sort(leg), n), Concat(Limited(legs[1..], n));
      LimitedDistinct(legs, n);
      assert Limited(legs, n)[1..] == Limited(legs[1..], n);
      SortConcat(leg, rest);
      SortConcat(t, u);
      LimitPushdown(legs[1..], n);
      TakeSortedLeg(leg, n);
      TakeMerge(Sort(leg), Sort(rest), n);
      TakeMerge(t, Sort(u), n);
      assert Take(t, n) == t;
    }
  }
}
