/** Canonical orderings of finite collections: the repository sorts every list it
    stores, so that two builds from the same rows compare equal. */
module Ordering {
  import opened Graph

  ghost predicate StrictlySorted(xs: seq<Id>) {
    forall i, j | 0 <= i < j < |xs| :: xs[i] < xs[j]
  }

  function Elems<T>(xs: seq<T>): set<T> {
    set x | x in xs
  }

  ghost predicate Distinct<T>(xs: seq<T>) {
    forall i, j | 0 <= i < j < |xs| :: xs[i] != xs[j]
  }

  /** The order of `sorted(..., key=lambda i: (number[i], i))`. */
  predicate KeyLess(key: map<Id, int>, a: Id, b: Id) {
    var ka := if a in key then key[a] else 0;
    var kb := if b in key then key[b] else 0;
    ka < kb || (ka == kb && a < b)
  }

  predicate IsLeast(key: map<Id, int>, s: set<Id>, m: Id) {
    m in s && forall x | x in s && x != m :: KeyLess(key, m, x)
  }

  lemma {:induction false} LeastExists(key: map<Id, int>, s: set<Id>) returns (m: Id)
    requires |s| != 0
    ensures IsLeast(key, s, m)
    decreases |s|
  {
    var y :| y in s;
    var rest := s - {y};
    m := y;
    if |rest| != 0 {
      var n := LeastExists(key, rest);
      if !KeyLess(key, y, n) {
        m := n;
      }
    }
    forall x | x in s && x != m
      ensures KeyLess(key, m, x)
    {
      if x != y {
        assert x in rest;
      }
    }
  }

  ghost predicate SortedByKey(key: map<Id, int>, xs: seq<Id>) {
    forall i, j | 0 <= i < j < |xs| :: KeyLess(key, xs[i], xs[j])
  }

  lemma ConsSorted(key: map<Id, int>, m: Id, rest: seq<Id>, s: set<Id>)
    requires IsLeast(key, s, m)
    requires SortedByKey(key, rest) && Elems(rest) == s - {m}
    ensures SortedByKey(key, [m] + rest) && Elems([m] + rest) == s
  {
    var xs := [m] + rest;
    forall i, j | 0 <= i < j < |xs|
      ensures KeyLess(key, xs[i], xs[j])
    {
      if i == 0 {
        assert xs[j] in Elems(rest);
      } else {
        assert KeyLess(key, rest[i - 1], rest[j - 1]);
      }
    }
    assert forall x :: x in xs <==> x == m || x in rest;
    assert forall x :: x in rest <==> x in Elems(rest);
  }

  /** A finite id set as a list ordered by `(key, id)`. */
  function SortBy(key: map<Id, int>, s: set<Id>): (xs: seq<Id>)
    ensures SortedByKey(key, xs) && Elems(xs) == s && |xs| == |s|
  {
    if |s| == 0 then []
    else
      assert exists m :: IsLeast(key, s, m) by {
        var m := LeastExists(key, s);
      }
      var m :| IsLeast(key, s, m);
      var rest := SortBy(key, s - {m});
      ConsSorted(key, m, rest, s);
      [m] + rest
  }

  /** `sorted(set(...))`. */
  function Sorted(s: set<Id>): (xs: seq<Id>)
    ensures StrictlySorted(xs) && Elems(xs) == s && |xs| == |s|
  {
    var xs := SortBy(map[], s);
    assert StrictlySorted(xs) by {
      forall i, j | 0 <= i < j < |xs|
        ensures xs[i] < xs[j]
      {
        assert KeyLess(map[], xs[i], xs[j]);
      }
    }
    xs
  }

  lemma ElemsEmpty(xs: seq<Id>)
    ensures Elems(xs) == {} <==> |xs| == 0
  {
    if |xs| > 0 {
      assert xs[0] in Elems(xs);
    }
  }

  /** A strictly sorted list is determined by its elements. */
  lemma {:induction false} SortedUnique(key: map<Id, int>, xs: seq<Id>, ys: seq<Id>)
    requires SortedByKey(key, xs) && SortedByKey(key, ys) && Elems(xs) == Elems(ys)
    ensures xs == ys
    decreases |xs|
  {
    ElemsEmpty(xs);
    ElemsEmpty(ys);
    if |xs| != 0 {
      assert xs[0] in Elems(xs) && ys[0] in Elems(ys);
      var i :| 0 <= i < |ys| && ys[i] == xs[0];
      var j :| 0 <= j < |xs| && xs[j] == ys[0];
      assert xs[0] == ys[0];
      forall x
        ensures x in Elems(xs[1..]) <==> x in Elems(ys[1..])
      {
        if x in xs[1..] || x in ys[1..] {
          assert x in Elems(xs) && x in Elems(ys) && x != xs[0];
        }
      }
      SortedUnique(key, xs[1..], ys[1..]);
    }
  }

  lemma StrictlySortedUnique(xs: seq<Id>, ys: seq<Id>)
    requires StrictlySorted(xs) && StrictlySorted(ys) && Elems(xs) == Elems(ys)
    ensures xs == ys
  {
    SortedUnique(map[], xs, ys);
  }

  lemma {:induction false} DistinctLength<T>(xs: seq<T>)
    requires Distinct(xs)
    ensures |Elems(xs)| == |xs|
    decreases |xs|
  {
    if xs != [] {
      var last := xs[|xs| - 1];
      var init := xs[..|xs| - 1];
      DistinctLength(init);
      assert Elems(xs) == Elems(init) + {last};
      assert last !in Elems(init);
    }
  }

  lemma {:induction false} SubsetAtMost<T>(a: set<T>, b: set<T>)
    requires a <= b
    ensures |a| <= |b|
    decreases |a|
  {
    if |a| != 0 {
      var x :| x in a;
      SubsetAtMost(a - {x}, b - {x});
    }
  }

  lemma SubsetSmaller<T>(a: set<T>, b: set<T>)
    requires a < b
    ensures |a| < |b|
  {
    var x :| x in b && x !in a;
    SubsetAtMost(a, b - {x});
  }

  lemma ElemsAppend(init: seq<Id>, last: Id)
    ensures Elems(init + [last]) == Elems(init) + {last}
  {
  }

  lemma ElemsGrow(xs: seq<Id>, i: nat)
    requires i < |xs|
    ensures Elems(xs[..i + 1]) == Elems(xs[..i]) + {xs[i]} && xs[i] in xs && xs[i] in Elems(xs)
  {
    assert xs[..i + 1] == xs[..i] + [xs[i]];
  }
}
