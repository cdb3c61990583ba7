/** What a list of dependency cycles is, and why it is determined by the edges. */
module Cycles {
  import opened Graph
  import opened Ordering

  ghost predicate OnCycle(E: set<Edge>, x: Id) {
    ReachPlus(E, x, x)
  }

  ghost predicate InCycle(cs: seq<seq<Id>>, x: Id) {
    exists c :: c in cs && x in c
  }

  /** One cycle: a sorted, whole class of mutually reachable nodes. */
  ghost predicate IsCycle(E: set<Edge>, c: seq<Id>) {
    |c| > 0 && StrictlySorted(c) && forall x, y | x in c :: y in c <==> Mutual(E, x, y)
  }

  ghost predicate OrderedByFirst(cs: seq<seq<Id>>) {
    && (forall c | c in cs :: |c| > 0)
    && (forall i, j | 0 <= i < j < |cs| :: cs[i][0] < cs[j][0])
  }

  /** The strongly connected components that hold a cycle, each sorted, in the order
      of their first ids. */
  ghost predicate IsCycleList(E: set<Edge>, cs: seq<seq<Id>>) {
    && OrderedByFirst(cs)
    && (forall c | c in cs :: IsCycle(E, c))
    && (forall x :: InCycle(cs, x) <==> OnCycle(E, x))
  }

  ghost function CycleNodes(cs: seq<seq<Id>>): set<Id> {
    set c, x | c in cs && x in c :: x
  }

  lemma MutualIsCyclic(E: set<Edge>, x: Id, y: Id)
    requires Mutual(E, x, y) && x != y
    ensures OnCycle(E, x)
  {
    ReachNonEmpty(E, x, y);
    ReachPlusTrans(E, x, y, x);
  }

  /** Two nodes share a list exactly when they are mutually reachable, so no node is
      in two lists. */
  lemma ShareIffMutual(E: set<Edge>, cs: seq<seq<Id>>, x: Id, y: Id)
    requires IsCycleList(E, cs) && OnCycle(E, x)
    ensures (exists c :: c in cs && x in c && y in c) <==> Mutual(E, x, y)
  {
    assert InCycle(cs, x);
    var c :| c in cs && x in c;
    assert IsCycle(E, c);
    if Mutual(E, x, y) {
      assert y in c;
    }
  }

  lemma FirstsDiffer(E: set<Edge>, c: seq<Id>, d: seq<Id>, x: Id)
    requires IsCycle(E, c) && IsCycle(E, d) && x in c && x in d
    ensures c == d
  {
    assert forall y :: y in c <==> y in d;
    assert Elems(c) == Elems(d);
    StrictlySortedUnique(c, d);
  }

  lemma CyclesDisjoint(E: set<Edge>, cs: seq<seq<Id>>, i: nat, j: nat, x: Id)
    requires IsCycleList(E, cs) && i < j < |cs| && x in cs[i]
    ensures x !in cs[j]
  {
    assert IsCycle(E, cs[i]) && IsCycle(E, cs[j]);
    if x in cs[j] {
      FirstsDiffer(E, cs[i], cs[j], x);
      assert false;
    }
  }

  lemma ListedInBoth(E: set<Edge>, cs: seq<seq<Id>>, ds: seq<seq<Id>>, c: seq<Id>)
    requires IsCycleList(E, cs) && IsCycleList(E, ds) && c in cs
    ensures c in ds
  {
    assert IsCycle(E, c) && c[0] in c;
    assert InCycle(cs, c[0]) && InCycle(ds, c[0]);
    var d :| d in ds && c[0] in d;
    FirstsDiffer(E, c, d, c[0]);
  }

  lemma {:induction false} OrderedUnique(cs: seq<seq<Id>>, ds: seq<seq<Id>>)
    requires OrderedByFirst(cs) && OrderedByFirst(ds)
    requires forall c :: c in cs <==> c in ds
    ensures cs == ds
    decreases |cs|
  {
    assert |cs| > 0 ==> cs[0] in ds;
    assert |ds| > 0 ==> ds[0] in cs;
    if |cs| > 0 && |ds| > 0 {
      var i :| 0 <= i < |ds| && ds[i] == cs[0];
      var j :| 0 <= j < |cs| && cs[j] == ds[0];
      assert cs[0] == ds[0];
      forall c
        ensures c in cs[1..] <==> c in ds[1..]
      {
        if c in cs[1..] {
          assert c in ds && c != cs[0];
        }
        if c in ds[1..] {
          assert c in cs && c != ds[0];
        }
      }
      OrderedUnique(cs[1..], ds[1..]);
    }
  }

  /** The edges alone determine the list: ticket order, edge order and duplicate
      edges cannot change it. */
  lemma CycleListUnique(E: set<Edge>, cs: seq<seq<Id>>, ds: seq<seq<Id>>)
    requires IsCycleList(E, cs) && IsCycleList(E, ds)
    ensures cs == ds
  {
    forall c
      ensures c in cs <==> c in ds
    {
      if c in cs {
        ListedInBoth(E, cs, ds, c);
      }
      if c in ds {
        ListedInBoth(E, ds, cs, c);
      }
    }
    OrderedUnique(cs, ds);
  }

  /** `has_circular_deps` is false exactly on acyclic graphs. */
  lemma NoCyclesIffAcyclic(E: set<Edge>, cs: seq<seq<Id>>)
    requires IsCycleList(E, cs)
    ensures |cs| == 0 <==> Acyclic(E)
  {
    if |cs| > 0 {
      assert IsCycle(E, cs[0]) && cs[0][0] in cs[0];
      assert InCycle(cs, cs[0][0]);
    } else {
      forall v
        ensures !ReachPlus(E, v, v)
      {
        assert OnCycle(E, v) <==> InCycle(cs, v);
      }
    }
  }

  /** What is left after the listed nodes are removed is acyclic, which is what lets
      the critical-path recursion terminate on every graph. */
  lemma ResidualAcyclic(E: set<Edge>, cs: seq<seq<Id>>, keep: set<Id>)
    requires IsCycleList(E, cs) && keep !! CycleNodes(cs)
    ensures Acyclic(Restrict(E, keep))
  {
    var R := Restrict(E, keep);
    forall v | ReachPlus(R, v, v)
      ensures false
    {
      var w :| Edge(v, w) in R && Reach(R, w, v);
      ReachMonotone(R, E, w, v);
      assert v in keep;
      assert InCycle(cs, v) by {
        assert OnCycle(E, v);
      }
      assert false;
    }
  }
}
