/** Dependency edges, walks, reachability and acyclicity: the vocabulary in which
    every result about the dependency engine is stated. */
module Graph {
  /** A ticket, epic, specification or project id.  The engine only compares ids
      for order and equality, so the naturals stand in for the ASCII id strings. */
  type Id = nat

  /** `src` is the dependent ticket, `dst` the ticket it depends on. */
  datatype Edge = Edge(src: Id, dst: Id)

  ghost predicate Step(E: set<Edge>, p: seq<Id>, i: int)
    requires 0 <= i < |p| - 1
  {
    Edge(p[i], p[i + 1]) in E
  }

  ghost predicate Walk(E: set<Edge>, p: seq<Id>) {
    |p| >= 1 && forall i | 0 <= i < |p| - 1 :: Step(E, p, i)
  }

  ghost predicate WalkFromTo(E: set<Edge>, p: seq<Id>, u: Id, v: Id) {
    Walk(E, p) && p[0] == u && p[|p| - 1] == v
  }

  /** Reachable by a possibly empty sequence of edges. */
  ghost predicate Reach(E: set<Edge>, u: Id, v: Id) {
    exists p :: WalkFromTo(E, p, u, v)
  }

  /** Reachable by at least one edge. */
  ghost predicate ReachPlus(E: set<Edge>, u: Id, v: Id) {
    exists w :: Edge(u, w) in E && Reach(E, w, v)
  }

  ghost predicate Mutual(E: set<Edge>, u: Id, v: Id) {
    Reach(E, u, v) && Reach(E, v, u)
  }

  ghost predicate Acyclic(E: set<Edge>) {
    forall v :: !ReachPlus(E, v, v)
  }

  ghost predicate Closed(E: set<Edge>, S: set<Id>) {
    forall e | e in E :: e.src in S ==> e.dst in S
  }

  ghost predicate Within(E: set<Edge>, S: set<Id>) {
    forall e | e in E :: e.src in S && e.dst in S
  }

  function Restrict(E: set<Edge>, S: set<Id>): set<Edge> {
    set e | e in E && e.src in S && e.dst in S
  }

  lemma ReachSelf(E: set<Edge>, u: Id)
    ensures Reach(E, u, u)
  {
    assert WalkFromTo(E, [u], u, u);
  }

  lemma ReachEdge(E: set<Edge>, u: Id, v: Id)
    requires Edge(u, v) in E
    ensures Reach(E, u, v)
  {
    assert Step(E, [u, v], 0);
    assert WalkFromTo(E, [u, v], u, v);
  }

  lemma WalkConcat(E: set<Edge>, p: seq<Id>, q: seq<Id>)
    requires Walk(E, p) && Walk(E, q) && p[|p| - 1] == q[0]
    ensures WalkFromTo(E, p + q[1..], p[0], q[|q| - 1])
  {
    var r := p + q[1..];
    forall i | 0 <= i < |r| - 1
      ensures Step(E, r, i)
    {
      if i < |p| - 1 {
        assert Step(E, p, i);
      } else {
        assert Step(E, q, i - (|p| - 1));
      }
    }
  }

  lemma ReachTrans(E: set<Edge>, u: Id, v: Id, w: Id)
    requires Reach(E, u, v) && Reach(E, v, w)
    ensures Reach(E, u, w)
  {
    var p :| WalkFromTo(E, p, u, v);
    var q :| WalkFromTo(E, q, v, w);
    WalkConcat(E, p, q);
  }

  lemma WalkTail(E: set<Edge>, p: seq<Id>)
    requires Walk(E, p) && |p| >= 2
    ensures Edge(p[0], p[1]) in E && WalkFromTo(E, p[1..], p[1], p[|p| - 1])
  {
    assert Step(E, p, 0);
    forall i | 0 <= i < |p| - 2
      ensures Step(E, p[1..], i)
    {
      assert Step(E, p, i + 1);
    }
  }

  lemma WalkInit(E: set<Edge>, p: seq<Id>)
    requires Walk(E, p) && |p| >= 2
    ensures Edge(p[|p| - 2], p[|p| - 1]) in E && WalkFromTo(E, p[..|p| - 1], p[0], p[|p| - 2])
  {
    assert Step(E, p, |p| - 2);
    var q := p[..|p| - 1];
    forall i | 0 <= i < |q| - 1
      ensures Step(E, q, i)
    {
      assert Step(E, p, i);
    }
  }

  /** A closed set keeps every walk that starts inside it. */
  lemma {:induction false} ClosedWalk(E: set<Edge>, S: set<Id>, p: seq<Id>)
    requires Closed(E, S) && Walk(E, p) && p[0] in S
    ensures p[|p| - 1] in S
    decreases |p|
  {
    if |p| >= 2 {
      WalkTail(E, p);
      ClosedWalk(E, S, p[1..]);
    }
  }

  lemma ClosedReach(E: set<Edge>, S: set<Id>, u: Id, v: Id)
    requires Closed(E, S) && u in S && Reach(E, u, v)
    ensures v in S
  {
    var p :| WalkFromTo(E, p, u, v);
    ClosedWalk(E, S, p);
  }

  /** Two distinct mutually reachable nodes lie on a cycle. */
  lemma ReachNonEmpty(E: set<Edge>, u: Id, v: Id)
    requires Reach(E, u, v) && u != v
    ensures ReachPlus(E, u, v)
  {
    var p :| WalkFromTo(E, p, u, v);
    WalkTail(E, p);
    assert Reach(E, p[1], v);
  }

  lemma ReachPlusTrans(E: set<Edge>, u: Id, v: Id, w: Id)
    requires ReachPlus(E, u, v) && Reach(E, v, w)
    ensures ReachPlus(E, u, w)
  {
    var x :| Edge(u, x) in E && Reach(E, x, v);
    ReachTrans(E, x, v, w);
  }

  lemma ReachMonotone(E: set<Edge>, F: set<Edge>, u: Id, v: Id)
    requires E <= F && Reach(E, u, v)
    ensures Reach(F, u, v)
  {
    var p :| WalkFromTo(E, p, u, v);
    forall i | 0 <= i < |p| - 1
      ensures Step(F, p, i)
    {
      assert Step(E, p, i);
    }
    assert WalkFromTo(F, p, u, v);
  }

  lemma AcyclicMonotone(E: set<Edge>, F: set<Edge>)
    requires E <= F && Acyclic(F)
    ensures Acyclic(E)
  {
    forall v | ReachPlus(E, v, v)
      ensures false
    {
      var w :| Edge(v, w) in E && Reach(E, w, v);
      ReachMonotone(E, F, w, v);
      assert ReachPlus(F, v, v);
    }
  }

  /** The nodes reachable from `u`; finite because everything past `u` is an edge end. */
  ghost function Below(E: set<Edge>, u: Id): (s: set<Id>)
    ensures forall v :: v in s <==> Reach(E, u, v)
  {
    var ends := {u} + set e | e in E :: e.dst;
    assert Closed(E, ends);
    assert forall v | Reach(E, u, v) :: v in ends by {
      forall v | Reach(E, u, v)
        ensures v in ends
      {
        ClosedReach(E, ends, u, v);
      }
    }
    set v | v in ends && Reach(E, u, v)
  }

  /** On an acyclic graph each edge strictly shrinks the set below it: the measure
      that makes the memoised recursions terminate. */
  lemma BelowShrinks(E: set<Edge>, u: Id, v: Id)
    requires Acyclic(E) && Edge(u, v) in E
    ensures Below(E, v) < Below(E, u)
  {
    forall w | Reach(E, v, w)
      ensures Reach(E, u, w)
    {
      ReachEdge(E, u, v);
      ReachTrans(E, u, v, w);
    }
    ReachSelf(E, u);
    assert u in Below(E, u);
    assert !Reach(E, v, u) by {
      assert !ReachPlus(E, u, u);
    }
  }
}
