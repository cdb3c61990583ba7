/** What every dependency tree satisfies, whatever rows it was built from. */
module TreeResults {
  import opened Graph
  import opened Ordering
  import opened Types
  import opened StatusCalculator
  import opened Cycles
  import opened CriticalPath
  import opened BlockerDepth
  import opened TreeSpec

  // ---------------------------------------------------------------------------
  // Critical path against blocker depth
  // ---------------------------------------------------------------------------

  function Reverse(c: seq<Id>): (r: seq<Id>)
    ensures |r| == |c| && forall i | 0 <= i < |r| :: r[i] == c[|c| - 1 - i]
  {
    seq(|c|, i requires 0 <= i < |c| => c[|c| - 1 - i])
  }

  /** A dependency chain read backwards is a walk. */
  lemma ChainIsWalk(E: set<Edge>, N: set<Id>, c: seq<Id>)
    requires Chain(E, N, c)
    ensures Walk(E, Reverse(c))
  {
    var r := Reverse(c);
    forall i | 0 <= i < |r| - 1
      ensures Step(E, r, i)
    {
      assert Link(E, c, |c| - 2 - i);
    }
  }

  lemma WalkIsChain(E: set<Edge>, N: set<Id>, p: seq<Id>)
    requires Walk(E, p) && forall v | v in p :: v in N
    ensures Chain(E, N, Reverse(p))
  {
    var c := Reverse(p);
    assert forall i | 0 <= i < |c| :: c[i] in p;
    forall i | 0 <= i < |c| - 1
      ensures Link(E, c, i)
    {
      assert Step(E, p, |p| - 2 - i);
    }
  }

  lemma WalkStaysWithin(E: set<Edge>, N: set<Id>, p: seq<Id>)
    requires Walk(E, p) && Within(E, N) && |p| >= 2
    ensures forall v | v in p :: v in N
  {
    forall i | 0 <= i < |p|
      ensures p[i] in N
    {
      if i + 1 < |p| {
        assert Step(E, p, i);
      } else {
        assert Step(E, p, i - 1);
      }
    }
  }

  lemma {:induction false} WeightAtLeastLength(w: Minutes, c: seq<Id>)
    requires Positive(w)
    ensures |c| <= Weight(w, c)
    decreases |c|
  {
    if |c| > 0 {
      WeightAtLeastLength(w, c[..|c| - 1]);
    }
  }

  lemma {:induction false} UniformWeight(w: Minutes, c: seq<Id>, k: nat)
    requires forall v | v in c :: MinutesOf(w, v) == k
    ensures Weight(w, c) == k * |c|
    decreases |c|
  {
    if |c| > 0 {
      assert forall v | v in c[..|c| - 1] :: v in c;
      UniformWeight(w, c[..|c| - 1], k);
      assert c[|c| - 1] in c;
      assert k * |c| == k * (|c| - 1) + k;
    }
  }

  /** The longest walk of a non-empty acyclic residual, as a chain of `d + 1` nodes. */
  lemma DeepestChain(E: set<Edge>, N: set<Id>, d: nat) returns (c: seq<Id>)
    requires IsMaxDepth(E, d) && Within(E, N) && N != {}
    ensures Chain(E, N, c) && |c| == d + 1
  {
    if d == 0 {
      var v :| v in N;
      c := [v];
    } else {
      var p :| Walk(E, p) && |p| == d + 1;
      WalkStaysWithin(E, N, p);
      WalkIsChain(E, N, p);
      c := Reverse(p);
    }
  }

  ghost predicate Uniform(w: Minutes, N: set<Id>) {
    forall u, v | u in N && v in N :: MinutesOf(w, u) == MinutesOf(w, v)
  }

  /** Length and minutes of the critical path bracket the blocker depth. */
  lemma PathBracketsDepth(E: set<Edge>, N: set<Id>, w: Minutes, ids: seq<Id>, d: nat)
    requires IsCriticalPath(E, N, w, ids) && IsMaxDepth(E, d) && Within(E, N) && N != {} && Positive(w)
    ensures |ids| - 1 <= d < Weight(w, ids)
    ensures Uniform(w, N) ==> |ids| - 1 == d
  {
    ChainIsWalk(E, N, ids);
    var c := DeepestChain(E, N, d);
    assert Beats(w, ids, c);
    WeightAtLeastLength(w, c);
    if Uniform(w, N) {
      var k := MinutesOf(w, c[0]);
      assert c[0] in c;
      UniformWeight(w, ids, k);
      UniformWeight(w, c, k);
      WeightPositive(w, c[0]);
      if |ids| < |c| {
        SmallerProduct(k, |ids|, |c|);
      }
    }
  }

  lemma WeightPositive(w: Minutes, v: Id)
    requires Positive(w)
    ensures MinutesOf(w, v) > 0
  {
  }

  lemma SmallerProduct(k: nat, a: nat, b: nat)
    requires k > 0 && a < b
    ensures k * a < k * b
  {
  }

  /** The nodes that are neither done nor on a cycle: both searches run on them. */
  ghost function OpenNodes(rows: TicketRows, tree: DependencyTree): set<Id> {
    Included(rows, CycleNodes(tree.cycles) + DoneIds(rows))
  }

  lemma SameResidual(rows: TicketRows, E: set<Edge>, tree: DependencyTree)
    ensures Restrict(E, OpenNodes(rows, tree)) == Blocking(rows, E, CycleNodes(tree.cycles))
  {
    assert OpenNodes(rows, tree) == Incomplete(rows, CycleNodes(tree.cycles));
  }

  lemma GraphPartsBracket(rows: TicketRows, F: set<Edge>, tree: DependencyTree)
    requires GraphParts(rows, F, tree) && OpenNodes(rows, tree) != {}
    ensures tree.summary.criticalPathLength - 1 <= tree.summary.maxBlockerDepth < tree.summary.criticalPathMinutes
    ensures Uniform(Weights(rows, CycleNodes(tree.cycles) + DoneIds(rows)), OpenNodes(rows, tree))
            ==> tree.summary.criticalPathLength - 1 == tree.summary.maxBlockerDepth
  {
    var s := tree.summary;
    var exclude := CycleNodes(tree.cycles) + DoneIds(rows);
    var N, w := OpenNodes(rows, tree), Weights(rows, exclude);
    var ids :| IsCriticalPathResult(rows, F, exclude, ids,
                 CriticalPathResult(tree.criticalPath, s.criticalPathLength, s.criticalPathMinutes));
    SameResidual(rows, F, tree);
    PathBracketsDepth(Restrict(F, N), N, w, ids, s.maxBlockerDepth);
  }

  /** Whenever some ticket is neither done nor on a cycle, the tree's critical path is at
      most one node longer than its blocker depth, the depth is below its minutes, and the
      first bound is an equality when all those tickets weigh the same. */
  lemma CriticalPathBracketsBlockerDepth(specId: Id, epics: EpicRows, rows: TicketRows, E: set<Edge>, tree: DependencyTree)
    requires IsTreeOf(specId, epics, rows, E, tree) && OpenNodes(rows, tree) != {}
    ensures tree.summary.criticalPathLength - 1 <= tree.summary.maxBlockerDepth < tree.summary.criticalPathMinutes
    ensures (forall u, v | u in OpenNodes(rows, tree) && v in OpenNodes(rows, tree) ::
               DpWeight(rows[u]) == DpWeight(rows[v]))
            ==> tree.summary.criticalPathLength - 1 == tree.summary.maxBlockerDepth
  {
    GraphPartsBracket(rows, Restrict(E, rows.Keys), tree);
  }

  // ---------------------------------------------------------------------------
  // The ready and blocked lists
  // ---------------------------------------------------------------------------

  lemma DerivedInTree(rows: TicketRows, F: set<Edge>, v: Id)
    requires Within(F, rows.Keys) && v in rows
    ensures AllDone(StatesOf(rows), DepsOf(F, v)) <==> Unsatisfied(rows, F, v) == {}
  {
    forall d | d in DepsOf(F, v)
      ensures d in rows && (Lookup(StatesOf(rows), d) == Done <==> d !in Undone(rows))
      ensures d in Unsatisfied(rows, F, v) <==> Lookup(StatesOf(rows), d) != Done
    {
    }
  }

  lemma ListsByStatus(rows: TicketRows, F: set<Edge>)
    requires Within(F, rows.Keys) && Consistent(StatesOf(rows), F)
    ensures ReadySet(rows, F) == WithStatus(rows, Ready)
    ensures WithStatus(rows, Pending) <= BlockedSet(rows, F)
  {
    forall v | v in rows
      ensures v in ReadySet(rows, F) <==> rows[v].status == Ready
      ensures rows[v].status == Pending ==> v in BlockedSet(rows, F)
    {
      DerivedInTree(rows, F, v);
      assert StatesOf(rows)[v] == Derived(StatesOf(rows), F, v);
    }
  }

  /** After a recompute the cached ready list holds exactly the tickets whose status is
      ready, and every pending ticket is in the blocked list. */
  lemma ReadyListIsReadyStatus(specId: Id, epics: EpicRows, rows: TicketRows, E: set<Edge>, tree: DependencyTree)
    requires IsTreeOf(specId, epics, rows, E, tree)
    requires Consistent(StatesOf(rows), Restrict(E, rows.Keys))
    ensures Elems(tree.summary.readyTickets) == WithStatus(rows, Ready)
    ensures |tree.summary.readyTickets| == tree.summary.ticketsByStatus.ready
    ensures WithStatus(rows, Pending) <= Elems(tree.summary.blockedTickets)
  {
    ListsByStatus(rows, Restrict(E, rows.Keys));
  }
}
