/** The longest chain of incomplete blockers (`compute_max_blocker_depth`). */
module BlockerDepth {
  import opened Graph
  import opened Ordering
  import opened Types

  /** `d` is the number of edges on the longest walk from `v`. */
  ghost predicate IsDepthOf(B: set<Edge>, v: Id, d: nat) {
    && (exists p :: Walk(B, p) && p[0] == v && |p| == d + 1)
    && forall p | Walk(B, p) && p[0] == v :: |p| <= d + 1
  }

  /** `d` is the number of edges on the longest walk of all. */
  ghost predicate IsMaxDepth(B: set<Edge>, d: nat) {
    && (exists p :: Walk(B, p) && |p| == d + 1)
    && forall p | Walk(B, p) :: |p| <= d + 1
  }

  lemma MaxDepthUnique(B: set<Edge>, d: nat, e: nat)
    requires IsMaxDepth(B, d) && IsMaxDepth(B, e)
    ensures d == e
  {
  }

  ghost function Incomplete(rows: map<Id, TicketNode>, exclude: set<Id>): set<Id> {
    set id | id in rows && id !in exclude && !rows[id].status.Done?
  }

  /** The edges between incomplete tickets that are not excluded. */
  ghost function Blocking(rows: map<Id, TicketNode>, E: set<Edge>, exclude: set<Id>): set<Edge> {
    Restrict(E, Incomplete(rows, exclude))
  }

  /** The deepest of the walks that continue through the blockers `S` of `v`. */
  ghost predicate DeepestVia(B: set<Edge>, v: Id, S: set<Id>, d: nat) {
    && (exists p :: Walk(B, p) && p[0] == v && |p| == d + 1)
    && forall p | Walk(B, p) && p[0] == v && |p| >= 2 && p[1] in S :: |p| <= d + 1
  }

  lemma DeepestStart(B: set<Edge>, v: Id)
    ensures DeepestVia(B, v, {}, 0)
  {
    assert Walk(B, [v]) && [v][0] == v;
  }

  lemma DeepestStep(B: set<Edge>, v: Id, S: set<Id>, best: nat, u: Id, d: nat)
    requires DeepestVia(B, v, S, best) && Edge(v, u) in B && IsDepthOf(B, u, d)
    ensures DeepestVia(B, v, S + {u}, if 1 + d > best then 1 + d else best)
  {
    if 1 + d > best {
      var p :| Walk(B, p) && p[0] == u && |p| == d + 1;
      assert Step(B, [v, u], 0);
      WalkConcat(B, [v, u], p);
      var q := [v, u] + p[1..];
      assert Walk(B, q) && q[0] == v && |q| == d + 2;
    }
    forall p | Walk(B, p) && p[0] == v && |p| >= 2 && p[1] in S + {u}
      ensures |p| <= (if 1 + d > best then 1 + d else best) + 1
    {
      if p[1] == u {
        WalkTail(B, p);
        assert Walk(B, p[1..]) && p[1..][0] == u;
      }
    }
  }

  lemma DeepestDone(B: set<Edge>, v: Id, S: set<Id>, d: nat)
    requires DeepestVia(B, v, S, d) && forall u | Edge(v, u) in B :: u in S
    ensures IsDepthOf(B, v, d)
  {
    forall p | Walk(B, p) && p[0] == v
      ensures |p| <= d + 1
    {
      if |p| >= 2 {
        WalkTail(B, p);
      }
    }
  }

  /** The deepest of the walks that start in `S`. */
  ghost predicate DeepestFrom(B: set<Edge>, S: set<Id>, d: nat) {
    && (exists p :: Walk(B, p) && |p| == d + 1)
    && forall p | Walk(B, p) && p[0] in S :: |p| <= d + 1
  }

  lemma DeepestFromStep(B: set<Edge>, S: set<Id>, best: nat, v: Id, d: nat)
    requires DeepestFrom(B, S, best)
    requires IsDepthOf(B, v, d) || (d == 0 && forall u :: Edge(v, u) !in B)
    ensures DeepestFrom(B, S + {v}, if d > best then d else best)
  {
    forall p | Walk(B, p) && p[0] in S + {v}
      ensures |p| <= (if d > best then d else best) + 1
    {
      if p[0] == v && |p| >= 2 {
        WalkTail(B, p);
      }
    }
  }

  ghost predicate BlockersListed(completeById: map<Id, bool>, blockersOf: map<Id, seq<Id>>, B: set<Edge>) {
    && blockersOf.Keys == completeById.Keys
    && (forall v, u | v in blockersOf && u in blockersOf[v] :: u in completeById && !completeById[u])
    && (forall v, u | v in completeById && !completeById[v] :: u in blockersOf[v] <==> Edge(v, u) in B)
    && (forall e | e in B :: e.src in completeById && !completeById[e.src] && e.dst in completeById)
  }

  class DepthSearch {
    const completeById: map<Id, bool>
    const blockersOf: map<Id, seq<Id>>
    ghost const edges: set<Edge>
    var memo: map<Id, nat>
    var visiting: set<Id>
    ghost var guardHit: bool

    ghost predicate Setup() {
      BlockersListed(completeById, blockersOf, edges)
    }

    /** On an acyclic graph the memo holds exact depths; a complete ticket's is 0. */
    ghost predicate MemoOk()
      reads this`memo
    {
      forall v | v in memo && v in completeById ::
        if completeById[v] then memo[v] == 0 else Acyclic(edges) ==> IsDepthOf(edges, v, memo[v])
    }

    constructor (completeById: map<Id, bool>, blockersOf: map<Id, seq<Id>>, ghost edges: set<Edge>)
      ensures this.completeById == completeById && this.blockersOf == blockersOf && this.edges == edges
      ensures memo == map[] && visiting == {} && !guardHit
    {
      this.completeById, this.blockersOf, this.edges := completeById, blockersOf, edges;
      memo, visiting, guardHit := map[], {}, false;
    }

    /** The memoised, cycle-guarded recursion `depth`.  It terminates on every graph;
        on an acyclic one the guard is never reached and the depth is exact. */
    method Depth(v: Id) returns (d: nat)
      requires Setup() && MemoOk() && v in completeById
      requires visiting <= completeById.Keys
      requires forall x | x in visiting :: ReachPlus(edges, x, v)
      modifies this
      ensures MemoOk() && visiting == old(visiting)
      ensures Acyclic(edges) ==> guardHit == old(guardHit)
      ensures completeById[v] ==> d == 0
      ensures !completeById[v] && Acyclic(edges) ==> IsDepthOf(edges, v, d)
      decreases |completeById.Keys - visiting|, 1
    {
      if v in memo {
        return memo[v];
      }
      if completeById[v] {
        d := 0;
        Remember(v, d);
        return;
      }
      if v in visiting {
        GuardMeansCycle(v);
        guardHit := true;
        return 0;
      }
      d := DepthOfOpen(v);
      Remember(v, d);
    }

    /** An incomplete ticket is marked while its blockers are looked at. */
    method DepthOfOpen(v: Id) returns (d: nat)
      requires Setup() && MemoOk() && v in completeById && !completeById[v]
      requires visiting <= completeById.Keys && v !in visiting
      requires forall x | x in visiting :: ReachPlus(edges, x, v)
      modifies this
      ensures MemoOk() && visiting == old(visiting)
      ensures Acyclic(edges) ==> guardHit == old(guardHit) && IsDepthOf(edges, v, d)
      decreases |completeById.Keys - visiting|, 0
    {
      MarkShrinks(v);
      visiting := visiting + {v};
      d := DepthOverBlockers(v);
      visiting := visiting - {v};
    }

    method Remember(v: Id, d: nat)
      requires MemoOk() && v in completeById
      requires if completeById[v] then d == 0 else Acyclic(edges) ==> IsDepthOf(edges, v, d)
      modifies this`memo
      ensures MemoOk()
    {
      memo := memo[v := d];
    }

    /** The guard is only ever hit on a cycle. */
    lemma GuardMeansCycle(v: Id)
      requires v in visiting && forall x | x in visiting :: ReachPlus(edges, x, v)
      ensures !Acyclic(edges)
    {
      assert ReachPlus(edges, v, v);
    }

    /** The loop over the blockers of a ticket that is being visited. */
    method DepthOverBlockers(v: Id) returns (d: nat)
      requires Setup() && MemoOk() && v in completeById && !completeById[v]
      requires visiting <= completeById.Keys && v in visiting
      requires forall x | x in visiting - {v} :: ReachPlus(edges, x, v)
      modifies this
      ensures MemoOk() && visiting == old(visiting)
      ensures Acyclic(edges) ==> guardHit == old(guardHit)
      ensures Acyclic(edges) ==> IsDepthOf(edges, v, d)
      decreases |completeById.Keys - visiting|, 2
    {
      d := 0;
      DeepestStart(edges, v);
      for i := 0 to |blockersOf[v]|
        invariant MemoOk() && visiting == old(visiting)
        invariant Acyclic(edges) ==> guardHit == old(guardHit)
        invariant Acyclic(edges) ==> DeepestVia(edges, v, Elems(blockersOf[v][..i]), d)
      {
        var blocker := blockersOf[v][i];
        assert blocker in blockersOf[v] && Edge(v, blocker) in edges;
        OneEdgeFurther(v, blocker);
        var below := Depth(blocker);
        ElemsGrow(blockersOf[v], i);
        if Acyclic(edges) {
          DeepestStep(edges, v, Elems(blockersOf[v][..i]), d, blocker, below);
        }
        if 1 + below > d {
          d := 1 + below;
        }
      }
      assert blockersOf[v][..|blockersOf[v]|] == blockersOf[v];
      if Acyclic(edges) {
        assert forall u | Edge(v, u) in edges :: u in Elems(blockersOf[v]);
        DeepestDone(edges, v, Elems(blockersOf[v]), d);
      }
    }

    /** The loop over all tickets. */
    method MaxDepthOver(order: seq<Id>) returns (maxDepth: nat)
      requires Setup() && MemoOk() && visiting == {} && forall v | v in order :: v in completeById
      modifies this
      ensures Acyclic(edges) ==> guardHit == old(guardHit) && DeepestFrom(edges, Elems(order), maxDepth)
    {
      maxDepth := 0;
      assert Walk(edges, [0]);
      for i := 0 to |order|
        invariant MemoOk() && visiting == {}
        invariant Acyclic(edges) ==> guardHit == old(guardHit)
        invariant Acyclic(edges) ==> DeepestFrom(edges, Elems(order[..i]), maxDepth)
      {
        var d := Depth(order[i]);
        ElemsGrow(order, i);
        if Acyclic(edges) {
          DeepestFromStep(edges, Elems(order[..i]), maxDepth, order[i], d);
        }
        if d > maxDepth {
          maxDepth := d;
        }
      }
      assert order[..|order|] == order;
    }

    lemma MarkShrinks(v: Id)
      requires v in completeById && v !in visiting && visiting <= completeById.Keys
      ensures |completeById.Keys - (visiting + {v})| < |completeById.Keys - visiting|
      ensures visiting + {v} <= completeById.Keys && (visiting + {v}) - {v} == visiting
    {
      assert completeById.Keys - (visiting + {v}) == (completeById.Keys - visiting) - {v};
    }

    lemma OneEdgeFurther(v: Id, u: Id)
      requires Edge(v, u) in edges && forall x | x in visiting - {v} :: ReachPlus(edges, x, v)
      ensures forall x | x in visiting :: ReachPlus(edges, x, u)
    {
      ReachSelf(edges, u);
      ReachEdge(edges, v, u);
      forall x | x in visiting
        ensures ReachPlus(edges, x, u)
      {
        if x != v {
          ReachPlusTrans(edges, x, v, u);
        }
      }
    }
  }

  // ---------------------------------------------------------------------------
  // From rows and edges
  // ---------------------------------------------------------------------------

  ghost function Completion(rows: map<Id, TicketNode>, exclude: set<Id>): map<Id, bool> {
    map id | id in rows && id !in exclude :: rows[id].status.Done?
  }

  lemma CompletionStep(rows: map<Id, TicketNode>, exclude: set<Id>, t: TicketNode)
    ensures Completion(rows[t.id := t], exclude)
            == if t.id in exclude then Completion(rows, exclude)
               else Completion(rows, exclude)[t.id := t.status.Done?]
  {
  }

  method CollectCompletion(tickets: seq<TicketNode>, exclude: set<Id>) returns (completeById: map<Id, bool>)
    ensures completeById == Completion(Rows(tickets), exclude)
  {
    completeById := map[];
    for i := 0 to |tickets|
      invariant completeById == Completion(Rows(tickets[..i]), exclude)
    {
      assert tickets[..i + 1][..i] == tickets[..i];
      CompletionStep(Rows(tickets[..i]), exclude, tickets[i]);
      if tickets[i].id !in exclude {
        completeById := completeById[tickets[i].id := tickets[i].status.Done?];
      }
    }
    assert tickets[..|tickets|] == tickets;
  }

  ghost predicate ListsBlockers(completeById: map<Id, bool>, edges: seq<Edge>, blockersOf: map<Id, seq<Id>>) {
    && blockersOf.Keys == completeById.Keys
    && forall v, u | v in blockersOf ::
         u in blockersOf[v] <==> u in completeById && !completeById[u] && Edge(v, u) in edges
  }

  method CollectBlockers(completeById: map<Id, bool>, edges: seq<Edge>) returns (blockersOf: map<Id, seq<Id>>)
    ensures ListsBlockers(completeById, edges, blockersOf)
  {
    blockersOf := map n | n in completeById :: [];
    for i := 0 to |edges|
      invariant ListsBlockers(completeById, edges[..i], blockersOf)
    {
      var e := edges[i];
      ghost var was := blockersOf;
      assert edges[..i + 1] == edges[..i] + [e];
      if e.src in completeById && e.dst in completeById && !completeById[e.dst] {
        blockersOf := blockersOf[e.src := blockersOf[e.src] + [e.dst]];
      }
      forall v, u | v in blockersOf
        ensures u in blockersOf[v]
                <==> u in completeById && !completeById[u] && Edge(v, u) in edges[..i + 1]
      {
        assert u in was[v] <==> u in completeById && !completeById[u] && Edge(v, u) in edges[..i];
        assert Edge(v, u) in edges[..i + 1] <==> Edge(v, u) in edges[..i] || Edge(v, u) == e;
      }
    }
    assert edges[..|edges|] == edges;
  }

  /** `compute_max_blocker_depth`.  It terminates on every input; when the blocking
      edges are acyclic its result is the longest blocking walk and the cycle guard
      was never needed. */
  method ComputeMaxBlockerDepth(tickets: seq<TicketNode>, edges: seq<Edge>, exclude: set<Id>)
    returns (maxDepth: nat, ghost guardHit: bool)
    ensures Acyclic(Blocking(Rows(tickets), Elems(edges), exclude)) ==>
              IsMaxDepth(Blocking(Rows(tickets), Elems(edges), exclude), maxDepth)
    ensures Acyclic(Blocking(Rows(tickets), Elems(edges), exclude)) ==> !guardHit
  {
    ghost var B := Blocking(Rows(tickets), Elems(edges), exclude);
    var completeById := CollectCompletion(tickets, exclude);
    var blockersOf := CollectBlockers(completeById, edges);
    var search := new DepthSearch(completeById, blockersOf, B);
    var order := Sorted(completeById.Keys);
    assert forall v :: v in order <==> v in Elems(order);
    SetupHolds(Rows(tickets), edges, exclude, blockersOf);
    maxDepth := search.MaxDepthOver(order);
    guardHit := search.guardHit;
    if Acyclic(B) {
      AllStartsCovered(B, completeById.Keys, maxDepth);
    }
  }

  lemma SetupHolds(rows: map<Id, TicketNode>, edges: seq<Edge>, exclude: set<Id>, blockersOf: map<Id, seq<Id>>)
    requires ListsBlockers(Completion(rows, exclude), edges, blockersOf)
    ensures BlockersListed(Completion(rows, exclude), blockersOf, Blocking(rows, Elems(edges), exclude))
  {
  }

  lemma AllStartsCovered(B: set<Edge>, S: set<Id>, d: nat)
    requires DeepestFrom(B, S, d) && Within(B, S)
    ensures IsMaxDepth(B, d)
  {
    forall p | Walk(B, p)
      ensures |p| <= d + 1
    {
      if |p| >= 2 {
        WalkTail(B, p);
      }
    }
  }
}
