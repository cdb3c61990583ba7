/** The guard that keeps a spec's dependency graph acyclic (`would_create_cycle`). */
module CycleGuard {
  import opened Graph
  import opened Ordering
  import opened Cycles

  ghost predicate Lists(edges: seq<Edge>, adjacency: map<Id, seq<Id>>) {
    forall v, w :: Edge(v, w) in edges <==> v in adjacency && w in adjacency[v]
  }

  method BuildAdjacency(edges: seq<Edge>) returns (adjacency: map<Id, seq<Id>>)
    ensures Lists(edges, adjacency)
  {
    adjacency := map[];
    for i := 0 to |edges|
      invariant Lists(edges[..i], adjacency)
    {
      var e := edges[i];
      ghost var was := adjacency;
      assert edges[..i + 1] == edges[..i] + [e];
      adjacency := adjacency[e.src := (if e.src in adjacency then adjacency[e.src] else []) + [e.dst]];
      forall v, w
        ensures Edge(v, w) in edges[..i + 1] <==> v in adjacency && w in adjacency[v]
      {
        assert Edge(v, w) in edges[..i] <==> v in was && w in was[v];
        assert Edge(v, w) in edges[..i + 1] <==> Edge(v, w) in edges[..i] || Edge(v, w) == e;
      }
    }
    assert edges[..|edges|] == edges;
  }

  /** The breadth-first frontier: what was visited leads only to visited or queued nodes. */
  ghost predicate Frontier(E: set<Edge>, visited: set<Id>, queue: seq<Id>) {
    forall e | e in E && e.src in visited :: e.dst in visited || e.dst in queue
  }

  /** Queues the unvisited successors of `current`. */
  method Enqueue(visited: set<Id>, queue: seq<Id>, successors: seq<Id>) returns (next: seq<Id>)
    ensures forall v | v in queue :: v in next
    ensures forall v | v in successors :: v in visited || v in next
    ensures forall v | v in next :: v in queue || v in successors
  {
    next := queue;
    for i := 0 to |successors|
      invariant forall v | v in queue :: v in next
      invariant forall v | v in successors[..i] :: v in visited || v in next
      invariant forall v | v in next :: v in queue || v in successors
    {
      assert successors[..i + 1] == successors[..i] + [successors[i]];
      if successors[i] !in visited {
        next := next + [successors[i]];
      }
    }
    assert successors[..|successors|] == successors;
  }

  ghost function Ends(E: set<Edge>, from: Id): set<Id> {
    {from} + set e | e in E :: e.dst
  }

  ghost predicate Searching(E: set<Edge>, from: Id, goal: Id, visited: set<Id>, queue: seq<Id>) {
    && goal !in visited
    && (forall v | v in visited || v in queue :: Reach(E, from, v) && v in Ends(E, from))
    && (from in visited || from in queue)
    && Frontier(E, visited, queue)
  }

  lemma SkipKeepsSearching(E: set<Edge>, from: Id, goal: Id, visited: set<Id>, queue: seq<Id>)
    requires Searching(E, from, goal, visited, queue) && |queue| > 0 && queue[0] in visited
    ensures Searching(E, from, goal, visited, queue[1..])
  {
    assert queue == [queue[0]] + queue[1..];
  }

  lemma VisitKeepsSearching(E: set<Edge>, from: Id, goal: Id, visited: set<Id>, queue: seq<Id>,
                            successors: seq<Id>, next: seq<Id>)
    requires Searching(E, from, goal, visited, queue) && |queue| > 0 && queue[0] != goal && queue[0] !in visited
    requires forall w :: w in successors <==> Edge(queue[0], w) in E
    requires forall v | v in queue[1..] :: v in next
    requires forall v | v in successors :: v in visited + {queue[0]} || v in next
    requires forall v | v in next :: v in queue[1..] || v in successors
    ensures Searching(E, from, goal, visited + {queue[0]}, next)
    ensures |Ends(E, from) - (visited + {queue[0]})| < |Ends(E, from) - visited|
  {
    var current := queue[0];
    assert queue == [current] + queue[1..];
    assert current in queue;
    assert Ends(E, from) - (visited + {current}) == (Ends(E, from) - visited) - {current};
    forall v | v in successors
      ensures Reach(E, from, v) && v in Ends(E, from)
    {
      assert Edge(current, v).dst == v;
      ReachEdge(E, current, v);
      ReachTrans(E, from, current, v);
    }
    forall e | e in E && e.src in visited + {current}
      ensures e.dst in visited + {current} || e.dst in next
    {
      if e.src == current {
        assert e == Edge(current, e.dst);
      }
    }
  }

  lemma ExhaustedMeansUnreachable(E: set<Edge>, from: Id, goal: Id, visited: set<Id>)
    requires Searching(E, from, goal, visited, [])
    ensures !Reach(E, from, goal)
  {
    assert Closed(E, visited);
    if Reach(E, from, goal) {
      ClosedReach(E, visited, from, goal);
      assert false;
    }
  }

  /** `would_create_cycle`: a breadth-first search for `ticket` from `dependsOn`. */
  method WouldCreateCycle(edges: seq<Edge>, ticket: Id, dependsOn: Id) returns (cycle: bool)
    ensures cycle <==> Reach(Elems(edges), dependsOn, ticket)
  {
    ghost var E := Elems(edges);
    ReachSelf(E, dependsOn);
    if ticket == dependsOn {
      return true;
    }
    var adjacency := BuildAdjacency(edges);
    assert forall e :: e in edges <==> e in E;
    var visited: set<Id> := {};
    var queue := [dependsOn];
    while |queue| > 0
      invariant Searching(E, dependsOn, ticket, visited, queue)
      decreases |Ends(E, dependsOn) - visited|, |queue|
    {
      var current := queue[0];
      assert current in queue;
      if current == ticket {
        return true;
      }
      if current in visited {
        SkipKeepsSearching(E, dependsOn, ticket, visited, queue);
        queue := queue[1..];
        continue;
      }
      var successors := if current in adjacency then adjacency[current] else [];
      var next := Enqueue(visited + {current}, queue[1..], successors);
      VisitKeepsSearching(E, dependsOn, ticket, visited, queue, successors, next);
      visited, queue := visited + {current}, next;
    }
    ExhaustedMeansUnreachable(E, dependsOn, ticket, visited);
    return false;
  }

  /** A new edge adds only the walks that pass through it. */
  lemma {:induction false} WalkThroughNewEdge(E: set<Edge>, t: Id, d: Id, p: seq<Id>)
    requires Walk(E + {Edge(t, d)}, p)
    ensures Reach(E, p[0], p[|p| - 1]) || (Reach(E, p[0], t) && Reach(E, d, p[|p| - 1]))
    decreases |p|
  {
    if |p| == 1 {
      ReachSelf(E, p[0]);
    } else {
      WalkTail(E + {Edge(t, d)}, p);
      WalkThroughNewEdge(E, t, d, p[1..]);
      var u, w, v := p[0], p[1], p[|p| - 1];
      if Edge(u, w) in E {
        ReachEdge(E, u, w);
        if Reach(E, w, v) {
          ReachTrans(E, u, w, v);
        } else {
          ReachTrans(E, u, w, t);
        }
      } else {
        assert u == t && w == d;
        ReachSelf(E, t);
      }
    }
  }

  lemma NewCycleUsesNewEdge(E: set<Edge>, t: Id, d: Id, v: Id)
    requires Acyclic(E) && ReachPlus(E + {Edge(t, d)}, v, v)
    ensures Reach(E, d, t)
  {
    var w :| Edge(v, w) in E + {Edge(t, d)} && Reach(E + {Edge(t, d)}, w, v);
    var p :| WalkFromTo(E + {Edge(t, d)}, p, w, v);
    WalkThroughNewEdge(E, t, d, p);
    if Edge(v, w) in E {
      ReachEdge(E, v, w);
      assert !ReachPlus(E, v, v);
      assert !Reach(E, w, v);
      ReachTrans(E, d, v, w);
      ReachTrans(E, d, w, t);
    }
  }

  /** On an acyclic graph the guard answers exactly whether the new edge closes a cycle,
      which is whether the cycle list of the extended graph is non-empty. */
  lemma GuardIsExact(E: set<Edge>, t: Id, d: Id, cs: seq<seq<Id>>)
    requires Acyclic(E) && IsCycleList(E + {Edge(t, d)}, cs)
    ensures Reach(E, d, t) <==> !Acyclic(E + {Edge(t, d)})
    ensures Reach(E, d, t) <==> |cs| > 0
  {
    var F := E + {Edge(t, d)};
    NoCyclesIffAcyclic(F, cs);
    if Reach(E, d, t) {
      ReachMonotone(E, F, d, t);
      assert ReachPlus(F, t, t);
    } else {
      forall v
        ensures !ReachPlus(F, v, v)
      {
        if ReachPlus(F, v, v) {
          NewCycleUsesNewEdge(E, t, d, v);
          assert false;
        }
      }
    }
  }

  // ---------------------------------------------------------------------------
  // Runs of the guarded dependency verbs on one spec
  // ---------------------------------------------------------------------------

  datatype DependencyOp =
    | AddDependency(ticket: Id, dependsOn: Id)
    | RemoveDependency(ticket: Id, dependsOn: Id)
    | DeleteTicket(ticket: Id)

  /** The edges after one verb; a rejected addition changes nothing. */
  ghost function AfterOp(E: set<Edge>, op: DependencyOp): set<Edge> {
    match op
    case AddDependency(t, d) =>
      if t == d || Edge(t, d) in E || Reach(E, d, t) then E else E + {Edge(t, d)}
    case RemoveDependency(t, d) => E - {Edge(t, d)}
    case DeleteTicket(t) => set e | e in E && e.src != t && e.dst != t
  }

  ghost function AfterOps(E: set<Edge>, ops: seq<DependencyOp>): set<Edge> {
    if |ops| == 0 then E else AfterOp(AfterOps(E, ops[..|ops| - 1]), ops[|ops| - 1])
  }

  lemma OpKeepsAcyclic(E: set<Edge>, op: DependencyOp)
    requires Acyclic(E)
    ensures Acyclic(AfterOp(E, op))
  {
    if op.AddDependency? {
      var F := E + {Edge(op.ticket, op.dependsOn)};
      forall v
        ensures AfterOp(E, op) == F ==> !ReachPlus(F, v, v)
      {
        if AfterOp(E, op) == F && ReachPlus(F, v, v) {
          NewCycleUsesNewEdge(E, op.ticket, op.dependsOn, v);
        }
      }
    } else {
      AcyclicMonotone(AfterOp(E, op), E);
    }
  }

  /** Every run of the guarded verbs keeps the graph acyclic and its cycle list empty. */
  lemma {:induction false} RunsStayAcyclic(E: set<Edge>, ops: seq<DependencyOp>, cs: seq<seq<Id>>)
    requires Acyclic(E) && IsCycleList(AfterOps(E, ops), cs)
    ensures Acyclic(AfterOps(E, ops)) && cs == []
    decreases |ops|
  {
    RunKeepsAcyclic(E, ops);
    NoCyclesIffAcyclic(AfterOps(E, ops), cs);
  }

  lemma {:induction false} RunKeepsAcyclic(E: set<Edge>, ops: seq<DependencyOp>)
    requires Acyclic(E)
    ensures Acyclic(AfterOps(E, ops))
    decreases |ops|
  {
    if |ops| > 0 {
      RunKeepsAcyclic(E, ops[..|ops| - 1]);
      OpKeepsAcyclic(AfterOps(E, ops[..|ops| - 1]), ops[|ops| - 1]);
    }
  }
}
