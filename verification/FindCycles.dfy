/** The iterative strongly-connected-component search (`find_cycles`). */
module FindCycles {
  import opened Graph
  import opened Ordering
  import opened TarjanInvariant
  import opened TarjanSteps
  import opened TarjanEmit
  import opened Cycles

  /** A work-stack frame: a node and how many of its neighbours were examined. */
  datatype Frame = Frame(node: Id, idx: nat)

  ghost function Nodes(work: seq<Frame>): seq<Id> {
    seq(|work|, i requires 0 <= i < |work| => work[i].node)
  }

  ghost function Positions(work: seq<Frame>): seq<nat> {
    seq(|work|, i requires 0 <= i < |work| => work[i].idx)
  }

  lemma FramePushed(work: seq<Frame>, f: Frame)
    ensures Nodes(work + [f]) == Nodes(work) + [f.node]
    ensures Positions(work + [f]) == Positions(work) + [f.idx]
  {
  }

  lemma FrameAdvanced(work: seq<Frame>)
    requires |work| > 0
    ensures var top := work[|work| - 1];
            var next := work[..|work| - 1] + [Frame(top.node, top.idx + 1)];
            Nodes(next) == Nodes(work) && Positions(next) == Bump(Positions(work))
  {
  }

  lemma FramePopped(work: seq<Frame>)
    requires |work| > 0
    ensures Nodes(work[..|work| - 1]) == Nodes(work)[..|work| - 1]
    ensures Positions(work[..|work| - 1]) == Positions(work)[..|work| - 1]
  {
  }

  lemma TopFrame(work: seq<Frame>)
    requires |work| > 0
    ensures |Nodes(work)| == |work| && Nodes(work)[|work| - 1] == work[|work| - 1].node
    ensures |Positions(work)| == |work| && Positions(work)[|work| - 1] == work[|work| - 1].idx
  {
  }

  /** Neighbours still to be examined, plus the frames still to be dropped. */
  ghost function Remaining(adj: map<Id, seq<Id>>, work: seq<Frame>): nat {
    if |work| == 0 then 0
    else
      var f := work[|work| - 1];
      var left := |Neighbours(adj, f.node)| - f.idx;
      Remaining(adj, work[..|work| - 1]) + (if left > 0 then left else 0) + 1
  }

  /** One round of the search: another node is numbered, or less is left to examine. */
  ghost predicate Closer(adj: map<Id, seq<Id>>, was: Numbers, now: Numbers, work: seq<Frame>, next: seq<Frame>) {
    && was.Keys <= now.Keys
    && (|adj.Keys - now.Keys| < |adj.Keys - was.Keys|
        || (now == was && Remaining(adj, next) < Remaining(adj, work)))
  }

  class CycleSearch {
    const adj: map<Id, seq<Id>>
    ghost const edges: set<Edge>
    var index: Numbers
    var lowlink: Numbers
    var onStack: set<Id>
    var stack: seq<Id>
    var counter: nat
    var sccs: seq<seq<Id>>

    ghost function Snapshot(work: seq<Frame>): State
      reads this
    {
      State(index, lowlink, counter, stack, sccs, Nodes(work), Positions(work))
    }

    ghost predicate Valid(work: seq<Frame>)
      reads this
    {
      Inv(edges, adj, Snapshot(work)) && onStack == Elems(stack)
    }

    constructor (adj: map<Id, seq<Id>>, ghost edges: set<Edge>)
      requires Adjacency(edges, adj)
      ensures Valid([]) && this.adj == adj && this.edges == edges && index == map[]
    {
      this.adj := adj;
      this.edges := edges;
      index, lowlink, counter := map[], map[], 0;
      stack, onStack, sccs := [], {}, [];
    }

    /** The assignments of the discovery step. */
    method Push(work: seq<Frame>, w: Id) returns (next: seq<Frame>)
      requires onStack == Elems(stack)
      modifies this
      ensures Snapshot(next) == Discover(old(Snapshot(work)), w) && onStack == Elems(stack)
    {
      next := work;
      if |work| > 0 {
        var top := work[|work| - 1];
        FrameAdvanced(work);
        next := work[..|work| - 1] + [Frame(top.node, top.idx + 1)];
      }
      FramePushed(next, Frame(w, 0));
      next := next + [Frame(w, 0)];
      index := index[w := counter];
      lowlink := lowlink[w := counter];
      counter := counter + 1;
      stack := stack + [w];
      onStack := onStack + {w};
      assert Elems(stack) == Elems(old(stack)) + {w};
    }

    /** A new node gets the next index and goes on both stacks. */
    method Visit(work: seq<Frame>, w: Id) returns (next: seq<Frame>)
      requires Valid(work) && w in adj && w !in index
      requires |work| == 0 || TopSees(adj, Snapshot(work), w)
      modifies this
      ensures Valid(next)
      ensures index == old(index)[w := old(counter)]
    {
      DiscoverKeeps(edges, adj, Snapshot(work), w);
      next := Push(work, w);
      assert index == Snapshot(next).index;
    }

    /** The assignments of the step that looks at a numbered neighbour. */
    method Lower(work: seq<Frame>, w: Id) returns (next: seq<Frame>)
      requires |work| > 0 && onStack == Elems(stack)
      modifies this`lowlink
      ensures Snapshot(next) == Inspect(old(Snapshot(work)), w)
      ensures next == work[..|work| - 1] + [Frame(work[|work| - 1].node, work[|work| - 1].idx + 1)]
    {
      var frame := work[|work| - 1];
      FrameAdvanced(work);
      next := work[..|work| - 1] + [Frame(frame.node, frame.idx + 1)];
      assert w in onStack <==> w in stack;
      if w in onStack {
        lowlink := lowlink[frame.node := Min(At(lowlink, frame.node), At(index, w))];
      }
    }

    /** Examines the next neighbour of the top node, which already has an index. */
    method Examine(work: seq<Frame>, w: Id) returns (next: seq<Frame>)
      requires Valid(work) && TopSees(adj, Snapshot(work), w) && w in index
      modifies this`lowlink
      ensures Valid(next)
      ensures next == work[..|work| - 1] + [Frame(work[|work| - 1].node, work[|work| - 1].idx + 1)]
    {
      InspectKeeps(edges, adj, Snapshot(work), w);
      next := Lower(work, w);
    }

    /** Pops the stack down to and including `v`. */
    method PopComponent(v: Id, ghost p: nat) returns (component: seq<Id>)
      requires p < |stack| && stack[p] == v && Distinct(stack) && onStack == Elems(stack)
      modifies this`stack, this`onStack
      ensures stack == old(stack)[..p] && onStack == Elems(stack)
      ensures Distinct(component) && Elems(component) == Elems(old(stack)[p..])
    {
      component := [];
      var popped := false;
      while !popped
        invariant popped ==> |stack| == p
        invariant !popped ==> p < |stack|
        invariant p <= |stack| <= |old(stack)| && stack == old(stack)[..|stack|]
        invariant onStack == Elems(stack)
        invariant |component| == |old(stack)| - |stack|
        invariant forall i | 0 <= i < |component| :: component[i] == old(stack)[|old(stack)| - 1 - i]
        decreases |stack|, if popped then 0 else 1
      {
        var w := stack[|stack| - 1];
        assert stack == stack[..|stack| - 1] + [w];
        assert w !in stack[..|stack| - 1];
        stack := stack[..|stack| - 1];
        onStack := onStack - {w};
        component := component + [w];
        popped := w == v;
      }
      assert forall i | p <= i < |old(stack)| :: old(stack)[i] == component[|old(stack)| - 1 - i];
    }

    /** Drops the top frame and hands its low-link to the frame below. */
    method Unwind(work: seq<Frame>) returns (rest: seq<Frame>)
      requires |work| > 0
      modifies this`lowlink
      ensures Snapshot(rest) == Retreat(old(Snapshot(work))) && rest == work[..|work| - 1]
    {
      var frame := work[|work| - 1];
      rest := work[..|work| - 1];
      FramePopped(work);
      if |rest| > 0 {
        var parent := rest[|rest| - 1];
        lowlink := lowlink[parent.node := Min(At(lowlink, parent.node), At(lowlink, frame.node))];
      }
    }

    /** Moves the component above stack position `p` to the results. */
    method EmitComponent(work: seq<Frame>, v: Id, ghost p: nat)
      requires p < |stack| && stack[p] == v && Distinct(stack) && onStack == Elems(stack)
      modifies this`stack, this`onStack, this`sccs
      ensures onStack == Elems(stack) && |sccs| == |old(sccs)| + 1
      ensures Distinct(sccs[|old(sccs)|]) && Elems(sccs[|old(sccs)|]) == Elems(old(stack)[p..])
      ensures Snapshot(work) == old(Snapshot(work)).(stack := old(stack)[..p], sccs := old(sccs) + [sccs[|old(sccs)|]])
    {
      var component := PopComponent(v, p);
      sccs := sccs + [component];
    }

    /** The assignments of the step that leaves a root at stack position `p`. */
    method DropRoot(work: seq<Frame>, ghost p: nat) returns (rest: seq<Frame>, ghost c: seq<Id>)
      requires |work| > 0 && p < |stack| && stack[p] == work[|work| - 1].node
      requires Distinct(stack) && onStack == Elems(stack)
      modifies this`stack, this`onStack, this`sccs, this`lowlink
      ensures onStack == Elems(stack) && rest == work[..|work| - 1]
      ensures Distinct(c) && Elems(c) == Elems(old(stack)[p..])
      ensures Snapshot(rest) == Emit(old(Snapshot(work)), p, c)
    {
      EmitComponent(work, work[|work| - 1].node, p);
      c := sccs[|sccs| - 1];
      rest := Unwind(work);
    }

    /** Leaves a finished node that is the root of its component. */
    method LeaveRoot(work: seq<Frame>) returns (rest: seq<Frame>)
      requires Valid(work) && TopDone(adj, Snapshot(work))
      requires At(lowlink, work[|work| - 1].node) == At(index, work[|work| - 1].node)
      modifies this
      ensures Valid(rest) && index == old(index) && rest == work[..|work| - 1]
    {
      TopFrame(work);
      ghost var before := Snapshot(work);
      ghost var p := StackPosition(adj, before);
      ghost var c;
      rest, c := DropRoot(work, p);
      EmitKeeps(edges, adj, before, p, c);
    }

    /** Leaves a finished node that is not the root of its component. */
    method LeaveInner(work: seq<Frame>) returns (rest: seq<Frame>)
      requires Valid(work) && TopDone(adj, Snapshot(work))
      requires At(lowlink, work[|work| - 1].node) != At(index, work[|work| - 1].node)
      modifies this
      ensures Valid(rest) && index == old(index) && rest == work[..|work| - 1]
    {
      TopFrame(work);
      ghost var before := Snapshot(work);
      rest := Unwind(work);
      RetreatKeeps(edges, adj, before);
    }

    /** One round of the search loop: the next edge of the top node, or its end. */
    method Advance(work: seq<Frame>) returns (next: seq<Frame>)
      requires Valid(work) && |work| > 0
      modifies this
      ensures Valid(next) && Closer(adj, old(index), index, work, next)
    {
      var frame := work[|work| - 1];
      var neighbours := Neighbours(adj, frame.node);
      if frame.idx < |neighbours| {
        next := TakeEdge(work, neighbours[frame.idx]);
      } else {
        TopFrame(work);
        TopFinished(adj, Snapshot(work));
        RemainingPopped(adj, index, work);
        if At(lowlink, frame.node) == At(index, frame.node) {
          next := LeaveRoot(work);
        } else {
          next := LeaveInner(work);
        }
      }
    }

    method TakeEdge(work: seq<Frame>, w: Id) returns (next: seq<Frame>)
      requires Valid(work) && |work| > 0
      requires var f := work[|work| - 1];
               f.idx < |Neighbours(adj, f.node)| && w == Neighbours(adj, f.node)[f.idx]
      modifies this
      ensures Valid(next) && Closer(adj, old(index), index, work, next)
    {
      TopFrame(work);
      TopNeighbour(edges, adj, Snapshot(work), w);
      ghost var was, k := index, counter;
      if w !in index {
        next := Visit(work, w);
        UnseenShrinks(adj, was, w, k, work, next);
      } else {
        RemainingAdvanced(adj, index, work);
        next := Examine(work, w);
      }
    }

    /** Depth-first search from `v`, emitting each component when its root is left. */
    method StrongConnect(v: Id)
      requires Valid([]) && v in adj && v !in index
      modifies this
      ensures Valid([]) && v in index && old(index).Keys <= index.Keys
    {
      var work := Visit([], v);
      while |work| > 0
        invariant Valid(work)
        invariant v in index && old(index).Keys <= index.Keys
        decreases |adj.Keys - index.Keys|, Remaining(adj, work)
      {
        work := Advance(work);
      }
    }

    method SearchAll(order: seq<Id>)
      requires Valid([]) && forall v | v in order :: v in adj
      modifies this
      ensures Valid([]) && forall v | v in order :: v in index
    {
      for i := 0 to |order|
        invariant Valid([])
        invariant forall v | v in order[..i] :: v in index
      {
        assert order[..i + 1] == order[..i] + [order[i]];
        if order[i] !in index {
          StrongConnect(order[i]);
        }
      }
      assert order[..|order|] == order;
    }
  }

  lemma UnseenShrinks(adj: map<Id, seq<Id>>, index: Numbers, w: Id, k: nat, work: seq<Frame>, next: seq<Frame>)
    requires w in adj && w !in index
    ensures Closer(adj, index, index[w := k], work, next)
  {
    assert adj.Keys - index[w := k].Keys == (adj.Keys - index.Keys) - {w};
  }

  lemma RemainingPopped(adj: map<Id, seq<Id>>, index: Numbers, work: seq<Frame>)
    requires |work| > 0
    ensures Closer(adj, index, index, work, work[..|work| - 1])
  {
  }

  lemma RemainingAdvanced(adj: map<Id, seq<Id>>, index: Numbers, work: seq<Frame>)
    requires |work| > 0 && work[|work| - 1].idx < |Neighbours(adj, work[|work| - 1].node)|
    ensures var next := work[..|work| - 1] + [Frame(work[|work| - 1].node, work[|work| - 1].idx + 1)];
            Closer(adj, index, index, work, next)
  {
    var next := work[..|work| - 1] + [Frame(work[|work| - 1].node, work[|work| - 1].idx + 1)];
    assert next[..|next| - 1] == work[..|work| - 1];
  }

  /** The root's place on the stack. */
  lemma StackPosition(adj: map<Id, seq<Id>>, s: State) returns (p: nat)
    requires Layout(adj, s) && |s.path| > 0
    ensures p < |s.stack| && s.stack[p] == s.path[|s.path| - 1] && Distinct(s.stack)
  {
    var v := s.path[|s.path| - 1];
    assert v in s.path;
    p :| 0 <= p < |s.stack| && s.stack[p] == v;
    forall i, j | 0 <= i < j < |s.stack|
      ensures s.stack[i] != s.stack[j]
    {
      assert At(s.index, s.stack[i]) < At(s.index, s.stack[j]);
    }
  }

  lemma TopNeighbour(E: set<Edge>, adj: map<Id, seq<Id>>, s: State, w: Id)
    requires Inv(E, adj, s) && |s.path| > 0
    requires var v, k := s.path[|s.path| - 1], s.pos[|s.pos| - 1];
             k < |Neighbours(adj, v)| && w == Neighbours(adj, v)[k]
    ensures TopSees(adj, s, w) && w in adj
  {
    TopEdge(E, adj, s, w);
    assert Edge(s.path[|s.path| - 1], w) in E;
  }

  lemma TopFinished(adj: map<Id, seq<Id>>, s: State)
    requires Layout(adj, s) && |s.path| > 0
    requires s.pos[|s.pos| - 1] >= |Neighbours(adj, s.path[|s.path| - 1])|
    ensures TopDone(adj, s)
  {
  }

  // ---------------------------------------------------------------------------
  // The whole search
  // ---------------------------------------------------------------------------

  method CollectNodes(ids: seq<Id>, edges: seq<Edge>) returns (nodes: set<Id>)
    ensures nodes == Elems(ids) + (set e | e in edges :: e.src) + (set e | e in edges :: e.dst)
  {
    nodes := Elems(ids);
    for i := 0 to |edges|
      invariant nodes == Elems(ids) + (set e | e in edges[..i] :: e.src) + (set e | e in edges[..i] :: e.dst)
    {
      assert edges[..i + 1] == edges[..i] + [edges[i]];
      nodes := nodes + {edges[i].src, edges[i].dst};
    }
    assert edges[..|edges|] == edges;
  }

  /** Every list holds the targets of the node's edges so far, self-loops dropped. */
  ghost predicate Lists(edges: seq<Edge>, adj: map<Id, seq<Id>>) {
    forall v, w | v in adj :: w in adj[v] <==> w != v && Edge(v, w) in edges
  }

  method CollectTargets(nodes: set<Id>, edges: seq<Edge>) returns (adj: map<Id, seq<Id>>)
    requires forall e | e in edges :: e.src in nodes
    ensures adj.Keys == nodes && Lists(edges, adj)
  {
    adj := map n | n in nodes :: [];
    for i := 0 to |edges|
      invariant adj.Keys == nodes && Lists(edges[..i], adj)
    {
      var e := edges[i];
      assert edges[..i + 1] == edges[..i] + [e];
      ghost var was := adj;
      if e.src != e.dst {
        adj := adj[e.src := adj[e.src] + [e.dst]];
      }
      forall v, w | v in adj
        ensures w in adj[v] <==> w != v && Edge(v, w) in edges[..i + 1]
      {
        assert w in was[v] <==> w != v && Edge(v, w) in edges[..i];
        assert Edge(v, w) in edges[..i + 1] <==> Edge(v, w) in edges[..i] || Edge(v, w) == e;
      }
    }
    assert edges[..|edges|] == edges;
  }

  /** The deduplicated, sorted neighbour lists. */
  method BuildAdjacency(nodes: set<Id>, edges: seq<Edge>) returns (adj: map<Id, seq<Id>>)
    requires Within(Elems(edges), nodes)
    ensures adj.Keys == nodes && Adjacency(Elems(edges), adj)
    ensures forall v | v in adj :: StrictlySorted(adj[v])
  {
    assert forall e | e in edges :: e in Elems(edges);
    var lists := CollectTargets(nodes, edges);
    adj := map v | v in nodes :: Sorted(Elems(lists[v]));
    forall v, w | v in adj
      ensures w in adj[v] <==> w != v && Edge(v, w) in Elems(edges)
    {
      assert w in adj[v] <==> w in Elems(adj[v]);
      assert w in lists[v] <==> w in Elems(lists[v]);
    }
  }

  /** Keeps the components of two or more nodes, sorted, and the self-loops. */
  method SelectCycles(sccs: seq<seq<Id>>, selfLoops: set<Id>) returns (cycles: seq<seq<Id>>)
    requires forall c | c in sccs :: |c| > 0
    ensures cycles == Selected(sccs, selfLoops)
  {
    cycles := [];
    for i := 0 to |sccs|
      invariant cycles == Selected(sccs[..i], selfLoops)
    {
      var component := sccs[i];
      assert sccs[..i + 1] == sccs[..i] + [component];
      SelectedMore(sccs[..i], component, selfLoops);
      if |component| >= 2 {
        cycles := cycles + [Sorted(Elems(component))];
      } else if |component| == 1 && component[0] in selfLoops {
        cycles := cycles + [[component[0]]];
      }
    }
    assert sccs[..|sccs|] == sccs;
  }

  function Selected(sccs: seq<seq<Id>>, selfLoops: set<Id>): seq<seq<Id>> {
    if |sccs| == 0 then []
    else
      var rest, c := Selected(sccs[..|sccs| - 1], selfLoops), sccs[|sccs| - 1];
      if |c| >= 2 then rest + [Sorted(Elems(c))]
      else if |c| == 1 && c[0] in selfLoops then rest + [[c[0]]]
      else rest
  }

  ghost predicate Kept(c: seq<Id>, selfLoops: set<Id>) {
    |c| >= 2 || (|c| == 1 && c[0] in selfLoops)
  }

  lemma SelectedMore(init: seq<seq<Id>>, last: seq<Id>, selfLoops: set<Id>)
    ensures Selected(init + [last], selfLoops)
            == if Kept(last, selfLoops) then Selected(init, selfLoops) + [Sorted(Elems(last))]
               else Selected(init, selfLoops)
  {
    assert (init + [last])[..|init|] == init;
    if |last| == 1 {
      StrictlySortedUnique(Sorted(Elems(last)), last);
      assert last == [last[0]];
    }
  }

  /** The selection is exactly the kept components, each sorted. */
  lemma {:induction false} SelectedMembers(sccs: seq<seq<Id>>, selfLoops: set<Id>, d: seq<Id>)
    ensures d in Selected(sccs, selfLoops)
            <==> exists c :: c in sccs && Kept(c, selfLoops) && d == Sorted(Elems(c))
    decreases |sccs|
  {
    if |sccs| > 0 {
      var init, last := sccs[..|sccs| - 1], sccs[|sccs| - 1];
      SelectedMembers(init, selfLoops, d);
      assert forall c :: c in sccs <==> c in init || c == last;
      assert sccs == init + [last];
      SelectedMore(init, last, selfLoops);
    }
  }

  function InsertByFirst(c: seq<Id>, cs: seq<seq<Id>>): (r: seq<seq<Id>>)
    requires |c| > 0 && forall d | d in cs :: |d| > 0
    ensures forall d :: d in r <==> d == c || d in cs
  {
    if |cs| == 0 || c[0] < cs[0][0] then [c] + cs
    else
      assert forall d :: d in cs <==> d == cs[0] || d in cs[1..];
      [cs[0]] + InsertByFirst(c, cs[1..])
  }

  /** `cycles.sort(key=lambda c: c[0])`. */
  function SortByFirst(cs: seq<seq<Id>>): (r: seq<seq<Id>>)
    requires forall c | c in cs :: |c| > 0
    ensures forall d :: d in r <==> d in cs
  {
    if |cs| == 0 then []
    else
      assert forall d :: d in cs <==> d == cs[0] || d in cs[1..];
      InsertByFirst(cs[0], SortByFirst(cs[1..]))
  }

  lemma ConsKeepsOrder(c: seq<Id>, cs: seq<seq<Id>>)
    requires |c| > 0 && OrderedByFirst(cs) && forall d | d in cs :: c[0] < d[0]
    ensures OrderedByFirst([c] + cs)
  {
    var r := [c] + cs;
    forall i, j | 0 <= i < j < |r|
      ensures r[i][0] < r[j][0]
    {
      assert r[j] == cs[j - 1] && cs[j - 1] in cs;
    }
  }

  lemma OrderedTail(cs: seq<seq<Id>>)
    requires OrderedByFirst(cs) && |cs| > 0
    ensures OrderedByFirst(cs[1..]) && forall d | d in cs[1..] :: d in cs && cs[0][0] < d[0]
  {
    forall d | d in cs[1..]
      ensures d in cs && cs[0][0] < d[0]
    {
      var k :| 0 <= k < |cs[1..]| && cs[1..][k] == d;
      assert cs[k + 1] == d && cs[0][0] < cs[k + 1][0];
    }
    forall i, j | 0 <= i < j < |cs[1..]|
      ensures cs[1..][i][0] < cs[1..][j][0]
    {
      assert cs[i + 1][0] < cs[j + 1][0];
    }
  }

  lemma {:induction false} InsertKeepsOrder(c: seq<Id>, cs: seq<seq<Id>>)
    requires |c| > 0 && OrderedByFirst(cs) && forall d | d in cs :: d[0] != c[0]
    ensures OrderedByFirst(InsertByFirst(c, cs))
    decreases |cs|
  {
    if |cs| == 0 {
      ConsKeepsOrder(c, cs);
    } else {
      assert cs[0] in cs;
      OrderedTail(cs);
      if c[0] < cs[0][0] {
        assert forall d | d in cs :: d == cs[0] || d in cs[1..];
        ConsKeepsOrder(c, cs);
      } else {
        InsertKeepsOrder(c, cs[1..]);
        ConsKeepsOrder(cs[0], InsertByFirst(c, cs[1..]));
      }
    }
  }

  ghost predicate FirstsDistinct(cs: seq<seq<Id>>) {
    && (forall c | c in cs :: |c| > 0)
    && (forall i, j | 0 <= i < j < |cs| :: cs[i][0] != cs[j][0])
  }

  lemma {:induction false} SortByFirstOrders(cs: seq<seq<Id>>)
    requires FirstsDistinct(cs)
    ensures OrderedByFirst(SortByFirst(cs))
    decreases |cs|
  {
    if |cs| > 0 {
      SortByFirstOrders(cs[1..]);
      forall d | d in SortByFirst(cs[1..])
        ensures d[0] != cs[0][0]
      {
        var k :| 0 <= k < |cs[1..]| && cs[1..][k] == d;
        assert cs[0][0] != cs[k + 1][0];
      }
      InsertKeepsOrder(cs[0], SortByFirst(cs[1..]));
    }
  }

  ghost predicate PairwiseDisjoint(sccs: seq<seq<Id>>) {
    forall i, j, x | 0 <= i < j < |sccs| && x in sccs[i] :: x !in sccs[j]
  }

  lemma SortedMember(c: seq<Id>, x: Id)
    ensures x in Sorted(Elems(c)) <==> x in c
  {
    assert x in Elems(c) <==> x in Elems(Sorted(Elems(c)));
  }

  lemma SortedFirst(c: seq<Id>)
    requires |c| > 0
    ensures |Sorted(Elems(c))| > 0 && Sorted(Elems(c))[0] in c
  {
    assert c[0] in Elems(c);
    var s := Sorted(Elems(c));
    ElemsEmpty(s);
    assert s[0] in Elems(s);
  }

  /** A cycle selected earlier starts with a node of another component. */
  lemma FirstElsewhere(init: seq<seq<Id>>, last: seq<Id>, selfLoops: set<Id>, d: seq<Id>)
    requires PairwiseDisjoint(init + [last]) && (forall c | c in init :: |c| > 0) && d in Selected(init, selfLoops)
    ensures |d| > 0 && d[0] !in last
  {
    SelectedMembers(init, selfLoops, d);
    var c :| c in init && Kept(c, selfLoops) && d == Sorted(Elems(c));
    var k :| 0 <= k < |init| && init[k] == c;
    assert (init + [last])[k] == c && (init + [last])[|init|] == last;
    SortedFirst(c);
  }

  lemma FirstsGrow(init: seq<seq<Id>>, last: seq<Id>, selfLoops: set<Id>)
    requires PairwiseDisjoint(init + [last]) && (forall c | c in init :: |c| > 0) && |last| > 0
    requires FirstsDistinct(Selected(init, selfLoops))
    ensures FirstsDistinct(Selected(init, selfLoops) + [Sorted(Elems(last))])
  {
    SortedFirst(last);
    var first := Sorted(Elems(last))[0];
    forall d | d in Selected(init, selfLoops)
      ensures d[0] != first
    {
      FirstElsewhere(init, last, selfLoops, d);
    }
    FirstsAppend(Selected(init, selfLoops), Sorted(Elems(last)));
  }

  lemma FirstsAppend(cs: seq<seq<Id>>, d: seq<Id>)
    requires FirstsDistinct(cs) && |d| > 0 && forall c | c in cs :: c[0] != d[0]
    ensures FirstsDistinct(cs + [d])
  {
  }

  lemma {:induction false} SelectedFirsts(sccs: seq<seq<Id>>, selfLoops: set<Id>)
    requires PairwiseDisjoint(sccs) && forall c | c in sccs :: |c| > 0
    ensures FirstsDistinct(Selected(sccs, selfLoops))
    decreases |sccs|
  {
    if |sccs| > 0 {
      var init, last := sccs[..|sccs| - 1], sccs[|sccs| - 1];
      assert sccs == init + [last];
      SelectedFirsts(init, selfLoops);
      SelectedMore(init, last, selfLoops);
      if Kept(last, selfLoops) {
        FirstsGrow(init, last, selfLoops);
      }
    }
  }

  /** A component is kept exactly when its nodes lie on cycles. */
  lemma KeptIffCyclic(E: set<Edge>, c: seq<Id>, selfLoops: set<Id>, x: Id)
    requires IsComponent(E, c) && x in c
    requires forall v :: v in selfLoops <==> Edge(v, v) in E
    ensures Kept(c, selfLoops) <==> OnCycle(E, x)
  {
    assert Mutual(E, x, x) by { ReachSelf(E, x); }
    if |c| >= 2 {
      var y := if c[0] == x then c[1] else c[0];
      assert c[0] != c[1] && y in c;
      assert Mutual(E, x, y);
      MutualIsCyclic(E, x, y);
    } else {
      assert c == [x];
      assert Edge(x, x) in E ==> ReachPlus(E, x, x);
      if OnCycle(E, x) {
        var w :| Edge(x, w) in E && Reach(E, w, x);
        ReachEdge(E, x, w);
        assert Mutual(E, x, w);
        assert w in c;
      }
    }
  }

  /** A sorted component is a cycle of the list. */
  lemma SortedComponent(E: set<Edge>, c: seq<Id>)
    requires IsComponent(E, c)
    ensures IsCycle(E, Sorted(Elems(c)))
  {
    var s := Sorted(Elems(c));
    SortedFirst(c);
    assert forall x :: x in s <==> x in Elems(s);
    assert forall x :: x in c <==> x in Elems(c);
    forall x, y | x in s
      ensures y in s <==> Mutual(E, x, y)
    {
    }
  }

  lemma SelectionIsCycleList(E: set<Edge>, index: Numbers, sccs: seq<seq<Id>>, selfLoops: set<Id>)
    requires Finished(E, index, [], sccs) && Within(E, index.Keys)
    requires forall v :: v in selfLoops <==> Edge(v, v) in E
    ensures (forall c | c in Selected(sccs, selfLoops) :: |c| > 0)
            && IsCycleList(E, SortByFirst(Selected(sccs, selfLoops)))
  {
    var kept := Selected(sccs, selfLoops);
    SelectedFirsts(sccs, selfLoops);
    SortByFirstOrders(kept);
    forall d | d in kept
      ensures IsCycle(E, d)
    {
      SelectedMembers(sccs, selfLoops, d);
      var c :| c in sccs && Kept(c, selfLoops) && d == Sorted(Elems(c));
      SortedComponent(E, c);
    }
    forall x
      ensures InCycle(kept, x) <==> OnCycle(E, x)
    {
      CyclicIffSelected(E, index, sccs, selfLoops, x);
    }
    forall x
      ensures InCycle(SortByFirst(kept), x) <==> InCycle(kept, x)
    {
    }
  }

  lemma CyclicIffSelected(E: set<Edge>, index: Numbers, sccs: seq<seq<Id>>, selfLoops: set<Id>, x: Id)
    requires Finished(E, index, [], sccs) && Within(E, index.Keys)
    requires forall v :: v in selfLoops <==> Edge(v, v) in E
    ensures InCycle(Selected(sccs, selfLoops), x) <==> OnCycle(E, x)
  {
    var kept := Selected(sccs, selfLoops);
    if InCycle(kept, x) {
      var d :| d in kept && x in d;
      SelectedMembers(sccs, selfLoops, d);
      var c :| c in sccs && Kept(c, selfLoops) && d == Sorted(Elems(c));
      SortedMember(c, x);
      KeptIffCyclic(E, c, selfLoops, x);
    }
    if OnCycle(E, x) {
      assert Emitted(sccs, x);
      var c :| c in sccs && x in c;
      KeptIffCyclic(E, c, selfLoops, x);
      SelectedMembers(sccs, selfLoops, Sorted(Elems(c)));
      SortedMember(c, x);
    }
  }

  /** Runs the search from every node that is still unnumbered, in id order. */
  method FindComponents(adj: map<Id, seq<Id>>, ghost E: set<Edge>)
    returns (sccs: seq<seq<Id>>, ghost index: Numbers)
    requires Adjacency(E, adj)
    ensures Finished(E, index, [], sccs) && Within(E, index.Keys)
    ensures forall c | c in sccs :: |c| > 0
  {
    var search := new CycleSearch(adj, E);
    var order := Sorted(adj.Keys);
    assert forall v :: v in order <==> v in Elems(order);
    search.SearchAll(order);
    SearchComplete(E, adj, search.Snapshot([]));
    sccs, index := search.sccs, search.index;
  }

  /** `find_cycles`: for every ticket list and every edge list, in any order and with
      any duplicates, the cycle list of the edges. */
  method FindCycles(ids: seq<Id>, edges: seq<Edge>) returns (cycles: seq<seq<Id>>)
    ensures IsCycleList(Elems(edges), cycles)
  {
    ghost var E := Elems(edges);
    assert forall e :: e in edges <==> e in E;
    var nodes := CollectNodes(ids, edges);
    var adj := BuildAdjacency(nodes, edges);
    var sccs, index := FindComponents(adj, E);
    var selfLoops: set<Id> := set e | e in edges && e.src == e.dst :: e.src;
    forall v
      ensures v in selfLoops <==> Edge(v, v) in E
    {
      if Edge(v, v) in E {
        assert Edge(v, v).src == v;
      }
    }
    SelectionIsCycleList(E, index, sccs, selfLoops);
    var selected := SelectCycles(sccs, selfLoops);
    cycles := SortByFirst(selected);
  }

  lemma SearchComplete(E: set<Edge>, adj: map<Id, seq<Id>>, s: State)
    requires Inv(E, adj, s) && |s.path| == 0 && forall v | v in adj :: v in s.index
    ensures Finished(E, s.index, [], s.sccs) && Within(E, s.index.Keys)
    ensures forall c | c in s.sccs :: |c| > 0
  {
    assert s.stack == [];
  }
}
