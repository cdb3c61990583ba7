module TarjanSteps {
  import opened Graph
  import opened Ordering
  import opened TarjanInvariant

  // --- discovering a new node --------------------------------------------------

  lemma DiscoverNumbered(index: Numbers, counter: nat, stack: seq<Id>, w: Id)
    requires Numbered(index, counter, stack) && w !in index
    ensures Numbered(index[w := counter], counter + 1, stack + [w])
    ensures forall x | x in index :: At(index[w := counter], x) == At(index, x)
  {
    var s := stack + [w];
    var m := index[w := counter];
    forall i, j | 0 <= i < j < |s|
      ensures At(m, s[i]) < At(m, s[j])
    {
      assert s[i] in stack;
      if j < |stack| {
        assert s[j] in stack;
        assert At(index, stack[i]) < At(index, stack[j]);
      }
    }
  }

  lemma DiscoverPath(index: Numbers, counter: nat, stack: seq<Id>, path: seq<Id>, w: Id)
    requires Numbered(index, counter, stack) && w !in index
    requires PathOnStack(index, stack, path)
    ensures PathOnStack(index[w := counter], stack + [w], path + [w])
  {
    var p := path + [w];
    var m := index[w := counter];
    forall i, j | 0 <= i < j < |p|
      ensures At(m, p[i]) < At(m, p[j])
    {
      assert p[i] in path;
      if j < |path| {
        assert p[j] in path;
        assert At(index, path[i]) < At(index, path[j]);
      }
    }
  }

  lemma DiscoverLow(index: Numbers, low: Numbers, stack: seq<Id>, path: seq<Id>, w: Id, c: nat)
    requires LowBelowIndex(index, low, path) && w !in path
    ensures LowBelowIndex(index[w := c], low[w := c], path + [w])
  {
    forall v | v in path + [w]
      ensures At(low[w := c], v) <= At(index[w := c], v)
    {
      if v != w {
        assert v in path;
      }
    }
  }

  lemma DiscoverPositions(adj: map<Id, seq<Id>>, path: seq<Id>, pos: seq<nat>, w: Id)
    requires PositionsFit(adj, path, pos)
    requires |path| > 0 ==> pos[|path| - 1] < |Neighbours(adj, path[|path| - 1])|
    ensures PositionsFit(adj, path + [w], Bump(pos) + [0])
  {
    var p, q := path + [w], Bump(pos) + [0];
    forall i | 0 <= i < |p|
      ensures q[i] <= |Neighbours(adj, p[i])|
    {
      if i < |path| {
        assert p[i] == path[i];
      }
    }
  }

  /** What a frame of the grown path has examined it had examined before, but for the new node. */
  lemma ExaminedBefore(adj: map<Id, seq<Id>>, path: seq<Id>, pos: seq<nat>, w: Id, i: nat, k: nat)
    requires PositionsFit(adj, path, pos)
    requires |path| > 0 ==> pos[|path| - 1] < |Neighbours(adj, path[|path| - 1])|
                            && Neighbours(adj, path[|path| - 1])[pos[|path| - 1]] == w
    requires i <= |path| && k < (Bump(pos) + [0])[i]
    ensures i < |path| && (path + [w])[i] == path[i] && k < |Neighbours(adj, path[i])|
    ensures k < pos[i] || Neighbours(adj, path[i])[k] == w
  {
  }

  lemma DiscoverExplored(adj: map<Id, seq<Id>>, index: Numbers, path: seq<Id>, pos: seq<nat>, w: Id, c: nat)
    requires PositionsFit(adj, path, pos) && PathExplored(adj, index, path, pos)
    requires |path| > 0 ==> pos[|path| - 1] < |Neighbours(adj, path[|path| - 1])|
                            && Neighbours(adj, path[|path| - 1])[pos[|path| - 1]] == w
    requires PositionsFit(adj, path + [w], Bump(pos) + [0])
    ensures PathExplored(adj, index[w := c], path + [w], Bump(pos) + [0])
  {
    var p, q := path + [w], Bump(pos) + [0];
    forall i, k | 0 <= i < |p| && 0 <= k < q[i]
      ensures Neighbours(adj, p[i])[k] in index[w := c]
    {
      ExaminedBefore(adj, path, pos, w, i, k);
    }
  }

  lemma DiscoverReaches(E: set<Edge>, index: Numbers, counter: nat, stack: seq<Id>, path: seq<Id>, w: Id)
    requires Numbered(index, counter, stack) && w !in index
    requires PathOnStack(index, stack, path) && PathReaches(E, index, stack, path)
    requires |path| > 0 ==> Edge(path[|path| - 1], w) in E
    ensures PathReaches(E, index[w := counter], stack + [w], path + [w])
  {
    var m := index[w := counter];
    ReachSelf(E, w);
    forall v, x | v in path + [w] && x in stack + [w] && At(m, v) <= At(m, x)
      ensures Reach(E, v, x)
    {
      if v != w && x == w {
        var i :| 0 <= i < |path| && path[i] == v;
        var top := path[|path| - 1];
        assert top in path;
        assert i == |path| - 1 || At(index, path[i]) < At(index, top);
        assert Reach(E, v, top);
        ReachEdge(E, top, w);
        ReachTrans(E, v, top, w);
      }
    }
  }

  /** Reaching a low stack node survives numbering and pushing a new node. */
  lemma DiscoverKeepsBelow(E: set<Edge>, index: Numbers, counter: nat, stack: seq<Id>, x: Id, w: Id, bound: nat)
    requires Numbered(index, counter, stack) && w !in index
    requires ReachesBelow(E, index, stack, x, bound)
    ensures ReachesBelow(E, index[w := counter], stack + [w], x, bound)
  {
    var z :| z in stack && At(index, z) < bound && Reach(E, x, z);
    assert z in stack + [w] && At(index[w := counter], z) < bound;
  }

  lemma DiscoverTargets(E: set<Edge>, index: Numbers, low: Numbers, counter: nat, stack: seq<Id>, path: seq<Id>, w: Id)
    requires Numbered(index, counter, stack) && w !in index && low.Keys == index.Keys
    requires PathOnStack(index, stack, path)
    requires LeftReachLower(E, index, stack, path) && LowAttained(E, index, low, stack, path)
    ensures LeftReachLower(E, index[w := counter], stack + [w], path + [w])
    ensures LowAttained(E, index[w := counter], low[w := counter], stack + [w], path + [w])
  {
    var m := index[w := counter];
    forall x | x in stack + [w] && x !in path + [w]
      ensures ReachesBelow(E, m, stack + [w], x, At(m, x))
    {
      assert x in stack && x !in path;
      DiscoverKeepsBelow(E, index, counter, stack, x, w, At(index, x));
    }
    forall v | v in path + [w]
      ensures ReachesBelow(E, m, stack + [w], v, At(low[w := counter], v) + 1)
    {
      if v == w {
        ReachSelf(E, w);
        assert w in stack + [w] && At(m, w) < counter + 1 && Reach(E, w, w);
      } else {
        assert v in path;
        DiscoverKeepsBelow(E, index, counter, stack, v, w, At(low, v) + 1);
      }
    }
  }

  /** A frame of the grown path answers for the nodes it answered for before. */
  lemma OwnedBefore(index: Numbers, counter: nat, stack: seq<Id>, path: seq<Id>, w: Id, i: nat, x: Id)
    requires Numbered(index, counter, stack) && w !in index && PathOnStack(index, stack, path)
    requires x in stack && i <= |path| && Owns(index[w := counter], path + [w], i, x)
    ensures i < |path| && (path + [w])[i] == path[i] && Owns(index, path, i, x)
  {
    var m, p := index[w := counter], path + [w];
    assert At(m, x) == At(index, x) < counter && At(m, w) == counter;
    assert i < |path| ==> p[i] == path[i] && path[i] in path;
    assert i + 1 < |path| ==> p[i + 1] == path[i + 1] && path[i + 1] in path;
  }

  lemma DiscoverBoundsLeft(E: set<Edge>, index: Numbers, low: Numbers, counter: nat, stack: seq<Id>, path: seq<Id>, w: Id)
    requires Numbered(index, counter, stack) && w !in index && low.Keys == index.Keys
    requires PathOnStack(index, stack, path) && LeftExplored(E, index, path)
    requires LowBoundsLeft(E, index, low, stack, path)
    ensures LowBoundsLeft(E, index[w := counter], low[w := counter], stack + [w], path + [w])
  {
    var m, p := index[w := counter], path + [w];
    forall i, x, y | 0 <= i < |p| && x in stack + [w] && x !in p && Owns(m, p, i, x)
                     && Edge(x, y) in E && y in stack + [w]
      ensures At(low[w := counter], p[i]) <= At(m, y)
    {
      assert x in stack && x !in path;
      DiscoverBoundLeft(E, index, low, counter, stack, path, w, i, x, y);
    }
  }

  lemma DiscoverBoundLeft(E: set<Edge>, index: Numbers, low: Numbers, counter: nat, stack: seq<Id>, path: seq<Id>, w: Id,
                          i: nat, x: Id, y: Id)
    requires Numbered(index, counter, stack) && w !in index && low.Keys == index.Keys
    requires PathOnStack(index, stack, path) && LeftExplored(E, index, path)
    requires LowBoundsLeft(E, index, low, stack, path)
    requires i <= |path| && x in stack && x !in path && Owns(index[w := counter], path + [w], i, x)
    requires Edge(x, y) in E && y in stack + [w]
    ensures At(low[w := counter], (path + [w])[i]) <= At(index[w := counter], y)
  {
    assert y in index && y in stack;
    OwnedBefore(index, counter, stack, path, w, i, x);
    assert path[i] in path;
  }

  lemma DiscoverBoundsPath(adj: map<Id, seq<Id>>, index: Numbers, low: Numbers, counter: nat, stack: seq<Id>,
                           path: seq<Id>, pos: seq<nat>, w: Id)
    requires Numbered(index, counter, stack) && w !in index
    requires PathOnStack(index, stack, path) && LowBelowIndex(index, low, path)
    requires PositionsFit(adj, path, pos) && PathExplored(adj, index, path, pos)
    requires |path| > 0 ==> pos[|path| - 1] < |Neighbours(adj, path[|path| - 1])|
                            && Neighbours(adj, path[|path| - 1])[pos[|path| - 1]] == w
    requires PositionsFit(adj, path + [w], Bump(pos) + [0])
    requires LowBoundsPath(adj, index, low, stack, path, pos)
    ensures LowBoundsPath(adj, index[w := counter], low[w := counter], stack + [w], path + [w], Bump(pos) + [0])
  {
    var m, p, q := index[w := counter], path + [w], Bump(pos) + [0];
    forall i, k | 0 <= i < |p| && 0 <= k < q[i] && Neighbours(adj, p[i])[k] in stack + [w]
      ensures At(low[w := counter], p[i]) <= At(m, Neighbours(adj, p[i])[k])
    {
      ExaminedBefore(adj, path, pos, w, i, k);
      assert path[i] in path && path[i] in index;
      if k < pos[i] {
        assert Neighbours(adj, path[i])[k] in index;
      } else {
        assert At(low, path[i]) <= At(index, path[i]) < counter;
      }
    }
  }

  /** The next unexamined neighbour of the top frame's node is `w`. */
  ghost predicate TopSees(adj: map<Id, seq<Id>>, s: State, w: Id) {
    && |s.path| > 0 && |s.pos| == |s.path|
    && var v := s.path[|s.path| - 1];
       s.pos[|s.pos| - 1] < |Neighbours(adj, v)| && Neighbours(adj, v)[s.pos[|s.pos| - 1]] == w
  }

  lemma TopEdge(E: set<Edge>, adj: map<Id, seq<Id>>, s: State, w: Id)
    requires Adjacency(E, adj) && Layout(adj, s) && TopSees(adj, s, w)
    ensures Edge(s.path[|s.path| - 1], w) in E && s.path[|s.path| - 1] != w
  {
    var top := s.path[|s.path| - 1];
    assert top in s.path && top in adj;
    assert w in adj[top];
  }

  lemma DiscoverLayout(adj: map<Id, seq<Id>>, s: State, w: Id)
    requires Layout(adj, s) && w in adj && w !in s.index
    requires |s.path| == 0 || TopSees(adj, s, w)
    ensures Layout(adj, Discover(s, w))
  {
    DiscoverNumbered(s.index, s.counter, s.stack, w);
    DiscoverPath(s.index, s.counter, s.stack, s.path, w);
    DiscoverLow(s.index, s.low, s.stack, s.path, w, s.counter);
    DiscoverPositions(adj, s.path, s.pos, w);
  }

  lemma DiscoverProgress(E: set<Edge>, adj: map<Id, seq<Id>>, s: State, w: Id)
    requires PositionsFit(adj, s.path, s.pos) && PositionsFit(adj, s.path + [w], Bump(s.pos) + [0])
    requires Progress(E, adj, s) && w !in s.index && (|s.path| == 0 || TopSees(adj, s, w))
    ensures Progress(E, adj, Discover(s, w))
  {
    DiscoverExplored(adj, s.index, s.path, s.pos, w, s.counter);
    DiscoverFinished(E, s.index, s.counter, s.stack, s.sccs, s.path, w);
  }

  lemma DiscoverLinks(E: set<Edge>, s: State, w: Id)
    requires Numbered(s.index, s.counter, s.stack) && PathOnStack(s.index, s.stack, s.path)
    requires Links(E, s) && w !in s.index && s.low.Keys == s.index.Keys
    requires |s.path| == 0 || Edge(s.path[|s.path| - 1], w) in E
    ensures Links(E, Discover(s, w))
  {
    DiscoverReaches(E, s.index, s.counter, s.stack, s.path, w);
    DiscoverTargets(E, s.index, s.low, s.counter, s.stack, s.path, w);
  }

  lemma DiscoverBounds(E: set<Edge>, adj: map<Id, seq<Id>>, s: State, w: Id)
    requires Layout(adj, s) && PositionsFit(adj, s.path + [w], Bump(s.pos) + [0])
    requires LeftExplored(E, s.index, s.path) && PathExplored(adj, s.index, s.path, s.pos)
    requires Bounds(E, adj, s) && w !in s.index && (|s.path| == 0 || TopSees(adj, s, w))
    ensures Bounds(E, adj, Discover(s, w))
  {
    DiscoverBoundsLeft(E, s.index, s.low, s.counter, s.stack, s.path, w);
    DiscoverBoundsPath(adj, s.index, s.low, s.counter, s.stack, s.path, s.pos, w);
  }

  lemma DiscoverKeeps(E: set<Edge>, adj: map<Id, seq<Id>>, s: State, w: Id)
    requires Inv(E, adj, s) && w in adj && w !in s.index
    requires |s.path| == 0 || TopSees(adj, s, w)
    ensures Inv(E, adj, Discover(s, w))
  {
    DiscoverLayout(adj, s, w);
    DiscoverProgress(E, adj, s, w);
    if |s.path| > 0 {
      TopEdge(E, adj, s, w);
    }
    DiscoverLinks(E, s, w);
    DiscoverBounds(E, adj, s, w);
  }

  lemma DiscoverFinished(E: set<Edge>, index: Numbers, counter: nat, stack: seq<Id>, sccs: seq<seq<Id>>, path: seq<Id>, w: Id)
    requires w !in index && Finished(E, index, stack, sccs)
    requires OffStackClosed(E, index, stack) && LeftExplored(E, index, path)
    ensures Finished(E, index[w := counter], stack + [w], sccs)
    ensures OffStackClosed(E, index[w := counter], stack + [w])
    ensures LeftExplored(E, index[w := counter], path + [w])
  {
  }

  // --- inspecting a numbered neighbour -------------------------------------------

  lemma InspectPositions(adj: map<Id, seq<Id>>, index: Numbers, path: seq<Id>, pos: seq<nat>)
    requires PositionsFit(adj, path, pos) && |path| > 0
    requires pos[|path| - 1] < |Neighbours(adj, path[|path| - 1])|
    requires Neighbours(adj, path[|path| - 1])[pos[|path| - 1]] in index
    requires PathExplored(adj, index, path, pos)
    ensures PositionsFit(adj, path, Bump(pos)) && PathExplored(adj, index, path, Bump(pos))
  {
    var q := Bump(pos);
    forall i, k | 0 <= i < |path| && 0 <= k < q[i]
      ensures Neighbours(adj, path[i])[k] in index
    {
      if !(i == |path| - 1 && k == pos[i]) {
        assert 0 <= k < pos[i];
      }
    }
  }

  lemma InspectBoundsPath(adj: map<Id, seq<Id>>, index: Numbers, low: Numbers, low': Numbers, stack: seq<Id>,
                          path: seq<Id>, pos: seq<nat>)
    requires PositionsFit(adj, path, pos) && PositionsFit(adj, path, Bump(pos)) && |path| > 0
    requires LowBoundsPath(adj, index, low, stack, path, pos)
    requires forall v | v in path :: At(low', v) <= At(low, v)
    requires var v := path[|path| - 1];
             var w := Neighbours(adj, v)[pos[|path| - 1]];
             w in stack ==> At(low', v) <= At(index, w)
    ensures LowBoundsPath(adj, index, low', stack, path, Bump(pos))
  {
    var q := Bump(pos);
    forall i, k | 0 <= i < |path| && 0 <= k < q[i] && Neighbours(adj, path[i])[k] in stack
      ensures At(low', path[i]) <= At(index, Neighbours(adj, path[i])[k])
    {
      assert path[i] in path;
      if !(i == |path| - 1 && k == pos[i]) {
        assert 0 <= k < pos[i];
      }
    }
  }

  lemma InspectLow(index: Numbers, low: Numbers, path: seq<Id>, v: Id, c: nat)
    requires LowBelowIndex(index, low, path) && v in low
    ensures LowBelowIndex(index, low[v := Min(At(low, v), c)], path)
    ensures forall x | x in path :: At(low[v := Min(At(low, v), c)], x) <= At(low, x)
  {
    assert low[v := Min(At(low, v), c)].Keys == low.Keys;
  }

  lemma InspectLayout(adj: map<Id, seq<Id>>, s: State, w: Id)
    requires Layout(adj, s) && PathExplored(adj, s.index, s.path, s.pos)
    requires TopSees(adj, s, w) && w in s.index
    ensures Layout(adj, Inspect(s, w))
    ensures PathExplored(adj, s.index, s.path, Bump(s.pos))
    ensures forall v | v in s.path :: At(Inspect(s, w).low, v) <= At(s.low, v)
  {
    InspectPositions(adj, s.index, s.path, s.pos);
    assert s.path[|s.path| - 1] in s.path;
    InspectLow(s.index, s.low, s.path, s.path[|s.path| - 1], At(s.index, w));
  }

  lemma InspectBounds(E: set<Edge>, adj: map<Id, seq<Id>>, s: State, w: Id)
    requires Layout(adj, s) && Bounds(E, adj, s)
    requires TopSees(adj, s, w) && PositionsFit(adj, s.path, Bump(s.pos))
    requires forall v | v in s.path :: At(Inspect(s, w).low, v) <= At(s.low, v)
    ensures Bounds(E, adj, Inspect(s, w))
  {
    InspectBoundsPath(adj, s.index, s.low, Inspect(s, w).low, s.stack, s.path, s.pos);
    LowerBoundsLeft(E, s.index, s.low, Inspect(s, w).low, s.stack, s.path);
  }

  lemma InspectLinks(E: set<Edge>, s: State, w: Id)
    requires |s.path| > 0 && Links(E, s) && Reach(E, s.path[|s.path| - 1], w)
    ensures Links(E, Inspect(s, w))
  {
    InspectAttained(E, s.index, s.low, s.stack, s.path, s.path[|s.path| - 1], w);
  }

  lemma InspectKeeps(E: set<Edge>, adj: map<Id, seq<Id>>, s: State, w: Id)
    requires Inv(E, adj, s) && TopSees(adj, s, w) && w in s.index
    ensures Inv(E, adj, Inspect(s, w))
  {
    InspectLayout(adj, s, w);
    TopEdge(E, adj, s, w);
    ReachEdge(E, s.path[|s.path| - 1], w);
    InspectLinks(E, s, w);
    InspectBounds(E, adj, s, w);
  }

  lemma InspectAttained(E: set<Edge>, index: Numbers, low: Numbers, stack: seq<Id>, path: seq<Id>, v: Id, w: Id)
    requires LowAttained(E, index, low, stack, path) && v in path && Reach(E, v, w)
    ensures w in stack ==> LowAttained(E, index, low[v := Min(At(low, v), At(index, w))], stack, path)
  {
    if w in stack {
      var low' := low[v := Min(At(low, v), At(index, w))];
      forall u | u in path
        ensures ReachesBelow(E, index, stack, u, At(low', u) + 1)
      {
        assert ReachesBelow(E, index, stack, u, At(low, u) + 1);
      }
    }
  }

  lemma LowerBoundsLeft(E: set<Edge>, index: Numbers, low: Numbers, low': Numbers, stack: seq<Id>, path: seq<Id>)
    requires LowBoundsLeft(E, index, low, stack, path)
    requires forall v | v in path :: At(low', v) <= At(low, v)
    ensures LowBoundsLeft(E, index, low', stack, path)
  {
    forall i, x, y | 0 <= i < |path| && x in stack && x !in path && Owns(index, path, i, x)
                     && Edge(x, y) in E && y in stack
      ensures At(low', path[i]) <= At(index, y)
    {
      assert path[i] in path;
    }
  }

  // --- leaving a node that is not the root of its component ------------------------

  /** The top frame has examined every neighbour of its node. */
  ghost predicate TopDone(adj: map<Id, seq<Id>>, s: State) {
    && |s.path| > 0 && |s.pos| == |s.path|
    && s.pos[|s.pos| - 1] == |Neighbours(adj, s.path[|s.path| - 1])|
  }

  lemma InitOfAscending(index: Numbers, xs: seq<Id>)
    requires Ascending(index, xs) && |xs| > 0
    ensures Ascending(index, xs[..|xs| - 1])
    ensures xs[|xs| - 1] !in xs[..|xs| - 1]
    ensures forall x | x in xs :: x in xs[..|xs| - 1] || x == xs[|xs| - 1]
    ensures forall x | x in xs[..|xs| - 1] :: At(index, x) < At(index, xs[|xs| - 1])
  {
    var init := xs[..|xs| - 1];
    forall i, j | 0 <= i < j < |init|
      ensures At(index, init[i]) < At(index, init[j])
    {
      assert At(index, xs[i]) < At(index, xs[j]);
    }
    forall x | x in init
      ensures At(index, x) < At(index, xs[|xs| - 1])
    {
      var i :| 0 <= i < |init| && init[i] == x;
      assert At(index, xs[i]) < At(index, xs[|xs| - 1]);
    }
  }

  /** All edges of a finished top node lead to numbered nodes, and its low-link
      bounds those that are on the stack. */
  lemma TopEdges(E: set<Edge>, adj: map<Id, seq<Id>>, s: State, y: Id)
    requires Adjacency(E, adj) && Layout(adj, s) && TopDone(adj, s)
    requires PathExplored(adj, s.index, s.path, s.pos)
    requires LowBoundsPath(adj, s.index, s.low, s.stack, s.path, s.pos)
    requires Edge(s.path[|s.path| - 1], y) in E
    ensures y in s.index
    ensures y in s.stack ==> At(s.low, s.path[|s.path| - 1]) <= At(s.index, y)
  {
    var n := |s.path| - 1;
    var v := s.path[n];
    assert v in s.path && v in adj;
    if y != v {
      assert y in adj[v];
      var k :| 0 <= k < |adj[v]| && adj[v][k] == y;
      assert Neighbours(adj, s.path[n])[k] == y && 0 <= k < s.pos[n];
    }
  }

  lemma RetreatLeft(E: set<Edge>, index: Numbers, path: seq<Id>)
    requires Ascending(index, path) && |path| > 0 && LeftExplored(E, index, path)
    requires forall y | Edge(path[|path| - 1], y) in E :: y in index
    ensures LeftExplored(E, index, path[..|path| - 1])
  {
    InitOfAscending(index, path);
  }

  /** A node that is not the root of its component has a frame below it. */
  lemma NotRootHasParent(E: set<Edge>, adj: map<Id, seq<Id>>, s: State)
    requires Layout(adj, s) && Links(E, s) && |s.path| > 0
    requires At(s.low, s.path[|s.path| - 1]) < At(s.index, s.path[|s.path| - 1])
    ensures |s.path| > 1
  {
    var v := s.path[|s.path| - 1];
    assert v in s.path;
    assert ReachesBelow(E, s.index, s.stack, v, At(s.low, v) + 1);
    var z :| z in s.stack && At(s.index, z) < At(s.low, v) + 1;
    var k :| 0 <= k < |s.stack| && s.stack[k] == z;
    assert k == 0 || At(s.index, s.stack[0]) < At(s.index, s.stack[k]);
  }

  lemma RetreatAttained(E: set<Edge>, index: Numbers, low: Numbers, stack: seq<Id>, path: seq<Id>)
    requires |path| > 1 && PathOnStack(index, stack, path)
    requires LowAttained(E, index, low, stack, path) && PathReaches(E, index, stack, path)
    ensures LowAttained(E, index, PassDown(low, path), stack, path[..|path| - 1])
  {
    var n := |path| - 1;
    var v, u := path[n], path[n - 1];
    assert v in path && u in path && v in stack;
    assert At(index, u) < At(index, v);
    forall x | x in path[..n]
      ensures ReachesBelow(E, index, stack, x, At(PassDown(low, path), x) + 1)
    {
      assert ReachesBelow(E, index, stack, x, At(low, x) + 1);
      if x == u && At(low, v) < At(low, u) {
        assert ReachesBelow(E, index, stack, v, At(low, v) + 1);
        var z :| z in stack && At(index, z) < At(low, v) + 1 && Reach(E, v, z);
        ReachTrans(E, u, v, z);
        assert z in stack && At(index, z) < At(PassDown(low, path), u) + 1 && Reach(E, u, z);
      }
    }
  }

  lemma RetreatBoundsLeft(E: set<Edge>, index: Numbers, low: Numbers, stack: seq<Id>, path: seq<Id>)
    requires |path| > 1 && Ascending(index, path)
    requires LowBoundsLeft(E, index, low, stack, path)
    requires forall y | Edge(path[|path| - 1], y) in E && y in stack :: At(low, path[|path| - 1]) <= At(index, y)
    ensures LowBoundsLeft(E, index, PassDown(low, path), stack, path[..|path| - 1])
  {
    var n := |path| - 1;
    var p, low' := path[..n], PassDown(low, path);
    assert At(low', path[n - 1]) <= At(low, path[n - 1]) && At(low', path[n - 1]) <= At(low, path[n]);
    InitOfAscending(index, path);
    forall i, x, y | 0 <= i < |p| && x in stack && x !in p && Owns(index, p, i, x)
                     && Edge(x, y) in E && y in stack
      ensures At(low', p[i]) <= At(index, y)
    {
      assert At(index, path[n - 1]) < At(index, path[n]);
      if i < n - 1 {
        assert Owns(index, path, i, x);
        assert At(index, path[i + 1]) <= At(index, path[n]);
        assert x != path[n];
        assert x !in path;
        assert p[i] != path[n - 1];
      } else if x == path[n] {
      } else if At(index, x) < At(index, path[n]) {
        assert Owns(index, path, i, x);
      } else {
        assert Owns(index, path, n, x);
      }
    }
  }

  lemma RetreatBoundsPath(adj: map<Id, seq<Id>>, index: Numbers, low: Numbers, low': Numbers, stack: seq<Id>,
                          path: seq<Id>, pos: seq<nat>)
    requires PositionsFit(adj, path, pos) && |path| > 0
    requires LowBoundsPath(adj, index, low, stack, path, pos)
    requires forall v | v in path[..|path| - 1] :: At(low', v) <= At(low, v)
    ensures PositionsFit(adj, path[..|path| - 1], pos[..|path| - 1])
    ensures LowBoundsPath(adj, index, low', stack, path[..|path| - 1], pos[..|path| - 1])
  {
    var p, q := path[..|path| - 1], pos[..|path| - 1];
    forall i, k | 0 <= i < |p| && 0 <= k < q[i] && Neighbours(adj, p[i])[k] in stack
      ensures At(low', p[i]) <= At(index, Neighbours(adj, p[i])[k])
    {
      assert p[i] in p && p[i] == path[i];
    }
  }

  lemma RetreatPath(index: Numbers, stack: seq<Id>, path: seq<Id>)
    requires PathOnStack(index, stack, path) && |path| > 1
    ensures PathOnStack(index, stack, path[..|path| - 1])
  {
    InitOfAscending(index, path);
    assert forall v | v in path[..|path| - 1] :: v in path;
  }

  lemma RetreatLow(index: Numbers, low: Numbers, path: seq<Id>)
    requires LowBelowIndex(index, low, path) && |path| > 1 && path[|path| - 2] in low
    ensures LowBelowIndex(index, PassDown(low, path), path[..|path| - 1])
    ensures forall v | v in path[..|path| - 1] :: At(PassDown(low, path), v) <= At(low, v)
  {
    var low' := PassDown(low, path);
    assert low'.Keys == low.Keys;
    forall v | v in path[..|path| - 1]
      ensures At(low', v) <= At(low, v) && At(low', v) <= At(index, v)
    {
      assert v in path;
    }
  }

  lemma RetreatPositions(adj: map<Id, seq<Id>>, path: seq<Id>, pos: seq<nat>)
    requires PositionsFit(adj, path, pos) && |path| > 0
    ensures PositionsFit(adj, path[..|path| - 1], pos[..|path| - 1])
  {
    var p, q := path[..|path| - 1], pos[..|path| - 1];
    assert forall i | 0 <= i < |p| :: p[i] == path[i] && q[i] == pos[i];
  }

  lemma RetreatLayout(adj: map<Id, seq<Id>>, s: State)
    requires Layout(adj, s) && |s.path| > 1
    ensures Layout(adj, Retreat(s))
    ensures forall v | v in Retreat(s).path :: At(Retreat(s).low, v) <= At(s.low, v)
  {
    assert s.path[|s.path| - 2] in s.path;
    RetreatPath(s.index, s.stack, s.path);
    RetreatLow(s.index, s.low, s.path);
    RetreatPositions(adj, s.path, s.pos);
  }

  lemma RetreatLinks(E: set<Edge>, s: State)
    requires |s.path| > 1 && |s.pos| == |s.path| && PathOnStack(s.index, s.stack, s.path) && Links(E, s)
    requires At(s.low, s.path[|s.path| - 1]) < At(s.index, s.path[|s.path| - 1])
    ensures Links(E, Retreat(s))
  {
    RetreatAttained(E, s.index, s.low, s.stack, s.path);
    RetreatLower(E, s.index, s.low, s.stack, s.path);
    assert forall v | v in s.path[..|s.path| - 1] :: v in s.path;
  }

  lemma RetreatKeeps(E: set<Edge>, adj: map<Id, seq<Id>>, s: State)
    requires Inv(E, adj, s) && TopDone(adj, s)
    requires At(s.low, s.path[|s.path| - 1]) != At(s.index, s.path[|s.path| - 1])
    ensures Inv(E, adj, Retreat(s))
  {
    assert s.path[|s.path| - 1] in s.path;
    NotRootHasParent(E, adj, s);
    RetreatLayout(adj, s);
    RetreatLinks(E, s);
    forall y | Edge(s.path[|s.path| - 1], y) in E
      ensures y in s.index
      ensures y in s.stack ==> At(s.low, s.path[|s.path| - 1]) <= At(s.index, y)
    {
      TopEdges(E, adj, s, y);
    }
    RetreatLeft(E, s.index, s.path);
    RetreatExplored(adj, s.index, s.path, s.pos);
    RetreatBoundsLeft(E, s.index, s.low, s.stack, s.path);
    RetreatBoundsPath(adj, s.index, s.low, Retreat(s).low, s.stack, s.path, s.pos);
  }

  lemma RetreatExplored(adj: map<Id, seq<Id>>, index: Numbers, path: seq<Id>, pos: seq<nat>)
    requires PositionsFit(adj, path, pos) && |path| > 0
    requires PathExplored(adj, index, path, pos)
    ensures PositionsFit(adj, path[..|path| - 1], pos[..|path| - 1])
    ensures PathExplored(adj, index, path[..|path| - 1], pos[..|path| - 1])
  {
    var p, q := path[..|path| - 1], pos[..|path| - 1];
    forall i, k | 0 <= i < |p| && 0 <= k < q[i]
      ensures Neighbours(adj, p[i])[k] in index
    {
      assert p[i] == path[i] && q[i] == pos[i];
    }
  }

  lemma RetreatLower(E: set<Edge>, index: Numbers, low: Numbers, stack: seq<Id>, path: seq<Id>)
    requires |path| > 0 && LeftReachLower(E, index, stack, path) && LowAttained(E, index, low, stack, path)
    requires At(low, path[|path| - 1]) < At(index, path[|path| - 1])
    ensures LeftReachLower(E, index, stack, path[..|path| - 1])
  {
    var v := path[|path| - 1];
    forall x | x in stack && x !in path[..|path| - 1]
      ensures ReachesBelow(E, index, stack, x, At(index, x))
    {
      if x in path {
        assert x == v;
        assert ReachesBelow(E, index, stack, v, At(low, v) + 1);
        var z :| z in stack && At(index, z) < At(low, v) + 1 && Reach(E, v, z);
        assert z in stack && At(index, z) < At(index, v) && Reach(E, v, z);
      }
    }
  }
}
