/** Leaving the root of a component: everything above it on the stack is one whole
    strongly connected component, and the invariant survives its removal. */
module TarjanEmit {
  import opened Graph
  import opened Ordering
  import opened TarjanInvariant
  import opened TarjanSteps

  /** The top node `v` is at position `p` of the stack, is finished, and its low-link
      is its own index; `c` lists the stack from `p` up. */
  ghost predicate MayEmit(E: set<Edge>, adj: map<Id, seq<Id>>, s: State, p: nat, c: seq<Id>) {
    && Inv(E, adj, s) && TopDone(adj, s)
    && p < |s.stack| && s.stack[p] == s.path[|s.path| - 1]
    && At(s.low, s.stack[p]) == At(s.index, s.stack[p])
    && Distinct(c) && Elems(c) == Elems(s.stack[p..])
  }

  /** Position and index agree on the stack. */
  lemma SplitStack(index: Numbers, stack: seq<Id>, p: nat)
    requires Ascending(index, stack) && p < |stack|
    ensures Ascending(index, stack[..p])
    ensures forall x | x in stack :: (x in stack[..p] <==> At(index, x) < At(index, stack[p]))
                                     && (x in stack[p..] <==> At(index, stack[p]) <= At(index, x))
  {
    forall i, j | 0 <= i < j < p
      ensures At(index, stack[..p][i]) < At(index, stack[..p][j])
    {
      assert At(index, stack[i]) < At(index, stack[j]);
    }
    forall x | x in stack[..p]
      ensures At(index, x) < At(index, stack[p])
    {
      var i :| 0 <= i < p && stack[i] == x;
      assert At(index, stack[i]) < At(index, stack[p]);
    }
    forall x | x in stack[p..]
      ensures At(index, stack[p]) <= At(index, x)
    {
      var i :| p <= i < |stack| && stack[i] == x;
      assert i == p || At(index, stack[p]) < At(index, stack[i]);
    }
    assert stack == stack[..p] + stack[p..];
    assert forall x | x in stack :: x in stack[..p] || x in stack[p..];
  }

  /** No path node other than the top one lies in the segment. */
  lemma OffPath(index: Numbers, counter: nat, stack: seq<Id>, path: seq<Id>, x: Id)
    requires Numbered(index, counter, stack) && PathOnStack(index, stack, path) && |path| > 0
    requires x in stack && x != path[|path| - 1] && At(index, path[|path| - 1]) <= At(index, x)
    ensures x !in path
  {
    InitOfAscending(index, path);
    assert path[|path| - 1] in path;
  }

  lemma LeftEdge(E: set<Edge>, s: State, x: Id, y: Id)
    requires |s.path| > 0 && x in s.stack && x in s.index && x !in s.path && Edge(x, y) in E
    requires At(s.index, s.path[|s.path| - 1]) <= At(s.index, x)
    requires LeftExplored(E, s.index, s.path) && LowBoundsLeft(E, s.index, s.low, s.stack, s.path)
    ensures y in s.index && (y in s.stack ==> At(s.low, s.path[|s.path| - 1]) <= At(s.index, y))
  {
    assert Owns(s.index, s.path, |s.path| - 1, x);
  }

  /** An edge out of the segment stays in the segment or leads off the stack. */
  lemma SegmentEdge(E: set<Edge>, adj: map<Id, seq<Id>>, s: State, p: nat, c: seq<Id>, x: Id, y: Id)
    requires MayEmit(E, adj, s, p, c)
    requires x in s.stack && At(s.index, s.stack[p]) <= At(s.index, x) && Edge(x, y) in E
    ensures y in s.index && (y in s.stack ==> At(s.index, s.stack[p]) <= At(s.index, y))
  {
    if x == s.stack[p] {
      TopEdges(E, adj, s, y);
    } else {
      OffPath(s.index, s.counter, s.stack, s.path, x);
      LeftEdge(E, s, x, y);
    }
  }

  lemma OffStackAfter(E: set<Edge>, adj: map<Id, seq<Id>>, s: State, p: nat, c: seq<Id>)
    requires MayEmit(E, adj, s, p, c)
    ensures OffStackClosed(E, s.index, s.stack[..p])
  {
    SplitStack(s.index, s.stack, p);
    assert forall z | z in s.stack[..p] :: z in s.stack;
    forall x, y | x in s.index && x !in s.stack[..p] && Edge(x, y) in E
      ensures y in s.index && y !in s.stack[..p]
    {
      if x in s.stack {
        SegmentEdge(E, adj, s, p, c, x, y);
      }
    }
  }

  /** Nothing off the remaining stack leads back to it. */
  lemma StaysOff(E: set<Edge>, adj: map<Id, seq<Id>>, index: Numbers, stack: seq<Id>, x: Id, y: Id)
    requires OffStackClosed(E, index, stack) && Within(E, adj.Keys)
    requires x in index && x !in stack && Reach(E, x, y)
    ensures y in index && y !in stack
  {
    var off := set z | z in index && z !in stack;
    assert Closed(E, off) by {
      forall e | e in E && e.src in off
        ensures e.dst in off
      {
        assert Edge(e.src, e.dst) in E;
      }
    }
    ClosedReach(E, off, x, y);
  }

  /** Every node of the segment reaches the root below it. */
  lemma {:induction false} SegmentReachesRoot(E: set<Edge>, adj: map<Id, seq<Id>>, s: State, p: nat, c: seq<Id>, x: Id)
    requires MayEmit(E, adj, s, p, c)
    requires x in s.stack && At(s.index, s.stack[p]) <= At(s.index, x)
    ensures Reach(E, x, s.stack[p])
    decreases At(s.index, x)
  {
    var v := s.stack[p];
    if x == v {
      ReachSelf(E, v);
    } else {
      SplitStack(s.index, s.stack, p);
      OffStackAfter(E, adj, s, p, c);
      OffPath(s.index, s.counter, s.stack, s.path, x);
      var z := LowerTarget(E, s, x);
      StaysOff(E, adj, s.index, s.stack[..p], x, z);
      SegmentReachesRoot(E, adj, s, p, c, z);
      ReachTrans(E, x, z, v);
    }
  }

  lemma LowerTarget(E: set<Edge>, s: State, x: Id) returns (z: Id)
    requires LeftReachLower(E, s.index, s.stack, s.path) && x in s.stack && x !in s.path
    ensures z in s.stack && At(s.index, z) < At(s.index, x) && Reach(E, x, z)
  {
    assert ReachesBelow(E, s.index, s.stack, x, At(s.index, x));
    z :| z in s.stack && At(s.index, z) < At(s.index, x) && Reach(E, x, z);
  }

  /** The segment is a whole strongly connected component. */
  lemma SegmentIsComponent(E: set<Edge>, adj: map<Id, seq<Id>>, s: State, p: nat, c: seq<Id>)
    requires MayEmit(E, adj, s, p, c)
    ensures IsComponent(E, c)
  {
    var v := s.stack[p];
    SplitStack(s.index, s.stack, p);
    OffStackAfter(E, adj, s, p, c);
    assert v in s.stack[p..] && v in Elems(c);
    assert v in s.path;
    assert forall x :: x in c <==> x in Elems(c);
    forall x | x in s.stack && At(s.index, v) <= At(s.index, x)
      ensures Reach(E, x, v) && Reach(E, v, x)
    {
      SegmentReachesRoot(E, adj, s, p, c, x);
    }
    forall x, y | x in c
      ensures y in c <==> Mutual(E, x, y)
    {
      assert x in s.stack[p..] && x in s.stack && x in s.index;
      if y in c {
        assert y in s.stack[p..] && y in s.stack;
        ReachTrans(E, x, v, y);
        ReachTrans(E, y, v, x);
      } else if Mutual(E, x, y) {
        assert y !in s.stack[p..] by {
          assert y !in Elems(s.stack[p..]);
        }
        StaysOff(E, adj, s.index, s.stack[..p], x, y);
        StaysOff(E, adj, s.index, s.stack, y, x);
        assert false;
      }
    }
  }

  lemma EmittedAfter(index: Numbers, stack: seq<Id>, sccs: seq<seq<Id>>, p: nat, c: seq<Id>, x: Id)
    requires p < |stack| && Elems(c) == Elems(stack[p..])
    requires forall z | z in stack :: z in index
    requires forall z | z in stack :: z in stack[..p] <==> z !in stack[p..]
    requires Emitted(sccs, x) <==> x in index && x !in stack
    ensures Emitted(sccs + [c], x) <==> x in index && x !in stack[..p]
  {
    assert x in c <==> x in Elems(c);
    assert x in stack[p..] <==> x in Elems(stack[p..]);
    assert x in stack[p..] || x in stack[..p] ==> x in stack;
    assert c in sccs + [c];
    assert Emitted(sccs + [c], x) <==> Emitted(sccs, x) || x in c;
  }

  lemma EmittedDisjoint(index: Numbers, stack: seq<Id>, sccs: seq<seq<Id>>, c: seq<Id>)
    requires forall i, j, x | 0 <= i < j < |sccs| && x in sccs[i] :: x !in sccs[j]
    requires forall x | x in c :: !Emitted(sccs, x)
    ensures forall i, j, x | 0 <= i < j < |sccs + [c]| && x in (sccs + [c])[i] :: x !in (sccs + [c])[j]
  {
    var t := sccs + [c];
    forall i, j, x | 0 <= i < j < |t| && x in t[i]
      ensures x !in t[j]
    {
      if j == |sccs| {
        assert Emitted(sccs, x) by { assert sccs[i] in sccs; }
      }
    }
  }

  lemma EmittedNow(E: set<Edge>, index: Numbers, stack: seq<Id>, sccs: seq<seq<Id>>, p: nat, c: seq<Id>)
    requires p < |stack| && Ascending(index, stack) && Elems(c) == Elems(stack[p..])
    requires Finished(E, index, stack, sccs) && forall z | z in stack :: z in index
    ensures forall x {:trigger Emitted(sccs + [c], x)} :: Emitted(sccs + [c], x) <==> x in index && x !in stack[..p]
  {
    SplitStack(index, stack, p);
    forall x
      ensures Emitted(sccs + [c], x) <==> x in index && x !in stack[..p]
    {
      EmittedAfter(index, stack, sccs, p, c, x);
    }
  }

  lemma NotYetEmitted(E: set<Edge>, s: State, p: nat, c: seq<Id>)
    requires Finished(E, s.index, s.stack, s.sccs) && p <= |s.stack| && Elems(c) == Elems(s.stack[p..])
    ensures forall x | x in c :: !Emitted(s.sccs, x)
  {
    forall x | x in c
      ensures !Emitted(s.sccs, x)
    {
      assert x in Elems(c) && x in Elems(s.stack[p..]);
      assert x in s.stack;
    }
  }

  lemma EmitFinished(E: set<Edge>, adj: map<Id, seq<Id>>, s: State, p: nat, c: seq<Id>)
    requires MayEmit(E, adj, s, p, c)
    ensures Finished(E, s.index, s.stack[..p], s.sccs + [c])
  {
    SegmentIsComponent(E, adj, s, p, c);
    NotYetEmitted(E, s, p, c);
    EmittedDisjoint(s.index, s.stack, s.sccs, c);
    EmittedNow(E, s.index, s.stack, s.sccs, p, c);
  }

  /** Only what lies strictly below the root stays reachable from below it. */
  lemma BelowSurvives(E: set<Edge>, index: Numbers, stack: seq<Id>, p: nat, x: Id, bound: nat)
    requires Ascending(index, stack) && p < |stack| && bound <= At(index, stack[p])
    requires ReachesBelow(E, index, stack, x, bound)
    ensures ReachesBelow(E, index, stack[..p], x, bound)
  {
    SplitStack(index, stack, p);
    var z :| z in stack && At(index, z) < bound && Reach(E, x, z);
    assert z in stack[..p];
  }

  /** The hand-down of low-links changes nothing when the top frame is a root. */
  lemma PassDownIdle(index: Numbers, low: Numbers, path: seq<Id>)
    requires |path| > 0 && Ascending(index, path) && LowBelowIndex(index, low, path)
    requires At(low, path[|path| - 1]) == At(index, path[|path| - 1])
    ensures forall x | x in path[..|path| - 1] :: At(PassDown(low, path), x) == At(low, x) < At(index, path[|path| - 1])
  {
    InitOfAscending(index, path);
    assert forall x | x in path[..|path| - 1] :: x in path;
    if |path| > 1 {
      assert path[|path| - 2] == path[..|path| - 1][|path| - 2];
    }
  }

  lemma EmitPath(index: Numbers, stack: seq<Id>, path: seq<Id>, p: nat)
    requires Ascending(index, stack) && PathOnStack(index, stack, path)
    requires |path| > 0 && p < |stack| && stack[p] == path[|path| - 1]
    ensures PathOnStack(index, stack[..p], path[..|path| - 1])
  {
    SplitStack(index, stack, p);
    InitOfAscending(index, path);
    var q := path[..|path| - 1];
    assert forall v | v in q :: v in path && v in stack[..p];
    assert |q| == 0 ==> stack[0] == stack[p];
    assert p > 0 ==> At(index, stack[0]) < At(index, stack[p]);
    if |q| > 0 {
      assert q[0] in q;
      assert q[0] == stack[..p][0];
    }
  }

  lemma EmitLayout(adj: map<Id, seq<Id>>, s: State, p: nat, c: seq<Id>)
    requires Layout(adj, s) && |s.path| > 0 && p < |s.stack| && s.stack[p] == s.path[|s.path| - 1]
    requires At(s.low, s.stack[p]) == At(s.index, s.stack[p])
    ensures Layout(adj, Emit(s, p, c))
  {
    SplitStack(s.index, s.stack, p);
    EmitPath(s.index, s.stack, s.path, p);
    RetreatPositions(adj, s.path, s.pos);
    assert forall x | x in s.stack[..p] :: x in s.stack;
    if |s.path| > 1 {
      assert s.path[|s.path| - 2] in s.path;
      RetreatLow(s.index, s.low, s.path);
    }
  }

  lemma EmitLinks(E: set<Edge>, s: State, p: nat, c: seq<Id>)
    requires Ascending(s.index, s.stack) && PathOnStack(s.index, s.stack, s.path) && |s.pos| == |s.path|
    requires LowBelowIndex(s.index, s.low, s.path) && Links(E, s)
    requires |s.path| > 0 && p < |s.stack| && s.stack[p] == s.path[|s.path| - 1]
    requires At(s.low, s.stack[p]) == At(s.index, s.stack[p])
    ensures Links(E, Emit(s, p, c))
  {
    var q := s.path[..|s.path| - 1];
    SplitStack(s.index, s.stack, p);
    InitOfAscending(s.index, s.path);
    PassDownIdle(s.index, s.low, s.path);
    assert forall x | x in s.stack[..p] :: x in s.stack;
    forall x | x in s.stack[..p] && x !in q
      ensures ReachesBelow(E, s.index, s.stack[..p], x, At(s.index, x))
    {
      assert x !in s.path;
      assert ReachesBelow(E, s.index, s.stack, x, At(s.index, x));
      BelowSurvives(E, s.index, s.stack, p, x, At(s.index, x));
    }
    forall v | v in q
      ensures ReachesBelow(E, s.index, s.stack[..p], v, At(PassDown(s.low, s.path), v) + 1)
    {
      assert v in s.path;
      assert ReachesBelow(E, s.index, s.stack, v, At(s.low, v) + 1);
      BelowSurvives(E, s.index, s.stack, p, v, At(s.low, v) + 1);
    }
  }

  lemma EmitBounds(E: set<Edge>, adj: map<Id, seq<Id>>, s: State, p: nat, c: seq<Id>)
    requires Layout(adj, s) && Bounds(E, adj, s)
    requires |s.path| > 0 && p < |s.stack| && s.stack[p] == s.path[|s.path| - 1]
    requires At(s.low, s.stack[p]) == At(s.index, s.stack[p])
    requires PositionsFit(adj, s.path[..|s.path| - 1], s.pos[..|s.path| - 1])
    ensures Bounds(E, adj, Emit(s, p, c))
  {
    var n := |s.path| - 1;
    var q, low' := s.path[..n], PassDown(s.low, s.path);
    SplitStack(s.index, s.stack, p);
    InitOfAscending(s.index, s.path);
    PassDownIdle(s.index, s.low, s.path);
    assert forall x | x in s.stack[..p] :: x in s.stack;
    EmitBoundsLeft(E, s.index, s.low, low', s.stack, s.path, p);
    RetreatBoundsPath(adj, s.index, s.low, low', s.stack, s.path, s.pos);
  }

  lemma EmitBoundsLeft(E: set<Edge>, index: Numbers, low: Numbers, low': Numbers, stack: seq<Id>, path: seq<Id>, p: nat)
    requires LowBoundsLeft(E, index, low, stack, path) && Ascending(index, path)
    requires |path| > 0 && p < |stack| && stack[p] == path[|path| - 1]
    requires forall x | x in stack[..p] :: x in stack && At(index, x) < At(index, stack[p])
    requires forall v | v in path[..|path| - 1] :: At(low', v) == At(low, v)
    ensures LowBoundsLeft(E, index, low', stack[..p], path[..|path| - 1])
  {
    var q := path[..|path| - 1];
    InitOfAscending(index, path);
    forall i, x, y | 0 <= i < |q| && x in stack[..p] && x !in q && Owns(index, q, i, x)
                     && Edge(x, y) in E && y in stack[..p]
      ensures At(low', q[i]) <= At(index, y)
    {
      assert q[i] in q && x !in path;
      assert Owns(index, path, i, x);
    }
  }

  lemma EmitKeeps(E: set<Edge>, adj: map<Id, seq<Id>>, s: State, p: nat, c: seq<Id>)
    requires MayEmit(E, adj, s, p, c)
    ensures Inv(E, adj, Emit(s, p, c))
  {
    EmitLayout(adj, s, p, c);
    EmitLinks(E, s, p, c);
    EmitBounds(E, adj, s, p, c);
    EmitFinished(E, adj, s, p, c);
    OffStackAfter(E, adj, s, p, c);
    RetreatExplored(adj, s.index, s.path, s.pos);
    forall y | Edge(s.path[|s.path| - 1], y) in E
      ensures y in s.index
    {
      TopEdges(E, adj, s, y);
    }
    RetreatLeft(E, s.index, s.path);
  }
}
