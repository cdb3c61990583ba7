/** The longest-path search (`compute_critical_path`) and what it computes: the
    lexicographically least of the heaviest dependency chains. */
module CriticalPath {
  import opened Graph
  import opened Ordering
  import opened Types
  import opened LexOrder

  type Minutes = map<Id, nat>

  function MinutesOf(w: Minutes, v: Id): nat {
    if v in w then w[v] else 1
  }

  ghost predicate Positive(w: Minutes) {
    forall v | v in w :: w[v] > 0
  }

  ghost predicate Link(E: set<Edge>, c: seq<Id>, i: int)
    requires 0 <= i < |c| - 1
  {
    Edge(c[i + 1], c[i]) in E
  }

  /** A dependency chain, deepest dependency first: each node depends on the one
      before it. */
  ghost predicate Chain(E: set<Edge>, N: set<Id>, c: seq<Id>) {
    && |c| > 0
    && (forall v | v in c :: v in N)
    && (forall i | 0 <= i < |c| - 1 :: Link(E, c, i))
  }

  ghost predicate ChainTo(E: set<Edge>, N: set<Id>, c: seq<Id>, v: Id) {
    Chain(E, N, c) && c[|c| - 1] == v
  }

  function Weight(w: Minutes, c: seq<Id>): nat {
    if |c| == 0 then 0 else Weight(w, c[..|c| - 1]) + MinutesOf(w, c[|c| - 1])
  }

  /** `c` is heavier than `d`, or as heavy and not lexicographically later. */
  ghost predicate Beats(w: Minutes, c: seq<Id>, d: seq<Id>) {
    Weight(w, d) < Weight(w, c) || (Weight(w, d) == Weight(w, c) && (c == d || Less(c, d)))
  }

  /** The heaviest, then least, chain ending in one of `ends`. */
  ghost predicate BestTo(E: set<Edge>, N: set<Id>, w: Minutes, ends: set<Id>, c: seq<Id>) {
    && Chain(E, N, c) && c[|c| - 1] in ends
    && forall d | Chain(E, N, d) && d[|d| - 1] in ends :: Beats(w, c, d)
  }

  /** The critical path: the best chain of all, and the empty list when there is no
      node to put on one. */
  ghost predicate IsCriticalPath(E: set<Edge>, N: set<Id>, w: Minutes, c: seq<Id>) {
    if N == {} then c == [] else BestTo(E, N, w, N, c)
  }

  lemma BeatsTotal(w: Minutes, c: seq<Id>, d: seq<Id>)
    ensures Beats(w, c, d) || Beats(w, d, c)
  {
    LessTotal(c, d);
  }

  lemma BeatsTrans(w: Minutes, a: seq<Id>, b: seq<Id>, c: seq<Id>)
    requires Beats(w, a, b) && Beats(w, b, c)
    ensures Beats(w, a, c)
  {
    if Less(a, b) && Less(b, c) {
      LessTrans(a, b, c);
    }
  }

  /** There is only one critical path. */
  lemma CriticalPathUnique(E: set<Edge>, N: set<Id>, w: Minutes, c: seq<Id>, d: seq<Id>)
    requires IsCriticalPath(E, N, w, c) && IsCriticalPath(E, N, w, d)
    ensures c == d
  {
    if N != {} && c != d {
      assert Beats(w, c, d) && Beats(w, d, c);
      LessAsymmetric(c, d);
    }
  }

  /** With positive weights a proper prefix is strictly lighter, so no heaviest chain
      is a prefix of another. */
  lemma {:induction false} PrefixLighter(w: Minutes, a: seq<Id>, b: seq<Id>)
    requires Positive(w) && a < b
    ensures Weight(w, a) < Weight(w, b)
    decreases |b|
  {
    if |a| < |b| - 1 {
      PrefixLighter(w, a, b[..|b| - 1]);
    } else {
      assert a == b[..|b| - 1];
    }
  }

  /** The local tie-break is globally right: extending both chains keeps the winner. */
  lemma BeatsExtends(w: Minutes, c: seq<Id>, d: seq<Id>, v: Id)
    requires Positive(w) && Beats(w, c, d)
    ensures Beats(w, c + [v], d + [v])
  {
    assert (c + [v])[..|c|] == c && (d + [v])[..|d|] == d;
    if Weight(w, c) == Weight(w, d) && c != d {
      if c <= d {
        PrefixLighter(w, c, d);
      }
      LessExtends(c, d, v);
    }
  }

  lemma ChainInit(E: set<Edge>, N: set<Id>, c: seq<Id>)
    requires Chain(E, N, c) && |c| > 1
    ensures ChainTo(E, N, c[..|c| - 1], c[|c| - 2])
    ensures Edge(c[|c| - 1], c[|c| - 2]) in E && c[|c| - 2] in N
    ensures c == c[..|c| - 1] + [c[|c| - 1]]
  {
    var d := c[..|c| - 1];
    assert Link(E, c, |c| - 2);
    forall i | 0 <= i < |d| - 1
      ensures Link(E, d, i)
    {
      assert Link(E, c, i);
    }
  }

  lemma ChainAppend(E: set<Edge>, N: set<Id>, c: seq<Id>, v: Id)
    requires Chain(E, N, c) && v in N && Edge(v, c[|c| - 1]) in E
    ensures ChainTo(E, N, c + [v], v)
  {
    var d := c + [v];
    forall i | 0 <= i < |d| - 1
      ensures Link(E, d, i)
    {
      if i < |c| - 1 {
        assert Link(E, c, i);
      }
    }
  }

  /** A best chain to the dependencies of `v`, extended by `v`, is a best chain to `v`. */
  lemma BestExtends(E: set<Edge>, N: set<Id>, w: Minutes, v: Id, deps: set<Id>, c: seq<Id>)
    requires Positive(w) && v in N
    requires forall d :: d in deps <==> Edge(v, d) in E && d in N
    requires BestTo(E, N, w, deps, c)
    ensures BestTo(E, N, w, {v}, c + [v])
  {
    ChainAppend(E, N, c, v);
    forall d | Chain(E, N, d) && d[|d| - 1] in {v}
      ensures Beats(w, c + [v], d)
    {
      if |d| > 1 {
        ChainInit(E, N, d);
        BeatsExtends(w, c, d[..|d| - 1], v);
      } else {
        assert (c + [v])[..|c|] == c && d == [v] && d[..0] == [];
        assert c[..|c|] == c;
        PrefixLighter(w, [], c);
      }
    }
  }

  /** A node without dependencies is its own best chain. */
  lemma BestAlone(E: set<Edge>, N: set<Id>, w: Minutes, v: Id)
    requires v in N && forall d | d in N :: Edge(v, d) !in E
    ensures BestTo(E, N, w, {v}, [v])
  {
    forall d | Chain(E, N, d) && d[|d| - 1] in {v}
      ensures d == [v]
    {
      if |d| > 1 {
        ChainInit(E, N, d);
        assert false;
      }
    }
  }

  /** Choosing between the best so far and the best to one more end. */
  lemma BestJoin(E: set<Edge>, N: set<Id>, w: Minutes, S: set<Id>, T: set<Id>, c: seq<Id>, d: seq<Id>)
    requires BestTo(E, N, w, S, c) && BestTo(E, N, w, T, d)
    ensures Beats(w, d, c) ==> BestTo(E, N, w, S + T, d)
    ensures Beats(w, c, d) ==> BestTo(E, N, w, S + T, c)
  {
    forall e | Chain(E, N, e) && e[|e| - 1] in S + T
      ensures Beats(w, d, c) ==> Beats(w, d, e)
      ensures Beats(w, c, d) ==> Beats(w, c, e)
    {
      if e[|e| - 1] in S {
        assert Beats(w, c, e);
        if Beats(w, d, c) { BeatsTrans(w, d, c, e); }
      } else {
        assert Beats(w, d, e);
        if Beats(w, c, d) { BeatsTrans(w, c, d, e); }
      }
    }
  }

  // ---------------------------------------------------------------------------
  // The search
  // ---------------------------------------------------------------------------

  datatype Candidate = Candidate(path: seq<Id>, minutes: nat)

  class PathSearch {
    const minutesOf: Minutes
    const deps: map<Id, seq<Id>>
    ghost const edges: set<Edge>
    var memo: map<Id, Candidate>

    /** `deps` lists the dependencies inside the node set; the graph is acyclic. */
    ghost predicate Setup() {
      && Acyclic(edges) && Positive(minutesOf) && deps.Keys == minutesOf.Keys
      && Within(edges, minutesOf.Keys)
      && forall v, d | v in deps :: d in deps[v] <==> Edge(v, d) in edges
    }

    ghost predicate BestCandidate(ends: set<Id>, c: Candidate) {
      BestTo(edges, minutesOf.Keys, minutesOf, ends, c.path) && c.minutes == Weight(minutesOf, c.path)
    }

    ghost predicate MemoOk()
      reads this`memo
    {
      forall v | v in memo :: BestCandidate({v}, memo[v])
    }

    constructor (minutesOf: Minutes, deps: map<Id, seq<Id>>, ghost edges: set<Edge>)
      ensures this.minutesOf == minutesOf && this.deps == deps && this.edges == edges && memo == map[]
    {
      this.minutesOf, this.deps, this.edges := minutesOf, deps, edges;
      memo := map[];
    }

    /** The best candidate among chains to `ends`; empty before any end was seen. */
    ghost predicate BestSoFar(ends: set<Id>, c: Candidate) {
      if ends == {} then c == Candidate([], 0) else BestCandidate(ends, c)
    }

    /** The comparison both loops make between the candidate at hand and the best so
        far; the inner one accepts any first candidate, the outer one only a positive one. */
    predicate Replaces(sub: Candidate, best: Candidate, less: bool, inner: bool) {
      || sub.minutes > best.minutes
      || (sub.minutes == best.minutes && |best.path| > 0 && less)
      || (|best.path| == 0 && (if inner then sub.minutes >= 0 else sub.minutes > 0))
    }

    lemma ReplaceIsBest(S: set<Id>, T: set<Id>, sub: Candidate, best: Candidate, inner: bool)
      requires Positive(minutesOf) && T != {} && BestCandidate(T, sub) && BestSoFar(S, best)
      ensures BestSoFar(S + T, if Replaces(sub, best, Less(sub.path, best.path), inner) then sub else best)
    {
      if S == {} {
        assert S + T == T;
        assert sub.path[..|sub.path|] == sub.path;
        PrefixLighter(minutesOf, [], sub.path);
      } else {
        BeatsTotal(minutesOf, sub.path, best.path);
        BestJoin(edges, minutesOf.Keys, minutesOf, S, T, best.path, sub.path);
        if Less(sub.path, best.path) {
          LessAsymmetric(sub.path, best.path);
        }
      }
    }

    /** The comparison and the assignment under it. */
    method Better(ghost S: set<Id>, ghost T: set<Id>, sub: Candidate, best: Candidate, inner: bool) returns (next: Candidate)
      requires Positive(minutesOf) && T != {} && BestCandidate(T, sub) && BestSoFar(S, best)
      ensures BestSoFar(S + T, next)
    {
      ReplaceIsBest(S, T, sub, best, inner);
      var less := LexLess(sub.path, best.path);
      next := if Replaces(sub, best, less, inner) then sub else best;
    }

    /** The memoised recursion `longest_to`. */
    method LongestTo(v: Id) returns (result: Candidate)
      requires Setup() && MemoOk() && v in minutesOf
      modifies this`memo
      ensures MemoOk() && BestCandidate({v}, result)
      decreases |Below(edges, v)|, 1
    {
      if v in memo {
        return memo[v];
      }
      var best := LongestToDeps(v);
      result := Candidate(best.path + [v], best.minutes + MinutesOf(minutesOf, v));
      ResultIsBest(v, best);
      memo := memo[v := result];
    }

    lemma ResultIsBest(v: Id, best: Candidate)
      requires Setup() && v in minutesOf && BestSoFar(Elems(deps[v]), best)
      ensures BestCandidate({v}, Candidate(best.path + [v], best.minutes + MinutesOf(minutesOf, v)))
    {
      var path := best.path + [v];
      assert path[..|path| - 1] == best.path;
      assert forall d :: d in deps[v] <==> d in Elems(deps[v]);
      if Elems(deps[v]) == {} {
        assert forall d | d in minutesOf :: Edge(v, d) !in edges;
        BestAlone(edges, minutesOf.Keys, minutesOf, v);
        assert path == [v];
      } else {
        BestExtends(edges, minutesOf.Keys, minutesOf, v, Elems(deps[v]), best.path);
      }
    }

    method LongestToDeps(v: Id) returns (best: Candidate)
      requires Setup() && MemoOk() && v in minutesOf
      modifies this`memo
      ensures MemoOk() && BestSoFar(Elems(deps[v]), best)
      decreases |Below(edges, v)|, 0
    {
      best := Candidate([], 0);
      for i := 0 to |deps[v]|
        invariant MemoOk() && BestSoFar(Elems(deps[v][..i]), best)
      {
        var d := deps[v][i];
        DependencyBelow(v, d);
        var sub := LongestTo(d);
        ElemsGrow(deps[v], i);
        best := Better(Elems(deps[v][..i]), {d}, sub, best, true);
      }
      assert deps[v][..|deps[v]|] == deps[v];
    }

    lemma DependencyBelow(v: Id, d: Id)
      requires Setup() && v in deps && d in deps[v]
      ensures d in minutesOf && |Below(edges, d)| < |Below(edges, v)|
    {
      assert Edge(v, d) in edges;
      BelowShrinks(edges, v, d);
      SubsetSmaller(Below(edges, d), Below(edges, v));
    }

    /** The outer loop over all nodes in id order. */
    method Longest() returns (overall: Candidate)
      requires Setup() && MemoOk()
      modifies this`memo
      ensures BestSoFar(minutesOf.Keys, overall)
    {
      overall := Candidate([], 0);
      var order := Sorted(minutesOf.Keys);
      assert order[..|order|] == order && Elems(order) == minutesOf.Keys;
      for i := 0 to |order|
        invariant MemoOk() && BestSoFar(Elems(order[..i]), overall)
      {
        assert order[i] in Elems(order);
        ElemsGrow(order, i);
        var candidate := LongestTo(order[i]);
        overall := Better(Elems(order[..i]), {order[i]}, candidate, overall, false);
      }
    }
  }

  // ---------------------------------------------------------------------------
  // From rows and edges
  // ---------------------------------------------------------------------------

  const UNNUMBERED_PLACEHOLDER := "<unnumbered>"

  datatype CriticalPathNode = CriticalPathNode(id: Id, ticketNumber: int, title: string, estimatedMinutes: int)

  datatype CriticalPathResult = CriticalPathResult(path: seq<CriticalPathNode>, length: nat, minutes: int)

  /** Half rounds toward positive infinity. */
  function RoundHalfUp(x: real): (n: int)
    ensures n as real - 0.5 <= x < n as real + 0.5
  {
    (x + 0.5).Floor
  }

  /** The weight a ticket has in the search: a missing or non-positive estimate counts 1. */
  function DpWeight(t: TicketNode): (m: nat)
    ensures m > 0
  {
    if t.estimatedMinutes.Some? && t.estimatedMinutes.value > 0 then t.estimatedMinutes.value else 1
  }

  /** What is displayed: a missing number is 0, a missing or empty title a placeholder,
      a missing estimate 60. */
  function RenderNode(t: TicketNode): CriticalPathNode {
    CriticalPathNode(
      t.id,
      if t.ticketNumber.Some? then t.ticketNumber.value else 0,
      if t.title.Some? && t.title.value != "" then t.title.value else UNNUMBERED_PLACEHOLDER,
      if t.estimatedMinutes.Some? then t.estimatedMinutes.value else 60)
  }

  /** The nodes the search keeps. */
  ghost function Included(rows: map<Id, TicketNode>, exclude: set<Id>): set<Id> {
    rows.Keys - exclude
  }

  ghost function Weights(rows: map<Id, TicketNode>, exclude: set<Id>): Minutes {
    map id | id in rows && id !in exclude :: DpWeight(rows[id])
  }

  ghost function Remaining(rows: map<Id, TicketNode>, exclude: set<Id>): map<Id, TicketNode> {
    map id | id in rows && id !in exclude :: rows[id]
  }

  lemma OneMoreRow(rows: map<Id, TicketNode>, exclude: set<Id>, t: TicketNode)
    ensures var next := rows[t.id := t];
            && Weights(next, exclude)
               == (if t.id in exclude then Weights(rows, exclude) else Weights(rows, exclude)[t.id := DpWeight(t)])
            && Remaining(next, exclude)
               == (if t.id in exclude then Remaining(rows, exclude) else Remaining(rows, exclude)[t.id := t])
  {
  }

  function RenderPath(rows: map<Id, TicketNode>, ids: seq<Id>): (p: seq<CriticalPathNode>)
    requires forall id | id in ids :: id in rows
    ensures |p| == |ids|
  {
    seq(|ids|, i requires 0 <= i < |ids| => RenderNode(rows[ids[i]]))
  }

  /** The specification of `compute_critical_path` on rows, edges and exclusions. */
  ghost predicate IsCriticalPathResult(
    rows: map<Id, TicketNode>, E: set<Edge>, exclude: set<Id>, ids: seq<Id>, r: CriticalPathResult)
  {
    var N := Included(rows, exclude);
    var w := Weights(rows, exclude);
    && IsCriticalPath(Restrict(E, N), N, w, ids)
    && (forall id | id in ids :: id in rows)
    && r == CriticalPathResult(RenderPath(rows, ids), |ids|, Weight(w, ids))
  }

  method CollectMinutes(tickets: seq<TicketNode>, exclude: set<Id>)
    returns (minutesOf: Minutes, nodeById: map<Id, TicketNode>)
    ensures minutesOf == Weights(Rows(tickets), exclude)
    ensures nodeById == Remaining(Rows(tickets), exclude)
  {
    minutesOf, nodeById := map[], map[];
    for i := 0 to |tickets|
      invariant minutesOf == Weights(Rows(tickets[..i]), exclude)
      invariant nodeById == Remaining(Rows(tickets[..i]), exclude)
    {
      var n := tickets[i];
      assert tickets[..i + 1][..i] == tickets[..i];
      OneMoreRow(Rows(tickets[..i]), exclude, n);
      if n.id !in exclude {
        minutesOf := minutesOf[n.id := DpWeight(n)];
        nodeById := nodeById[n.id := n];
      }
    }
    assert tickets[..|tickets|] == tickets;
  }

  method CollectDeps(nodes: set<Id>, edges: seq<Edge>) returns (deps: map<Id, seq<Id>>)
    ensures deps.Keys == nodes
    ensures forall v, d | v in deps :: d in deps[v] <==> Edge(v, d) in Restrict(Elems(edges), nodes)
    ensures forall v | v in deps :: StrictlySorted(deps[v])
  {
    deps := map n | n in nodes :: [];
    for i := 0 to |edges|
      invariant deps.Keys == nodes
      invariant forall v, d | v in deps :: d in deps[v] <==> Edge(v, d) in Restrict(Elems(edges[..i]), nodes)
    {
      var e := edges[i];
      ghost var was := deps;
      assert edges[..i + 1] == edges[..i] + [e];
      if e.src in nodes && e.dst in nodes {
        deps := deps[e.src := deps[e.src] + [e.dst]];
      }
      forall v, d | v in deps
        ensures d in deps[v] <==> Edge(v, d) in Restrict(Elems(edges[..i + 1]), nodes)
      {
        assert d in was[v] <==> Edge(v, d) in Restrict(Elems(edges[..i]), nodes);
        assert Edge(v, d) in edges[..i + 1] <==> Edge(v, d) in edges[..i] || Edge(v, d) == e;
      }
    }
    assert edges[..|edges|] == edges;
    ghost var lists := deps;
    deps := map v | v in nodes :: Sorted(Elems(deps[v]));
    forall v, d | v in deps
      ensures d in deps[v] <==> d in lists[v]
    {
      assert d in deps[v] <==> d in Elems(deps[v]);
    }
  }

  lemma RoundsToItself(n: nat)
    ensures RoundHalfUp(n as real) == n
  {
  }

  /** `compute_critical_path`; callers hand it an acyclic residual graph. */
  method ComputeCriticalPath(tickets: seq<TicketNode>, edges: seq<Edge>, exclude: set<Id>)
    returns (result: CriticalPathResult)
    requires Acyclic(Restrict(Elems(edges), Included(Rows(tickets), exclude)))
    ensures exists ids :: IsCriticalPathResult(Rows(tickets), Elems(edges), exclude, ids, result)
  {
    var minutesOf, nodeById := CollectMinutes(tickets, exclude);
    ghost var N := Included(Rows(tickets), exclude);
    assert minutesOf.Keys == N == nodeById.Keys;
    var deps := CollectDeps(minutesOf.Keys, edges);
    var search := new PathSearch(minutesOf, deps, Restrict(Elems(edges), N));
    var overall := search.Longest();
    ghost var ids := overall.path;
    assert forall id | id in ids :: id in nodeById && nodeById[id] == Rows(tickets)[id];
    RoundsToItself(overall.minutes);
    result := CriticalPathResult(RenderPath(nodeById, overall.path), |overall.path|,
                                 RoundHalfUp(overall.minutes as real));
    assert RenderPath(nodeById, ids) == RenderPath(Rows(tickets), ids);
    assert IsCriticalPathResult(Rows(tickets), Elems(edges), exclude, ids, result);
  }
}
