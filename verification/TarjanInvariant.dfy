/** The invariant of the iterative strongly-connected-component search, and the proof
    that each kind of step its loop takes keeps it.

    The work stack is split into `path` (the nodes of its frames, bottom first) and
    `pos` (how many neighbours of each were examined). */
module TarjanInvariant {
  import opened Graph
  import opened Ordering

  type Numbers = map<Id, nat>

  function At(m: Numbers, x: Id): nat {
    if x in m then m[x] else 0
  }

  function Min(a: nat, b: nat): nat {
    if a <= b then a else b
  }

  /** `adj` lists the neighbours of each node under `E`, self-loops dropped. */
  ghost predicate Adjacency(E: set<Edge>, adj: map<Id, seq<Id>>) {
    && Within(E, adj.Keys)
    && forall v, w | v in adj :: w in adj[v] <==> w != v && Edge(v, w) in E
  }

  function Neighbours(adj: map<Id, seq<Id>>, v: Id): seq<Id> {
    if v in adj then adj[v] else []
  }

  ghost predicate Ascending(index: Numbers, xs: seq<Id>) {
    forall i, j | 0 <= i < j < |xs| :: At(index, xs[i]) < At(index, xs[j])
  }

  ghost predicate Numbered(index: Numbers, counter: nat, stack: seq<Id>) {
    && (forall x | x in index :: index[x] < counter)
    && (forall x, y | x in index && y in index :: index[x] == index[y] ==> x == y)
    && (forall x | x in stack :: x in index)
    && Ascending(index, stack)
  }

  ghost predicate PathOnStack(index: Numbers, stack: seq<Id>, path: seq<Id>) {
    && (forall v | v in path :: v in stack)
    && Ascending(index, path)
    && (|path| == 0 <==> |stack| == 0)
    && (|path| > 0 ==> path[0] == stack[0])
  }

  ghost predicate PositionsFit(adj: map<Id, seq<Id>>, path: seq<Id>, pos: seq<nat>) {
    |pos| == |path| && forall i | 0 <= i < |path| :: pos[i] <= |Neighbours(adj, path[i])|
  }

  ghost predicate LowBelowIndex(index: Numbers, low: Numbers, path: seq<Id>) {
    low.Keys == index.Keys && forall v | v in path :: At(low, v) <= At(index, v)
  }

  /** A numbered node without a frame has only numbered successors. */
  ghost predicate LeftExplored(E: set<Edge>, index: Numbers, path: seq<Id>) {
    forall x, y | x in index && x !in path && Edge(x, y) in E :: y in index
  }

  ghost predicate PathExplored(adj: map<Id, seq<Id>>, index: Numbers, path: seq<Id>, pos: seq<nat>)
    requires PositionsFit(adj, path, pos)
  {
    forall i, k | 0 <= i < |path| && 0 <= k < pos[i] :: Neighbours(adj, path[i])[k] in index
  }

  ghost predicate IsComponent(E: set<Edge>, c: seq<Id>) {
    |c| > 0 && Distinct(c) && forall x, y {:trigger Mutual(E, x, y)} | x in c :: y in c <==> Mutual(E, x, y)
  }

  ghost predicate Emitted(sccs: seq<seq<Id>>, x: Id) {
    exists c :: c in sccs && x in c
  }

  /** The emitted components are whole and disjoint, and hold exactly the numbered
      nodes that have left the stack. */
  ghost predicate Finished(E: set<Edge>, index: Numbers, stack: seq<Id>, sccs: seq<seq<Id>>) {
    && (forall c | c in sccs :: IsComponent(E, c))
    && (forall i, j, x | 0 <= i < j < |sccs| && x in sccs[i] :: x !in sccs[j])
    && (forall x {:trigger Emitted(sccs, x)} :: Emitted(sccs, x) <==> x in index && x !in stack)
  }

  /** The nodes that left the stack are closed under edges. */
  ghost predicate OffStackClosed(E: set<Edge>, index: Numbers, stack: seq<Id>) {
    forall x, y | x in index && x !in stack && Edge(x, y) in E :: y in index && y !in stack
  }

  /** A path node reaches everything above it on the stack. */
  ghost predicate PathReaches(E: set<Edge>, index: Numbers, stack: seq<Id>, path: seq<Id>) {
    forall v, x {:trigger Reach(E, v, x)} | v in path && x in stack && At(index, v) <= At(index, x)
      :: Reach(E, v, x)
  }

  ghost predicate ReachesBelow(E: set<Edge>, index: Numbers, stack: seq<Id>, x: Id, bound: nat) {
    exists z :: z in stack && At(index, z) < bound && Reach(E, x, z)
  }

  /** A stack node without a frame reaches a strictly lower stack node. */
  ghost predicate LeftReachLower(E: set<Edge>, index: Numbers, stack: seq<Id>, path: seq<Id>) {
    forall x {:trigger ReachesBelow(E, index, stack, x, At(index, x))} | x in stack && x !in path
      :: ReachesBelow(E, index, stack, x, At(index, x))
  }

  /** Low-links are attained: a path node reaches a stack node at or below its low-link. */
  ghost predicate LowAttained(E: set<Edge>, index: Numbers, low: Numbers, stack: seq<Id>, path: seq<Id>) {
    forall v {:trigger ReachesBelow(E, index, stack, v, At(low, v) + 1)} | v in path
      :: ReachesBelow(E, index, stack, v, At(low, v) + 1)
  }

  /** `x` sits in the stretch of the stack that frame `i` answers for. */
  ghost predicate Owns(index: Numbers, path: seq<Id>, i: int, x: Id)
    requires 0 <= i < |path|
  {
    At(index, path[i]) <= At(index, x) && (i + 1 < |path| ==> At(index, x) < At(index, path[i + 1]))
  }

  /** Low-links bound the stack targets of the nodes that have lost their frame ... */
  ghost predicate LowBoundsLeft(E: set<Edge>, index: Numbers, low: Numbers, stack: seq<Id>, path: seq<Id>) {
    forall i, x, y | 0 <= i < |path| && x in stack && x !in path && Owns(index, path, i, x)
                     && Edge(x, y) in E && y in stack
      :: At(low, path[i]) <= At(index, y)
  }

  /** ... and those of the examined edges of the frame itself. */
  ghost predicate LowBoundsPath(adj: map<Id, seq<Id>>, index: Numbers, low: Numbers, stack: seq<Id>,
                                path: seq<Id>, pos: seq<nat>)
    requires PositionsFit(adj, path, pos)
  {
    forall i, k | 0 <= i < |path| && 0 <= k < pos[i] && Neighbours(adj, path[i])[k] in stack
      :: At(low, path[i]) <= At(index, Neighbours(adj, path[i])[k])
  }

  datatype State = State(
    index: Numbers,
    low: Numbers,
    counter: nat,
    stack: seq<Id>,
    sccs: seq<seq<Id>>,
    path: seq<Id>,
    pos: seq<nat>)

  ghost predicate Layout(adj: map<Id, seq<Id>>, s: State) {
    && s.index.Keys <= adj.Keys
    && Numbered(s.index, s.counter, s.stack)
    && PathOnStack(s.index, s.stack, s.path)
    && PositionsFit(adj, s.path, s.pos)
    && LowBelowIndex(s.index, s.low, s.path)
  }

  ghost predicate Progress(E: set<Edge>, adj: map<Id, seq<Id>>, s: State)
    requires PositionsFit(adj, s.path, s.pos)
  {
    && LeftExplored(E, s.index, s.path)
    && PathExplored(adj, s.index, s.path, s.pos)
    && Finished(E, s.index, s.stack, s.sccs)
    && OffStackClosed(E, s.index, s.stack)
  }

  ghost predicate Links(E: set<Edge>, s: State) {
    && PathReaches(E, s.index, s.stack, s.path)
    && LeftReachLower(E, s.index, s.stack, s.path)
    && LowAttained(E, s.index, s.low, s.stack, s.path)
  }

  ghost predicate Bounds(E: set<Edge>, adj: map<Id, seq<Id>>, s: State)
    requires PositionsFit(adj, s.path, s.pos)
  {
    && LowBoundsLeft(E, s.index, s.low, s.stack, s.path)
    && LowBoundsPath(adj, s.index, s.low, s.stack, s.path, s.pos)
  }

  ghost predicate Inv(E: set<Edge>, adj: map<Id, seq<Id>>, s: State) {
    Adjacency(E, adj) && Layout(adj, s) && Progress(E, adj, s) && Links(E, s) && Bounds(E, adj, s)
  }

  // ---------------------------------------------------------------------------
  // Steps
  // ---------------------------------------------------------------------------

  function Bump(pos: seq<nat>): (r: seq<nat>) {
    if |pos| == 0 then pos else pos[..|pos| - 1] + [pos[|pos| - 1] + 1]
  }

  /** An unnumbered node is numbered and pushed on both stacks. */
  function Discover(s: State, w: Id): State {
    State(s.index[w := s.counter], s.low[w := s.counter], s.counter + 1,
          s.stack + [w], s.sccs, s.path + [w], Bump(s.pos) + [0])
  }

  /** The next neighbour `w` of the top node is already numbered: when it is still on
      the stack its index may lower the top node's low-link. */
  function Inspect(s: State, w: Id): State
    requires |s.path| > 0
  {
    var v := s.path[|s.path| - 1];
    s.(pos := Bump(s.pos),
       low := if w in s.stack then s.low[v := Min(At(s.low, v), At(s.index, w))] else s.low)
  }

  /** The low-links once the top frame has handed its own to the frame below. */
  function PassDown(low: Numbers, path: seq<Id>): Numbers
    requires |path| > 0
  {
    if |path| == 1 then low
    else
      var u := path[|path| - 2];
      low[u := Min(At(low, u), At(low, path[|path| - 1]))]
  }

  /** The top frame is dropped. */
  function Retreat(s: State): State
    requires |s.path| > 0 && |s.pos| == |s.path|
  {
    s.(path := s.path[..|s.path| - 1], pos := s.pos[..|s.path| - 1], low := PassDown(s.low, s.path))
  }

  /** The top frame is dropped together with the component above its node. */
  function Emit(s: State, p: nat, c: seq<Id>): State
    requires |s.path| > 0 && |s.pos| == |s.path| && p <= |s.stack|
  {
    Retreat(s.(stack := s.stack[..p], sccs := s.sccs + [c]))
  }
}
