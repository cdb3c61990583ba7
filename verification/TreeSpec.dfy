/** The cached dependency tree: its shape, what it must say about a spec's rows, and
    why comparing only part of it is enough. */
module TreeSpec {
  import opened Graph
  import opened Ordering
  import opened Types
  import opened StatusCalculator
  import opened Cycles
  import opened CriticalPath
  import opened BlockerDepth
  import Cascade

  datatype TreeTicket = TreeTicket(
    id: Id, ticketNumber: int, title: string, status: Status, epicId: Option<Id>, epicNumber: int,
    dependencies: seq<Id>, blocks: seq<Id>, isReady: bool, blockerCount: nat, unsatisfiedDeps: seq<Id>,
    estimatedMinutes: Option<int>)

  datatype TreeEpic = TreeEpic(id: Id, epicNumber: int, title: string, ticketIds: seq<Id>)

  datatype TicketsByStatus = TicketsByStatus(pending: nat, ready: nat, active: nat, done: nat)

  datatype TreeSummary = TreeSummary(
    totalTickets: nat, ticketsByStatus: TicketsByStatus, readyTickets: seq<Id>, blockedTickets: seq<Id>,
    hasCircularDeps: bool, criticalPathLength: nat, criticalPathMinutes: int, maxBlockerDepth: nat,
    criticalPath: seq<CriticalPathNode>, estimatedMinutesTotal: int)

  datatype DependencyTree = DependencyTree(
    specificationId: Id, version: int, generatedAt: string, epics: seq<TreeEpic>,
    tickets: map<Id, TreeTicket>, summary: TreeSummary, criticalPath: seq<CriticalPathNode>,
    edges: seq<Edge>, cycles: seq<seq<Id>>)

  type TicketRows = map<Id, TicketNode>
  type EpicRows = map<Id, EpicNode>

  // ---------------------------------------------------------------------------
  // What each part says
  // ---------------------------------------------------------------------------

  function Number(t: TicketNode): int {
    if t.ticketNumber.Some? then t.ticketNumber.value else 0
  }

  function TitleOf(title: Option<string>): string {
    if title.Some? && title.value != "" then title.value else UNNUMBERED_PLACEHOLDER
  }

  function Numbers(rows: TicketRows): map<Id, int> {
    map id | id in rows :: Number(rows[id])
  }

  function Undone(rows: TicketRows): set<Id> {
    set id | id in rows && rows[id].status != Done
  }

  function DoneIds(rows: TicketRows): set<Id> {
    set id | id in rows && rows[id].status == Done
  }

  function StatesOf(rows: TicketRows): States {
    map v | v in rows :: rows[v].status
  }

  function WithStatus(rows: TicketRows, s: Status): set<Id> {
    set id | id in rows && rows[id].status == s
  }

  function EpicNumberOf(epics: EpicRows, epicId: Option<Id>): int {
    if epicId.Some? && epicId.value in epics && epics[epicId.value].epicNumber.Some?
    then epics[epicId.value].epicNumber.value else 0
  }

  /** The dependencies of `v` that are not done. */
  function Unsatisfied(rows: TicketRows, E: set<Edge>, v: Id): set<Id> {
    DepsOf(E, v) * Undone(rows)
  }

  predicate IsReady(rows: TicketRows, E: set<Edge>, v: Id) {
    v in Undone(rows) && Unsatisfied(rows, E, v) == {}
  }

  function TreeTicketOf(rows: TicketRows, epics: EpicRows, E: set<Edge>, v: Id): TreeTicket
    requires v in rows
  {
    var t := rows[v];
    TreeTicket(v, Number(t), TitleOf(t.title), t.status, t.epicId, EpicNumberOf(epics, t.epicId),
               Sorted(DepsOf(E, v)), Sorted(Cascade.DependentsOf(E, v)),
               IsReady(rows, E, v), |Unsatisfied(rows, E, v)|, Sorted(Unsatisfied(rows, E, v)),
               t.estimatedMinutes)
  }

  function TicketsIn(rows: TicketRows, epic: Id): set<Id> {
    set id | id in rows && rows[id].epicId == Some(epic)
  }

  function TreeEpicOf(rows: TicketRows, epics: EpicRows, e: Id): TreeEpic
    requires e in epics
  {
    TreeEpic(e, if epics[e].epicNumber.Some? then epics[e].epicNumber.value else 0, TitleOf(epics[e].title),
             SortBy(Numbers(rows), TicketsIn(rows, e)))
  }

  /** The ready tickets that are pending or ready, and the undone tickets with an
      unsatisfied dependency. */
  function ReadySet(rows: TicketRows, E: set<Edge>): set<Id> {
    set v | v in rows && IsReady(rows, E, v) && ShouldRecalculate(rows[v].status)
  }

  function BlockedSet(rows: TicketRows, E: set<Edge>): set<Id> {
    set v | v in rows && v in Undone(rows) && Unsatisfied(rows, E, v) != {}
  }

  function ToEdges(v: Id, deps: seq<Id>): (r: seq<Edge>)
    ensures |r| == |deps| && forall i | 0 <= i < |r| :: r[i] == Edge(v, deps[i])
  {
    seq(|deps|, i requires 0 <= i < |deps| => Edge(v, deps[i]))
  }

  /** All edges out of the listed tickets, ticket by ticket. */
  function EdgesFrom(ids: seq<Id>, E: set<Edge>): seq<Edge> {
    if |ids| == 0 then []
    else EdgesFrom(ids[..|ids| - 1], E) + ToEdges(ids[|ids| - 1], Sorted(DepsOf(E, ids[|ids| - 1])))
  }

  function DisplayMinutes(rows: TicketRows, ids: seq<Id>): int {
    if |ids| == 0 then 0
    else
      var v := ids[|ids| - 1];
      DisplayMinutes(rows, ids[..|ids| - 1])
      + (if v in rows && rows[v].estimatedMinutes.Some? then rows[v].estimatedMinutes.value else 60)
  }

  function Histogram(rows: TicketRows): TicketsByStatus {
    TicketsByStatus(|WithStatus(rows, Pending)|, |WithStatus(rows, Ready)|,
                    |WithStatus(rows, Active)|, |WithStatus(rows, Done)|)
  }

  // ---------------------------------------------------------------------------
  // The tree of a spec
  // ---------------------------------------------------------------------------

  ghost predicate GraphParts(rows: TicketRows, E: set<Edge>, tree: DependencyTree) {
    var s := tree.summary;
    && IsCycleList(E, tree.cycles)
    && s.hasCircularDeps == (|tree.cycles| > 0)
    && (exists ids :: IsCriticalPathResult(rows, E, CycleNodes(tree.cycles) + DoneIds(rows), ids,
                        CriticalPathResult(tree.criticalPath, s.criticalPathLength, s.criticalPathMinutes)))
    && s.criticalPath == tree.criticalPath
    && IsMaxDepth(Blocking(rows, E, CycleNodes(tree.cycles)), s.maxBlockerDepth)
  }

  ghost predicate TicketsListed(rows: TicketRows, epics: EpicRows, E: set<Edge>, tickets: map<Id, TreeTicket>) {
    && tickets.Keys == rows.Keys
    && forall v {:trigger tickets[v]} | v in rows :: tickets[v] == TreeTicketOf(rows, epics, E, v)
  }

  ghost predicate EpicsListed(rows: TicketRows, epics: EpicRows, list: seq<TreeEpic>) {
    && |list| == |Sorted(epics.Keys)|
    && forall i | 0 <= i < |list| ::
         Sorted(epics.Keys)[i] in epics && list[i] == TreeEpicOf(rows, epics, Sorted(epics.Keys)[i])
  }

  ghost predicate SummaryLists(rows: TicketRows, E: set<Edge>, s: TreeSummary) {
    && s.totalTickets == |rows|
    && s.ticketsByStatus == Histogram(rows)
    && s.readyTickets == SortBy(Numbers(rows), ReadySet(rows, E))
    && s.blockedTickets == SortBy(Numbers(rows), BlockedSet(rows, E))
    && s.estimatedMinutesTotal == DisplayMinutes(rows, Sorted(rows.Keys))
  }

  ghost predicate ListParts(rows: TicketRows, epics: EpicRows, E: set<Edge>, tree: DependencyTree) {
    && TicketsListed(rows, epics, E, tree.tickets)
    && EpicsListed(rows, epics, tree.epics)
    && tree.edges == EdgesFrom(Sorted(rows.Keys), E)
    && SummaryLists(rows, E, tree.summary)
  }

  /** `tree` is the dependency tree of the rows; edges to unknown tickets are ignored. */
  ghost predicate IsTreeOf(specId: Id, epics: EpicRows, rows: TicketRows, E: set<Edge>, tree: DependencyTree) {
    && tree.specificationId == specId
    && GraphParts(rows, Restrict(E, rows.Keys), tree)
    && ListParts(rows, epics, Restrict(E, rows.Keys), tree)
  }

  /** A tree that some build produced. */
  ghost predicate Built(tree: DependencyTree) {
    exists epics, rows, E :: IsTreeOf(tree.specificationId, epics, rows, E, tree)
  }

  // ---------------------------------------------------------------------------
  // The rows determine the tree
  // ---------------------------------------------------------------------------

  lemma GraphPartsUnique(rows: TicketRows, E: set<Edge>, a: DependencyTree, b: DependencyTree)
    requires GraphParts(rows, E, a) && GraphParts(rows, E, b)
    ensures a.cycles == b.cycles && a.criticalPath == b.criticalPath
    ensures a.summary.hasCircularDeps == b.summary.hasCircularDeps
    ensures a.summary.criticalPathLength == b.summary.criticalPathLength
    ensures a.summary.criticalPathMinutes == b.summary.criticalPathMinutes
    ensures a.summary.criticalPath == b.summary.criticalPath
    ensures a.summary.maxBlockerDepth == b.summary.maxBlockerDepth
  {
    CycleListUnique(E, a.cycles, b.cycles);
    var exclude := CycleNodes(a.cycles) + DoneIds(rows);
    var c :| IsCriticalPathResult(rows, E, exclude, c,
               CriticalPathResult(a.criticalPath, a.summary.criticalPathLength, a.summary.criticalPathMinutes));
    var d :| IsCriticalPathResult(rows, E, exclude, d,
               CriticalPathResult(b.criticalPath, b.summary.criticalPathLength, b.summary.criticalPathMinutes));
    var N := Included(rows, exclude);
    CriticalPathUnique(Restrict(E, N), N, Weights(rows, exclude), c, d);
    MaxDepthUnique(Blocking(rows, E, CycleNodes(a.cycles)), a.summary.maxBlockerDepth, b.summary.maxBlockerDepth);
  }

  lemma MapsAgree<T>(keys: set<Id>, a: map<Id, T>, b: map<Id, T>)
    requires a.Keys == keys == b.Keys && forall v | v in keys :: a[v] == b[v]
    ensures a == b
  {
  }

  lemma TicketsUnique(rows: TicketRows, epics: EpicRows, E: set<Edge>, a: map<Id, TreeTicket>, b: map<Id, TreeTicket>)
    requires TicketsListed(rows, epics, E, a) && TicketsListed(rows, epics, E, b)
    ensures a == b
  {
    forall v | v in rows.Keys
      ensures a[v] == b[v]
    {
      assert a[v] == TreeTicketOf(rows, epics, E, v);
    }
    MapsAgree(rows.Keys, a, b);
  }

  lemma EpicsUnique(rows: TicketRows, epics: EpicRows, a: seq<TreeEpic>, b: seq<TreeEpic>)
    requires EpicsListed(rows, epics, a) && EpicsListed(rows, epics, b)
    ensures a == b
  {
  }

  lemma ListPartsUnique(rows: TicketRows, epics: EpicRows, E: set<Edge>, a: DependencyTree, b: DependencyTree)
    requires ListParts(rows, epics, E, a) && ListParts(rows, epics, E, b)
    ensures a.tickets == b.tickets && a.epics == b.epics && a.edges == b.edges
    ensures SummaryLists(rows, E, a.summary) && SummaryLists(rows, E, b.summary)
  {
    TicketsUnique(rows, epics, E, a.tickets, b.tickets);
    EpicsUnique(rows, epics, a.epics, b.epics);
  }

  /** Two builds from the same rows differ at most in version and timestamp. */
  lemma TreeUnique(specId: Id, epics: EpicRows, rows: TicketRows, E: set<Edge>, a: DependencyTree, b: DependencyTree)
    requires IsTreeOf(specId, epics, rows, E, a) && IsTreeOf(specId, epics, rows, E, b)
    ensures a.(version := b.version, generatedAt := b.generatedAt) == b
  {
    var F := Restrict(E, rows.Keys);
    GraphPartsUnique(rows, F, a, b);
    ListPartsUnique(rows, epics, F, a, b);
  }

  /** `blocks` is the exact transpose of `dependencies`. */
  lemma BlocksTransposesDependencies(specId: Id, epics: EpicRows, rows: TicketRows, E: set<Edge>,
                                     tree: DependencyTree, u: Id, v: Id)
    requires IsTreeOf(specId, epics, rows, E, tree) && u in tree.tickets && v in tree.tickets
    ensures v in tree.tickets[u].dependencies <==> u in tree.tickets[v].blocks
    ensures v in tree.tickets[u].dependencies <==> Edge(u, v) in E
  {
    var F := Restrict(E, rows.Keys);
    var deps, blocks := Sorted(DepsOf(F, u)), Sorted(Cascade.DependentsOf(F, v));
    assert v in deps <==> v in Elems(deps);
    assert u in blocks <==> u in Elems(blocks);
    assert tree.tickets[u] == TreeTicketOf(rows, epics, F, u) && tree.tickets[v] == TreeTicketOf(rows, epics, F, v);
    if Edge(u, v) in E {
      assert Edge(u, v) in F && Edge(u, v).src == u && Edge(u, v).dst == v;
    }
  }

  // ---------------------------------------------------------------------------
  // The write-skip gate
  // ---------------------------------------------------------------------------

  predicate TicketUnchanged(a: TreeTicket, b: TreeTicket) {
    a.status == b.status && a.isReady == b.isReady && a.blockerCount == b.blockerCount
    && a.dependencies == b.dependencies && a.blocks == b.blocks
  }

  /** What `_tree_structurally_equal` compares. */
  predicate StructurallyEqual(a: DependencyTree, b: DependencyTree) {
    && a.specificationId == b.specificationId
    && a.edges == b.edges
    && a.cycles == b.cycles
    && a.tickets.Keys == b.tickets.Keys
    && (forall v | v in a.tickets :: TicketUnchanged(a.tickets[v], b.tickets[v]))
    && a.summary.totalTickets == b.summary.totalTickets
    && a.summary.hasCircularDeps == b.summary.hasCircularDeps
    && a.summary.criticalPathLength == b.summary.criticalPathLength
    && a.summary.readyTickets == b.summary.readyTickets
    && a.summary.blockedTickets == b.summary.blockedTickets
  }

  function ComputeTreeUpdate(previous: Option<DependencyTree>, current: DependencyTree): (bool, DependencyTree) {
    if previous.None? then (true, current)
    else if StructurallyEqual(previous.value, current) then (false, previous.value)
    else (true, current)
  }

  /** Equal dependency lists over equal tickets mean equal edges. */
  lemma EdgesFromLists(rowsA: TicketRows, rowsB: TicketRows, E: set<Edge>, F: set<Edge>)
    requires rowsA.Keys == rowsB.Keys && Within(E, rowsA.Keys) && Within(F, rowsA.Keys)
    requires forall v | v in rowsA :: Sorted(DepsOf(E, v)) == Sorted(DepsOf(F, v))
    ensures E == F
  {
    forall e: Edge
      ensures e in E <==> e in F
    {
      if e in E || e in F {
        assert Elems(Sorted(DepsOf(E, e.src))) == DepsOf(E, e.src);
        assert Elems(Sorted(DepsOf(F, e.src))) == DepsOf(F, e.src);
        assert e.dst in DepsOf(E, e.src) <==> e in E by { DepsOfEdge(E, e); }
        assert e.dst in DepsOf(F, e.src) <==> e in F by { DepsOfEdge(F, e); }
      }
    }
  }

  lemma DepsOfEdge(E: set<Edge>, e: Edge)
    ensures e.dst in DepsOf(E, e.src) <==> e in E
  {
    if e.dst in DepsOf(E, e.src) {
      var f :| f in E && f.src == e.src && f.dst == e.dst;
      assert f == e;
    }
  }

  /** Unchanged tickets come from equal statuses and equal edges. */
  lemma UnchangedTickets(rowsA: TicketRows, rowsB: TicketRows, epicsA: EpicRows, epicsB: EpicRows,
                         E: set<Edge>, F: set<Edge>, a: map<Id, TreeTicket>, b: map<Id, TreeTicket>)
    requires TicketsListed(rowsA, epicsA, E, a) && TicketsListed(rowsB, epicsB, F, b)
    requires a.Keys == b.Keys && forall v | v in a :: TicketUnchanged(a[v], b[v])
    requires Within(E, rowsA.Keys) && Within(F, rowsB.Keys)
    ensures forall v | v in rowsA :: rowsA[v].status == rowsB[v].status
    ensures E == F
  {
    forall v | v in rowsA
      ensures rowsA[v].status == rowsB[v].status
      ensures Sorted(DepsOf(E, v)) == Sorted(DepsOf(F, v))
    {
      assert TicketUnchanged(a[v], b[v]);
      assert a[v] == TreeTicketOf(rowsA, epicsA, E, v);
      assert b[v] == TreeTicketOf(rowsB, epicsB, F, v);
    }
    EdgesFromLists(rowsA, rowsB, E, F);
  }

  lemma SameUnsatisfied(rowsA: TicketRows, rowsB: TicketRows, epicsA: EpicRows, epicsB: EpicRows,
                        E: set<Edge>, a: map<Id, TreeTicket>, b: map<Id, TreeTicket>, v: Id)
    requires TicketsListed(rowsA, epicsA, E, a) && TicketsListed(rowsB, epicsB, E, b)
    requires Undone(rowsA) == Undone(rowsB) && v in a && v in b
    ensures a[v].unsatisfiedDeps == b[v].unsatisfiedDeps
  {
    assert a[v] == TreeTicketOf(rowsA, epicsA, E, v);
    assert b[v] == TreeTicketOf(rowsB, epicsB, E, v);
  }

  lemma SameUnsatisfiedLists(rowsA: TicketRows, rowsB: TicketRows, epicsA: EpicRows, epicsB: EpicRows,
                             E: set<Edge>, a: map<Id, TreeTicket>, b: map<Id, TreeTicket>)
    requires TicketsListed(rowsA, epicsA, E, a) && TicketsListed(rowsB, epicsB, E, b)
    requires Undone(rowsA) == Undone(rowsB) && a.Keys == b.Keys
    ensures forall v | v in a :: a[v].unsatisfiedDeps == b[v].unsatisfiedDeps
  {
    forall v | v in a
      ensures a[v].unsatisfiedDeps == b[v].unsatisfiedDeps
    {
      SameUnsatisfied(rowsA, rowsB, epicsA, epicsB, E, a, b, v);
    }
  }

  /** The gate is sound beyond what it compares: structurally equal built trees also
      agree on blocker depth, histogram and unsatisfied dependencies. */
  lemma GateDeterminesTheRest(a: DependencyTree, b: DependencyTree)
    requires Built(a) && Built(b) && StructurallyEqual(a, b)
    ensures a.summary.maxBlockerDepth == b.summary.maxBlockerDepth
    ensures a.summary.ticketsByStatus == b.summary.ticketsByStatus
    ensures forall v | v in a.tickets :: a.tickets[v].unsatisfiedDeps == b.tickets[v].unsatisfiedDeps
  {
    var epicsA, rowsA, E := RowsBehind(a);
    var epicsB, rowsB, F := RowsBehind(b);
    GateFor(rowsA, rowsB, epicsA, epicsB, E, F, a, b);
  }

  lemma RowsBehind(tree: DependencyTree) returns (epics: EpicRows, rows: TicketRows, E: set<Edge>)
    requires Built(tree)
    ensures GraphParts(rows, E, tree) && ListParts(rows, epics, E, tree) && Within(E, rows.Keys)
  {
    var F;
    epics, rows, F :| IsTreeOf(tree.specificationId, epics, rows, F, tree);
    E := Restrict(F, rows.Keys);
  }

  lemma SameDepth(rowsA: TicketRows, rowsB: TicketRows, E: set<Edge>, a: DependencyTree, b: DependencyTree)
    requires GraphParts(rowsA, E, a) && GraphParts(rowsB, E, b) && a.cycles == b.cycles
    requires Blocking(rowsA, E, CycleNodes(a.cycles)) == Blocking(rowsB, E, CycleNodes(a.cycles))
    ensures a.summary.maxBlockerDepth == b.summary.maxBlockerDepth
  {
    MaxDepthUnique(Blocking(rowsA, E, CycleNodes(a.cycles)), a.summary.maxBlockerDepth, b.summary.maxBlockerDepth);
  }

  lemma GateFor(rowsA: TicketRows, rowsB: TicketRows, epicsA: EpicRows, epicsB: EpicRows,
                E: set<Edge>, F: set<Edge>, a: DependencyTree, b: DependencyTree)
    requires GraphParts(rowsA, E, a) && ListParts(rowsA, epicsA, E, a) && Within(E, rowsA.Keys)
    requires GraphParts(rowsB, F, b) && ListParts(rowsB, epicsB, F, b) && Within(F, rowsB.Keys)
    requires StructurallyEqual(a, b)
    ensures a.summary.maxBlockerDepth == b.summary.maxBlockerDepth
    ensures a.summary.ticketsByStatus == b.summary.ticketsByStatus
    ensures forall v | v in a.tickets :: a.tickets[v].unsatisfiedDeps == b.tickets[v].unsatisfiedDeps
  {
    UnchangedTickets(rowsA, rowsB, epicsA, epicsB, E, F, a.tickets, b.tickets);
    SameStatusesSameDerivations(rowsA, rowsB, E, CycleNodes(a.cycles));
    SameDepth(rowsA, rowsB, E, a, b);
    SameUnsatisfiedLists(rowsA, rowsB, epicsA, epicsB, E, a.tickets, b.tickets);
  }

  lemma SameStatusesSameDerivations(rowsA: TicketRows, rowsB: TicketRows, E: set<Edge>, exclude: set<Id>)
    requires rowsA.Keys == rowsB.Keys && forall v | v in rowsA :: rowsA[v].status == rowsB[v].status
    ensures Blocking(rowsA, E, exclude) == Blocking(rowsB, E, exclude)
    ensures Histogram(rowsA) == Histogram(rowsB) && Undone(rowsA) == Undone(rowsB)
  {
    assert Incomplete(rowsA, exclude) == Incomplete(rowsB, exclude);
    assert forall s :: WithStatus(rowsA, s) == WithStatus(rowsB, s);
    assert Undone(rowsA) == Undone(rowsB);
  }

  ghost predicate IsCriticalLength(rows: TicketRows, F: set<Edge>, exclude: set<Id>, length: nat) {
    var N := Included(rows, exclude);
    exists ids :: IsCriticalPath(Restrict(F, N), N, Weights(rows, exclude), ids) && |ids| == length
  }

  ghost predicate TicketsMatch(rows: TicketRows, epics: EpicRows, F: set<Edge>, tickets: map<Id, TreeTicket>) {
    && tickets.Keys == rows.Keys
    && forall v {:trigger tickets[v]} | v in rows :: TicketUnchanged(tickets[v], TreeTicketOf(rows, epics, F, v))
  }

  /** What the gate compares, read off the rows instead of off another tree. */
  ghost predicate MatchesRows(specId: Id, epics: EpicRows, rows: TicketRows, E: set<Edge>, tree: DependencyTree) {
    var F := Restrict(E, rows.Keys);
    var s := tree.summary;
    && tree.specificationId == specId
    && tree.edges == EdgesFrom(Sorted(rows.Keys), F)
    && IsCycleList(F, tree.cycles) && s.hasCircularDeps == (|tree.cycles| > 0)
    && TicketsMatch(rows, epics, F, tree.tickets)
    && s.totalTickets == |rows|
    && IsCriticalLength(rows, F, CycleNodes(tree.cycles) + DoneIds(rows), s.criticalPathLength)
    && s.readyTickets == SortBy(Numbers(rows), ReadySet(rows, F))
    && s.blockedTickets == SortBy(Numbers(rows), BlockedSet(rows, F))
  }

  lemma PathGivesLength(rows: TicketRows, F: set<Edge>, tree: DependencyTree)
    requires GraphParts(rows, F, tree)
    ensures IsCriticalLength(rows, F, CycleNodes(tree.cycles) + DoneIds(rows), tree.summary.criticalPathLength)
  {
    var s := tree.summary;
    var exclude := CycleNodes(tree.cycles) + DoneIds(rows);
    var ids :| IsCriticalPathResult(rows, F, exclude, ids,
                 CriticalPathResult(tree.criticalPath, s.criticalPathLength, s.criticalPathMinutes));
  }

  lemma LengthUnique(rows: TicketRows, F: set<Edge>, exclude: set<Id>, a: nat, b: nat)
    requires IsCriticalLength(rows, F, exclude, a) && IsCriticalLength(rows, F, exclude, b)
    ensures a == b
  {
    var N, w := Included(rows, exclude), Weights(rows, exclude);
    var c :| IsCriticalPath(Restrict(F, N), N, w, c) && |c| == a;
    var d :| IsCriticalPath(Restrict(F, N), N, w, d) && |d| == b;
    CriticalPathUnique(Restrict(F, N), N, w, c, d);
  }

  predicate AllUnchanged(a: map<Id, TreeTicket>, b: map<Id, TreeTicket>) {
    a.Keys == b.Keys && forall v | v in a :: TicketUnchanged(a[v], b[v])
  }

  lemma MatchingIsUnchanged(rows: TicketRows, epics: EpicRows, F: set<Edge>, a: map<Id, TreeTicket>, b: map<Id, TreeTicket>)
    requires TicketsListed(rows, epics, F, b) && TicketsMatch(rows, epics, F, a)
    ensures AllUnchanged(a, b)
  {
    forall v | v in a
      ensures TicketUnchanged(a[v], b[v])
    {
      assert b[v] == TreeTicketOf(rows, epics, F, v);
    }
  }

  lemma UnchangedIsMatching(rows: TicketRows, epics: EpicRows, F: set<Edge>, a: map<Id, TreeTicket>, b: map<Id, TreeTicket>)
    requires TicketsListed(rows, epics, F, b) && AllUnchanged(a, b)
    ensures TicketsMatch(rows, epics, F, a)
  {
    forall v | v in rows
      ensures TicketUnchanged(a[v], TreeTicketOf(rows, epics, F, v))
    {
      assert b[v] == TreeTicketOf(rows, epics, F, v);
    }
  }

  lemma EqualMatchesRows(specId: Id, epics: EpicRows, rows: TicketRows, E: set<Edge>,
                         cached: DependencyTree, rebuilt: DependencyTree)
    requires IsTreeOf(specId, epics, rows, E, rebuilt) && StructurallyEqual(cached, rebuilt)
    ensures MatchesRows(specId, epics, rows, E, cached)
  {
    var F := Restrict(E, rows.Keys);
    PathGivesLength(rows, F, rebuilt);
    UnchangedIsMatching(rows, epics, F, cached.tickets, rebuilt.tickets);
  }

  lemma MatchingIsEqual(specId: Id, epics: EpicRows, rows: TicketRows, E: set<Edge>,
                        cached: DependencyTree, rebuilt: DependencyTree)
    requires IsTreeOf(specId, epics, rows, E, rebuilt) && MatchesRows(specId, epics, rows, E, cached)
    ensures StructurallyEqual(cached, rebuilt)
  {
    var F := Restrict(E, rows.Keys);
    PathGivesLength(rows, F, rebuilt);
    MatchingIsUnchanged(rows, epics, F, cached.tickets, rebuilt.tickets);
    CycleListUnique(F, cached.cycles, rebuilt.cycles);
    LengthUnique(rows, F, CycleNodes(cached.cycles) + DoneIds(rows),
                 cached.summary.criticalPathLength, rebuilt.summary.criticalPathLength);
  }

  /** The gate passes a cached tree exactly when its compared parts are what the rows say. */
  lemma GateReadsRows(specId: Id, epics: EpicRows, rows: TicketRows, E: set<Edge>,
                      cached: DependencyTree, rebuilt: DependencyTree)
    requires IsTreeOf(specId, epics, rows, E, rebuilt)
    ensures StructurallyEqual(cached, rebuilt) <==> MatchesRows(specId, epics, rows, E, cached)
  {
    if StructurallyEqual(cached, rebuilt) {
      EqualMatchesRows(specId, epics, rows, E, cached, rebuilt);
    }
    if MatchesRows(specId, epics, rows, E, cached) {
      MatchingIsEqual(specId, epics, rows, E, cached, rebuilt);
    }
  }

  lemma MatchingStatuses(rowsA: TicketRows, rows: TicketRows, epicsA: EpicRows, epics: EpicRows,
                         A: set<Edge>, F: set<Edge>, tickets: map<Id, TreeTicket>)
    requires TicketsListed(rowsA, epicsA, A, tickets) && TicketsMatch(rows, epics, F, tickets)
    requires Within(A, rowsA.Keys) && Within(F, rows.Keys)
    ensures rowsA.Keys == rows.Keys && A == F
    ensures forall v | v in rowsA :: rowsA[v].status == rows[v].status
  {
    forall v | v in rows
      ensures rowsA[v].status == rows[v].status
      ensures Sorted(DepsOf(A, v)) == Sorted(DepsOf(F, v))
    {
      assert tickets[v] == TreeTicketOf(rowsA, epicsA, A, v);
      assert TicketUnchanged(tickets[v], TreeTicketOf(rows, epics, F, v));
    }
    EdgesFromLists(rowsA, rows, A, F);
  }

  lemma DerivedFrom(rowsA: TicketRows, rows: TicketRows, epicsA: EpicRows, epics: EpicRows,
                    A: set<Edge>, F: set<Edge>, tree: DependencyTree)
    requires GraphParts(rowsA, A, tree) && ListParts(rowsA, epicsA, A, tree) && TicketsMatch(rows, epics, F, tree.tickets)
    requires Within(A, rowsA.Keys) && Within(F, rows.Keys)
    ensures IsMaxDepth(Blocking(rows, F, CycleNodes(tree.cycles)), tree.summary.maxBlockerDepth)
    ensures tree.summary.ticketsByStatus == Histogram(rows)
  {
    MatchingStatuses(rowsA, rows, epicsA, epics, A, F, tree.tickets);
    SameStatusesSameDerivations(rowsA, rows, F, CycleNodes(tree.cycles));
  }

  /** So a cached tree that passes also carries the blocker depth and the histogram of the
      current rows, which the gate never looks at. */
  lemma PassingTreeIsCurrent(specId: Id, epics: EpicRows, rows: TicketRows, E: set<Edge>, cached: DependencyTree)
    requires Built(cached) && MatchesRows(specId, epics, rows, E, cached)
    ensures IsMaxDepth(Blocking(rows, Restrict(E, rows.Keys), CycleNodes(cached.cycles)), cached.summary.maxBlockerDepth)
    ensures cached.summary.ticketsByStatus == Histogram(rows)
  {
    var epicsA, rowsA, A := RowsBehind(cached);
    DerivedFrom(rowsA, rows, epicsA, epics, A, Restrict(E, rows.Keys), cached);
  }

  lemma SameContentIsEqual(a: DependencyTree, b: DependencyTree)
    requires a.(version := b.version, generatedAt := b.generatedAt) == b
    ensures StructurallyEqual(a, b)
  {
  }

  /** A rebuild from unchanged rows is structurally equal to the cached tree, so nothing
      is written and no version is bumped. */
  lemma RebuildIsNotAChange(specId: Id, epics: EpicRows, rows: TicketRows, E: set<Edge>,
                            cached: DependencyTree, rebuilt: DependencyTree)
    requires IsTreeOf(specId, epics, rows, E, cached) && IsTreeOf(specId, epics, rows, E, rebuilt)
    ensures ComputeTreeUpdate(Some(cached), rebuilt) == (false, cached)
  {
    TreeUnique(specId, epics, rows, E, cached, rebuilt);
    SameContentIsEqual(cached, rebuilt);
  }
}
