/** What the consistency of a spec means to its readers. */
module RecomputeResults {
  import opened Graph
  import opened Decimal
  import opened Ordering
  import opened Types
  import opened StatusCalculator
  import opened Counts
  import opened TreeSpec
  import opened TreeBuild
  import opened TreeResults
  import opened StoredRows
  import opened Recompute
  import opened Cycles
  import opened BlockerDepth
  import Cascade

  // ---------------------------------------------------------------------------
  // The materialised scalars
  // ---------------------------------------------------------------------------

  lemma NothingOutside(view: SpecView)
    requires ViewClosed(view)
    ensures Restrict(view.edges, Nodes(view).Keys) == view.edges
  {
  }

  /** `critical_path_length` and `max_blocker_depth` are those of the rows as they stand,
      though the gate compares neither the second nor any weight. */
  lemma ScalarsAreFromScratch(specId: Id, spec: SpecRow, view: SpecView)
    requires SpecConsistent(specId, spec, view) && ViewClosed(view)
    ensures IsCycleList(view.edges, spec.tree.value.cycles)
    ensures var cyclic := CycleNodes(spec.tree.value.cycles);
            && IsCriticalLength(Nodes(view), view.edges, cyclic + DoneIds(Nodes(view)), spec.criticalPathLength)
            && IsMaxDepth(Blocking(Nodes(view), view.edges, cyclic), spec.maxBlockerDepth)
  {
    NothingOutside(view);
    PassingTreeIsCurrent(specId, EpicNodes(view), Nodes(view), view.edges, spec.tree.value);
  }

  // ---------------------------------------------------------------------------
  // The ready list
  // ---------------------------------------------------------------------------

  lemma NodesOfMore(rows: TicketRows, ids: seq<Id>, v: Id, s: Status)
    requires (forall w | w in ids :: w in rows) && v in rows
    ensures CountStatus(NodesOf(rows, ids + [v]), s)
            == CountStatus(NodesOf(rows, ids), s) + (if rows[v].status == s then 1 else 0)
  {
    assert NodesOf(rows, ids + [v])[..|ids|] == NodesOf(rows, ids);
  }

  lemma {:induction false} CountIsCardinality(rows: TicketRows, ids: seq<Id>, s: Status)
    requires StrictlySorted(ids) && forall v | v in ids :: v in rows
    ensures CountStatus(NodesOf(rows, ids), s) == |Among(rows, ids, s)|
    decreases |ids|
  {
    if |ids| == 0 {
      assert Among(rows, ids, s) == {};
    } else {
      var init, v := ids[..|ids| - 1], ids[|ids| - 1];
      assert ids == init + [v] && v !in init;
      CountIsCardinality(rows, init, s);
      AmongMore(rows, init, v, s);
      NodesOfMore(rows, init, v, s);
    }
  }

  lemma ReadyCount(view: SpecView)
    ensures CountStatus(NodeList(view), Ready) == |WithStatus(Nodes(view), Ready)|
  {
    var ids, rows := TicketIds(view), Nodes(view);
    CountIsCardinality(rows, ids, Ready);
    assert Among(rows, ids, Ready) == WithStatus(rows, Ready);
  }

  lemma StatesAreStatuses(view: SpecView)
    ensures StatesOf(Nodes(view)) == Statuses(view)
  {
    forall t | t in view.tickets.Keys
      ensures StatesOf(Nodes(view))[t] == Statuses(view)[t]
    {
    }
    MapsAgree(view.tickets.Keys, StatesOf(Nodes(view)), Statuses(view));
  }

  lemma ListedExactly(rows: TicketRows, list: seq<Id>, s: set<Id>)
    requires list == SortBy(Numbers(rows), s)
    ensures |list| == |s| && forall t :: t in list <==> t in s
  {
    assert forall t :: t in list <==> t in Elems(list);
  }

  lemma ListsRead(rows: TicketRows, E: set<Edge>, ready: seq<Id>, blocked: seq<Id>)
    requires ready == SortBy(Numbers(rows), ReadySet(rows, E)) && blocked == SortBy(Numbers(rows), BlockedSet(rows, E))
    requires Within(E, rows.Keys) && Consistent(StatesOf(rows), E)
    ensures forall t :: t in ready <==> t in rows && rows[t].status == Ready
    ensures |ready| == |WithStatus(rows, Ready)|
    ensures forall t | t in rows && rows[t].status == Pending :: t in blocked
  {
    ListsByStatus(rows, E);
    ListedExactly(rows, ready, WithStatus(rows, Ready));
    ListedExactly(rows, blocked, BlockedSet(rows, E));
    forall t | t in rows && rows[t].status == Pending
      ensures t in blocked
    {
      assert t in WithStatus(rows, Pending);
    }
  }

  lemma NodeStatuses(view: SpecView)
    ensures forall t | t in view.tickets :: t in Nodes(view) && Nodes(view)[t].status == view.tickets[t].status
  {
  }

  ghost predicate ReadyListServed(view: SpecView, s: TreeSummary) {
    && SortedByKey(Numbers(Nodes(view)), s.readyTickets)
    && (forall t :: t in s.readyTickets <==> t in view.tickets && view.tickets[t].status == Ready)
    && |s.readyTickets| == CountStatus(NodeList(view), Ready)
    && (forall t | t in view.tickets && view.tickets[t].status == Pending :: t in s.blockedTickets)
  }

  lemma ListsServed(view: SpecView, s: TreeSummary)
    requires Within(view.edges, view.tickets.Keys) && Consistent(Statuses(view), view.edges)
    requires s.readyTickets == SortBy(Numbers(Nodes(view)), ReadySet(Nodes(view), view.edges))
    requires s.blockedTickets == SortBy(Numbers(Nodes(view)), BlockedSet(Nodes(view), view.edges))
    ensures ReadyListServed(view, s)
  {
    StatesAreStatuses(view);
    ReadyCount(view);
    NodeStatuses(view);
    ListsRead(Nodes(view), view.edges, s.readyTickets, s.blockedTickets);
  }

  lemma ConsistentParts(specId: Id, spec: SpecRow, view: SpecView)
    requires SpecConsistent(specId, spec, view)
    ensures Consistent(Statuses(view), view.edges) && spec.tree.Some?
    ensures MatchesRows(specId, EpicNodes(view), Nodes(view), view.edges, spec.tree.value)
    ensures spec.counts.ready == CountStatus(NodeList(view), Ready)
  {
  }

  lemma MatchingLists(specId: Id, epics: EpicRows, rows: TicketRows, E: set<Edge>, tree: DependencyTree)
    requires MatchesRows(specId, epics, rows, E, tree) && Restrict(E, rows.Keys) == E
    ensures tree.summary.readyTickets == SortBy(Numbers(rows), ReadySet(rows, E))
    ensures tree.summary.blockedTickets == SortBy(Numbers(rows), BlockedSet(rows, E))
  {
  }

  /** The cached ready list is exactly the tickets whose status is ready, in ticket-number
      order, and as long as the stored count says; every pending ticket is in the cached
      blocked list. */
  lemma ReadyListIsExact(specId: Id, spec: SpecRow, view: SpecView)
    requires SpecConsistent(specId, spec, view) && ViewClosed(view)
    ensures ReadyListServed(view, spec.tree.value.summary)
    ensures |spec.tree.value.summary.readyTickets| == spec.counts.ready
  {
    ConsistentParts(specId, spec, view);
    NothingOutside(view);
    MatchingLists(specId, EpicNodes(view), Nodes(view), view.edges, spec.tree.value);
    ListsServed(view, spec.tree.value.summary);
  }

  lemma BlockersExact(nodes: TicketRows, edges: seq<Edge>, E: set<Edge>, states: States, t: Id)
    requires Elems(edges) == E && Within(E, nodes.Keys) && StatesOf(nodes) == states && t in states
    requires states[t] == Derived(states, E, t)
    ensures forall d :: d in Blockers(nodes, edges, t) <==> Edge(t, d) in E && nodes[d].status != Done
    ensures states[t] == Pending ==> Blockers(nodes, edges, t) != []
  {
    var deps := Cascade.FirstSeen(Cascade.Targets(edges, t));
    forall d
      ensures d in deps <==> Edge(t, d) in E
    {
      assert d in deps <==> d in Elems(deps);
      DepsOfEdge(E, Edge(t, d));
    }
    if states[t] == Pending {
      var d :| d in DepsOf(E, t) && Lookup(states, d) != Done;
      assert d in Blockers(nodes, edges, t);
    }
  }

  lemma ReasonWritten(specId: Id, spec: SpecRow, view: SpecView, t: Id)
    requires SpecConsistent(specId, spec, view) && t in view.tickets
    ensures Consistent(Statuses(view), view.edges)
    ensures view.tickets[t].blockReason == BlockReason(Nodes(view), EdgeRows(view), t, view.tickets[t].status)
  {
  }

  ghost predicate ReasonExact(view: SpecView, t: Id, row: TicketRow, blockers: seq<Id>) {
    && Distinct(blockers)
    && (forall d :: d in blockers <==> Edge(t, d) in view.edges && d in view.tickets && view.tickets[d].status != Done)
    && row.blockReason == (if row.status == Pending then Some(FormatBlockReason(Nodes(view), blockers)) else None)
  }

  lemma ReasonFrom(view: SpecView, t: Id)
    requires ViewClosed(view) && t in view.tickets && Consistent(Statuses(view), view.edges)
    requires view.tickets[t].blockReason == BlockReason(Nodes(view), EdgeRows(view), t, view.tickets[t].status)
    ensures ReasonExact(view, t, view.tickets[t], Blockers(Nodes(view), EdgeRows(view), t))
  {
    EdgeRowsExact(view);
    StatesAreStatuses(view);
    NodeStatuses(view);
    BlockersExact(Nodes(view), EdgeRows(view), view.edges, Statuses(view), t);
    BlockersDistinct(Nodes(view), EdgeRows(view), t);
  }

  /** A pending ticket's block reason names each unfinished dependency once, and no other
      ticket has a block reason. */
  lemma BlockReasonIsExact(specId: Id, spec: SpecRow, view: SpecView, t: Id)
    requires SpecConsistent(specId, spec, view) && ViewClosed(view) && t in view.tickets
    ensures ReasonExact(view, t, view.tickets[t], Blockers(Nodes(view), EdgeRows(view), t))
  {
    ReasonWritten(specId, spec, view, t);
    ReasonFrom(view, t);
  }

  lemma {:induction false} UnfinishedDistinct(states: States, deps: seq<Id>)
    requires Distinct(deps)
    ensures Distinct(Cascade.Unfinished(states, deps))
  {
    if |deps| > 0 {
      UnfinishedDistinct(states, deps[..|deps| - 1]);
    }
  }

  lemma BlockersDistinct(nodes: TicketRows, edges: seq<Edge>, t: Id)
    ensures Distinct(Blockers(nodes, edges, t))
  {
    UnfinishedDistinct(StatesOf(nodes), Cascade.FirstSeen(Cascade.Targets(edges, t)));
  }

  // ---------------------------------------------------------------------------
  // The words of a block reason
  // ---------------------------------------------------------------------------

  /** The blocker's title, or its id when the title is missing or empty. */
  ghost predicate Named(nodes: TicketRows, b: Id, name: string) {
    && (b in nodes && nodes[b].title.Some? && nodes[b].title.value != "" ==> name == nodes[b].title.value)
    && (b !in nodes || nodes[b].title.None? || nodes[b].title.value == "" ==> name == NatToString(b))
  }

  lemma {:induction false} JoinMore(names: seq<string>, last: string)
    requires |names| > 0
    ensures Join(names + [last]) == Join(names) + ", " + last
    decreases |names|
  {
    if |names| == 1 {
      assert (names + [last])[1..] == [last];
    } else {
      JoinMore(names[1..], last);
      assert (names + [last])[1..] == names[1..] + [last];
    }
  }

  /** One blocker is a dependency. */
  lemma ReasonForOne(nodes: TicketRows, b: Id)
    ensures exists name :: Named(nodes, b, name) && FormatBlockReason(nodes, [b]) == "Blocked by 1 dependency: " + name
  {
    assert Named(nodes, b, NameOf(nodes, b));
    assert NatToString(1) == "1" && Names(nodes, [b]) == [NameOf(nodes, b)];
    assert "Blocked by " + "1" + " dependency: " == "Blocked by 1 dependency: ";
  }

  /** Several are dependencies, and the last one comes after a comma and a space. */
  lemma ReasonForMore(nodes: TicketRows, bs: seq<Id>, b: Id)
    requires |bs| > 0
    ensures Named(nodes, b, NameOf(nodes, b))
    ensures FormatBlockReason(nodes, bs + [b])
            == "Blocked by " + NatToString(|bs| + 1) + " dependencies: " + (Join(Names(nodes, bs)) + ", " + NameOf(nodes, b))
  {
    NamesMore(nodes, bs, b);
    JoinMore(Names(nodes, bs), NameOf(nodes, b));
    assert |bs + [b]| == |bs| + 1;
  }

  lemma NamesMore(nodes: TicketRows, bs: seq<Id>, b: Id)
    ensures Names(nodes, bs + [b]) == Names(nodes, bs) + [NameOf(nodes, b)]
  {
  }

  // ---------------------------------------------------------------------------
  // Conservation between the levels
  // ---------------------------------------------------------------------------

  type Measure = TicketNode -> int

  function Total(nodes: seq<TicketNode>, m: Measure): int {
    if |nodes| == 0 then 0 else Total(nodes[..|nodes| - 1], m) + m(nodes[|nodes| - 1])
  }

  function TotalByEpic(nodes: seq<TicketNode>, ids: seq<Id>, m: Measure): int {
    if |ids| == 0 then 0
    else TotalByEpic(nodes, ids[..|ids| - 1], m) + Total(NodesIn(nodes, ids[|ids| - 1]), m)
  }

  lemma TotalAppend(nodes: seq<TicketNode>, t: TicketNode, m: Measure)
    ensures Total(nodes + [t], m) == Total(nodes, m) + m(t)
  {
    assert (nodes + [t])[..|nodes|] == nodes;
  }

  lemma {:induction false} LastNodeCountsOnce(nodes: seq<TicketNode>, ids: seq<Id>, m: Measure)
    requires |nodes| > 0 && Distinct(ids)
    ensures var n := |nodes| - 1;
            TotalByEpic(nodes, ids, m)
            == TotalByEpic(nodes[..n], ids, m)
               + (if nodes[n].epicId.Some? && nodes[n].epicId.value in ids then m(nodes[n]) else 0)
    decreases |ids|
  {
    if |ids| > 0 {
      var init, e := ids[..|ids| - 1], ids[|ids| - 1];
      LastNodeCountsOnce(nodes, init, m);
      var n := |nodes| - 1;
      assert NodesIn(nodes, e)
             == if nodes[n].epicId == Some(e) then NodesIn(nodes[..n], e) + [nodes[n]] else NodesIn(nodes[..n], e);
      TotalAppend(NodesIn(nodes[..n], e), nodes[n], m);
      assert forall k :: k in ids <==> k in init || k == e;
      assert e !in init;
    }
  }

  lemma {:induction false} NothingToCount(ids: seq<Id>, m: Measure)
    ensures TotalByEpic([], ids, m) == 0
    decreases |ids|
  {
    if |ids| > 0 {
      NothingToCount(ids[..|ids| - 1], m);
    }
  }

  /** Every ticket is counted in exactly one epic. */
  lemma {:induction false} EpicsPartitionTheTotal(nodes: seq<TicketNode>, ids: seq<Id>, m: Measure)
    requires Distinct(ids) && forall t | t in nodes :: t.epicId.Some? && t.epicId.value in ids
    ensures TotalByEpic(nodes, ids, m) == Total(nodes, m)
    decreases |nodes|
  {
    if |nodes| == 0 {
      assert nodes == [];
      NothingToCount(ids, m);
    } else {
      var n := |nodes| - 1;
      assert nodes[n] in nodes;
      assert forall t | t in nodes[..n] :: t in nodes;
      EpicsPartitionTheTotal(nodes[..n], ids, m);
      LastNodeCountsOnce(nodes, ids, m);
    }
  }

  function Has(s: Status): Measure {
    (t: TicketNode) => if t.status == s then 1 else 0
  }

  function Minutes(): Measure {
    (t: TicketNode) => if t.estimatedMinutes.Some? then t.estimatedMinutes.value else 0
  }

  function One(): Measure {
    (t: TicketNode) => 1
  }

  lemma {:induction false} TalliesAreTotals(nodes: seq<TicketNode>, s: Status)
    ensures CountStatus(nodes, s) == Total(nodes, Has(s))
    ensures Estimates(nodes) == Total(nodes, Minutes()) && |nodes| == Total(nodes, One())
    decreases |nodes|
  {
    if |nodes| > 0 {
      TalliesAreTotals(nodes[..|nodes| - 1], s);
    }
  }

  /** One column summed over the epics. */
  function SumEpics(epics: map<Id, EpicRow>, ids: seq<Id>, column: EpicCounts -> int): int
    requires forall e | e in ids :: e in epics
  {
    if |ids| == 0 then 0
    else SumEpics(epics, ids[..|ids| - 1], column) + column(epics[ids[|ids| - 1]].counts)
  }

  lemma {:induction false} ColumnSums(epics: map<Id, EpicRow>, nodes: seq<TicketNode>, ids: seq<Id>,
                                      column: EpicCounts -> int, m: Measure)
    requires forall e | e in ids :: e in epics && column(epics[e].counts) == Total(NodesIn(nodes, e), m)
    ensures SumEpics(epics, ids, column) == TotalByEpic(nodes, ids, m)
    decreases |ids|
  {
    if |ids| > 0 {
      assert forall e | e in ids[..|ids| - 1] :: e in ids;
      ColumnSums(epics, nodes, ids[..|ids| - 1], column, m);
      assert ids[|ids| - 1] in ids;
    }
  }

  ghost predicate EpicTallies(epics: map<Id, EpicRow>, nodes: seq<TicketNode>) {
    forall e | e in epics :: epics[e].counts == EpicCountsOf(NodesIn(nodes, e))
  }

  lemma EpicsTallied(view: SpecView)
    requires EpicsDerived(view)
    ensures EpicTallies(view.epics, NodeList(view))
  {
    forall e | e in view.epics
      ensures view.epics[e].counts == EpicCountsOf(NodesIn(NodeList(view), e))
    {
      assert view.epics[e] == DerivedEpic(view.epics[e], e, EpicNodeList(view, e), TicketEpic(view),
                                          EdgeRows(view), RefRows(view));
    }
  }

  lemma ColumnTotal(epics: map<Id, EpicRow>, nodes: seq<TicketNode>, ids: seq<Id>, column: EpicCounts -> int, m: Measure)
    requires EpicTallies(epics, nodes) && Distinct(ids) && forall e :: e in ids <==> e in epics
    requires forall t | t in nodes :: t.epicId.Some? && t.epicId.value in epics
    requires forall list: seq<TicketNode> :: column(EpicCountsOf(list)) == Total(list, m)
    ensures SumEpics(epics, ids, column) == Total(nodes, m)
  {
    ColumnSums(epics, nodes, ids, column, m);
    EpicsPartitionTheTotal(nodes, ids, m);
  }

  lemma NodesHaveEpics(view: SpecView)
    requires ViewClosed(view)
    ensures forall t | t in NodeList(view) :: t.epicId.Some? && t.epicId.value in view.epics
  {
  }

  /** Summed over its epics, every ticket count and the minutes give the spec's own. */
  lemma EpicColumnsSumToSpec(view: SpecView, sc: SpecCounts)
    requires EpicsDerived(view) && ViewClosed(view)
    requires sc == SpecCountsOf(EpicStatuses(view, EpicIds(view)), NodeList(view))
    ensures var ids := EpicIds(view);
            && SumEpics(view.epics, ids, (c: EpicCounts) => c.ticketCount) == sc.ticketCount
            && SumEpics(view.epics, ids, (c: EpicCounts) => c.pending) == sc.pending
            && SumEpics(view.epics, ids, (c: EpicCounts) => c.ready) == sc.ready
            && SumEpics(view.epics, ids, (c: EpicCounts) => c.active) == sc.active
            && SumEpics(view.epics, ids, (c: EpicCounts) => c.completed) == sc.completed
            && SumEpics(view.epics, ids, (c: EpicCounts) => c.estimatedMinutes) == sc.estimatedMinutes
  {
    var ids, nodes := EpicIds(view), NodeList(view);
    EpicsTallied(view);
    NodesHaveEpics(view);
    assert Distinct(ids);
    forall list: seq<TicketNode>, s: Status {
      TalliesAreTotals(list, s);
    }
    ColumnTotal(view.epics, nodes, ids, (c: EpicCounts) => c.ticketCount, One());
    ColumnTotal(view.epics, nodes, ids, (c: EpicCounts) => c.pending, Has(Pending));
    ColumnTotal(view.epics, nodes, ids, (c: EpicCounts) => c.ready, Has(Ready));
    ColumnTotal(view.epics, nodes, ids, (c: EpicCounts) => c.active, Has(Active));
    ColumnTotal(view.epics, nodes, ids, (c: EpicCounts) => c.completed, Has(Done));
    ColumnTotal(view.epics, nodes, ids, (c: EpicCounts) => c.estimatedMinutes, Minutes());
  }
}
