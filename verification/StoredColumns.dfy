/** Every stored count of a consistent spec and of its project, read off the rows as the
    size of a set of them. */
module StoredColumns {
  import opened Graph
  import opened Ordering
  import opened Types
  import opened Counts
  import opened TreeSpec
  import opened TreeBuild
  import opened TreeRows
  import opened StoredRows
  import opened Recompute
  import opened RecomputeResults
  import opened Rows
  import opened StaleCases

  // ---------------------------------------------------------------------------
  // The tickets of an epic
  // ---------------------------------------------------------------------------

  ghost function InEpic(rows: TicketRows, ids: seq<Id>, e: Id): set<Id> {
    set v | v in ids && v in rows && rows[v].epicId == Some(e)
  }

  ghost function InEpicWith(rows: TicketRows, ids: seq<Id>, e: Id, s: Status): set<Id> {
    set v | v in ids && v in rows && rows[v].epicId == Some(e) && rows[v].status == s
  }

  /** The given estimates of the epic's tickets, added up. */
  function EpicMinutes(rows: TicketRows, ids: seq<Id>, e: Id): int {
    if |ids| == 0 then 0
    else
      var v := ids[|ids| - 1];
      EpicMinutes(rows, ids[..|ids| - 1], e)
      + (if v in rows && rows[v].epicId == Some(e) && rows[v].estimatedMinutes.Some?
         then rows[v].estimatedMinutes.value else 0)
  }

  lemma InEpicMore(rows: TicketRows, ids: seq<Id>, v: Id, e: Id)
    requires v !in ids && v in rows
    ensures |InEpic(rows, ids + [v], e)| == |InEpic(rows, ids, e)| + (if rows[v].epicId == Some(e) then 1 else 0)
  {
    if rows[v].epicId == Some(e) {
      assert InEpic(rows, ids + [v], e) == InEpic(rows, ids, e) + {v};
    } else {
      assert InEpic(rows, ids + [v], e) == InEpic(rows, ids, e);
    }
  }

  lemma InEpicWithMore(rows: TicketRows, ids: seq<Id>, v: Id, e: Id, s: Status)
    requires v !in ids && v in rows
    ensures |InEpicWith(rows, ids + [v], e, s)|
            == |InEpicWith(rows, ids, e, s)| + (if rows[v].epicId == Some(e) && rows[v].status == s then 1 else 0)
  {
    if rows[v].epicId == Some(e) && rows[v].status == s {
      assert InEpicWith(rows, ids + [v], e, s) == InEpicWith(rows, ids, e, s) + {v};
    } else {
      assert InEpicWith(rows, ids + [v], e, s) == InEpicWith(rows, ids, e, s);
    }
  }

  lemma EpicListMore(rows: TicketRows, init: seq<Id>, v: Id, e: Id)
    requires (forall w | w in init :: w in rows) && v in rows
    ensures NodesIn(NodesOf(rows, init + [v]), e)
            == if rows[v].epicId == Some(e) then NodesIn(NodesOf(rows, init), e) + [rows[v]]
               else NodesIn(NodesOf(rows, init), e)
  {
    assert NodesOf(rows, init + [v])[..|init|] == NodesOf(rows, init);
  }

  lemma TallyMore(list: seq<TicketNode>, t: TicketNode, s: Status)
    ensures CountStatus(list + [t], s) == CountStatus(list, s) + (if t.status == s then 1 else 0)
    ensures Estimates(list + [t]) == Estimates(list) + (if t.estimatedMinutes.Some? then t.estimatedMinutes.value else 0)
  {
    assert (list + [t])[..|list|] == list;
  }

  /** The list `list` holds the epic's tickets among `ids`. */
  ghost predicate Sizes(rows: TicketRows, ids: seq<Id>, e: Id, s: Status, list: seq<TicketNode>) {
    && |list| == |InEpic(rows, ids, e)| && CountStatus(list, s) == |InEpicWith(rows, ids, e, s)|
    && Estimates(list) == EpicMinutes(rows, ids, e)
  }

  lemma NoSizes(rows: TicketRows, e: Id, s: Status)
    ensures Sizes(rows, [], e, s, [])
  {
    assert InEpic(rows, [], e) == {} && InEpicWith(rows, [], e, s) == {};
  }

  lemma SizesMore(rows: TicketRows, init: seq<Id>, v: Id, e: Id, s: Status, list: seq<TicketNode>)
    requires v !in init && v in rows && Sizes(rows, init, e, s, list)
    ensures Sizes(rows, init + [v], e, s, if rows[v].epicId == Some(e) then list + [rows[v]] else list)
  {
    InEpicMore(rows, init, v, e);
    InEpicWithMore(rows, init, v, e, s);
    TallyMore(list, rows[v], s);
    assert (init + [v])[..|init|] == init;
  }

  lemma {:induction false} EpicSizes(rows: TicketRows, ids: seq<Id>, e: Id, s: Status)
    requires StrictlySorted(ids) && forall v | v in ids :: v in rows
    ensures Sizes(rows, ids, e, s, NodesIn(NodesOf(rows, ids), e))
    decreases |ids|
  {
    if |ids| == 0 {
      NoSizes(rows, e, s);
      assert ids == [] && NodesOf(rows, ids) == [];
    } else {
      var init, v := ids[..|ids| - 1], ids[|ids| - 1];
      assert ids == init + [v] && v !in init;
      EpicSizes(rows, init, e, s);
      EpicListMore(rows, init, v, e);
      SizesMore(rows, init, v, e, s, NodesIn(NodesOf(rows, init), e));
    }
  }

  lemma {:induction false} AllMinutes(rows: TicketRows, ids: seq<Id>)
    requires forall v | v in ids :: v in rows
    ensures Estimates(NodesOf(rows, ids)) == GivenMinutes(rows, ids)
    decreases |ids|
  {
    if |ids| > 0 {
      var init, v := ids[..|ids| - 1], ids[|ids| - 1];
      AllMinutes(rows, init);
      assert NodesOf(rows, ids) == NodesOf(rows, init) + [rows[v]];
      TallyMore(NodesOf(rows, init), rows[v], Done);
    }
  }

  // ---------------------------------------------------------------------------
  // Tickets of a view
  // ---------------------------------------------------------------------------

  ghost function TicketsOfEpic(view: SpecView, e: Id): set<Id> {
    set t | t in view.tickets && view.tickets[t].epicId == e
  }

  ghost function Having(view: SpecView, ts: set<Id>, s: Status): set<Id> {
    set t | t in ts && t in view.tickets && view.tickets[t].status == s
  }

  /** Some ticket of the epic is active or done. */
  ghost predicate Started(view: SpecView, e: Id) {
    exists t :: t in view.tickets && view.tickets[t].epicId == e
                && (view.tickets[t].status == Active || view.tickets[t].status == Done)
  }

  /** The epic has tickets, and at most one in two hundred of them is not done. */
  ghost predicate Finished(view: SpecView, e: Id) {
    var n := |TicketsOfEpic(view, e)|;
    n > 0 && 200 * (n - |Having(view, TicketsOfEpic(view, e), Done)|) <= n
  }

  ghost function StartedEpics(view: SpecView): set<Id> {
    set e | e in view.epics && Started(view, e)
  }

  ghost function FinishedEpics(view: SpecView): set<Id> {
    set e | e in view.epics && Finished(view, e)
  }

  /** `p` is the percentage `c` is of `t`, rounded half up, and 0 of nothing. */
  ghost predicate IsPercentage(p: int, c: nat, t: nat) {
    (t == 0 ==> p == 0) && (t > 0 ==> 2 * t * p <= 200 * c + t < 2 * t * (p + 1))
  }

  lemma ViewSets(view: SpecView, e: Id, s: Status)
    ensures InEpic(Nodes(view), TicketIds(view), e) == TicketsOfEpic(view, e)
    ensures InEpicWith(Nodes(view), TicketIds(view), e, s) == Having(view, TicketsOfEpic(view, e), s)
  {
  }

  lemma EpicListSizes(view: SpecView, e: Id, s: Status)
    ensures var list := EpicNodeList(view, e);
            && |list| == |TicketsOfEpic(view, e)| && CountStatus(list, s) == |Having(view, TicketsOfEpic(view, e), s)|
            && Estimates(list) == EpicMinutes(Nodes(view), TicketIds(view), e)
  {
    EpicSizes(Nodes(view), TicketIds(view), e, s);
    ViewSets(view, e, s);
  }

  lemma {:induction false} EpicListMembers(nodes: seq<TicketNode>, e: Id)
    ensures forall t :: t in NodesIn(nodes, e) <==> t in nodes && t.epicId == Some(e)
    decreases |nodes|
  {
    if |nodes| > 0 {
      var init, last := nodes[..|nodes| - 1], nodes[|nodes| - 1];
      EpicListMembers(init, e);
      assert nodes == init + [last];
    }
  }

  lemma NodeListHas(view: SpecView, t: Id)
    requires t in view.tickets
    ensures TicketNodeOf(t, view.tickets[t]) in NodeList(view)
  {
    var ids, list := TicketIds(view), NodeList(view);
    assert t in ids;
    var i :| 0 <= i < |ids| && ids[i] == t;
    assert list[i] == TicketNodeOf(t, view.tickets[t]);
  }

  lemma NodeListFrom(view: SpecView, n: TicketNode) returns (t: Id)
    requires n in NodeList(view)
    ensures t in view.tickets && n == TicketNodeOf(t, view.tickets[t])
  {
    var ids, list := TicketIds(view), NodeList(view);
    var i :| 0 <= i < |list| && list[i] == n;
    t := ids[i];
    assert t in ids;
  }

  lemma StartedIff(view: SpecView, e: Id)
    ensures (exists n :: n in EpicNodeList(view, e) && (n.status == Active || n.status == Done)) <==> Started(view, e)
  {
    EpicListMembers(NodeList(view), e);
    if Started(view, e) {
      var t :| t in view.tickets && view.tickets[t].epicId == e
               && (view.tickets[t].status == Active || view.tickets[t].status == Done);
      NodeListHas(view, t);
      assert TicketNodeOf(t, view.tickets[t]) in EpicNodeList(view, e);
    }
    if exists n :: n in EpicNodeList(view, e) && (n.status == Active || n.status == Done) {
      var n :| n in EpicNodeList(view, e) && (n.status == Active || n.status == Done);
      var t := NodeListFrom(view, n);
    }
  }

  /** The status of an epic of the view. */
  lemma EpicStatusIs(view: SpecView, e: Id, s: EpicStatus)
    requires s == EpicCountsOf(EpicNodeList(view, e)).status
    ensures (s == Completed <==> Finished(view, e)) && (s == Todo <==> !Started(view, e))
  {
    var list := EpicNodeList(view, e);
    EpicListSizes(view, e, Done);
    EpicCompletedIff(list);
    EpicTodoIff(list);
    StartedIff(view, e);
  }

  // ---------------------------------------------------------------------------
  // Nodes
  // ---------------------------------------------------------------------------

  /** The engine reads a ticket's own status, estimate, epic, number and title ... */
  lemma TicketNodeCarries(view: SpecView, t: Id)
    requires t in view.tickets
    ensures var n, row := Nodes(view)[t], view.tickets[t];
            && n.id == t && n.status == row.status && n.estimatedMinutes == row.estimate
            && n.epicId == Some(row.epicId) && n.ticketNumber == row.number && n.title == Some(row.title)
  {
    NodeListHas(view, t);
  }

  /** ... and an epic's own number and title. */
  lemma EpicNodeCarries(view: SpecView, e: Id)
    requires e in view.epics
    ensures var n, row := EpicNodes(view)[e], view.epics[e];
            n.id == e && n.epicNumber == Some(row.number) && n.title == Some(row.title)
  {
    assert EpicNodes(view)[e].id == e;
  }

  /** The estimates of the tickets, added up. */
  function SpecMinutes(tickets: map<Id, TicketRow>, ids: seq<Id>): int {
    if |ids| == 0 then 0
    else
      var v := ids[|ids| - 1];
      SpecMinutes(tickets, ids[..|ids| - 1])
      + (if v in tickets && tickets[v].estimate.Some? then tickets[v].estimate.value else 0)
  }

  /** The estimates of the epic's tickets, added up. */
  function MinutesIn(tickets: map<Id, TicketRow>, ids: seq<Id>, e: Id): int {
    if |ids| == 0 then 0
    else
      var v := ids[|ids| - 1];
      MinutesIn(tickets, ids[..|ids| - 1], e)
      + (if v in tickets && tickets[v].epicId == e && tickets[v].estimate.Some? then tickets[v].estimate.value else 0)
  }

  lemma {:induction false} MinutesRead(view: SpecView, ids: seq<Id>, e: Id)
    requires forall t | t in ids :: t in view.tickets
    ensures EpicMinutes(Nodes(view), ids, e) == MinutesIn(view.tickets, ids, e)
    ensures GivenMinutes(Nodes(view), ids) == SpecMinutes(view.tickets, ids)
    decreases |ids|
  {
    if |ids| > 0 {
      MinutesRead(view, ids[..|ids| - 1], e);
      TicketNodeCarries(view, ids[|ids| - 1]);
    }
  }

  // ---------------------------------------------------------------------------
  // Edges and links
  // ---------------------------------------------------------------------------

  ghost function EdgesTo(E: set<Edge>, t: Id): set<Edge> {
    set d | d in E && d.dst == t
  }

  ghost function EdgesOf(E: set<Edge>, t: Id): set<Edge> {
    set d | d in E && d.src == t
  }

  /** Both ends belong to the epic. */
  ghost predicate Both(m: map<Id, Id>, d: Edge, e: Id) {
    d.src in m && m[d.src] == e && d.dst in m && m[d.dst] == e
  }

  ghost function EdgesWithin(E: set<Edge>, m: map<Id, Id>, e: Id): set<Edge> {
    set d | d in E && Both(m, d, e)
  }

  lemma SplitLast(edges: seq<Edge>) returns (init: seq<Edge>, e: Edge)
    requires Distinct(edges) && |edges| > 0
    ensures init == edges[..|edges| - 1] && e == edges[|edges| - 1]
    ensures Distinct(init) && e !in Elems(init) && Elems(edges) == Elems(init) + {e}
  {
    init, e := edges[..|edges| - 1], edges[|edges| - 1];
    assert edges == init + [e];
    forall i, j | 0 <= i < j < |init|
      ensures init[i] != init[j]
    {
      assert edges[i] != edges[j];
    }
    forall i | 0 <= i < |init|
      ensures init[i] != e
    {
      assert edges[i] != edges[|edges| - 1];
    }
  }

  lemma OneMoreEdge(a: set<Edge>, b: set<Edge>, e: Edge, more: bool)
    requires e !in a && forall d :: d in b <==> d in a || (more && d == e)
    ensures |b| == |a| + (if more then 1 else 0)
  {
    assert b == if more then a + {e} else a;
  }

  lemma {:induction false} IncomingIsSize(edges: seq<Edge>, v: Id)
    requires Distinct(edges)
    ensures Incoming(edges, v) == |EdgesTo(Elems(edges), v)|
    decreases |edges|
  {
    if |edges| == 0 {
      assert EdgesTo(Elems(edges), v) == {};
    } else {
      var init, e := SplitLast(edges);
      IncomingIsSize(init, v);
      OneMoreEdge(EdgesTo(Elems(init), v), EdgesTo(Elems(edges), v), e, e.dst == v);
    }
  }

  lemma {:induction false} OutgoingIsSize(edges: seq<Edge>, v: Id)
    requires Distinct(edges)
    ensures Outgoing(edges, v) == |EdgesOf(Elems(edges), v)|
    decreases |edges|
  {
    if |edges| == 0 {
      assert EdgesOf(Elems(edges), v) == {};
    } else {
      var init, e := SplitLast(edges);
      OutgoingIsSize(init, v);
      OneMoreEdge(EdgesOf(Elems(init), v), EdgesOf(Elems(edges), v), e, e.src == v);
    }
  }

  lemma WithinMore(E: set<Edge>, e: Edge, m: map<Id, Id>, k: Id)
    requires e !in E
    ensures |EdgesWithin(E + {e}, m, k)| == |EdgesWithin(E, m, k)| + (if Both(m, e, k) then 1 else 0)
  {
    OneMoreEdge(EdgesWithin(E, m, k), EdgesWithin(E + {e}, m, k), e, Both(m, e, k));
  }

  lemma {:induction false} IntraIsSize(edges: seq<Edge>, m: map<Id, Id>, k: Id)
    requires Distinct(edges)
    ensures IntraEpic(edges, m, k) == |EdgesWithin(Elems(edges), m, k)|
    decreases |edges|
  {
    if |edges| == 0 {
      assert EdgesWithin(Elems(edges), m, k) == {};
    } else {
      var init, e := SplitLast(edges);
      IntraIsSize(init, m, k);
      WithinMore(Elems(init), e, m, k);
    }
  }

  lemma EdgeRowsDistinct(view: SpecView)
    requires ViewClosed(view)
    ensures Distinct(EdgeRows(view)) && Elems(EdgeRows(view)) == view.edges && |EdgeRows(view)| == |view.edges|
  {
    var list := EdgeRows(view);
    CanonicalEdgesOrdered(TicketIds(view), view.edges);
    EdgeRowsExact(view);
    forall i, j | 0 <= i < j < |list|
      ensures list[i] != list[j]
    {
      assert EdgeLess(list[i], list[j]);
    }
    DistinctLength(list);
  }

  lemma {:induction false} RefsFromMembers(ids: seq<Id>, refs: set<BlueprintRef>)
    ensures forall r :: r in RefsFrom(ids, refs) <==> r in refs && r.ticketId in ids
    decreases |ids|
  {
    if |ids| > 0 {
      var init, t := ids[..|ids| - 1], ids[|ids| - 1];
      RefsFromMembers(init, refs);
      assert ids == init + [t];
      forall r
        ensures r in ToRefs(t, Sorted(BlueprintsOf(refs, t))) <==> r in refs && r.ticketId == t
      {
        LinksOf(refs, t, r);
      }
    }
  }

  lemma LinksOf(refs: set<BlueprintRef>, t: Id, r: BlueprintRef)
    ensures r in ToRefs(t, Sorted(BlueprintsOf(refs, t))) <==> r in refs && r.ticketId == t
  {
    var bs := Sorted(BlueprintsOf(refs, t));
    assert forall b :: b in bs <==> b in Elems(bs);
    if r in refs && r.ticketId == t {
      assert r.blueprintId in bs;
      var i :| 0 <= i < |bs| && bs[i] == r.blueprintId;
      assert ToRefs(t, bs)[i] == r;
    }
    if r in ToRefs(t, bs) {
      var i :| 0 <= i < |bs| && ToRefs(t, bs)[i] == r;
      assert bs[i] in bs;
      var q :| q in refs && q.ticketId == t && q.blueprintId == bs[i];
      assert q == r;
    }
  }

  lemma RefRowsExact(view: SpecView)
    requires ViewClosed(view)
    ensures forall r :: r in RefRows(view) <==> r in view.refs
  {
    RefsFromMembers(TicketIds(view), view.refs);
  }

  ghost function LinksOfEpic(view: SpecView, e: Id): set<Id> {
    set r | r in view.refs && r.ticketId in TicketsOfEpic(view, e) :: r.blueprintId
  }

  lemma EpicLinks(view: SpecView, e: Id)
    requires ViewClosed(view)
    ensures EpicBlueprints(RefRows(view), TicketEpic(view), e) == LinksOfEpic(view, e)
  {
    RefRowsExact(view);
  }

  // ---------------------------------------------------------------------------
  // The columns of a ticket
  // ---------------------------------------------------------------------------

  ghost function LinksOfTicket(view: SpecView, t: Id): set<Id> {
    set r | r in view.refs && r.ticketId == t :: r.blueprintId
  }

  /** Progress, dependency counts and blueprint count of a stored ticket. */
  ghost predicate TicketColumnsShow(view: SpecView, t: Id)
    requires t in view.tickets
  {
    var row := view.tickets[t];
    && row.progress == (if row.status == Done then 100 else 0)
    && row.incoming == |EdgesTo(view.edges, t)| && row.outgoing == |EdgesOf(view.edges, t)|
    && row.blueprintCount == |LinksOfTicket(view, t)|
  }

  lemma DerivedTicketParts(row: TicketRow, t: Id, nodes: TicketRows, edges: seq<Edge>, refs: seq<BlueprintRef>)
    ensures var d := DerivedTicket(row, t, nodes, edges, refs);
            && d.progress == (if row.status == Done then 100 else 0) && d.status == row.status
            && d.incoming == Incoming(edges, t) && d.outgoing == Outgoing(edges, t)
            && d.blueprintCount == RefsOf(refs, t)
  {
  }

  lemma TicketFrom(view: SpecView, t: Id)
    requires ViewClosed(view) && t in view.tickets
    requires view.tickets[t] == DerivedTicket(view.tickets[t], t, Nodes(view), EdgeRows(view), RefRows(view))
    ensures TicketColumnsShow(view, t)
  {
    DerivedTicketParts(view.tickets[t], t, Nodes(view), EdgeRows(view), RefRows(view));
    EdgeRowsDistinct(view);
    IncomingIsSize(EdgeRows(view), t);
    OutgoingIsSize(EdgeRows(view), t);
    RefsFromCount(TicketIds(view), view.refs, t);
    assert BlueprintsOf(view.refs, t) == LinksOfTicket(view, t);
  }

  lemma TicketColumns(specId: Id, spec: SpecRow, view: SpecView, t: Id)
    requires SpecConsistent(specId, spec, view) && ViewClosed(view) && t in view.tickets
    ensures TicketColumnsShow(view, t)
  {
    TicketFrom(view, t);
  }

  // ---------------------------------------------------------------------------
  // The columns of an epic
  // ---------------------------------------------------------------------------

  ghost predicate TallyShows(list: seq<TicketNode>, c: EpicCounts) {
    && c.ticketCount == |list| && c.pending == CountStatus(list, Pending) && c.ready == CountStatus(list, Ready)
    && c.active == CountStatus(list, Active) && c.completed == CountStatus(list, Done)
    && c.estimatedMinutes == Estimates(list) && IsPercentage(c.progress, CountStatus(list, Done), |list|)
  }

  lemma EpicCountsShow(list: seq<TicketNode>)
    ensures TallyShows(list, EpicCountsOf(list))
  {
    ProgressIsRounded(CountStatus(list, Done), |list|);
  }

  /** The stored counts of an epic: sizes of sets of its tickets, with its progress and
      status. */
  ghost predicate EpicTicketsShow(view: SpecView, e: Id, c: EpicCounts) {
    var T := TicketsOfEpic(view, e);
    && c.ticketCount == |T| && c.pending == |Having(view, T, Pending)| && c.ready == |Having(view, T, Ready)|
    && c.active == |Having(view, T, Active)| && c.completed == |Having(view, T, Done)|
    && c.estimatedMinutes == MinutesIn(view.tickets, TicketIds(view), e)
    && IsPercentage(c.progress, |Having(view, T, Done)|, |T|)
    && (c.status == Completed <==> Finished(view, e)) && (c.status == Todo <==> !Started(view, e))
  }

  ghost predicate EpicColumnsShow(view: SpecView, e: Id)
    requires e in view.epics
  {
    && EpicTicketsShow(view, e, view.epics[e].counts)
    && view.epics[e].dependencyCount == |EdgesInside(view, e)|
    && view.epics[e].blueprintCount == |LinksOfEpic(view, e)|
  }

  lemma EpicTickets(view: SpecView, e: Id, c: EpicCounts)
    requires TallyShows(EpicNodeList(view, e), c)
    requires (c.status == Completed <==> Finished(view, e)) && (c.status == Todo <==> !Started(view, e))
    ensures EpicTicketsShow(view, e, c)
  {
    EpicListSizes(view, e, Pending);
    EpicListSizes(view, e, Ready);
    EpicListSizes(view, e, Active);
    EpicListSizes(view, e, Done);
    MinutesRead(view, TicketIds(view), e);
  }

  ghost function EdgesInside(view: SpecView, e: Id): set<Edge> {
    set d | d in view.edges && d.src in TicketsOfEpic(view, e) && d.dst in TicketsOfEpic(view, e)
  }

  lemma InsideRead(view: SpecView, e: Id)
    ensures EdgesWithin(view.edges, TicketEpic(view), e) == EdgesInside(view, e)
  {
  }

  lemma EpicFrom(view: SpecView, e: Id)
    requires ViewClosed(view) && e in view.epics
    requires view.epics[e] == DerivedEpic(view.epics[e], e, EpicNodeList(view, e), TicketEpic(view), EdgeRows(view), RefRows(view))
    ensures EpicColumnsShow(view, e)
  {
    var row := view.epics[e];
    assert row.counts == EpicCountsOf(EpicNodeList(view, e));
    EpicCountsShow(EpicNodeList(view, e));
    EpicStatusIs(view, e, row.counts.status);
    EpicTickets(view, e, row.counts);
    EdgeRowsDistinct(view);
    IntraIsSize(EdgeRows(view), TicketEpic(view), e);
    InsideRead(view, e);
    EpicLinks(view, e);
  }

  lemma EpicColumns(specId: Id, spec: SpecRow, view: SpecView, e: Id)
    requires SpecConsistent(specId, spec, view) && ViewClosed(view) && e in view.epics
    ensures EpicColumnsShow(view, e)
  {
    EpicFrom(view, e);
  }

  // ---------------------------------------------------------------------------
  // The columns of the spec
  // ---------------------------------------------------------------------------

  ghost function EpicsWith(st: map<Id, EpicStatus>, ids: seq<Id>, s: EpicStatus): set<Id> {
    set e | e in ids && e in st && st[e] == s
  }

  lemma OneMoreEpic(st: map<Id, EpicStatus>, init: seq<Id>, e: Id, s: EpicStatus)
    requires e !in init && e in st
    ensures |EpicsWith(st, init + [e], s)| == |EpicsWith(st, init, s)| + (if st[e] == s then 1 else 0)
  {
    if st[e] == s {
      assert EpicsWith(st, init + [e], s) == EpicsWith(st, init, s) + {e};
    } else {
      assert EpicsWith(st, init + [e], s) == EpicsWith(st, init, s);
    }
  }

  /** `list` holds the statuses of the listed epics. */
  lemma {:induction false} EpicStatusSizes(st: map<Id, EpicStatus>, ids: seq<Id>, list: seq<EpicStatus>, s: EpicStatus)
    requires StrictlySorted(ids) && |list| == |ids|
    requires forall i | 0 <= i < |ids| :: ids[i] in st && list[i] == st[ids[i]]
    ensures Counts.CountEpics(list, s) == |EpicsWith(st, ids, s)|
    decreases |ids|
  {
    if |ids| == 0 {
      assert EpicsWith(st, ids, s) == {};
    } else {
      var init, e := ids[..|ids| - 1], ids[|ids| - 1];
      assert ids == init + [e] && e !in init;
      EpicStatusSizes(st, init, list[..|init|], s);
      OneMoreEpic(st, init, e, s);
    }
  }

  /** The epic buckets: finished, not started, and the rest. */
  ghost predicate EpicBucketsShow(view: SpecView, c: SpecCounts) {
    && c.epicCount == |view.epics.Keys| && c.completedEpics == |FinishedEpics(view)|
    && c.todoEpics == |view.epics.Keys - StartedEpics(view)|
    && c.inProgressEpics == |StartedEpics(view) - FinishedEpics(view)|
  }

  ghost predicate SpecTicketsShow(view: SpecView, c: SpecCounts) {
    var T := view.tickets.Keys;
    && c.ticketCount == |T| && c.pending == |Having(view, T, Pending)| && c.ready == |Having(view, T, Ready)|
    && c.active == |Having(view, T, Active)| && c.completed == |Having(view, T, Done)|
    && c.estimatedMinutes == SpecMinutes(view.tickets, TicketIds(view))
    && IsPercentage(c.progress, |Having(view, T, Done)|, |T|)
  }

  /** The stored counts of a spec. */
  ghost predicate SpecColumnsShow(spec: SpecRow, view: SpecView) {
    && EpicBucketsShow(view, spec.counts) && SpecTicketsShow(view, spec.counts)
    && spec.dependencyCount == |view.edges| && spec.blueprintCount == |view.blueprints|
  }

  ghost predicate StatusesOf(view: SpecView, st: map<Id, EpicStatus>) {
    && st.Keys == view.epics.Keys
    && forall e | e in st :: (st[e] == Completed <==> Finished(view, e)) && (st[e] == Todo <==> !Started(view, e))
  }

  lemma CompletedSet(view: SpecView, st: map<Id, EpicStatus>)
    requires StatusesOf(view, st)
    ensures EpicsWith(st, EpicIds(view), Completed) == FinishedEpics(view)
  {
    forall e
      ensures e in EpicsWith(st, EpicIds(view), Completed) <==> e in FinishedEpics(view)
    {
    }
  }

  lemma TodoSet(view: SpecView, st: map<Id, EpicStatus>)
    requires StatusesOf(view, st)
    ensures EpicsWith(st, EpicIds(view), Todo) == view.epics.Keys - StartedEpics(view)
  {
    forall e
      ensures e in EpicsWith(st, EpicIds(view), Todo) <==> e in view.epics.Keys - StartedEpics(view)
    {
    }
  }

  lemma InProgressSet(view: SpecView, st: map<Id, EpicStatus>)
    requires StatusesOf(view, st)
    ensures EpicsWith(st, EpicIds(view), InProgress) == StartedEpics(view) - FinishedEpics(view)
  {
    forall e
      ensures e in EpicsWith(st, EpicIds(view), InProgress) <==> e in StartedEpics(view) - FinishedEpics(view)
    {
      if e in st {
        assert st[e] == InProgress <==> st[e] != Completed && st[e] != Todo;
      }
    }
  }

  lemma StatusMap(view: SpecView) returns (st: map<Id, EpicStatus>)
    ensures StatusesOf(view, st)
    ensures forall e | e in view.epics :: st[e] == EpicCountsOf(EpicNodeList(view, e)).status
  {
    st := map e | e in view.epics :: EpicCountsOf(EpicNodeList(view, e)).status;
    forall e | e in view.epics {
      EpicStatusIs(view, e, st[e]);
    }
  }

  lemma EpicBuckets(view: SpecView, c: SpecCounts, list: seq<EpicStatus>, st: map<Id, EpicStatus>)
    requires StatusesOf(view, st) && |list| == |EpicIds(view)|
    requires forall i | 0 <= i < |list| :: EpicIds(view)[i] in st && list[i] == st[EpicIds(view)[i]]
    requires c.epicCount == |list| && c.completedEpics == Counts.CountEpics(list, Completed)
    requires c.todoEpics == Counts.CountEpics(list, Todo) && c.inProgressEpics == Counts.CountEpics(list, InProgress)
    ensures EpicBucketsShow(view, c)
  {
    EpicStatusSizes(st, EpicIds(view), list, Completed);
    EpicStatusSizes(st, EpicIds(view), list, Todo);
    EpicStatusSizes(st, EpicIds(view), list, InProgress);
    CompletedSet(view, st);
    TodoSet(view, st);
    InProgressSet(view, st);
  }

  lemma HavingAll(view: SpecView, s: Status)
    ensures CountStatus(NodeList(view), s) == |Having(view, view.tickets.Keys, s)|
  {
    var a, b := Among(Nodes(view), TicketIds(view), s), Having(view, view.tickets.Keys, s);
    CountIsCardinality(Nodes(view), TicketIds(view), s);
    forall v
      ensures v in a <==> v in b
    {
    }
    assert a == b;
  }

  ghost predicate SpecTallyShows(list: seq<TicketNode>, c: SpecCounts) {
    && c.ticketCount == |list| && c.pending == CountStatus(list, Pending) && c.ready == CountStatus(list, Ready)
    && c.active == CountStatus(list, Active) && c.completed == CountStatus(list, Done)
    && c.estimatedMinutes == Estimates(list) && IsPercentage(c.progress, CountStatus(list, Done), |list|)
  }

  lemma SpecCountsShow(epics: seq<EpicStatus>, list: seq<TicketNode>)
    ensures var c := SpecCountsOf(epics, list);
            && SpecTallyShows(list, c)
            && c.epicCount == |epics| && c.completedEpics == Counts.CountEpics(epics, Completed)
            && c.todoEpics == Counts.CountEpics(epics, Todo) && c.inProgressEpics == Counts.CountEpics(epics, InProgress)
  {
    ProgressIsRounded(CountStatus(list, Done), |list|);
  }

  lemma SpecTickets(view: SpecView, c: SpecCounts)
    requires SpecTallyShows(NodeList(view), c)
    ensures SpecTicketsShow(view, c)
  {
    HavingAll(view, Pending);
    HavingAll(view, Ready);
    HavingAll(view, Active);
    HavingAll(view, Done);
    AllMinutes(Nodes(view), TicketIds(view));
    MinutesRead(view, TicketIds(view), 0);
    assert |NodeList(view)| == |TicketIds(view)| == |view.tickets.Keys|;
  }

  lemma StatusList(view: SpecView, list: seq<EpicStatus>) returns (st: map<Id, EpicStatus>)
    requires list == EpicStatuses(view, EpicIds(view))
    ensures StatusesOf(view, st) && |list| == |EpicIds(view)|
    ensures forall i | 0 <= i < |list| :: EpicIds(view)[i] in st && list[i] == st[EpicIds(view)[i]]
  {
    st := StatusMap(view);
    forall i | 0 <= i < |list|
      ensures EpicIds(view)[i] in st && list[i] == st[EpicIds(view)[i]]
    {
      assert EpicIds(view)[i] in EpicIds(view);
    }
  }

  lemma SpecFrom(view: SpecView, list: seq<EpicStatus>, st: map<Id, EpicStatus>, c: SpecCounts)
    requires StatusesOf(view, st) && |list| == |EpicIds(view)|
    requires forall i | 0 <= i < |list| :: EpicIds(view)[i] in st && list[i] == st[EpicIds(view)[i]]
    requires c == SpecCountsOf(list, NodeList(view))
    ensures EpicBucketsShow(view, c) && SpecTicketsShow(view, c)
  {
    SpecCountsShow(list, NodeList(view));
    EpicBuckets(view, c, list, st);
    SpecTickets(view, c);
  }

  lemma SpecWritten(specId: Id, spec: SpecRow, view: SpecView)
    requires SpecConsistent(specId, spec, view)
    ensures spec.counts == SpecCountsOf(EpicStatuses(view, EpicIds(view)), NodeList(view))
    ensures spec.dependencyCount == |EdgeRows(view)| && spec.blueprintCount == |view.blueprints|
  {
  }

  lemma SpecRowShows(spec: SpecRow, view: SpecView)
    requires ViewClosed(view)
    requires spec.counts == SpecCountsOf(EpicStatuses(view, EpicIds(view)), NodeList(view))
    requires spec.dependencyCount == |EdgeRows(view)| && spec.blueprintCount == |view.blueprints|
    ensures SpecColumnsShow(spec, view)
  {
    var list := EpicStatuses(view, EpicIds(view));
    var st := StatusList(view, list);
    SpecFrom(view, list, st, spec.counts);
    EdgeRowsDistinct(view);
  }

  lemma SpecColumns(specId: Id, spec: SpecRow, view: SpecView)
    requires SpecConsistent(specId, spec, view) && ViewClosed(view)
    ensures SpecColumnsShow(spec, view)
  {
    SpecWritten(specId, spec, view);
    SpecRowShows(spec, view);
  }
}
