/** What a built tree says about the rows it was built from, and what the gate looks at. */
module TreeRows {
  import opened Graph
  import opened Ordering
  import opened Types
  import opened Cycles
  import opened CriticalPath
  import opened CriticalPathRows
  import opened TreeSpec
  import opened StatusCalculator
  import Cascade

  // ---------------------------------------------------------------------------
  // Tickets and epics
  // ---------------------------------------------------------------------------

  /** A missing number shows as 0. */
  ghost predicate NumberShows(shown: int, number: Option<int>) {
    (number.Some? ==> shown == number.value) && (number.None? ==> shown == 0)
  }

  /** A missing or empty title shows as the placeholder. */
  ghost predicate TitleShows(shown: string, title: Option<string>) {
    && (title.Some? && title.value != "" ==> shown == title.value)
    && (title.None? || title.value == "" ==> shown == "<unnumbered>")
  }

  /** The number of the ticket's epic, and 0 without one. */
  ghost predicate EpicNumberShows(shown: int, epics: EpicRows, epic: Option<Id>) {
    && (epic.Some? && epic.value in epics ==> NumberShows(shown, epics[epic.value].epicNumber))
    && (epic.None? || epic.value !in epics ==> shown == 0)
  }

  ghost predicate TicketShows(rows: TicketRows, epics: EpicRows, v: Id, t: TreeTicket)
    requires v in rows
  {
    var row := rows[v];
    && t.id == v && t.status == row.status && t.epicId == row.epicId && t.estimatedMinutes == row.estimatedMinutes
    && NumberShows(t.ticketNumber, row.ticketNumber) && TitleShows(t.title, row.title)
    && EpicNumberShows(t.epicNumber, epics, row.epicId)
  }

  /** The dependencies and the dependents, each sorted. */
  ghost predicate EdgesShow(rows: TicketRows, E: set<Edge>, v: Id, t: TreeTicket) {
    && StrictlySorted(t.dependencies) && (forall d :: d in t.dependencies <==> d in rows && Edge(v, d) in E)
    && StrictlySorted(t.blocks) && (forall d :: d in t.blocks <==> d in rows && Edge(d, v) in E)
  }

  /** The dependencies that are not done, and whether there is none. */
  ghost predicate BlockersShow(rows: TicketRows, E: set<Edge>, v: Id, t: TreeTicket)
    requires v in rows
  {
    && StrictlySorted(t.unsatisfiedDeps)
    && (forall d :: d in t.unsatisfiedDeps <==> d in rows && Edge(v, d) in E && rows[d].status != Done)
    && t.blockerCount == |t.unsatisfiedDeps|
    && (t.isReady <==> rows[v].status != Done && t.unsatisfiedDeps == [])
  }

  lemma SortedMembers(s: set<Id>)
    ensures forall d :: d in Sorted(s) <==> d in s
  {
    assert forall d :: d in Sorted(s) <==> d in Elems(Sorted(s));
  }

  lemma EdgeShows(rows: TicketRows, E: set<Edge>, v: Id, d: Id)
    requires v in rows
    ensures d in DepsOf(Restrict(E, rows.Keys), v) <==> d in rows && Edge(v, d) in E
    ensures d in Cascade.DependentsOf(Restrict(E, rows.Keys), v) <==> d in rows && Edge(d, v) in E
  {
    var F := Restrict(E, rows.Keys);
    if d in rows && Edge(v, d) in E {
      assert Edge(v, d) in F && Edge(v, d).src == v;
    }
    if d in rows && Edge(d, v) in E {
      assert Edge(d, v) in F && Edge(d, v).dst == v;
    }
  }

  lemma NodeShows(rows: TicketRows, epics: EpicRows, F: set<Edge>, v: Id)
    requires v in rows
    ensures TicketShows(rows, epics, v, TreeTicketOf(rows, epics, F, v))
  {
  }

  lemma NodeEdgesShow(rows: TicketRows, epics: EpicRows, E: set<Edge>, v: Id)
    requires v in rows
    ensures EdgesShow(rows, E, v, TreeTicketOf(rows, epics, Restrict(E, rows.Keys), v))
  {
    var F := Restrict(E, rows.Keys);
    SortedMembers(DepsOf(F, v));
    SortedMembers(Cascade.DependentsOf(F, v));
    forall d {
      EdgeShows(rows, E, v, d);
    }
  }

  lemma UnsatisfiedShow(rows: TicketRows, E: set<Edge>, v: Id)
    requires v in rows
    ensures forall d :: d in Unsatisfied(rows, Restrict(E, rows.Keys), v)
                        <==> d in rows && Edge(v, d) in E && rows[d].status != Done
  {
    forall d {
      EdgeShows(rows, E, v, d);
    }
  }

  lemma NodeBlockersShow(rows: TicketRows, epics: EpicRows, E: set<Edge>, v: Id)
    requires v in rows
    ensures BlockersShow(rows, E, v, TreeTicketOf(rows, epics, Restrict(E, rows.Keys), v))
  {
    var s := Unsatisfied(rows, Restrict(E, rows.Keys), v);
    UnsatisfiedShow(rows, E, v);
    SortedMembers(s);
    assert |s| == 0 <==> s == {};
  }

  ghost predicate TicketsShow(rows: TicketRows, epics: EpicRows, E: set<Edge>, tickets: map<Id, TreeTicket>) {
    && tickets.Keys == rows.Keys
    && forall v {:trigger tickets[v]} | v in rows ::
         TicketShows(rows, epics, v, tickets[v]) && EdgesShow(rows, E, v, tickets[v]) && BlockersShow(rows, E, v, tickets[v])
  }

  lemma ListedTicketsShow(rows: TicketRows, epics: EpicRows, E: set<Edge>, tickets: map<Id, TreeTicket>)
    requires TicketsListed(rows, epics, Restrict(E, rows.Keys), tickets)
    ensures TicketsShow(rows, epics, E, tickets)
  {
    forall v | v in rows
      ensures TicketShows(rows, epics, v, tickets[v]) && EdgesShow(rows, E, v, tickets[v])
              && BlockersShow(rows, E, v, tickets[v])
    {
      assert tickets[v] == TreeTicketOf(rows, epics, Restrict(E, rows.Keys), v);
      NodeShows(rows, epics, Restrict(E, rows.Keys), v);
      NodeEdgesShow(rows, epics, E, v);
      NodeBlockersShow(rows, epics, E, v);
    }
  }

  // ---------------------------------------------------------------------------
  // Lists by number
  // ---------------------------------------------------------------------------

  /** A ticket's place in a list: by number, a missing one counting 0, then by id. */
  ghost predicate Before(rows: TicketRows, a: Id, b: Id)
    requires a in rows && b in rows
  {
    var m := match rows[a].ticketNumber case None => 0 case Some(k) => k;
    var n := match rows[b].ticketNumber case None => 0 case Some(k) => k;
    m < n || (m == n && a < b)
  }

  ghost predicate ListsByNumber(rows: TicketRows, list: seq<Id>) {
    && (forall v | v in list :: v in rows)
    && forall i, j | 0 <= i < j < |list| :: Before(rows, list[i], list[j])
  }

  lemma NumbersOrder(rows: TicketRows, a: Id, b: Id)
    requires a in rows && b in rows
    ensures KeyLess(Numbers(rows), a, b) <==> Before(rows, a, b)
  {
  }

  lemma {:induction false} NumbersSort(rows: TicketRows, key: map<Id, int>, list: seq<Id>, s: set<Id>)
    requires key == Numbers(rows) && SortedByKey(key, list) && Elems(list) == s && s <= rows.Keys
    ensures ListsByNumber(rows, list) && forall v :: v in list <==> v in s
  {
    assert forall v :: v in list <==> v in Elems(list);
    forall i, j | 0 <= i < j < |list|
      ensures Before(rows, list[i], list[j])
    {
      assert list[i] in list && list[j] in list;
      NumbersOrder(rows, list[i], list[j]);
    }
  }

  ghost predicate EpicShows(rows: TicketRows, epics: EpicRows, e: Id, shown: TreeEpic)
    requires e in epics
  {
    && shown.id == e && NumberShows(shown.epicNumber, epics[e].epicNumber) && TitleShows(shown.title, epics[e].title)
    && ListsByNumber(rows, shown.ticketIds)
    && forall v :: v in shown.ticketIds <==> v in rows && rows[v].epicId == Some(e)
  }

  ghost predicate EpicsShow(rows: TicketRows, epics: EpicRows, list: seq<TreeEpic>) {
    && |list| == |epics.Keys| && (forall i | 0 <= i < |list| :: list[i].id in epics && EpicShows(rows, epics, list[i].id, list[i]))
    && forall i, j | 0 <= i < j < |list| :: list[i].id < list[j].id
  }

  lemma ListedEpicsShow(rows: TicketRows, epics: EpicRows, list: seq<TreeEpic>)
    requires EpicsListed(rows, epics, list)
    ensures EpicsShow(rows, epics, list)
  {
    forall i | 0 <= i < |list|
      ensures list[i].id == Sorted(epics.Keys)[i] && list[i].id in epics && EpicShows(rows, epics, list[i].id, list[i])
    {
      NumbersSort(rows, Numbers(rows), list[i].ticketIds, TicketsIn(rows, list[i].id));
    }
  }

  // ---------------------------------------------------------------------------
  // The summary
  // ---------------------------------------------------------------------------

  /** The given estimates of the listed tickets, added up. */
  function GivenMinutes(rows: TicketRows, ids: seq<Id>): int {
    if |ids| == 0 then 0
    else
      var v := ids[|ids| - 1];
      GivenMinutes(rows, ids[..|ids| - 1])
      + (if v in rows && rows[v].estimatedMinutes.Some? then rows[v].estimatedMinutes.value else 0)
  }

  function NotEstimated(rows: TicketRows, ids: seq<Id>): set<Id> {
    set v | v in ids && (v in rows ==> rows[v].estimatedMinutes.None?)
  }

  lemma {:induction false} OneMoreMinutes(rows: TicketRows, init: seq<Id>, v: Id)
    requires v !in init
    ensures |NotEstimated(rows, init + [v])|
            == |NotEstimated(rows, init)| + (if v in rows && rows[v].estimatedMinutes.Some? then 0 else 1)
  {
    if v in rows && rows[v].estimatedMinutes.Some? {
      assert NotEstimated(rows, init + [v]) == NotEstimated(rows, init);
    } else {
      assert NotEstimated(rows, init + [v]) == NotEstimated(rows, init) + {v};
    }
  }

  lemma {:induction false} MinutesSplit(rows: TicketRows, ids: seq<Id>)
    requires Distinct(ids)
    ensures DisplayMinutes(rows, ids) == GivenMinutes(rows, ids) + 60 * |NotEstimated(rows, ids)|
    decreases |ids|
  {
    if |ids| > 0 {
      var init, v := ids[..|ids| - 1], ids[|ids| - 1];
      MinutesSplit(rows, init);
      assert ids == init + [v] && v !in init;
      OneMoreMinutes(rows, init, v);
    }
  }

  ghost predicate HistogramShows(rows: TicketRows, h: TicketsByStatus) {
    && h.pending == |set v | v in rows && rows[v].status == Pending|
    && h.ready == |set v | v in rows && rows[v].status == Ready|
    && h.active == |set v | v in rows && rows[v].status == Active|
    && h.done == |set v | v in rows && rows[v].status == Done|
  }

  /** All dependencies of the ticket among the rows are done. */
  ghost predicate Unblocked(rows: TicketRows, E: set<Edge>, v: Id) {
    forall d | d in rows && Edge(v, d) in E :: rows[d].status == Done
  }

  ghost predicate ListsShow(rows: TicketRows, E: set<Edge>, s: TreeSummary) {
    && ListsByNumber(rows, s.readyTickets) && ListsByNumber(rows, s.blockedTickets)
    && (forall v :: v in s.readyTickets
          <==> v in rows && (rows[v].status == Pending || rows[v].status == Ready) && Unblocked(rows, E, v))
    && (forall v :: v in s.blockedTickets <==> v in rows && rows[v].status != Done && !Unblocked(rows, E, v))
  }

  lemma UnblockedIff(rows: TicketRows, E: set<Edge>, v: Id)
    requires v in rows
    ensures Unsatisfied(rows, Restrict(E, rows.Keys), v) == {} <==> Unblocked(rows, E, v)
  {
    UnsatisfiedShow(rows, E, v);
  }

  lemma SetsShow(rows: TicketRows, E: set<Edge>, v: Id)
    ensures v in ReadySet(rows, Restrict(E, rows.Keys))
            <==> v in rows && (rows[v].status == Pending || rows[v].status == Ready) && Unblocked(rows, E, v)
    ensures v in BlockedSet(rows, Restrict(E, rows.Keys))
            <==> v in rows && rows[v].status != Done && !Unblocked(rows, E, v)
  {
    if v in rows {
      UnblockedIff(rows, E, v);
    }
  }

  lemma {:induction false} SortedLists(rows: TicketRows, E: set<Edge>, s: TreeSummary, R: set<Id>, B: set<Id>)
    requires s.readyTickets == SortBy(Numbers(rows), R) && s.blockedTickets == SortBy(Numbers(rows), B)
    requires R == ReadySet(rows, Restrict(E, rows.Keys)) && B == BlockedSet(rows, Restrict(E, rows.Keys))
    ensures ListsShow(rows, E, s)
  {
    NumbersSort(rows, Numbers(rows), s.readyTickets, R);
    NumbersSort(rows, Numbers(rows), s.blockedTickets, B);
    forall v {
      SetsShow(rows, E, v);
    }
  }

  lemma SummaryListsShow(rows: TicketRows, E: set<Edge>, s: TreeSummary)
    requires SummaryLists(rows, Restrict(E, rows.Keys), s)
    ensures ListsShow(rows, E, s)
  {
    var F := Restrict(E, rows.Keys);
    SortedLists(rows, E, s, ReadySet(rows, F), BlockedSet(rows, F));
  }

  /** Total, histogram and minutes: each ticket without an estimate counts an hour. */
  ghost predicate TotalsShow(rows: TicketRows, s: TreeSummary) {
    var ids := Sorted(rows.Keys);
    && s.totalTickets == |rows.Keys| && HistogramShows(rows, s.ticketsByStatus)
    && s.estimatedMinutesTotal
       == GivenMinutes(rows, ids) + 60 * |set v | v in rows && rows[v].estimatedMinutes.None?|
  }

  lemma HistogramIsShown(rows: TicketRows)
    ensures HistogramShows(rows, Histogram(rows))
  {
    assert WithStatus(rows, Pending) == set v | v in rows && rows[v].status == Pending;
    assert WithStatus(rows, Ready) == set v | v in rows && rows[v].status == Ready;
    assert WithStatus(rows, Active) == set v | v in rows && rows[v].status == Active;
    assert WithStatus(rows, Done) == set v | v in rows && rows[v].status == Done;
  }

  lemma {:induction false} MinutesShow(rows: TicketRows, ids: seq<Id>)
    requires StrictlySorted(ids) && forall v :: v in ids <==> v in rows
    ensures DisplayMinutes(rows, ids)
            == GivenMinutes(rows, ids) + 60 * |set v | v in rows && rows[v].estimatedMinutes.None?|
  {
    MinutesSplit(rows, ids);
    assert NotEstimated(rows, ids) == set v | v in rows && rows[v].estimatedMinutes.None?;
  }

  lemma {:induction false} SummaryTotalsShow(rows: TicketRows, F: set<Edge>, s: TreeSummary)
    requires SummaryLists(rows, F, s)
    ensures TotalsShow(rows, s)
  {
    var ids := Sorted(rows.Keys);
    SortedMembers(rows.Keys);
    MinutesShow(rows, ids);
    HistogramIsShown(rows);
    assert |rows| == |rows.Keys|;
  }

  // ---------------------------------------------------------------------------
  // The whole tree
  // ---------------------------------------------------------------------------

  /** The path leaves out the done tickets and those on cycles. */
  ghost predicate PathShows(rows: TicketRows, E: set<Edge>, tree: DependencyTree) {
    var s := tree.summary;
    && s.criticalPath == tree.criticalPath
    && ReadsRows(rows, E, CycleNodes(tree.cycles) + (set v | v in rows && rows[v].status == Done),
                 CriticalPathResult(tree.criticalPath, s.criticalPathLength, s.criticalPathMinutes))
  }

  lemma GraphPathShows(rows: TicketRows, F: set<Edge>, tree: DependencyTree)
    requires GraphParts(rows, F, tree) && forall v | v in rows :: rows[v].id == v
    ensures PathShows(rows, F, tree)
  {
    assert DoneIds(rows) == set v | v in rows && rows[v].status == Done;
    CriticalPathReadsRows(rows, F, CycleNodes(tree.cycles) + DoneIds(rows),
                          CriticalPathResult(tree.criticalPath, tree.summary.criticalPathLength,
                                             tree.summary.criticalPathMinutes));
  }

  /** Everything a tree shows, read off the rows: every ticket with its edges and blockers,
      every epic, the lists and totals, and the path. */
  lemma TreeShowsRows(specId: Id, epics: EpicRows, rows: TicketRows, E: set<Edge>, tree: DependencyTree)
    requires IsTreeOf(specId, epics, rows, E, tree) && forall v | v in rows :: rows[v].id == v
    ensures TicketsShow(rows, epics, E, tree.tickets) && EpicsShow(rows, epics, tree.epics)
    ensures ListsShow(rows, E, tree.summary) && TotalsShow(rows, tree.summary)
    ensures PathShows(rows, Restrict(E, rows.Keys), tree)
  {
    ListedTicketsShow(rows, epics, E, tree.tickets);
    ListedEpicsShow(rows, epics, tree.epics);
    SummaryListsShow(rows, E, tree.summary);
    SummaryTotalsShow(rows, Restrict(E, rows.Keys), tree.summary);
    GraphPathShows(rows, Restrict(E, rows.Keys), tree);
  }

  // ---------------------------------------------------------------------------
  // The gate
  // ---------------------------------------------------------------------------

  /** The gate ignores titles, numbers, estimates, epics, path nodes and minutes, and sees
      every change of a status, an edge, a flag, a count or one of the two lists. */
  lemma GateCompares(a: DependencyTree, b: DependencyTree)
    ensures ComputeTreeUpdate(Some(a), b) == (false, a)
            || ComputeTreeUpdate(Some(a), b) == (true, b)
    ensures !ComputeTreeUpdate(Some(a), b).0 <==>
            && a.specificationId == b.specificationId && a.edges == b.edges && a.cycles == b.cycles
            && a.tickets.Keys == b.tickets.Keys
            && (forall v | v in a.tickets ::
                  var s, t := a.tickets[v], b.tickets[v];
                  s.status == t.status && s.isReady == t.isReady && s.blockerCount == t.blockerCount
                  && s.dependencies == t.dependencies && s.blocks == t.blocks)
            && a.summary.totalTickets == b.summary.totalTickets
            && a.summary.hasCircularDeps == b.summary.hasCircularDeps
            && a.summary.criticalPathLength == b.summary.criticalPathLength
            && a.summary.readyTickets == b.summary.readyTickets
            && a.summary.blockedTickets == b.summary.blockedTickets
  {
    assert forall v | v in a.tickets && a.tickets.Keys == b.tickets.Keys ::
      TicketUnchanged(a.tickets[v], b.tickets[v]) <==>
        a.tickets[v].status == b.tickets[v].status && a.tickets[v].isReady == b.tickets[v].isReady
        && a.tickets[v].blockerCount == b.tickets[v].blockerCount
        && a.tickets[v].dependencies == b.tickets[v].dependencies && a.tickets[v].blocks == b.tickets[v].blocks;
  }
}
