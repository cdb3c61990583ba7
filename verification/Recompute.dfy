/** The recompute of one spec (`_recompute_spec`), on the rows it reads. */
module Recompute {
  import opened Graph
  import opened Ordering
  import opened Types
  import opened StatusCalculator
  import opened Counts
  import opened TreeSpec
  import opened TreeBuild
  import opened StoredRows
  import Cascade

  // ---------------------------------------------------------------------------
  // Ticket columns
  // ---------------------------------------------------------------------------

  function StatusWritten(row: TicketRow, t: Id, states: States, nodes: TicketRows, edges: seq<Edge>): TicketRow {
    var final := Lookup(states, t);
    row.(status := final,
         progress := if final == Done then 100 else 0,
         blockReason := BlockReason(nodes, edges, t, final))
  }

  method SettleRow(row: TicketRow, t: Id, states: States, nodes: TicketRows, edges: seq<Edge>) returns (next: TicketRow)
    requires t in states && StatesOf(nodes) == states
    ensures next == StatusWritten(row, t, states, nodes, edges)
  {
    var final := states[t];
    var reason: Option<string> := None;
    if final == Pending {
      var check := Cascade.CheckDependenciesCompleted(t, states, edges);
      if |check.blockers| > 0 {
        reason := Some(FormatBlockReason(nodes, check.blockers));
      }
    }
    next := row.(status := final, progress := if final == Done then 100 else 0, blockReason := reason);
  }

  /** Writes the settled status of every ticket, and the progress and block reason that
      go with it, whether or not the status changed. */
  method ApplyStatuses(ids: seq<Id>, rows: map<Id, TicketRow>, states: States, nodes: TicketRows, edges: seq<Edge>)
    returns (next: map<Id, TicketRow>)
    requires forall t :: t in ids <==> t in rows
    requires states.Keys == rows.Keys && StatesOf(nodes) == states
    ensures next.Keys == rows.Keys
    ensures forall t | t in rows :: next[t] == StatusWritten(rows[t], t, states, nodes, edges)
  {
    next := rows;
    for i := 0 to |ids|
      invariant next.Keys == rows.Keys
      invariant forall t | t in rows ::
        next[t] == if t in ids[..i] then StatusWritten(rows[t], t, states, nodes, edges) else rows[t]
    {
      var t := ids[i];
      assert t in ids && ids[..i + 1] == ids[..i] + [t];
      var row := SettleRow(rows[t], t, states, nodes, edges);
      next := next[t := row];
    }
    assert ids[..|ids|] == ids;
  }

  function WithCounts(row: TicketRow, t: Id, edges: seq<Edge>, refs: seq<BlueprintRef>): TicketRow {
    row.(incoming := Incoming(edges, t), outgoing := Outgoing(edges, t), blueprintCount := RefsOf(refs, t))
  }

  method ApplyTicketCounts(ids: seq<Id>, rows: map<Id, TicketRow>, dc: DependencyCounts, bc: BlueprintCounts,
                           ghost edges: seq<Edge>, ghost refs: seq<BlueprintRef>)
    returns (next: map<Id, TicketRow>)
    requires forall t :: t in ids <==> t in rows
    requires forall t :: Get(dc.incoming, t) == Incoming(edges, t) && Get(dc.outgoing, t) == Outgoing(edges, t)
    requires forall t :: Get(bc.ticket, t) == RefsOf(refs, t)
    ensures next.Keys == rows.Keys
    ensures forall t | t in rows :: next[t] == WithCounts(rows[t], t, edges, refs)
  {
    next := rows;
    for i := 0 to |ids|
      invariant next.Keys == rows.Keys
      invariant forall t | t in rows ::
        next[t] == if t in ids[..i] then WithCounts(rows[t], t, edges, refs) else rows[t]
    {
      var t := ids[i];
      assert t in ids && ids[..i + 1] == ids[..i] + [t];
      assert Get(dc.incoming, t) == Incoming(edges, t) && Get(dc.outgoing, t) == Outgoing(edges, t);
      next := next[t := rows[t].(incoming := Get(dc.incoming, t), outgoing := Get(dc.outgoing, t),
                                 blueprintCount := Get(bc.ticket, t))];
    }
    assert ids[..|ids|] == ids;
  }

  // ---------------------------------------------------------------------------
  // Epic columns
  // ---------------------------------------------------------------------------

  /** `nodes_by_epic`. */
  method GroupByEpic(nodes: seq<TicketNode>, epics: set<Id>) returns (groups: map<Id, seq<TicketNode>>)
    ensures groups.Keys == epics
    ensures forall e | e in epics :: groups[e] == NodesIn(nodes, e)
  {
    groups := map e | e in epics :: [];
    for i := 0 to |nodes|
      invariant groups.Keys == epics
      invariant forall e | e in epics :: groups[e] == NodesIn(nodes[..i], e)
    {
      assert nodes[..i + 1][..i] == nodes[..i];
      var k := nodes[i].epicId;
      if k.Some? && k.value in groups {
        groups := groups[k.value := groups[k.value] + [nodes[i]]];
      }
    }
    assert nodes[..|nodes|] == nodes;
  }

  method CountEpics(ids: seq<Id>, groups: map<Id, seq<TicketNode>>) returns (counts: map<Id, EpicCounts>)
    requires forall e :: e in ids <==> e in groups
    ensures counts.Keys == groups.Keys
    ensures forall e | e in groups :: counts[e] == EpicCountsOf(groups[e])
  {
    counts := map[];
    for i := 0 to |ids|
      invariant forall e :: e in counts <==> e in ids[..i]
      invariant forall e | e in counts :: counts[e] == EpicCountsOf(groups[e])
    {
      assert ids[i] in ids && ids[..i + 1] == ids[..i] + [ids[i]];
      var c := DeriveEpicCounts(groups[ids[i]]);
      counts := counts[ids[i] := c];
    }
    assert ids[..|ids|] == ids;
  }

  function WithRollup(row: EpicRow, c: EpicCounts, dependencies: nat, blueprints: nat): EpicRow {
    row.(counts := c, dependencyCount := dependencies, blueprintCount := blueprints)
  }

  /** Writes the columns of every epic and lists the statuses the spec rollup buckets. */
  method ApplyEpics(ids: seq<Id>, rows: map<Id, EpicRow>, counts: map<Id, EpicCounts>,
                    dependencies: map<Id, nat>, blueprints: map<Id, nat>)
    returns (next: map<Id, EpicRow>, statuses: seq<EpicStatus>)
    requires forall e :: e in ids <==> e in rows
    requires counts.Keys == rows.Keys
    ensures |statuses| == |ids| && forall k | 0 <= k < |ids| :: statuses[k] == counts[ids[k]].status
    ensures next.Keys == rows.Keys
    ensures forall e | e in rows :: next[e] == WithRollup(rows[e], counts[e], Get(dependencies, e), Get(blueprints, e))
  {
    statuses := seq(|ids|, i requires 0 <= i < |ids| => counts[ids[i]].status);
    next := rows;
    for i := 0 to |ids|
      invariant next.Keys == rows.Keys
      invariant forall e | e in rows ::
        next[e] == if e in ids[..i] then WithRollup(rows[e], counts[e], Get(dependencies, e), Get(blueprints, e))
                   else rows[e]
    {
      var e := ids[i];
      assert e in ids && ids[..i + 1] == ids[..i] + [e];
      var row := WithRollup(rows[e], counts[e], Get(dependencies, e), Get(blueprints, e));
      next := next[e := row];
    }
    assert ids[..|ids|] == ids;
  }

  // ---------------------------------------------------------------------------
  // The tree
  // ---------------------------------------------------------------------------

  function SetTree(spec: SpecRow, tree: DependencyTree, generatedAt: string): SpecRow {
    spec.(tree := Some(tree), treeVersion := tree.version, treeUpdatedAt := Some(generatedAt),
          criticalPathLength := tree.summary.criticalPathLength, maxBlockerDepth := tree.summary.maxBlockerDepth)
  }

  predicate SameButTree(a: SpecRow, b: SpecRow) {
    a.projectId == b.projectId && a.status == b.status && a.counts == b.counts
    && a.dependencyCount == b.dependencyCount && a.blueprintCount == b.blueprintCount
  }

  /** The tree columns are as they were, or all five are the next version's. */
  ghost predicate TreeWritten(spec: SpecRow, next: SpecRow, generatedAt: string) {
    if next.treeVersion == spec.treeVersion
    then
      && next.tree == spec.tree && next.treeUpdatedAt == spec.treeUpdatedAt
      && next.criticalPathLength == spec.criticalPathLength && next.maxBlockerDepth == spec.maxBlockerDepth
    else
      && next.treeVersion == spec.treeVersion + 1 && next.treeUpdatedAt == Some(generatedAt)
      && next.tree.Some? && next.tree.value.version == next.treeVersion && next.tree.value.generatedAt == generatedAt
  }

  lemma EqualToItself(tree: DependencyTree)
    ensures StructurallyEqual(tree, tree)
  {
  }

  /** Rebuilds the tree and writes it, with the two scalars, only on a structural change. */
  method RefreshTree(specId: Id, spec: SpecRow, epics: seq<EpicNode>, nodes: seq<TicketNode>, edges: seq<Edge>,
                     generatedAt: string)
    returns (next: SpecRow)
    requires SpecCached(specId, spec) && DistinctIds(nodes) && DistinctEpics(epics)
    ensures SameButTree(next, spec)
    ensures ScalarsOfTree(next) && TreeCurrent(specId, next.tree, EpicsById(epics), Rows(nodes), Elems(edges))
    ensures TreeCurrent(specId, spec.tree, EpicsById(epics), Rows(nodes), Elems(edges)) ==> next == spec
    ensures TreeWritten(spec, next, generatedAt)
  {
    var current := BuildDependencyTree(specId, epics, nodes, edges, Some(spec.treeVersion), generatedAt);
    var changed, tree := Gate(spec.tree, current);
    next := if changed then SetTree(spec, tree, generatedAt) else spec;
    Refreshed(specId, spec, next, EpicsById(epics), Rows(nodes), Elems(edges), current, generatedAt);
    NotRefreshed(specId, spec, EpicsById(epics), Rows(nodes), Elems(edges), current);
  }

  method Gate(previous: Option<DependencyTree>, current: DependencyTree) returns (changed: bool, tree: DependencyTree)
    ensures (changed, tree) == ComputeTreeUpdate(previous, current)
  {
    var r := ComputeTreeUpdate(previous, current);
    changed, tree := r.0, r.1;
  }

  lemma Refreshed(specId: Id, spec: SpecRow, next: SpecRow, epics: EpicRows, rows: TicketRows, E: set<Edge>,
                  current: DependencyTree, generatedAt: string)
    requires SpecCached(specId, spec) && IsTreeOf(specId, epics, rows, E, current)
    requires next == if ComputeTreeUpdate(spec.tree, current).0 then SetTree(spec, current, generatedAt) else spec
    ensures ScalarsOfTree(next) && TreeCurrent(specId, next.tree, epics, rows, E)
  {
    if ComputeTreeUpdate(spec.tree, current).0 {
      EqualToItself(current);
      assert Built(current);
      GateReadsRows(specId, epics, rows, E, current, current);
    } else {
      GateReadsRows(specId, epics, rows, E, spec.tree.value, current);
    }
  }

  lemma NotRefreshed(specId: Id, spec: SpecRow, epics: EpicRows, rows: TicketRows, E: set<Edge>, current: DependencyTree)
    requires IsTreeOf(specId, epics, rows, E, current)
    ensures TreeCurrent(specId, spec.tree, epics, rows, E) ==> !ComputeTreeUpdate(spec.tree, current).0
  {
    if spec.tree.Some? {
      GateReadsRows(specId, epics, rows, E, spec.tree.value, current);
    }
  }

  // ---------------------------------------------------------------------------
  // The steps on a view
  // ---------------------------------------------------------------------------

  /** The nodes with their settled statuses. */
  function SettledNodes(tickets: map<Id, TicketRow>, states: States): TicketRows
    requires states.Keys == tickets.Keys
  {
    map t | t in tickets :: TicketNodeOf(t, tickets[t]).(status := states[t])
  }

  lemma SettledNodesStates(tickets: map<Id, TicketRow>, states: States)
    requires states.Keys == tickets.Keys
    ensures StatesOf(SettledNodes(tickets, states)) == states
  {
    var nodes := SettledNodes(tickets, states);
    forall t | t in states.Keys
      ensures StatesOf(nodes)[t] == states[t]
    {
      assert nodes[t].status == states[t];
    }
    MapsAgree(states.Keys, StatesOf(nodes), states);
  }

  lemma EdgeRowsExact(view: SpecView)
    requires ViewClosed(view)
    ensures Elems(EdgeRows(view)) == view.edges
  {
    CanonicalEdgesExact(view.tickets.Keys, TicketIds(view), view.edges);
  }

  lemma IdsOf(ids: seq<Id>, keys: set<Id>)
    requires forall t :: t in ids <==> t in keys
    ensures Elems(ids) == keys
  {
  }

  /** Cascade to fixpoint, then write statuses, progress and block reasons. */
  method SettleTickets(view: SpecView) returns (tickets: map<Id, TicketRow>)
    requires ViewClosed(view)
    ensures tickets.Keys == view.tickets.Keys
    ensures var states := Settled(Statuses(view), view.edges);
            && states.Keys == tickets.Keys
            && forall t | t in tickets ::
              tickets[t] == StatusWritten(view.tickets[t], t, states, SettledNodes(view.tickets, states), EdgeRows(view))
  {
    var ids, edges := TicketIds(view), EdgeRows(view);
    EdgeRowsExact(view);
    IdsOf(ids, view.tickets.Keys);
    var settled, passes := Cascade.CascadeToFixpoint(ids, Statuses(view), edges);
    var nodes := SettledNodes(view.tickets, settled);
    SettledNodesStates(view.tickets, settled);
    tickets := ApplyStatuses(ids, view.tickets, settled, nodes, edges);
  }

  lemma SettledView(view: SpecView, states: States, tickets: map<Id, TicketRow>)
    requires tickets.Keys == view.tickets.Keys == states.Keys
    requires forall t | t in tickets ::
      tickets[t].status == states[t] && SameTicket(tickets[t], view.tickets[t])
    ensures Nodes(view.(tickets := tickets)) == SettledNodes(view.tickets, states)
    ensures Statuses(view.(tickets := tickets)) == states
  {
    var after := view.(tickets := tickets);
    forall t | t in states.Keys
      ensures Nodes(after)[t] == SettledNodes(view.tickets, states)[t]
      ensures Statuses(after)[t] == states[t]
    {
      assert tickets[t].status == states[t] && SameTicket(tickets[t], view.tickets[t]);
    }
    MapsAgree(states.Keys, Nodes(after), SettledNodes(view.tickets, states));
    MapsAgree(states.Keys, Statuses(after), states);
  }

  lemma SameColumns(a: SpecView, b: SpecView)
    requires Nodes(a) == Nodes(b)
    ensures a.tickets.Keys == b.tickets.Keys
    ensures Statuses(a) == Statuses(b) && TicketEpic(a) == TicketEpic(b)
  {
    assert a.tickets.Keys == Nodes(a).Keys == Nodes(b).Keys == b.tickets.Keys;
    forall t | t in a.tickets.Keys
      ensures Statuses(a)[t] == Statuses(b)[t] && TicketEpic(a)[t] == TicketEpic(b)[t]
    {
      assert Nodes(a)[t] == Nodes(b)[t];
    }
    MapsAgree(a.tickets.Keys, Statuses(a), Statuses(b));
    MapsAgree(a.tickets.Keys, TicketEpic(a), TicketEpic(b));
  }

  /** Rewriting columns that no node shows leaves everything the derivations read alone. */
  lemma SameReads(a: SpecView, b: SpecView)
    requires Nodes(a) == Nodes(b) && EpicNodes(a) == EpicNodes(b)
    requires a.edges == b.edges && a.blueprints == b.blueprints && a.refs == b.refs
    ensures TicketIds(a) == TicketIds(b) && EpicIds(a) == EpicIds(b)
    ensures EdgeRows(a) == EdgeRows(b) && RefRows(a) == RefRows(b) && NodeList(a) == NodeList(b)
    ensures Statuses(a) == Statuses(b) && TicketEpic(a) == TicketEpic(b)
  {
    assert a.epics.Keys == EpicNodes(a).Keys == EpicNodes(b).Keys == b.epics.Keys;
    SameColumns(a, b);
  }

  // ---------------------------------------------------------------------------
  // Tickets
  // ---------------------------------------------------------------------------

  function Rewritten(row: TicketRow, t: Id, states: States, nodes: TicketRows,
                     edges: seq<Edge>, refs: seq<BlueprintRef>): TicketRow {
    WithCounts(StatusWritten(row, t, states, nodes, edges), t, edges, refs)
  }

  ghost predicate AllRewritten(rows: map<Id, TicketRow>, next: map<Id, TicketRow>, states: States,
                               edges: seq<Edge>, refs: seq<BlueprintRef>)
  {
    && next.Keys == rows.Keys == states.Keys
    && forall t {:trigger next[t]} | t in next ::
         next[t] == Rewritten(rows[t], t, states, SettledNodes(rows, states), edges, refs)
  }

  lemma WrittenAndCounted(rows: map<Id, TicketRow>, settled: map<Id, TicketRow>, next: map<Id, TicketRow>, states: States,
                          edges: seq<Edge>, refs: seq<BlueprintRef>)
    requires next.Keys == settled.Keys == rows.Keys == states.Keys
    requires forall t | t in settled ::
      settled[t] == StatusWritten(rows[t], t, states, SettledNodes(rows, states), edges)
    requires forall t | t in settled :: next[t] == WithCounts(settled[t], t, edges, refs)
    ensures AllRewritten(rows, next, states, edges, refs)
  {
  }

  method RewriteTickets(view: SpecView, dc: DependencyCounts, bc: BlueprintCounts)
    returns (tickets: map<Id, TicketRow>)
    requires ViewClosed(view)
    requires forall t :: Get(dc.incoming, t) == Incoming(EdgeRows(view), t) && Get(dc.outgoing, t) == Outgoing(EdgeRows(view), t)
    requires forall t :: Get(bc.ticket, t) == RefsOf(RefRows(view), t)
    ensures AllRewritten(view.tickets, tickets, Settled(Statuses(view), view.edges), EdgeRows(view), RefRows(view))
  {
    var settled := SettleTickets(view);
    tickets := ApplyTicketCounts(TicketIds(view), settled, dc, bc, EdgeRows(view), RefRows(view));
    WrittenAndCounted(view.tickets, settled, tickets, Settled(Statuses(view), view.edges), EdgeRows(view), RefRows(view));
  }

  lemma RewrittenKeeps(rows: map<Id, TicketRow>, next: map<Id, TicketRow>, states: States,
                       edges: seq<Edge>, refs: seq<BlueprintRef>)
    requires AllRewritten(rows, next, states, edges, refs)
    ensures forall t | t in next :: next[t].status == states[t] && SameTicket(next[t], rows[t])
  {
    forall t | t in next
      ensures next[t].status == states[t] && SameTicket(next[t], rows[t])
    {
      assert next[t] == Rewritten(rows[t], t, states, SettledNodes(rows, states), edges, refs);
    }
  }

  lemma RewrittenIsDerived(row: TicketRow, next: TicketRow, t: Id, states: States, nodes: TicketRows,
                           edges: seq<Edge>, refs: seq<BlueprintRef>)
    requires t in states && next == Rewritten(row, t, states, nodes, edges, refs)
    ensures next == DerivedTicket(next, t, nodes, edges, refs)
    ensures row.status == states[t] && row == DerivedTicket(row, t, nodes, edges, refs) ==> next == row
  {
  }

  /** Rewriting settles the rows, and is the identity on rows that are already settled. */
  lemma RewrittenTickets(view: SpecView, tickets: map<Id, TicketRow>, states: States, after: SpecView)
    requires states == Settled(Statuses(view), view.edges)
    requires AllRewritten(view.tickets, tickets, states, EdgeRows(view), RefRows(view))
    requires after.tickets == tickets && after.edges == view.edges
    requires EdgeRows(after) == EdgeRows(view) && RefRows(after) == RefRows(view)
    requires Nodes(after) == SettledNodes(view.tickets, states) && Statuses(after) == states
    ensures TicketsDerived(after)
    ensures TicketsDerived(view) ==> tickets == view.tickets
  {
    SettledIsTheFixpoint(Statuses(view), view.edges, Statuses(view));
    forall t | t in tickets
      ensures tickets[t] == DerivedTicket(tickets[t], t, Nodes(after), EdgeRows(after), RefRows(after))
    {
      RewrittenIsDerived(view.tickets[t], tickets[t], t, states, Nodes(after), EdgeRows(view), RefRows(view));
    }
    if TicketsDerived(view) {
      UnchangedWhenDerived(view, tickets, states);
    }
  }

  lemma SettledAlready(view: SpecView, states: States)
    requires Consistent(Statuses(view), view.edges) && states == Settled(Statuses(view), view.edges)
    ensures states == Statuses(view) && SettledNodes(view.tickets, states) == Nodes(view)
  {
    SettledIsTheFixpoint(Statuses(view), view.edges, Statuses(view));
    SettledView(view, states, view.tickets);
    assert view.(tickets := view.tickets) == view;
  }

  lemma UnchangedWhenDerived(view: SpecView, tickets: map<Id, TicketRow>, states: States)
    requires TicketsDerived(view) && states == Settled(Statuses(view), view.edges)
    requires AllRewritten(view.tickets, tickets, states, EdgeRows(view), RefRows(view))
    ensures tickets == view.tickets
  {
    SettledAlready(view, states);
    forall t | t in view.tickets.Keys
      ensures tickets[t] == view.tickets[t]
    {
      UnchangedRow(view, tickets, states, t);
    }
    MapsAgree(view.tickets.Keys, tickets, view.tickets);
  }

  lemma UnchangedRow(view: SpecView, tickets: map<Id, TicketRow>, states: States, t: Id)
    requires TicketsDerived(view) && t in view.tickets
    requires states == Statuses(view) && SettledNodes(view.tickets, states) == Nodes(view)
    requires AllRewritten(view.tickets, tickets, states, EdgeRows(view), RefRows(view))
    ensures tickets[t] == view.tickets[t]
  {
    RewrittenIsDerived(view.tickets[t], tickets[t], t, states, Nodes(view), EdgeRows(view), RefRows(view));
  }

  // ---------------------------------------------------------------------------
  // Epics and the spec row
  // ---------------------------------------------------------------------------

  ghost predicate EpicsRewritten(rows: map<Id, EpicRow>, next: map<Id, EpicRow>, nodes: seq<TicketNode>,
                                 ticketEpic: map<Id, Id>, edges: seq<Edge>, refs: seq<BlueprintRef>)
  {
    && next.Keys == rows.Keys
    && forall e {:trigger next[e]} | e in next ::
         next[e] == DerivedEpic(rows[e], e, NodesIn(nodes, e), ticketEpic, edges, refs)
  }

  ghost predicate Bucketed(statuses: seq<EpicStatus>, ids: seq<Id>, nodes: seq<TicketNode>) {
    && |statuses| == |ids|
    && forall k | 0 <= k < |ids| :: statuses[k] == EpicCountsOf(NodesIn(nodes, ids[k])).status
  }

  method RewriteEpics(ids: seq<Id>, rows: map<Id, EpicRow>, nodes: seq<TicketNode>,
                      dc: DependencyCounts, bc: BlueprintCounts,
                      ghost ticketEpic: map<Id, Id>, ghost edges: seq<Edge>, ghost refs: seq<BlueprintRef>)
    returns (epics: map<Id, EpicRow>, statuses: seq<EpicStatus>)
    requires forall e :: e in ids <==> e in rows
    requires forall e :: Get(dc.epic, e) == IntraEpic(edges, ticketEpic, e)
    requires forall e :: Get(bc.epic, e) == |EpicBlueprints(refs, ticketEpic, e)|
    ensures EpicsRewritten(rows, epics, nodes, ticketEpic, edges, refs)
    ensures Bucketed(statuses, ids, nodes)
  {
    var groups := GroupByEpic(nodes, rows.Keys);
    var counts := CountEpics(ids, groups);
    epics, statuses := ApplyEpics(ids, rows, counts, dc.epic, bc.epic);
    forall e | e in epics
      ensures epics[e] == DerivedEpic(rows[e], e, NodesIn(nodes, e), ticketEpic, edges, refs)
    {
      assert counts[e] == EpicCountsOf(groups[e]);
      assert Get(dc.epic, e) == IntraEpic(edges, ticketEpic, e);
      assert Get(bc.epic, e) == |EpicBlueprints(refs, ticketEpic, e)|;
    }
  }

  lemma EpicNumbersSettled(view: SpecView, epics: map<Id, EpicRow>, nodes: seq<TicketNode>, ticketEpic: map<Id, Id>,
                           edges: seq<Edge>, refs: seq<BlueprintRef>)
    requires EpicsRewritten(view.epics, epics, nodes, ticketEpic, edges, refs)
    ensures EpicNodes(view.(epics := epics)) == EpicNodes(view)
    ensures forall e | e in epics :: SameEpic(epics[e], view.epics[e])
  {
    var after := view.(epics := epics);
    forall e | e in view.epics.Keys
      ensures EpicNodes(after)[e] == EpicNodes(view)[e] && SameEpic(epics[e], view.epics[e])
    {
      assert epics[e] == DerivedEpic(view.epics[e], e, NodesIn(nodes, e), ticketEpic, edges, refs);
    }
    MapsAgree(view.epics.Keys, EpicNodes(after), EpicNodes(view));
  }

  lemma RewrittenEpic(row: EpicRow, next: EpicRow, e: Id, nodes: seq<TicketNode>, ticketEpic: map<Id, Id>,
                      edges: seq<Edge>, refs: seq<BlueprintRef>)
    requires next == DerivedEpic(row, e, nodes, ticketEpic, edges, refs)
    ensures next == DerivedEpic(next, e, nodes, ticketEpic, edges, refs)
  {
  }

  lemma RewrittenEpics(view: SpecView, after: SpecView)
    requires EpicsRewritten(view.epics, after.epics, NodeList(after), TicketEpic(after), EdgeRows(after), RefRows(after))
    ensures EpicsDerived(after)
  {
    forall e | e in after.epics
      ensures after.epics[e] == DerivedEpic(after.epics[e], e, EpicNodeList(after, e), TicketEpic(after),
                                            EdgeRows(after), RefRows(after))
    {
      RewrittenEpic(view.epics[e], after.epics[e], e, EpicNodeList(after, e), TicketEpic(after),
                    EdgeRows(after), RefRows(after));
    }
  }

  lemma UnchangedEpics(view: SpecView, epics: map<Id, EpicRow>)
    requires EpicsDerived(view)
    requires EpicsRewritten(view.epics, epics, NodeList(view), TicketEpic(view), EdgeRows(view), RefRows(view))
    ensures epics == view.epics
  {
    forall e | e in view.epics.Keys
      ensures epics[e] == view.epics[e]
    {
      assert view.epics[e] == DerivedEpic(view.epics[e], e, EpicNodeList(view, e), TicketEpic(view),
                                          EdgeRows(view), RefRows(view));
    }
    MapsAgree(view.epics.Keys, epics, view.epics);
  }

  /** The nodes a rewrite of epic columns gives the tree. */
  function EpicList(view: SpecView): (list: seq<EpicNode>)
    ensures |list| == |EpicIds(view)|
    ensures forall i | 0 <= i < |list| :: list[i] == EpicNodes(view)[EpicIds(view)[i]]
  {
    var ids, nodes := EpicIds(view), EpicNodes(view);
    assert nodes.Keys == view.epics.Keys;
    seq(|ids|, i requires 0 <= i < |ids| => nodes[ids[i]])
  }

  lemma SortedIsDistinct(list: seq<EpicNode>, ids: seq<Id>)
    requires |list| == |ids| && StrictlySorted(ids) && forall i | 0 <= i < |ids| :: list[i].id == ids[i]
    ensures DistinctEpics(list)
  {
  }

  lemma EpicListGivesNodes(view: SpecView)
    ensures DistinctEpics(EpicList(view)) && EpicsById(EpicList(view)) == EpicNodes(view)
  {
    var ids, list := EpicIds(view), EpicList(view);
    forall i | 0 <= i < |list|
      ensures list[i].id == ids[i]
    {
      assert ids[i] in ids;
    }
    SortedIsDistinct(list, ids);
    EpicListKeys(view, list, ids);
    MapsAgree(view.epics.Keys, EpicsById(list), EpicNodes(view));
  }

  lemma EpicListKeys(view: SpecView, list: seq<EpicNode>, ids: seq<Id>)
    requires DistinctEpics(list) && |list| == |ids| && forall e :: e in ids <==> e in view.epics
    requires forall i | 0 <= i < |list| :: list[i] == EpicNodes(view)[ids[i]]
    ensures EpicsById(list).Keys == view.epics.Keys
    ensures forall e | e in view.epics :: EpicsById(list)[e] == EpicNodes(view)[e]
  {
    forall e
      ensures e in view.epics ==> e in EpicsById(list) && EpicsById(list)[e] == EpicNodes(view)[e]
      ensures e in EpicsById(list) ==> e in view.epics
    {
      if e in view.epics {
        assert e in ids;
        var i :| 0 <= i < |ids| && ids[i] == e;
        assert list[i] in list;
        EpicsFind(list, list[i]);
      }
      if e in EpicsById(list) {
        EpicsMembers(list, e);
        var i :| 0 <= i < |list| && list[i] == EpicsById(list)[e];
        assert ids[i] in ids;
      }
    }
  }

  lemma NodesDistinct(rows: TicketRows, ids: seq<Id>)
    requires StrictlySorted(ids) && (forall v | v in ids :: v in rows) && forall v | v in rows :: rows[v].id == v
    ensures DistinctIds(NodesOf(rows, ids))
  {
    var list := NodesOf(rows, ids);
    assert forall i | 0 <= i < |list| :: ids[i] in ids && list[i].id == ids[i];
  }

  lemma NodeListGivesNodes(view: SpecView)
    ensures DistinctIds(NodeList(view)) && Rows(NodeList(view)) == Nodes(view)
  {
    var ids := TicketIds(view);
    NodesDistinct(Nodes(view), ids);
    NodesGiveRows(Nodes(view), ids);
  }

  // ---------------------------------------------------------------------------
  // One spec
  // ---------------------------------------------------------------------------

  /** The authoritative columns: nothing but statuses and derived columns differs. */
  ghost predicate SameSources(a: SpecView, b: SpecView) {
    && a.tickets.Keys == b.tickets.Keys && a.epics.Keys == b.epics.Keys
    && a.edges == b.edges && a.blueprints == b.blueprints && a.refs == b.refs
    && (forall t | t in a.tickets :: SameTicket(a.tickets[t], b.tickets[t]))
    && (forall e | e in a.epics :: SameEpic(a.epics[e], b.epics[e]))
  }

  /** Settling moves statuses only, so ids, edges, links and memberships read the same. */
  lemma MidReads(view: SpecView, mid: SpecView)
    requires mid == view.(tickets := mid.tickets) && mid.tickets.Keys == view.tickets.Keys
    requires forall t | t in mid.tickets :: SameTicket(mid.tickets[t], view.tickets[t])
    ensures TicketIds(mid) == TicketIds(view) && EdgeRows(mid) == EdgeRows(view) && RefRows(mid) == RefRows(view)
    ensures TicketEpic(mid) == TicketEpic(view)
  {
    forall t | t in view.tickets.Keys
      ensures TicketEpic(mid)[t] == TicketEpic(view)[t]
    {
      assert SameTicket(mid.tickets[t], view.tickets[t]);
    }
    MapsAgree(view.tickets.Keys, TicketEpic(mid), TicketEpic(view));
  }

  lemma RewrittenReads(view: SpecView, mid: SpecView, after: SpecView, states: States)
    requires mid == view.(tickets := mid.tickets) && after == mid.(epics := after.epics)
    requires states == Settled(Statuses(view), view.edges)
    requires AllRewritten(view.tickets, mid.tickets, states, EdgeRows(view), RefRows(view))
    requires EpicsRewritten(mid.epics, after.epics, NodeList(mid), TicketEpic(view), EdgeRows(view), RefRows(view))
    ensures NodeList(after) == NodeList(mid) && EpicIds(after) == EpicIds(view) && EdgeRows(after) == EdgeRows(view)
    ensures RefRows(after) == RefRows(view) && TicketEpic(after) == TicketEpic(view)
    ensures Nodes(after) == SettledNodes(view.tickets, states)
    ensures SameSources(after, view) && Statuses(after) == states
  {
    RewrittenKeeps(view.tickets, mid.tickets, states, EdgeRows(view), RefRows(view));
    SettledView(view, states, mid.tickets);
    MidReads(view, mid);
    EpicNumbersSettled(mid, after.epics, NodeList(mid), TicketEpic(view), EdgeRows(view), RefRows(view));
    SameReads(after, mid);
  }

  lemma RewrittenRows(view: SpecView, mid: SpecView, after: SpecView, states: States)
    requires mid == view.(tickets := mid.tickets) && after == mid.(epics := after.epics)
    requires states == Settled(Statuses(view), view.edges)
    requires AllRewritten(view.tickets, mid.tickets, states, EdgeRows(view), RefRows(view))
    requires EpicsRewritten(mid.epics, after.epics, NodeList(mid), TicketEpic(view), EdgeRows(view), RefRows(view))
    ensures TicketsDerived(after) && EpicsDerived(after)
  {
    RewrittenReads(view, mid, after, states);
    RewrittenTickets(view, mid.tickets, states, after);
    RewrittenEpics(mid, after);
  }

  lemma RewrittenRowsAgain(view: SpecView, mid: SpecView, after: SpecView, states: States)
    requires mid == view.(tickets := mid.tickets) && after == mid.(epics := after.epics)
    requires states == Settled(Statuses(view), view.edges)
    requires AllRewritten(view.tickets, mid.tickets, states, EdgeRows(view), RefRows(view))
    requires EpicsRewritten(mid.epics, after.epics, NodeList(mid), TicketEpic(view), EdgeRows(view), RefRows(view))
    requires TicketsDerived(view) && EpicsDerived(view)
    ensures after == view
  {
    UnchangedWhenDerived(view, mid.tickets, states);
    assert mid == view;
    UnchangedEpics(view, after.epics);
  }

  lemma BucketedIsEpicStatuses(view: SpecView, statuses: seq<EpicStatus>, ids: seq<Id>, nodes: seq<TicketNode>)
    requires Bucketed(statuses, ids, nodes) && nodes == NodeList(view)
    ensures statuses == EpicStatuses(view, ids)
  {
  }

  ghost predicate EpicCountsRead(view: SpecView, dc: DependencyCounts, bc: BlueprintCounts) {
    && (forall e :: Get(dc.epic, e) == IntraEpic(EdgeRows(view), TicketEpic(view), e))
    && (forall e :: Get(bc.epic, e) == |EpicBlueprints(RefRows(view), TicketEpic(view), e)|)
  }

  method TicketStage(view: SpecView)
    returns (mid: SpecView, dc: DependencyCounts, bc: BlueprintCounts)
    requires ViewClosed(view)
    ensures mid == view.(tickets := mid.tickets)
    ensures AllRewritten(view.tickets, mid.tickets, Settled(Statuses(view), view.edges), EdgeRows(view), RefRows(view))
    ensures EpicCountsRead(view, dc, bc) && dc.specification == |EdgeRows(view)|
  {
    dc := DeriveDependencyCounts(EdgeRows(view), TicketEpic(view));
    bc := DeriveBlueprintCounts(Sorted(view.blueprints), RefRows(view), TicketEpic(view));
    var tickets := RewriteTickets(view, dc, bc);
    mid := view.(tickets := tickets);
  }

  method EpicStage(view: SpecView, mid: SpecView, dc: DependencyCounts, bc: BlueprintCounts)
    returns (after: SpecView, statuses: seq<EpicStatus>)
    requires EpicCountsRead(view, dc, bc) && mid.epics == view.epics
    ensures after == mid.(epics := after.epics)
    ensures EpicsRewritten(mid.epics, after.epics, NodeList(mid), TicketEpic(view), EdgeRows(view), RefRows(view))
    ensures Bucketed(statuses, EpicIds(view), NodeList(mid))
  {
    var epics;
    epics, statuses := RewriteEpics(EpicIds(view), view.epics, NodeList(mid), dc, bc,
                                    TicketEpic(view), EdgeRows(view), RefRows(view));
    after := mid.(epics := epics);
  }

  /** Cascade, ticket columns and epic columns; the statuses and the edge count feed the
      spec rollup. */
  method RewriteRows(view: SpecView)
    returns (after: SpecView, statuses: seq<EpicStatus>, dependencies: nat)
    requires ViewClosed(view)
    ensures SameSources(after, view)
    ensures Statuses(after) == Settled(Statuses(view), view.edges)
    ensures TicketsDerived(after) && EpicsDerived(after)
    ensures statuses == EpicStatuses(after, EpicIds(after))
    ensures dependencies == |EdgeRows(after)|
    ensures TicketsDerived(view) && EpicsDerived(view) ==> after == view
  {
    var mid, dc, bc := TicketStage(view);
    ghost var states := Settled(Statuses(view), view.edges);
    after, statuses := EpicStage(view, mid, dc, bc);
    dependencies := dc.specification;
    StagesDone(view, mid, after, states, statuses);
  }

  lemma StagesDone(view: SpecView, mid: SpecView, after: SpecView, states: States, statuses: seq<EpicStatus>)
    requires mid == view.(tickets := mid.tickets) && after == mid.(epics := after.epics)
    requires states == Settled(Statuses(view), view.edges)
    requires AllRewritten(view.tickets, mid.tickets, states, EdgeRows(view), RefRows(view))
    requires EpicsRewritten(mid.epics, after.epics, NodeList(mid), TicketEpic(view), EdgeRows(view), RefRows(view))
    requires Bucketed(statuses, EpicIds(view), NodeList(mid))
    ensures SameSources(after, view) && Statuses(after) == states && EdgeRows(after) == EdgeRows(view)
    ensures TicketsDerived(after) && EpicsDerived(after)
    ensures statuses == EpicStatuses(after, EpicIds(after))
    ensures TicketsDerived(view) && EpicsDerived(view) ==> after == view
  {
    RewrittenReads(view, mid, after, states);
    RewrittenRows(view, mid, after, states);
    if TicketsDerived(view) && EpicsDerived(view) {
      RewrittenRowsAgain(view, mid, after, states);
    }
    BucketedIsEpicStatuses(after, statuses, EpicIds(view), NodeList(mid));
  }

  method RefreshFrom(specId: Id, spec: SpecRow, view: SpecView, generatedAt: string) returns (next: SpecRow)
    requires SpecCached(specId, spec) && ViewClosed(view)
    ensures SameButTree(next, spec)
    ensures ScalarsOfTree(next) && TreeCurrent(specId, next.tree, EpicNodes(view), Nodes(view), view.edges)
    ensures TreeCurrent(specId, spec.tree, EpicNodes(view), Nodes(view), view.edges) ==> next == spec
    ensures TreeWritten(spec, next, generatedAt)
  {
    EpicListGivesNodes(view);
    NodeListGivesNodes(view);
    EdgeRowsExact(view);
    next := RefreshTree(specId, spec, EpicList(view), NodeList(view), EdgeRows(view), generatedAt);
  }

  lemma ViewStaysClosed(view: SpecView, after: SpecView)
    requires ViewClosed(view) && SameSources(after, view)
    ensures ViewClosed(after)
  {
  }

  function Counted(spec: SpecRow, counts: SpecCounts, dependencies: nat, blueprints: nat): SpecRow {
    spec.(counts := counts, dependencyCount := dependencies, blueprintCount := blueprints)
  }

  lemma Assembled(specId: Id, spec: SpecRow, view: SpecView, statuses: seq<EpicStatus>, dependencies: nat)
    requires TicketsDerived(view) && EpicsDerived(view)
    requires statuses == EpicStatuses(view, EpicIds(view)) && dependencies == |EdgeRows(view)|
    requires spec == Counted(spec, SpecCountsOf(statuses, NodeList(view)), dependencies, |view.blueprints|)
    requires ScalarsOfTree(spec) && TreeCurrent(specId, spec.tree, EpicNodes(view), Nodes(view), view.edges)
    ensures SpecConsistent(specId, spec, view)
  {
  }

  lemma Disassembled(specId: Id, spec: SpecRow, view: SpecView)
    ensures SpecConsistent(specId, spec, view) ==>
      && spec == Counted(spec, SpecCountsOf(EpicStatuses(view, EpicIds(view)), NodeList(view)),
                         |EdgeRows(view)|, |view.blueprints|)
      && TreeCurrent(specId, spec.tree, EpicNodes(view), Nodes(view), view.edges)
  {
  }

  method RewriteSpec(specId: Id, spec: SpecRow, view: SpecView, statuses: seq<EpicStatus>, dependencies: nat, generatedAt: string)
    returns (next: SpecRow)
    requires SpecCached(specId, spec) && ViewClosed(view)
    ensures var counts := SpecCountsOf(statuses, NodeList(view));
            && next == Counted(next, counts, dependencies, |view.blueprints|)
            && ScalarsOfTree(next) && TreeCurrent(specId, next.tree, EpicNodes(view), Nodes(view), view.edges)
            && (spec == Counted(spec, counts, dependencies, |view.blueprints|)
                && TreeCurrent(specId, spec.tree, EpicNodes(view), Nodes(view), view.edges)
                ==> next == spec)
    ensures next.projectId == spec.projectId && next.status == spec.status
    ensures TreeWritten(spec, next, generatedAt)
  {
    var counts := DeriveSpecCounts(statuses, NodeList(view));
    next := RefreshFrom(specId, Counted(spec, counts, dependencies, |view.blueprints|), view, generatedAt);
  }

  lemma ConsistentIsDerived(specId: Id, spec: SpecRow, view: SpecView)
    ensures SpecConsistent(specId, spec, view) ==> TicketsDerived(view) && EpicsDerived(view)
  {
  }

  /** `_recompute_spec`: whatever the derived columns held, afterwards every one of them
      equals its derivation from the rows; on rows already consistent nothing changes, so
      a second recompute bumps no version. */
  method RecomputeSpec(specId: Id, spec: SpecRow, view: SpecView, generatedAt: string)
    returns (newSpec: SpecRow, newView: SpecView)
    requires ViewClosed(view) && SpecCached(specId, spec)
    ensures SpecConsistent(specId, newSpec, newView)
    ensures SameSources(newView, view)
    ensures newSpec.projectId == spec.projectId && newSpec.status == spec.status
    ensures Statuses(newView) == Settled(Statuses(view), view.edges)
    ensures TreeWritten(spec, newSpec, generatedAt)
    ensures SpecConsistent(specId, spec, view) ==> newSpec == spec && newView == view
  {
    var statuses, dependencies;
    newView, statuses, dependencies := RewriteRows(view);
    ViewStaysClosed(view, newView);
    newSpec := RewriteSpec(specId, spec, newView, statuses, dependencies, generatedAt);
    Assembled(specId, newSpec, newView, statuses, dependencies);
    ConsistentIsDerived(specId, spec, view);
    Disassembled(specId, spec, newView);
  }
}
