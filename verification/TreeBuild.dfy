/** The dependency-tree builder (`build_dependency_tree`), step by step. */
module TreeBuild {
  import opened Graph
  import opened Ordering
  import opened Types
  import opened StatusCalculator
  import opened Cycles
  import opened CriticalPath
  import opened BlockerDepth
  import opened TreeSpec
  import Cascade
  import FindCycles

  ghost predicate DistinctIds(tickets: seq<TicketNode>) {
    forall i, j | 0 <= i < j < |tickets| :: tickets[i].id != tickets[j].id
  }

  ghost predicate DistinctEpics(epics: seq<EpicNode>) {
    forall i, j | 0 <= i < j < |epics| :: epics[i].id != epics[j].id
  }

  function EpicsById(epics: seq<EpicNode>): (m: EpicRows)
    ensures forall k | k in m :: m[k].id == k
  {
    if |epics| == 0 then map[]
    else EpicsById(epics[..|epics| - 1])[epics[|epics| - 1].id := epics[|epics| - 1]]
  }

  /** The rows as a list in the order of `ids`. */
  function NodesOf(rows: TicketRows, ids: seq<Id>): (r: seq<TicketNode>)
    requires forall v | v in ids :: v in rows
    ensures |r| == |ids| && forall i | 0 <= i < |ids| :: r[i] == rows[ids[i]]
  {
    seq(|ids|, i requires 0 <= i < |ids| => rows[ids[i]])
  }

  lemma RowsAppend(a: seq<TicketNode>, t: TicketNode)
    ensures Rows(a + [t]) == Rows(a)[t.id := t]
  {
    assert (a + [t])[..|a|] == a;
  }

  lemma RowsOfNodesStep(rows: TicketRows, init: seq<Id>, last: Id)
    requires (forall v | v in init :: v in rows) && last in rows && rows[last].id == last
    ensures forall v | v in init + [last] :: v in rows
    ensures Rows(NodesOf(rows, init + [last])) == Rows(NodesOf(rows, init))[last := rows[last]]
  {
    RowsAppend(NodesOf(rows, init), rows[last]);
    assert NodesOf(rows, init + [last]) == NodesOf(rows, init) + [rows[last]];
  }

  /** `part` is the rows of the listed tickets. */
  ghost predicate PartOf(part: TicketRows, rows: TicketRows, ids: seq<Id>) {
    part.Keys == Elems(ids) && forall v | v in part :: v in rows && part[v] == rows[v]
  }

  lemma PartGrows(part: TicketRows, rows: TicketRows, init: seq<Id>, last: Id)
    requires PartOf(part, rows, init) && last in rows
    ensures PartOf(part[last := rows[last]], rows, init + [last])
  {
    ElemsAppend(init, last);
  }

  lemma {:induction false} RowsOfNodes(rows: TicketRows, ids: seq<Id>)
    requires forall v | v in rows :: rows[v].id == v
    requires forall v | v in ids :: v in rows
    ensures PartOf(Rows(NodesOf(rows, ids)), rows, ids)
    decreases |ids|
  {
    if |ids| > 0 {
      var init, last := ids[..|ids| - 1], ids[|ids| - 1];
      assert ids == init + [last];
      RowsOfNodes(rows, init);
      RowsOfNodesStep(rows, init, last);
      PartGrows(Rows(NodesOf(rows, init)), rows, init, last);
    }
  }

  lemma NodesGiveRows(rows: TicketRows, ids: seq<Id>)
    requires forall v | v in rows :: rows[v].id == v
    requires forall v :: v in ids <==> v in rows
    ensures Rows(NodesOf(rows, ids)) == rows
  {
    RowsOfNodes(rows, ids);
    assert Elems(ids) == rows.Keys;
    MapsAgree(rows.Keys, Rows(NodesOf(rows, ids)), rows);
  }

  // ---------------------------------------------------------------------------
  // Adjacency
  // ---------------------------------------------------------------------------

  ghost predicate DepsListed(nodes: set<Id>, F: set<Edge>, deps: map<Id, seq<Id>>) {
    deps.Keys == nodes && forall v | v in deps :: deps[v] == Sorted(DepsOf(F, v))
  }

  method DependsOn(nodes: set<Id>, edges: seq<Edge>) returns (deps: map<Id, seq<Id>>)
    ensures DepsListed(nodes, Restrict(Elems(edges), nodes), deps)
    ensures forall v, d | v in nodes :: d in deps[v] <==> Edge(v, d) in Restrict(Elems(edges), nodes)
  {
    deps := CollectDeps(nodes, edges);
    ghost var F := Restrict(Elems(edges), nodes);
    forall v | v in deps
      ensures deps[v] == Sorted(DepsOf(F, v))
    {
      ListIsSortedDeps(F, v, deps[v]);
    }
  }

  lemma ListIsSortedDeps(F: set<Edge>, v: Id, list: seq<Id>)
    requires StrictlySorted(list) && forall d :: d in list <==> Edge(v, d) in F
    ensures list == Sorted(DepsOf(F, v))
  {
    forall d
      ensures d in Elems(list) <==> d in DepsOf(F, v)
    {
      DepsOfEdge(F, Edge(v, d));
    }
    StrictlySortedUnique(list, Sorted(DepsOf(F, v)));
  }

  method CanonicalEdges(ids: seq<Id>, ghost F: set<Edge>, deps: map<Id, seq<Id>>) returns (edges: seq<Edge>)
    requires DepsListed(deps.Keys, F, deps) && forall v | v in ids :: v in deps
    ensures edges == EdgesFrom(ids, F)
  {
    edges := [];
    for i := 0 to |ids|
      invariant edges == EdgesFrom(ids[..i], F)
    {
      assert ids[..i + 1][..i] == ids[..i];
      edges := edges + ToEdges(ids[i], deps[ids[i]]);
    }
    assert ids[..|ids|] == ids;
  }

  lemma {:induction false} EdgesFromElems(ids: seq<Id>, F: set<Edge>, e: Edge)
    ensures e in EdgesFrom(ids, F) <==> e.src in ids && e in F
    decreases |ids|
  {
    if |ids| > 0 {
      var init, v := ids[..|ids| - 1], ids[|ids| - 1];
      EdgesFromElems(init, F, e);
      assert forall x :: x in ids <==> x in init || x == v;
      var deps := Sorted(DepsOf(F, v));
      assert e.dst in deps <==> e.dst in Elems(deps);
      assert e in ToEdges(v, deps) <==> e.src == v && e.dst in deps by {
        ToEdgesMembers(v, deps, e);
      }
      DepsOfEdge(F, e);
    }
  }

  lemma ToEdgesMembers(v: Id, deps: seq<Id>, e: Edge)
    ensures e in ToEdges(v, deps) <==> e.src == v && e.dst in deps
  {
    if e.src == v && e.dst in deps {
      var i :| 0 <= i < |deps| && deps[i] == e.dst;
      assert ToEdges(v, deps)[i] == e;
    }
  }

  /** The canonical edge list holds exactly the edges between known tickets ... */
  lemma CanonicalEdgesExact(nodes: set<Id>, ids: seq<Id>, F: set<Edge>)
    requires Within(F, nodes) && forall v :: v in ids <==> v in nodes
    ensures Elems(EdgesFrom(ids, F)) == F
  {
    var list := EdgesFrom(ids, F);
    forall e: Edge
      ensures e in Elems(list) <==> e in F
    {
      EdgesFromElems(ids, F, e);
    }
  }

  predicate EdgeLess(e: Edge, f: Edge) {
    e.src < f.src || (e.src == f.src && e.dst < f.dst)
  }

  ghost predicate EdgesOrdered(list: seq<Edge>) {
    forall i, j | 0 <= i < j < |list| :: EdgeLess(list[i], list[j])
  }

  lemma EarlierSource(init: seq<Id>, v: Id, F: set<Edge>, e: Edge)
    requires StrictlySorted(init + [v]) && e in EdgesFrom(init, F)
    ensures e.src < v
  {
    EdgesFromElems(init, F, e);
    var k :| 0 <= k < |init| && init[k] == e.src;
    assert (init + [v])[k] < (init + [v])[|init|];
  }

  lemma OrderedAppend(a: seq<Edge>, v: Id, deps: seq<Id>)
    requires EdgesOrdered(a) && StrictlySorted(deps) && forall e | e in a :: e.src < v
    ensures EdgesOrdered(a + ToEdges(v, deps))
  {
    var b := ToEdges(v, deps);
    forall i, j | 0 <= i < j < |a + b|
      ensures EdgeLess((a + b)[i], (a + b)[j])
    {
      if j >= |a| {
        assert (a + b)[j] == b[j - |a|];
      }
    }
  }

  /** ... and is already ordered by source, then target, as the builder's sort wants it. */
  lemma {:induction false} CanonicalEdgesOrdered(ids: seq<Id>, F: set<Edge>)
    requires StrictlySorted(ids)
    ensures EdgesOrdered(EdgesFrom(ids, F))
    decreases |ids|
  {
    if |ids| > 0 {
      var init, v := ids[..|ids| - 1], ids[|ids| - 1];
      assert ids == init + [v];
      CanonicalEdgesOrdered(init, F);
      forall e | e in EdgesFrom(init, F)
        ensures e.src < v
      {
        EarlierSource(init, v, F, e);
      }
      OrderedAppend(EdgesFrom(init, F), v, Sorted(DepsOf(F, v)));
    }
  }

  // --- reverse edges -------------------------------------------------------------

  ghost predicate BlocksSoFar(nodes: set<Id>, ids: seq<Id>, F: set<Edge>, blocks: map<Id, seq<Id>>) {
    && blocks.Keys == nodes
    && forall d, t | d in nodes :: t in blocks[d] <==> t in ids && Edge(t, d) in F
  }

  method AddBlocks(v: Id, list: seq<Id>, blocks: map<Id, seq<Id>>) returns (next: map<Id, seq<Id>>)
    requires forall d | d in list :: d in blocks
    ensures next.Keys == blocks.Keys
    ensures forall d, t | d in blocks :: t in next[d] <==> t in blocks[d] || (t == v && d in list)
  {
    next := blocks;
    for i := 0 to |list|
      invariant next.Keys == blocks.Keys
      invariant forall d, t | d in blocks :: t in next[d] <==> t in blocks[d] || (t == v && d in list[..i])
    {
      ghost var was := next;
      assert list[..i + 1] == list[..i] + [list[i]];
      next := next[list[i] := next[list[i]] + [v]];
      forall d, t | d in blocks
        ensures t in next[d] <==> t in blocks[d] || (t == v && d in list[..i + 1])
      {
        assert t in was[d] <==> t in blocks[d] || (t == v && d in list[..i]);
      }
    }
    assert list[..|list|] == list;
  }

  lemma BlocksStep(nodes: set<Id>, ids: seq<Id>, F: set<Edge>, v: Id, list: seq<Id>,
                   blocks: map<Id, seq<Id>>, next: map<Id, seq<Id>>)
    requires BlocksSoFar(nodes, ids, F, blocks) && next.Keys == nodes
    requires forall d :: d in list <==> Edge(v, d) in F
    requires forall d, t | d in blocks :: t in next[d] <==> t in blocks[d] || (t == v && d in list)
    ensures BlocksSoFar(nodes, ids + [v], F, next)
  {
  }

  method CollectBlocks(nodes: set<Id>, ids: seq<Id>, ghost F: set<Edge>, deps: map<Id, seq<Id>>)
    returns (blocks: map<Id, seq<Id>>)
    requires deps.Keys == nodes && Within(F, nodes) && forall v :: v in ids <==> v in nodes
    requires forall v, d | v in nodes :: d in deps[v] <==> Edge(v, d) in F
    ensures BlocksSoFar(nodes, ids, F, blocks)
  {
    blocks := map n | n in nodes :: [];
    for i := 0 to |ids|
      invariant BlocksSoFar(nodes, ids[..i], F, blocks)
    {
      var v := ids[i];
      assert v in ids && ids[..i + 1] == ids[..i] + [v];
      forall d | d in deps[v]
        ensures d in blocks
      {
        assert Edge(v, d) in F;
      }
      var next := AddBlocks(v, deps[v], blocks);
      BlocksStep(nodes, ids[..i], F, v, deps[v], blocks, next);
      blocks := next;
    }
    assert ids[..|ids|] == ids;
  }

  method SortBlocks(nodes: set<Id>, ids: seq<Id>, ghost F: set<Edge>, lists: map<Id, seq<Id>>)
    returns (blocks: map<Id, seq<Id>>)
    requires BlocksSoFar(nodes, ids, F, lists) && Within(F, nodes) && forall v :: v in ids <==> v in nodes
    ensures BlocksListed(nodes, F, blocks)
  {
    blocks := map d | d in nodes :: Sorted(Elems(lists[d]));
    forall d | d in nodes
      ensures Elems(lists[d]) == Cascade.DependentsOf(F, d)
    {
      DependentsListed(nodes, ids, F, lists, d);
    }
  }

  lemma DependentsListed(nodes: set<Id>, ids: seq<Id>, F: set<Edge>, lists: map<Id, seq<Id>>, d: Id)
    requires BlocksSoFar(nodes, ids, F, lists) && d in nodes
    requires Within(F, nodes) && forall v :: v in ids <==> v in nodes
    ensures Elems(lists[d]) == Cascade.DependentsOf(F, d)
  {
    forall t
      ensures t in Elems(lists[d]) <==> t in Cascade.DependentsOf(F, d)
    {
      assert t in lists[d] <==> t in ids && Edge(t, d) in F;
      if Edge(t, d) in F {
        assert Edge(t, d).dst == d && Edge(t, d).src == t;
      }
      if t in Cascade.DependentsOf(F, d) {
        var e :| e in F && e.dst == d && e.src == t;
        assert e == Edge(t, d);
      }
    }
  }

  // ---------------------------------------------------------------------------
  // Ticket and epic nodes
  // ---------------------------------------------------------------------------

  /** The listed dependencies that are not done, order kept. */
  function KeepUndone(rows: TicketRows, deps: seq<Id>): seq<Id> {
    if |deps| == 0 then []
    else
      var rest, d := KeepUndone(rows, deps[..|deps| - 1]), deps[|deps| - 1];
      if d in rows && rows[d].status != Done then rest + [d] else rest
  }

  lemma {:induction false} KeepUndoneSorted(rows: TicketRows, deps: seq<Id>)
    requires StrictlySorted(deps)
    ensures StrictlySorted(KeepUndone(rows, deps))
    ensures forall d :: d in KeepUndone(rows, deps) <==> d in deps && d in Undone(rows)
    decreases |deps|
  {
    if |deps| > 0 {
      var init, last := deps[..|deps| - 1], deps[|deps| - 1];
      KeepUndoneSorted(rows, init);
      assert forall d :: d in deps <==> d in init || d == last;
      forall k | 0 <= k < |KeepUndone(rows, init)|
        ensures KeepUndone(rows, init)[k] < last
      {
        assert KeepUndone(rows, init)[k] in init;
      }
    }
  }

  /** One ticket node, from its dependency and reverse-dependency lists. */
  function NodeFrom(rows: TicketRows, epics: EpicRows, v: Id, deps: seq<Id>, blocks: seq<Id>): TreeTicket
    requires v in rows
  {
    var row := rows[v];
    var unsatisfied := KeepUndone(rows, deps);
    TreeTicket(row.id, Number(row), TitleOf(row.title), row.status, row.epicId, EpicNumberOf(epics, row.epicId),
               deps, blocks, |unsatisfied| == 0 && row.status != Done, |unsatisfied|, unsatisfied,
               row.estimatedMinutes)
  }

  lemma NodeFromCorrect(rows: TicketRows, epics: EpicRows, F: set<Edge>, v: Id)
    requires v in rows && rows[v].id == v
    ensures NodeFrom(rows, epics, v, Sorted(DepsOf(F, v)), Sorted(Cascade.DependentsOf(F, v)))
            == TreeTicketOf(rows, epics, F, v)
  {
    var deps := Sorted(DepsOf(F, v));
    KeepUndoneSorted(rows, deps);
    assert forall d :: d in deps <==> d in Elems(deps);
    assert Elems(KeepUndone(rows, deps)) == Unsatisfied(rows, F, v);
    SortedList(KeepUndone(rows, deps), Unsatisfied(rows, F, v));
  }

  lemma SortedList(list: seq<Id>, s: set<Id>)
    requires StrictlySorted(list) && Elems(list) == s
    ensures list == Sorted(s) && |list| == |s|
    ensures |list| == 0 <==> s == {}
  {
    StrictlySortedUnique(list, Sorted(s));
  }

  method BuildTickets(rows: TicketRows, epics: EpicRows, ids: seq<Id>,
                      deps: map<Id, seq<Id>>, blocks: map<Id, seq<Id>>)
    returns (tickets: map<Id, TreeTicket>)
    requires forall v | v in ids :: v in rows && v in deps && v in blocks
    requires forall v :: v in ids <==> v in rows
    ensures tickets.Keys == rows.Keys
    ensures forall v | v in rows :: tickets[v] == NodeFrom(rows, epics, v, deps[v], blocks[v])
  {
    tickets := map[];
    for i := 0 to |ids|
      invariant tickets.Keys == Elems(ids[..i])
      invariant forall v | v in tickets ::
        v in rows && v in deps && v in blocks && tickets[v] == NodeFrom(rows, epics, v, deps[v], blocks[v])
    {
      var v := ids[i];
      assert v in ids;
      ElemsGrow(ids, i);
      tickets := tickets[v := NodeFrom(rows, epics, v, deps[v], blocks[v])];
    }
    assert ids[..|ids|] == ids;
    assert Elems(ids) == rows.Keys;
  }

  ghost predicate BlocksListed(nodes: set<Id>, F: set<Edge>, blocks: map<Id, seq<Id>>) {
    blocks.Keys == nodes && forall d | d in blocks :: blocks[d] == Sorted(Cascade.DependentsOf(F, d))
  }

  lemma TicketsCorrect(rows: TicketRows, epics: EpicRows, F: set<Edge>, deps: map<Id, seq<Id>>,
                       blocks: map<Id, seq<Id>>, tickets: map<Id, TreeTicket>)
    requires forall v | v in rows :: rows[v].id == v
    requires tickets.Keys == rows.Keys
    requires DepsListed(rows.Keys, F, deps) && BlocksListed(rows.Keys, F, blocks)
    requires forall v | v in rows :: tickets[v] == NodeFrom(rows, epics, v, deps[v], blocks[v])
    ensures TicketsListed(rows, epics, F, tickets)
  {
    forall v | v in rows
      ensures tickets[v] == TreeTicketOf(rows, epics, F, v)
    {
      NodeFromCorrect(rows, epics, F, v);
    }
  }

  /** The tickets of each epic, as they are grouped before sorting. */
  ghost predicate Grouped(rows: TicketRows, ids: seq<Id>, byEpic: map<Option<Id>, seq<Id>>) {
    forall k, v :: (k in byEpic && v in byEpic[k]) <==> v in ids && v in rows && rows[v].epicId == k
  }

  method GroupByEpic(rows: TicketRows, ids: seq<Id>) returns (byEpic: map<Option<Id>, seq<Id>>)
    requires forall v | v in ids :: v in rows
    ensures Grouped(rows, ids, byEpic)
  {
    byEpic := map[];
    for i := 0 to |ids|
      invariant Grouped(rows, ids[..i], byEpic)
    {
      var v := ids[i];
      var k := rows[v].epicId;
      ghost var was := byEpic;
      assert ids[..i + 1] == ids[..i] + [v];
      byEpic := byEpic[k := (if k in byEpic then byEpic[k] else []) + [v]];
      forall l, u
        ensures (l in byEpic && u in byEpic[l]) <==> u in ids[..i + 1] && u in rows && rows[u].epicId == l
      {
        assert (l in was && u in was[l]) <==> u in ids[..i] && u in rows && rows[u].epicId == l;
      }
    }
    assert ids[..|ids|] == ids;
  }

  method BuildEpics(rows: TicketRows, epics: EpicRows, ids: seq<Id>) returns (list: seq<TreeEpic>)
    requires forall v :: v in ids <==> v in rows
    ensures EpicsListed(rows, epics, list)
  {
    var byEpic := GroupByEpic(rows, ids);
    var order := Sorted(epics.Keys);
    list := [];
    for i := 0 to |order|
      invariant |list| == i
      invariant forall j | 0 <= j < i :: order[j] in epics && list[j] == TreeEpicOf(rows, epics, order[j])
    {
      assert order[i] in Elems(order);
      var e := order[i];
      var members := if Some(e) in byEpic then byEpic[Some(e)] else [];
      EpicMembers(rows, ids, byEpic, e, members);
      list := list + [TreeEpic(e, if epics[e].epicNumber.Some? then epics[e].epicNumber.value else 0,
                               TitleOf(epics[e].title), SortBy(Numbers(rows), Elems(members)))];
    }
  }

  lemma EpicMembers(rows: TicketRows, ids: seq<Id>, byEpic: map<Option<Id>, seq<Id>>, e: Id, members: seq<Id>)
    requires Grouped(rows, ids, byEpic) && forall v :: v in ids <==> v in rows
    requires members == if Some(e) in byEpic then byEpic[Some(e)] else []
    ensures Elems(members) == TicketsIn(rows, e)
  {
    forall v
      ensures v in Elems(members) <==> v in TicketsIn(rows, e)
    {
      assert (Some(e) in byEpic && v in byEpic[Some(e)]) <==> v in ids && v in rows && rows[v].epicId == Some(e);
    }
  }

  // ---------------------------------------------------------------------------
  // The summary
  // ---------------------------------------------------------------------------

  ghost function Among(rows: TicketRows, ids: seq<Id>, s: Status): set<Id> {
    set v | v in ids && v in rows && rows[v].status == s
  }

  lemma AmongMore(rows: TicketRows, ids: seq<Id>, v: Id, s: Status)
    requires v !in ids && v in rows
    ensures |Among(rows, ids + [v], s)| == |Among(rows, ids, s)| + (if rows[v].status == s then 1 else 0)
  {
    if rows[v].status == s {
      assert Among(rows, ids + [v], s) == Among(rows, ids, s) + {v};
    } else {
      assert Among(rows, ids + [v], s) == Among(rows, ids, s);
    }
  }

  ghost function HistogramOf(rows: TicketRows, ids: seq<Id>): TicketsByStatus {
    TicketsByStatus(|Among(rows, ids, Pending)|, |Among(rows, ids, Ready)|, |Among(rows, ids, Active)|,
                    |Among(rows, ids, Done)|)
  }

  lemma HistogramStep(rows: TicketRows, ids: seq<Id>, i: nat)
    requires StrictlySorted(ids) && i < |ids| && ids[i] in rows
    ensures var s, h := rows[ids[i]].status, HistogramOf(rows, ids[..i]);
            HistogramOf(rows, ids[..i + 1])
            == TicketsByStatus(h.pending + (if s == Pending then 1 else 0), h.ready + (if s == Ready then 1 else 0),
                               h.active + (if s == Active then 1 else 0), h.done + (if s == Done then 1 else 0))
  {
    var v := ids[i];
    assert ids[..i + 1] == ids[..i] + [v] && v !in ids[..i];
    AmongMore(rows, ids[..i], v, Pending);
    AmongMore(rows, ids[..i], v, Ready);
    AmongMore(rows, ids[..i], v, Active);
    AmongMore(rows, ids[..i], v, Done);
  }

  lemma HistogramWhole(rows: TicketRows, ids: seq<Id>)
    requires forall v :: v in ids <==> v in rows
    ensures HistogramOf(rows, ids) == Histogram(rows)
  {
    forall s
      ensures Among(rows, ids, s) == WithStatus(rows, s)
    {
    }
  }

  method CountStatuses(rows: TicketRows, ids: seq<Id>) returns (h: TicketsByStatus)
    requires StrictlySorted(ids) && forall v :: v in ids <==> v in rows
    ensures h == Histogram(rows)
  {
    var pending, ready, active, done := 0, 0, 0, 0;
    for i := 0 to |ids|
      invariant TicketsByStatus(pending, ready, active, done) == HistogramOf(rows, ids[..i])
    {
      assert ids[i] in ids;
      HistogramStep(rows, ids, i);
      var status := rows[ids[i]].status;
      if status == Pending {
        pending := pending + 1;
      } else if status == Ready {
        ready := ready + 1;
      } else if status == Active {
        active := active + 1;
      } else if status == Done {
        done := done + 1;
      }
    }
    assert ids[..|ids|] == ids;
    HistogramWhole(rows, ids);
    h := TicketsByStatus(pending, ready, active, done);
  }

  predicate SurfacesReady(t: TreeTicket) {
    t.isReady && (t.status == Pending || t.status == Ready)
  }

  predicate SurfacesBlocked(t: TreeTicket) {
    t.blockerCount > 0 && t.status != Done
  }

  method CollectReady(ids: seq<Id>, tickets: map<Id, TreeTicket>) returns (ready: seq<Id>, blocked: seq<Id>)
    requires forall v | v in ids :: v in tickets
    ensures forall v :: v in ready <==> v in ids && SurfacesReady(tickets[v])
    ensures forall v :: v in blocked <==> v in ids && SurfacesBlocked(tickets[v])
  {
    ready, blocked := [], [];
    for i := 0 to |ids|
      invariant forall v :: v in ready <==> v in ids[..i] && SurfacesReady(tickets[v])
      invariant forall v :: v in blocked <==> v in ids[..i] && SurfacesBlocked(tickets[v])
    {
      var v := ids[i];
      assert v in ids && ids[..i + 1] == ids[..i] + [v];
      var t := tickets[v];
      if t.isReady && (t.status == Pending || t.status == Ready) {
        ready := ready + [v];
      }
      if t.blockerCount > 0 && t.status != Done {
        blocked := blocked + [v];
      }
    }
    assert ids[..|ids|] == ids;
  }

  lemma ReadyFlag(rows: TicketRows, F: set<Edge>, epics: EpicRows, v: Id)
    requires v in rows
    ensures SurfacesReady(TreeTicketOf(rows, epics, F, v)) <==> v in ReadySet(rows, F)
  {
  }

  lemma BlockedFlag(rows: TicketRows, F: set<Edge>, epics: EpicRows, v: Id)
    requires v in rows
    ensures SurfacesBlocked(TreeTicketOf(rows, epics, F, v)) <==> v in BlockedSet(rows, F)
  {
    assert |Unsatisfied(rows, F, v)| == 0 <==> Unsatisfied(rows, F, v) == {};
  }

  ghost predicate Flagged(ids: seq<Id>, tickets: map<Id, TreeTicket>, R: set<Id>, B: set<Id>) {
    && (forall v | v in ids :: v in tickets)
    && (forall v :: v in R <==> v in ids && SurfacesReady(tickets[v]))
    && (forall v :: v in B <==> v in ids && SurfacesBlocked(tickets[v]))
  }

  lemma FlaggedSets(rows: TicketRows, F: set<Edge>, epics: EpicRows, tickets: map<Id, TreeTicket>, ids: seq<Id>)
    requires TicketsListed(rows, epics, F, tickets) && forall v :: v in ids <==> v in rows
    ensures Flagged(ids, tickets, ReadySet(rows, F), BlockedSet(rows, F))
  {
    forall v
      ensures v in ReadySet(rows, F) <==> v in ids && SurfacesReady(tickets[v])
      ensures v in BlockedSet(rows, F) <==> v in ids && SurfacesBlocked(tickets[v])
    {
      if v in rows {
        assert tickets[v] == TreeTicketOf(rows, epics, F, v);
        ReadyFlag(rows, F, epics, v);
        BlockedFlag(rows, F, epics, v);
      }
    }
  }

  lemma CollectedSets(ids: seq<Id>, tickets: map<Id, TreeTicket>, R: set<Id>, B: set<Id>, ready: seq<Id>, blocked: seq<Id>)
    requires Flagged(ids, tickets, R, B)
    requires forall v :: v in ready <==> v in ids && SurfacesReady(tickets[v])
    requires forall v :: v in blocked <==> v in ids && SurfacesBlocked(tickets[v])
    ensures Elems(ready) == R && Elems(blocked) == B
  {
  }

  method SumDisplayMinutes(rows: TicketRows, ids: seq<Id>) returns (total: int)
    requires forall v | v in ids :: v in rows
    ensures total == DisplayMinutes(rows, ids)
  {
    total := 0;
    for i := 0 to |ids|
      invariant total == DisplayMinutes(rows, ids[..i])
    {
      assert ids[..i + 1][..i] == ids[..i];
      var t := rows[ids[i]];
      total := total + (if t.estimatedMinutes.Some? then t.estimatedMinutes.value else 60);
    }
    assert ids[..|ids|] == ids;
  }

  // ---------------------------------------------------------------------------
  // Assembly
  // ---------------------------------------------------------------------------

  method BuildAdjacency(nodes: set<Id>, ids: seq<Id>, edges: seq<Edge>)
    returns (deps: map<Id, seq<Id>>, canonical: seq<Edge>, blocks: map<Id, seq<Id>>)
    requires forall v :: v in ids <==> v in nodes
    ensures var F := Restrict(Elems(edges), nodes);
            && DepsListed(nodes, F, deps)
            && canonical == EdgesFrom(ids, F) && Elems(canonical) == F
            && BlocksListed(nodes, F, blocks)
  {
    ghost var F := Restrict(Elems(edges), nodes);
    deps := DependsOn(nodes, edges);
    canonical := CanonicalEdges(ids, F, deps);
    CanonicalEdgesExact(nodes, ids, F);
    var lists := CollectBlocks(nodes, ids, F, deps);
    blocks := SortBlocks(nodes, ids, F, lists);
  }

  method BuildLists(rows: TicketRows, epics: EpicRows, ids: seq<Id>, edges: seq<Edge>)
    returns (canonical: seq<Edge>, tickets: map<Id, TreeTicket>, epicList: seq<TreeEpic>)
    requires forall v | v in rows :: rows[v].id == v
    requires forall v :: v in ids <==> v in rows
    ensures var F := Restrict(Elems(edges), rows.Keys);
            && canonical == EdgesFrom(ids, F) && Elems(canonical) == F
            && TicketsListed(rows, epics, F, tickets) && EpicsListed(rows, epics, epicList)
  {
    var deps, edgeList, blocks := BuildAdjacency(rows.Keys, ids, edges);
    canonical := edgeList;
    tickets := BuildTickets(rows, epics, ids, deps, blocks);
    TicketsCorrect(rows, epics, Restrict(Elems(edges), rows.Keys), deps, blocks, tickets);
    epicList := BuildEpics(rows, epics, ids);
  }

  /** Cycles first; with their nodes out of the way the critical path and the blocker
      depth run on acyclic graphs, whatever the edges are. */
  method BuildGraph(nodes: seq<TicketNode>, ids: seq<Id>, edges: seq<Edge>)
    returns (cycles: seq<seq<Id>>, cp: CriticalPathResult, maxBlockerDepth: nat)
    ensures IsCycleList(Elems(edges), cycles)
    ensures exists path :: IsCriticalPathResult(Rows(nodes), Elems(edges),
                             CycleNodes(cycles) + DoneIds(Rows(nodes)), path, cp)
    ensures IsMaxDepth(Blocking(Rows(nodes), Elems(edges), CycleNodes(cycles)), maxBlockerDepth)
  {
    cycles := FindCycles.FindCycles(ids, edges);
    var cycleNodes: set<Id> := set c, x | c in cycles && x in c :: x;
    assert cycleNodes == CycleNodes(cycles);
    var rows := Rows(nodes);
    var doneIds: set<Id> := set id | id in rows && rows[id].status == Done;
    ResidualAcyclic(Elems(edges), cycles, Included(rows, cycleNodes + doneIds));
    cp := ComputeCriticalPath(nodes, edges, cycleNodes + doneIds);
    assert cycleNodes + doneIds == CycleNodes(cycles) + DoneIds(rows);
    ResidualAcyclic(Elems(edges), cycles, Incomplete(rows, cycleNodes));
    var depth, guardHit := ComputeMaxBlockerDepth(nodes, edges, cycleNodes);
    maxBlockerDepth := depth;
  }

  method BuildSummary(rows: TicketRows, epics: EpicRows, ids: seq<Id>, ghost F: set<Edge>,
                      tickets: map<Id, TreeTicket>, cycles: seq<seq<Id>>, cp: CriticalPathResult, depth: nat)
    returns (s: TreeSummary)
    requires ids == Sorted(rows.Keys) && TicketsListed(rows, epics, F, tickets)
    requires forall v :: v in ids <==> v in rows
    ensures SummaryLists(rows, F, s)
    ensures s.hasCircularDeps == (|cycles| > 0) && s.maxBlockerDepth == depth
    ensures s.criticalPath == cp.path && s.criticalPathLength == cp.length && s.criticalPathMinutes == cp.minutes
  {
    var histogram := CountStatuses(rows, ids);
    var ready, blocked := CollectReady(ids, tickets);
    FlaggedSets(rows, F, epics, tickets, ids);
    CollectedSets(ids, tickets, ReadySet(rows, F), BlockedSet(rows, F), ready, blocked);
    var total := SumDisplayMinutes(rows, ids);
    var numbers := Numbers(rows);
    s := TreeSummary(|ids|, histogram, SortBy(numbers, Elems(ready)), SortBy(numbers, Elems(blocked)),
                     |cycles| > 0, cp.length, cp.minutes, depth, cp.path, total);
  }

  /** `build_dependency_tree`: on every input with distinct ids it terminates and returns
      the tree of its rows and edges. */
  method BuildDependencyTree(specId: Id, epics: seq<EpicNode>, tickets: seq<TicketNode>, edges: seq<Edge>,
                             previousVersion: Option<int>, generatedAt: string)
    returns (tree: DependencyTree)
    requires DistinctIds(tickets) && DistinctEpics(epics)
    ensures IsTreeOf(specId, EpicsById(epics), Rows(tickets), Elems(edges), tree)
    ensures tree.version == (if previousVersion.Some? then previousVersion.value else 0) + 1
    ensures tree.generatedAt == generatedAt
  {
    var rows := Rows(tickets);
    var epicRows := EpicsById(epics);
    var ids := Sorted(rows.Keys);
    assert forall v :: v in ids <==> v in Elems(ids);
    ghost var F := Restrict(Elems(edges), rows.Keys);
    var canonical, treeTickets, epicList := BuildLists(rows, epicRows, ids, edges);
    NodesGiveRows(rows, ids);
    var cycles, cp, depth := BuildGraph(NodesOf(rows, ids), ids, canonical);
    var summary := BuildSummary(rows, epicRows, ids, F, treeTickets, cycles, cp, depth);
    tree := DependencyTree(specId, (if previousVersion.Some? then previousVersion.value else 0) + 1, generatedAt,
                           epicList, treeTickets, summary, cp.path, canonical, cycles);
    AssembledGraph(rows, F, tree, cp);
  }

  lemma AssembledGraph(rows: TicketRows, F: set<Edge>, tree: DependencyTree, cp: CriticalPathResult)
    requires IsCycleList(F, tree.cycles)
    requires exists path :: IsCriticalPathResult(rows, F, CycleNodes(tree.cycles) + DoneIds(rows), path, cp)
    requires IsMaxDepth(Blocking(rows, F, CycleNodes(tree.cycles)), tree.summary.maxBlockerDepth)
    requires tree.summary.hasCircularDeps == (|tree.cycles| > 0) && tree.criticalPath == cp.path
    requires tree.summary.criticalPath == cp.path && tree.summary.criticalPathLength == cp.length
    requires tree.summary.criticalPathMinutes == cp.minutes
    ensures GraphParts(rows, F, tree)
  {
    var s := tree.summary;
    var path :| IsCriticalPathResult(rows, F, CycleNodes(tree.cycles) + DoneIds(rows), path, cp);
    assert CriticalPathResult(tree.criticalPath, s.criticalPathLength, s.criticalPathMinutes) == cp;
  }

  // ---------------------------------------------------------------------------
  // Order and duplicates do not matter
  // ---------------------------------------------------------------------------

  lemma DistinctInit(tickets: seq<TicketNode>)
    requires DistinctIds(tickets) && |tickets| > 0
    ensures DistinctIds(tickets[..|tickets| - 1])
    ensures forall i | 0 <= i < |tickets| - 1 :: tickets[i].id != tickets[|tickets| - 1].id
  {
  }

  lemma {:induction false} RowsFind(tickets: seq<TicketNode>, i: nat)
    requires DistinctIds(tickets) && i < |tickets|
    ensures tickets[i].id in Rows(tickets) && Rows(tickets)[tickets[i].id] == tickets[i]
    decreases |tickets|
  {
    var n := |tickets| - 1;
    var init, last := tickets[..n], tickets[n];
    assert tickets == init + [last];
    RowsAppend(init, last);
    if i < n {
      DistinctInit(tickets);
      RowsFind(init, i);
      assert init[i] == tickets[i];
    }
  }

  lemma RowsSubset(a: seq<TicketNode>, b: seq<TicketNode>, id: Id)
    requires DistinctIds(b) && (forall t | t in a :: t in b) && id in Rows(a)
    ensures id in Rows(b) && Rows(b)[id] == Rows(a)[id]
  {
    var t := Rows(a)[id];
    assert t in a && t in b;
    var i :| 0 <= i < |b| && b[i] == t;
    RowsFind(b, i);
  }

  lemma {:induction false} EpicsFind(epics: seq<EpicNode>, e: EpicNode)
    requires DistinctEpics(epics) && e in epics
    ensures e.id in EpicsById(epics) && EpicsById(epics)[e.id] == e
    decreases |epics|
  {
    var init, last := epics[..|epics| - 1], epics[|epics| - 1];
    if e != last {
      var i :| 0 <= i < |epics| && epics[i] == e;
      assert init[i] == e && e.id != last.id;
      EpicsFind(init, e);
    }
  }

  lemma {:induction false} EpicsMembers(epics: seq<EpicNode>, k: Id)
    requires k in EpicsById(epics)
    ensures EpicsById(epics)[k] in epics
    decreases |epics|
  {
    var init, last := epics[..|epics| - 1], epics[|epics| - 1];
    if k != last.id {
      EpicsMembers(init, k);
    }
  }

  lemma SameEpics(a: seq<EpicNode>, b: seq<EpicNode>)
    requires DistinctEpics(a) && DistinctEpics(b) && multiset(a) == multiset(b)
    ensures EpicsById(a) == EpicsById(b)
  {
    forall k
      ensures k in EpicsById(a) ==> k in EpicsById(b) && EpicsById(b)[k] == EpicsById(a)[k]
      ensures k in EpicsById(b) ==> k in EpicsById(a)
    {
      if k in EpicsById(a) {
        EpicsMembers(a, k);
        assert EpicsById(a)[k] in multiset(b);
        EpicsFind(b, EpicsById(a)[k]);
      }
      if k in EpicsById(b) {
        EpicsMembers(b, k);
        assert EpicsById(b)[k] in multiset(a);
        EpicsFind(a, EpicsById(b)[k]);
      }
    }
  }

  /** Permuting the tickets, the edges and the epics, and repeating edges, leaves the
      built tree as it was. */
  lemma TreeOrderFree(specId: Id, epics: seq<EpicNode>, epics': seq<EpicNode>, a: seq<TicketNode>, b: seq<TicketNode>,
                      edges: seq<Edge>, edges': seq<Edge>, t: DependencyTree, t': DependencyTree)
    requires DistinctIds(a) && DistinctIds(b) && multiset(a) == multiset(b) && Elems(edges) == Elems(edges')
    requires DistinctEpics(epics) && DistinctEpics(epics') && multiset(epics) == multiset(epics')
    requires IsTreeOf(specId, EpicsById(epics), Rows(a), Elems(edges), t)
    requires IsTreeOf(specId, EpicsById(epics'), Rows(b), Elems(edges'), t')
    ensures t.(version := t'.version, generatedAt := t'.generatedAt) == t'
  {
    SameMembers(a, b);
    SameRows(a, b);
    SameEpics(epics, epics');
    TreeUnique(specId, EpicsById(epics), Rows(a), Elems(edges), t, t');
  }

  lemma SameMembers(a: seq<TicketNode>, b: seq<TicketNode>)
    requires multiset(a) == multiset(b)
    ensures forall t :: t in a <==> t in b
  {
    forall t
      ensures t in a <==> t in b
    {
      assert t in a <==> t in multiset(a);
      assert t in b <==> t in multiset(b);
    }
  }

  lemma SameRows(a: seq<TicketNode>, b: seq<TicketNode>)
    requires DistinctIds(a) && DistinctIds(b) && forall t :: t in a <==> t in b
    ensures Rows(a) == Rows(b)
  {
    forall id
      ensures id in Rows(a) <==> id in Rows(b)
      ensures id in Rows(a) ==> Rows(a)[id] == Rows(b)[id]
    {
      if id in Rows(a) {
        RowsSubset(a, b, id);
      }
      if id in Rows(b) {
        RowsSubset(b, a, id);
      }
    }
  }
}
