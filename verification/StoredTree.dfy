/** The stored form of the cached tree: nested dictionaries and lists, written by
    `asdict` and read back by `_tree_from_dict`. */
module StoredTree {
  import opened Graph
  import opened Types
  import opened CriticalPath
  import opened TreeSpec

  /** The dictionary keys, one name for each string. */
  datatype Key =
    | OwnIdKey | EpicNumberKey | TitleKey | TicketIdsKey
    | TicketNumberKey | StatusKey | EpicIdKey | DependenciesKey
    | BlocksKey | IsReadyKey | BlockerCountKey | UnsatisfiedDepsKey
    | EstimatedMinutesKey | FromKey | ToKey | CycleKey
    | PendingKey | ReadyKey | ActiveKey | DoneKey
    | TotalTicketsKey | TicketsByStatusKey | ReadyTicketsKey | BlockedTicketsKey
    | HasCircularDepsKey | CriticalPathLengthKey | CriticalPathMinutesKey | MaxBlockerDepthKey
    | CriticalPathKey | EstimatedMinutesTotalKey | SpecificationIdKey | VersionKey
    | GeneratedAtKey | EpicsKey | TicketsKey | SummaryKey
    | EdgesKey | CyclesKey

  /** What the JSON column holds.  Ids and status names are kept as such; `ById` is the
      dictionary whose keys are ticket ids. */
  datatype Stored =
    | Null
    | Flag(b: bool)
    | Number(n: int)
    | Text(s: string)
    | State(status: Status)
    | Ref(id: Id)
    | List(items: seq<Stored>)
    | Dict(fields: map<Key, Stored>)
    | ById(rows: map<Id, Stored>)

  /** A read that fails on a missing key or a value of another shape. */
  datatype Read<+T> = Got(value: T) | Missing {
    predicate IsFailure() {
      Missing?
    }

    function PropagateFailure<U>(): Read<U>
      requires IsFailure()
    {
      Missing
    }

    function Extract(): T
      requires !IsFailure()
    {
      value
    }
  }

  // ---------------------------------------------------------------------------
  // Keys
  // ---------------------------------------------------------------------------

  function At(d: Stored, key: Key): Read<Stored> {
    if d.Dict? && key in d.fields then Got(d.fields[key]) else Missing
  }

  function IntAt(d: Stored, key: Key): Read<int> {
    var v :- At(d, key);
    if v.Number? then Got(v.n) else Missing
  }

  function CountAt(d: Stored, key: Key): Read<nat> {
    var n :- IntAt(d, key);
    if n >= 0 then Got(n) else Missing
  }

  function FlagAt(d: Stored, key: Key): Read<bool> {
    var v :- At(d, key);
    if v.Flag? then Got(v.b) else Missing
  }

  function TextAt(d: Stored, key: Key): Read<string> {
    var v :- At(d, key);
    if v.Text? then Got(v.s) else Missing
  }

  function StateAt(d: Stored, key: Key): Read<Status> {
    var v :- At(d, key);
    if v.State? then Got(v.status) else Missing
  }

  function RefAt(d: Stored, key: Key): Read<Id> {
    var v :- At(d, key);
    ToId(v)
  }

  function OptionalRefAt(d: Stored, key: Key): Read<Option<Id>> {
    var v :- At(d, key);
    if v.Null? then Got(None) else if v.Ref? then Got(Some(v.id)) else Missing
  }

  /** `get`: an absent key reads like a null. */
  function OptionalIntAt(d: Stored, key: Key): Read<Option<int>> {
    var v := At(d, key);
    if v.Missing? || v.value.Null? then Got(None) else if v.value.Number? then Got(Some(v.value.n)) else Missing
  }

  function ListAt(d: Stored, key: Key): Read<seq<Stored>> {
    var v :- At(d, key);
    if v.List? then Got(v.items) else Missing
  }

  function ToId(v: Stored): Read<Id> {
    if v.Ref? then Got(v.id) else Missing
  }

  // ---------------------------------------------------------------------------
  // Lists
  // ---------------------------------------------------------------------------

  function WriteAll<T>(xs: seq<T>, write: T -> Stored): seq<Stored> {
    seq(|xs|, i requires 0 <= i < |xs| => write(xs[i]))
  }

  function ReadAll<T>(items: seq<Stored>, read: Stored -> Read<T>): Read<seq<T>> {
    if |items| == 0 then Got([])
    else
      var first :- read(items[0]);
      var rest :- ReadAll(items[1..], read);
      Got([first] + rest)
  }

  lemma {:induction false} ReadAllBack<T>(xs: seq<T>, write: T -> Stored, read: Stored -> Read<T>)
    requires forall x | x in xs :: read(write(x)) == Got(x)
    ensures ReadAll(WriteAll(xs, write), read) == Got(xs)
    decreases |xs|
  {
    if |xs| > 0 {
      ReadAllBack(xs[1..], write, read);
      assert WriteAll(xs, write)[1..] == WriteAll(xs[1..], write);
      assert xs == [xs[0]] + xs[1..];
    }
  }

  function WriteId(id: Id): Stored {
    Ref(id)
  }

  function WriteIds(ids: seq<Id>): Stored {
    List(WriteAll(ids, WriteId))
  }

  function IdsAt(d: Stored, key: Key): Read<seq<Id>> {
    var items :- ListAt(d, key);
    ReadAll(items, ToId)
  }

  lemma IdsBack(d: Stored, key: Key, ids: seq<Id>)
    requires At(d, key) == Got(WriteIds(ids))
    ensures IdsAt(d, key) == Got(ids)
  {
    ReadAllBack(ids, WriteId, ToId);
  }

  // ---------------------------------------------------------------------------
  // Records
  // ---------------------------------------------------------------------------

  function WriteEpic(e: TreeEpic): Stored {
    Dict(map[OwnIdKey := Ref(e.id), EpicNumberKey := Number(e.epicNumber), TitleKey := Text(e.title),
             TicketIdsKey := WriteIds(e.ticketIds)])
  }

  function ReadEpic(d: Stored): Read<TreeEpic> {
    var id :- RefAt(d, OwnIdKey);
    var number :- IntAt(d, EpicNumberKey);
    var title :- TextAt(d, TitleKey);
    var ids :- IdsAt(d, TicketIdsKey);
    Got(TreeEpic(id, number, title, ids))
  }

  lemma EpicBack(e: TreeEpic)
    ensures ReadEpic(WriteEpic(e)) == Got(e)
  {
    IdsBack(WriteEpic(e), TicketIdsKey, e.ticketIds);
  }

  function WriteOptional(n: Option<int>): Stored {
    if n.Some? then Number(n.value) else Null
  }

  function WriteTicket(t: TreeTicket): Stored {
    Dict(map[OwnIdKey := Ref(t.id), TicketNumberKey := Number(t.ticketNumber), TitleKey := Text(t.title),
             StatusKey := State(t.status), EpicIdKey := if t.epicId.Some? then Ref(t.epicId.value) else Null,
             EpicNumberKey := Number(t.epicNumber), DependenciesKey := WriteIds(t.dependencies),
             BlocksKey := WriteIds(t.blocks), IsReadyKey := Flag(t.isReady), BlockerCountKey := Number(t.blockerCount),
             UnsatisfiedDepsKey := WriteIds(t.unsatisfiedDeps), EstimatedMinutesKey := WriteOptional(t.estimatedMinutes)])
  }

  function ReadTicket(d: Stored): Read<TreeTicket> {
    var id :- RefAt(d, OwnIdKey);
    var number :- IntAt(d, TicketNumberKey);
    var title :- TextAt(d, TitleKey);
    var status :- StateAt(d, StatusKey);
    var epicId :- OptionalRefAt(d, EpicIdKey);
    var epicNumber :- IntAt(d, EpicNumberKey);
    var dependencies :- IdsAt(d, DependenciesKey);
    var blocks :- IdsAt(d, BlocksKey);
    var isReady :- FlagAt(d, IsReadyKey);
    var blockerCount :- CountAt(d, BlockerCountKey);
    var unsatisfied :- IdsAt(d, UnsatisfiedDepsKey);
    var minutes :- OptionalIntAt(d, EstimatedMinutesKey);
    Got(TreeTicket(id, number, title, status, epicId, epicNumber, dependencies, blocks, isReady, blockerCount,
                   unsatisfied, minutes))
  }

  lemma TicketFrom(d: Stored, t: TreeTicket)
    requires RefAt(d, OwnIdKey) == Got(t.id) && IntAt(d, TicketNumberKey) == Got(t.ticketNumber)
    requires TextAt(d, TitleKey) == Got(t.title) && StateAt(d, StatusKey) == Got(t.status)
    requires OptionalRefAt(d, EpicIdKey) == Got(t.epicId) && IntAt(d, EpicNumberKey) == Got(t.epicNumber)
    requires IdsAt(d, DependenciesKey) == Got(t.dependencies) && IdsAt(d, BlocksKey) == Got(t.blocks)
    requires FlagAt(d, IsReadyKey) == Got(t.isReady) && CountAt(d, BlockerCountKey) == Got(t.blockerCount)
    requires IdsAt(d, UnsatisfiedDepsKey) == Got(t.unsatisfiedDeps)
    requires OptionalIntAt(d, EstimatedMinutesKey) == Got(t.estimatedMinutes)
    ensures ReadTicket(d) == Got(t)
  {
  }

  lemma TicketLists(t: TreeTicket)
    ensures var d := WriteTicket(t);
            && IdsAt(d, DependenciesKey) == Got(t.dependencies) && IdsAt(d, BlocksKey) == Got(t.blocks)
            && IdsAt(d, UnsatisfiedDepsKey) == Got(t.unsatisfiedDeps)
  {
    var d := WriteTicket(t);
    IdsBack(d, DependenciesKey, t.dependencies);
    IdsBack(d, BlocksKey, t.blocks);
    IdsBack(d, UnsatisfiedDepsKey, t.unsatisfiedDeps);
  }

  lemma TicketNames(t: TreeTicket)
    ensures var d := WriteTicket(t);
            && RefAt(d, OwnIdKey) == Got(t.id) && TextAt(d, TitleKey) == Got(t.title)
            && StateAt(d, StatusKey) == Got(t.status) && OptionalRefAt(d, EpicIdKey) == Got(t.epicId)
  {
  }

  lemma TicketNumbers(t: TreeTicket)
    ensures var d := WriteTicket(t);
            && IntAt(d, TicketNumberKey) == Got(t.ticketNumber) && IntAt(d, EpicNumberKey) == Got(t.epicNumber)
            && FlagAt(d, IsReadyKey) == Got(t.isReady) && CountAt(d, BlockerCountKey) == Got(t.blockerCount)
            && OptionalIntAt(d, EstimatedMinutesKey) == Got(t.estimatedMinutes)
  {
  }

  lemma TicketBack(t: TreeTicket)
    ensures ReadTicket(WriteTicket(t)) == Got(t)
  {
    TicketNames(t);
    TicketNumbers(t);
    TicketLists(t);
    TicketFrom(WriteTicket(t), t);
  }

  function WriteNode(n: CriticalPathNode): Stored {
    Dict(map[OwnIdKey := Ref(n.id), TicketNumberKey := Number(n.ticketNumber), TitleKey := Text(n.title),
             EstimatedMinutesKey := Number(n.estimatedMinutes)])
  }

  function ReadNode(d: Stored): Read<CriticalPathNode> {
    var id :- RefAt(d, OwnIdKey);
    var number :- IntAt(d, TicketNumberKey);
    var title :- TextAt(d, TitleKey);
    var minutes :- IntAt(d, EstimatedMinutesKey);
    Got(CriticalPathNode(id, number, title, minutes))
  }

  lemma NodeBack(n: CriticalPathNode)
    ensures ReadNode(WriteNode(n)) == Got(n)
  {
  }

  function WritePath(path: seq<CriticalPathNode>): Stored {
    List(WriteAll(path, WriteNode))
  }

  function PathAt(d: Stored, key: Key): Read<seq<CriticalPathNode>> {
    var items :- ListAt(d, key);
    ReadAll(items, ReadNode)
  }

  lemma PathBack(d: Stored, key: Key, path: seq<CriticalPathNode>)
    requires At(d, key) == Got(WritePath(path))
    ensures PathAt(d, key) == Got(path)
  {
    forall n | n in path {
      NodeBack(n);
    }
    ReadAllBack(path, WriteNode, ReadNode);
  }

  function WriteEdge(e: Edge): Stored {
    Dict(map[FromKey := Ref(e.src), ToKey := Ref(e.dst)])
  }

  function ReadEdge(d: Stored): Read<Edge> {
    var src :- RefAt(d, FromKey);
    var dst :- RefAt(d, ToKey);
    Got(Edge(src, dst))
  }

  function WriteCycle(c: seq<Id>): Stored {
    Dict(map[CycleKey := WriteIds(c)])
  }

  function ReadCycle(d: Stored): Read<seq<Id>> {
    IdsAt(d, CycleKey)
  }

  function WriteHistogram(h: TicketsByStatus): Stored {
    Dict(map[PendingKey := Number(h.pending), ReadyKey := Number(h.ready), ActiveKey := Number(h.active),
             DoneKey := Number(h.done)])
  }

  function ReadHistogram(d: Stored): Read<TicketsByStatus> {
    var pending :- CountAt(d, PendingKey);
    var ready :- CountAt(d, ReadyKey);
    var active :- CountAt(d, ActiveKey);
    var done :- CountAt(d, DoneKey);
    Got(TicketsByStatus(pending, ready, active, done))
  }

  function WriteSummary(s: TreeSummary): Stored {
    Dict(map[TotalTicketsKey := Number(s.totalTickets), TicketsByStatusKey := WriteHistogram(s.ticketsByStatus),
             ReadyTicketsKey := WriteIds(s.readyTickets), BlockedTicketsKey := WriteIds(s.blockedTickets),
             HasCircularDepsKey := Flag(s.hasCircularDeps), CriticalPathLengthKey := Number(s.criticalPathLength),
             CriticalPathMinutesKey := Number(s.criticalPathMinutes), MaxBlockerDepthKey := Number(s.maxBlockerDepth),
             CriticalPathKey := WritePath(s.criticalPath), EstimatedMinutesTotalKey := Number(s.estimatedMinutesTotal)])
  }

  function ReadSummary(d: Stored): Read<TreeSummary> {
    var total :- CountAt(d, TotalTicketsKey);
    var histogram :- At(d, TicketsByStatusKey);
    var byStatus :- ReadHistogram(histogram);
    var ready :- IdsAt(d, ReadyTicketsKey);
    var blocked :- IdsAt(d, BlockedTicketsKey);
    var circular :- FlagAt(d, HasCircularDepsKey);
    var length :- CountAt(d, CriticalPathLengthKey);
    var minutes :- IntAt(d, CriticalPathMinutesKey);
    var depth :- CountAt(d, MaxBlockerDepthKey);
    var path :- PathAt(d, CriticalPathKey);
    var estimates :- IntAt(d, EstimatedMinutesTotalKey);
    Got(TreeSummary(total, byStatus, ready, blocked, circular, length, minutes, depth, path, estimates))
  }

  lemma SummaryFrom(d: Stored, s: TreeSummary)
    requires CountAt(d, TotalTicketsKey) == Got(s.totalTickets)
    requires At(d, TicketsByStatusKey) == Got(WriteHistogram(s.ticketsByStatus))
    requires ReadHistogram(WriteHistogram(s.ticketsByStatus)) == Got(s.ticketsByStatus)
    requires IdsAt(d, ReadyTicketsKey) == Got(s.readyTickets) && IdsAt(d, BlockedTicketsKey) == Got(s.blockedTickets)
    requires FlagAt(d, HasCircularDepsKey) == Got(s.hasCircularDeps)
    requires CountAt(d, CriticalPathLengthKey) == Got(s.criticalPathLength)
    requires IntAt(d, CriticalPathMinutesKey) == Got(s.criticalPathMinutes)
    requires CountAt(d, MaxBlockerDepthKey) == Got(s.maxBlockerDepth)
    requires PathAt(d, CriticalPathKey) == Got(s.criticalPath)
    requires IntAt(d, EstimatedMinutesTotalKey) == Got(s.estimatedMinutesTotal)
    ensures ReadSummary(d) == Got(s)
  {
  }

  lemma SummaryLists(s: TreeSummary)
    ensures var d := WriteSummary(s);
            && IdsAt(d, ReadyTicketsKey) == Got(s.readyTickets) && IdsAt(d, BlockedTicketsKey) == Got(s.blockedTickets)
            && PathAt(d, CriticalPathKey) == Got(s.criticalPath)
  {
    var d := WriteSummary(s);
    IdsBack(d, ReadyTicketsKey, s.readyTickets);
    IdsBack(d, BlockedTicketsKey, s.blockedTickets);
    PathBack(d, CriticalPathKey, s.criticalPath);
  }

  lemma HistogramBack(h: TicketsByStatus)
    ensures ReadHistogram(WriteHistogram(h)) == Got(h)
  {
  }

  lemma SummaryNumbers(s: TreeSummary)
    ensures var d := WriteSummary(s);
            && CountAt(d, TotalTicketsKey) == Got(s.totalTickets) && FlagAt(d, HasCircularDepsKey) == Got(s.hasCircularDeps)
            && CountAt(d, CriticalPathLengthKey) == Got(s.criticalPathLength)
            && IntAt(d, CriticalPathMinutesKey) == Got(s.criticalPathMinutes)
            && CountAt(d, MaxBlockerDepthKey) == Got(s.maxBlockerDepth)
            && IntAt(d, EstimatedMinutesTotalKey) == Got(s.estimatedMinutesTotal)
            && At(d, TicketsByStatusKey) == Got(WriteHistogram(s.ticketsByStatus))
  {
  }

  lemma SummaryBack(s: TreeSummary)
    ensures ReadSummary(WriteSummary(s)) == Got(s)
  {
    SummaryNumbers(s);
    SummaryLists(s);
    HistogramBack(s.ticketsByStatus);
    SummaryFrom(WriteSummary(s), s);
  }

  // ---------------------------------------------------------------------------
  // The tree
  // ---------------------------------------------------------------------------

  function WriteTickets(tickets: map<Id, TreeTicket>): Stored {
    ById(map v | v in tickets :: WriteTicket(tickets[v]))
  }

  predicate AllRead(rows: map<Id, Stored>) {
    forall v | v in rows :: ReadTicket(rows[v]).Got?
  }

  function ReadEach(rows: map<Id, Stored>): map<Id, TreeTicket>
    requires AllRead(rows)
  {
    map v | v in rows :: ReadTicket(rows[v]).value
  }

  function ReadTickets(d: Stored): Read<map<Id, TreeTicket>> {
    if d.ById? && AllRead(d.rows) then Got(ReadEach(d.rows)) else Missing
  }

  lemma TicketsFrom(rows: map<Id, Stored>, tickets: map<Id, TreeTicket>)
    requires rows.Keys == tickets.Keys && forall v | v in rows :: ReadTicket(rows[v]) == Got(tickets[v])
    ensures AllRead(rows) && ReadEach(rows) == tickets
  {
    assert AllRead(rows);
    MapsAgree(rows.Keys, ReadEach(rows), tickets);
  }

  lemma TicketsBack(tickets: map<Id, TreeTicket>)
    ensures ReadTickets(WriteTickets(tickets)) == Got(tickets)
  {
    var rows := WriteTickets(tickets).rows;
    forall v | v in rows {
      TicketBack(tickets[v]);
    }
    TicketsFrom(rows, tickets);
  }

  function TreeDict(id: Stored, version: Stored, generatedAt: Stored, epics: Stored, tickets: Stored,
                    summary: Stored, path: Stored, edges: Stored, cycles: Stored): Stored
  {
    Dict(map[SpecificationIdKey := id, VersionKey := version, GeneratedAtKey := generatedAt,
             EpicsKey := epics, TicketsKey := tickets, SummaryKey := summary, CriticalPathKey := path,
             EdgesKey := edges, CyclesKey := cycles])
  }

  /** `asdict(tree)` after the JSON codec. */
  function ToDict(tree: DependencyTree): Stored {
    TreeDict(Ref(tree.specificationId), Number(tree.version), Text(tree.generatedAt),
             List(WriteAll(tree.epics, WriteEpic)), WriteTickets(tree.tickets), WriteSummary(tree.summary),
             WritePath(tree.criticalPath), List(WriteAll(tree.edges, WriteEdge)),
             List(WriteAll(tree.cycles, WriteCycle)))
  }

  /** `_tree_from_dict`. */
  function FromDict(d: Stored): Read<DependencyTree> {
    var id :- RefAt(d, SpecificationIdKey);
    var version :- IntAt(d, VersionKey);
    var generatedAt :- TextAt(d, GeneratedAtKey);
    var epicList :- ListAt(d, EpicsKey);
    var epics :- ReadAll(epicList, ReadEpic);
    var ticketRows :- At(d, TicketsKey);
    var tickets :- ReadTickets(ticketRows);
    var summaryDict :- At(d, SummaryKey);
    var summary :- ReadSummary(summaryDict);
    var path :- PathAt(d, CriticalPathKey);
    var edgeList :- ListAt(d, EdgesKey);
    var edges :- ReadAll(edgeList, ReadEdge);
    var cycleList :- ListAt(d, CyclesKey);
    var cycles :- ReadAll(cycleList, ReadCycle);
    Got(DependencyTree(id, version, generatedAt, epics, tickets, summary, path, edges, cycles))
  }

  lemma EpicsBack(epics: seq<TreeEpic>)
    ensures ReadAll(WriteAll(epics, WriteEpic), ReadEpic) == Got(epics)
  {
    forall e | e in epics {
      EpicBack(e);
    }
    ReadAllBack(epics, WriteEpic, ReadEpic);
  }

  lemma EdgesBack(edges: seq<Edge>)
    ensures ReadAll(WriteAll(edges, WriteEdge), ReadEdge) == Got(edges)
  {
    ReadAllBack(edges, WriteEdge, ReadEdge);
  }

  lemma CyclesBack(cycles: seq<seq<Id>>)
    ensures ReadAll(WriteAll(cycles, WriteCycle), ReadCycle) == Got(cycles)
  {
    forall c | c in cycles {
      IdsBack(WriteCycle(c), CycleKey, c);
    }
    ReadAllBack(cycles, WriteCycle, ReadCycle);
  }

  lemma TreeFrom(d: Stored, tree: DependencyTree, epics: seq<Stored>, tickets: Stored, summary: Stored,
                 edges: seq<Stored>, cycles: seq<Stored>)
    requires RefAt(d, SpecificationIdKey) == Got(tree.specificationId) && IntAt(d, VersionKey) == Got(tree.version)
    requires TextAt(d, GeneratedAtKey) == Got(tree.generatedAt)
    requires ListAt(d, EpicsKey) == Got(epics) && ReadAll(epics, ReadEpic) == Got(tree.epics)
    requires At(d, TicketsKey) == Got(tickets) && ReadTickets(tickets) == Got(tree.tickets)
    requires At(d, SummaryKey) == Got(summary) && ReadSummary(summary) == Got(tree.summary)
    requires PathAt(d, CriticalPathKey) == Got(tree.criticalPath)
    requires ListAt(d, EdgesKey) == Got(edges) && ReadAll(edges, ReadEdge) == Got(tree.edges)
    requires ListAt(d, CyclesKey) == Got(cycles) && ReadAll(cycles, ReadCycle) == Got(tree.cycles)
    ensures FromDict(d) == Got(tree)
  {
  }

  /** Every part is found under its own key. */
  lemma TreeHeadKeys(d: Stored, id: Stored, version: Stored, generatedAt: Stored, epics: Stored, tickets: Stored,
                     summary: Stored, path: Stored, edges: Stored, cycles: Stored)
    requires d == TreeDict(id, version, generatedAt, epics, tickets, summary, path, edges, cycles)
    ensures At(d, SpecificationIdKey) == Got(id) && At(d, VersionKey) == Got(version)
    ensures At(d, GeneratedAtKey) == Got(generatedAt) && At(d, EpicsKey) == Got(epics)
  {
  }

  lemma TreeBodyKeys(d: Stored, id: Stored, version: Stored, generatedAt: Stored, epics: Stored, tickets: Stored,
                     summary: Stored, path: Stored, edges: Stored, cycles: Stored)
    requires d == TreeDict(id, version, generatedAt, epics, tickets, summary, path, edges, cycles)
    ensures At(d, TicketsKey) == Got(tickets) && At(d, SummaryKey) == Got(summary)
    ensures At(d, CriticalPathKey) == Got(path) && At(d, EdgesKey) == Got(edges) && At(d, CyclesKey) == Got(cycles)
  {
  }

  lemma TreeParts(tree: DependencyTree, d: Stored, epics: seq<Stored>, tickets: Stored, summary: Stored, path: Stored,
                  edges: seq<Stored>, cycles: seq<Stored>)
    requires d == TreeDict(Ref(tree.specificationId), Number(tree.version), Text(tree.generatedAt), List(epics), tickets,
                           summary, path, List(edges), List(cycles))
    requires ReadAll(epics, ReadEpic) == Got(tree.epics) && ReadTickets(tickets) == Got(tree.tickets)
    requires ReadSummary(summary) == Got(tree.summary) && path == WritePath(tree.criticalPath)
    requires ReadAll(edges, ReadEdge) == Got(tree.edges) && ReadAll(cycles, ReadCycle) == Got(tree.cycles)
    ensures FromDict(d) == Got(tree)
  {
    TreeHeadKeys(d, Ref(tree.specificationId), Number(tree.version), Text(tree.generatedAt), List(epics), tickets, summary,
                 path, List(edges), List(cycles));
    TreeBodyKeys(d, Ref(tree.specificationId), Number(tree.version), Text(tree.generatedAt), List(epics), tickets, summary,
                 path, List(edges), List(cycles));
    PathBack(d, CriticalPathKey, tree.criticalPath);
    TreeFrom(d, tree, epics, tickets, summary, edges, cycles);
  }

  /** The cached tree survives being stored, so the gate compares what was built. */
  lemma TreeBack(tree: DependencyTree)
    ensures FromDict(ToDict(tree)) == Got(tree)
  {
    EpicsBack(tree.epics);
    TicketsBack(tree.tickets);
    SummaryBack(tree.summary);
    EdgesBack(tree.edges);
    CyclesBack(tree.cycles);
    TreeParts(tree, ToDict(tree), WriteAll(tree.epics, WriteEpic), WriteTickets(tree.tickets), WriteSummary(tree.summary),
              WritePath(tree.criticalPath), WriteAll(tree.edges, WriteEdge), WriteAll(tree.cycles, WriteCycle));
  }

  /** The gate on the tree read back decides as on the tree that was stored: it keeps that
      tree exactly when the compared parts match the rows, and else takes the new one. */
  lemma StoredGateReadsRows(specId: Id, epics: EpicRows, rows: TicketRows, E: set<Edge>,
                            cached: DependencyTree, rebuilt: DependencyTree)
    requires IsTreeOf(specId, epics, rows, E, rebuilt)
    ensures FromDict(ToDict(cached)).Got?
    ensures ComputeTreeUpdate(Some(FromDict(ToDict(cached)).value), rebuilt)
            == if MatchesRows(specId, epics, rows, E, cached) then (false, cached) else (true, rebuilt)
  {
    TreeBack(cached);
    GateReadsRows(specId, epics, rows, E, cached, rebuilt);
  }
}
