/** The stored rows, and what each recompute-owned column must hold. */
module StoredRows {
  import opened Graph
  import opened Ordering
  import opened Types
  import opened StatusCalculator
  import opened Counts
  import opened TreeSpec
  import opened TreeBuild
  import opened Decimal
  import Cascade

  /** `status` is shared: users set it, the cascade re-derives pending and ready. */
  datatype TicketRow = TicketRow(
    epicId: Id, number: Option<int>, title: string, estimate: Option<int>, status: Status,
    progress: int, blockReason: Option<string>, incoming: nat, outgoing: nat, blueprintCount: nat)

  datatype EpicRow = EpicRow(
    specId: Id, number: int, title: string,
    counts: EpicCounts, dependencyCount: nat, blueprintCount: nat)

  datatype SpecRow = SpecRow(
    projectId: Id, status: SpecStatus,
    counts: SpecCounts, dependencyCount: nat, blueprintCount: nat,
    tree: Option<DependencyTree>, treeVersion: int, treeUpdatedAt: Option<string>,
    criticalPathLength: nat, maxBlockerDepth: nat)

  /** The rows a recompute of one spec reads and rewrites. */
  datatype SpecView = SpecView(
    epics: map<Id, EpicRow>,
    tickets: map<Id, TicketRow>,
    edges: set<Edge>,
    blueprints: set<Id>,
    refs: set<BlueprintRef>)

  // ---------------------------------------------------------------------------
  // What the derivations read
  // ---------------------------------------------------------------------------

  function TicketNodeOf(id: Id, row: TicketRow): TicketNode {
    TicketNode(id, row.status, row.estimate, Some(row.epicId), row.number, Some(row.title))
  }

  function Nodes(view: SpecView): (m: TicketRows)
    ensures m.Keys == view.tickets.Keys
  {
    map t | t in view.tickets :: TicketNodeOf(t, view.tickets[t])
  }

  function EpicNodes(view: SpecView): (m: EpicRows)
    ensures m.Keys == view.epics.Keys
  {
    map e | e in view.epics :: EpicNode(e, Some(view.epics[e].number), Some(view.epics[e].title))
  }

  function TicketEpic(view: SpecView): map<Id, Id> {
    map t | t in view.tickets :: view.tickets[t].epicId
  }

  function Statuses(view: SpecView): States {
    map t | t in view.tickets :: view.tickets[t].status
  }

  /** The rows of a query come in id order. */
  function TicketIds(view: SpecView): (ids: seq<Id>)
    ensures forall t :: t in ids <==> t in view.tickets
  {
    var ids := Sorted(view.tickets.Keys);
    assert forall t :: t in ids <==> t in Elems(ids);
    ids
  }

  function EpicIds(view: SpecView): (ids: seq<Id>)
    ensures forall e :: e in ids <==> e in view.epics
  {
    var ids := Sorted(view.epics.Keys);
    assert forall e :: e in ids <==> e in Elems(ids);
    ids
  }

  function EdgeRows(view: SpecView): seq<Edge> {
    EdgesFrom(TicketIds(view), view.edges)
  }

  function BlueprintsOf(refs: set<BlueprintRef>, t: Id): set<Id> {
    set r | r in refs && r.ticketId == t :: r.blueprintId
  }

  function ToRefs(t: Id, blueprints: seq<Id>): seq<BlueprintRef> {
    seq(|blueprints|, i requires 0 <= i < |blueprints| => BlueprintRef(t, blueprints[i]))
  }

  function RefsFrom(ids: seq<Id>, refs: set<BlueprintRef>): seq<BlueprintRef> {
    if |ids| == 0 then []
    else
      var t := ids[|ids| - 1];
      RefsFrom(ids[..|ids| - 1], refs) + ToRefs(t, Sorted(BlueprintsOf(refs, t)))
  }

  function RefRows(view: SpecView): seq<BlueprintRef> {
    RefsFrom(TicketIds(view), view.refs)
  }

  function NodeList(view: SpecView): seq<TicketNode> {
    NodesOf(Nodes(view), TicketIds(view))
  }

  /** The nodes of one epic, in the order they were read. */
  function NodesIn(nodes: seq<TicketNode>, e: Id): seq<TicketNode> {
    if |nodes| == 0 then []
    else
      var last := nodes[|nodes| - 1];
      NodesIn(nodes[..|nodes| - 1], e) + (if last.epicId == Some(e) then [last] else [])
  }

  function EpicNodeList(view: SpecView, e: Id): seq<TicketNode> {
    NodesIn(NodeList(view), e)
  }

  // ---------------------------------------------------------------------------
  // What each derived column must hold
  // ---------------------------------------------------------------------------

  function Join(names: seq<string>): string {
    if |names| == 0 then ""
    else if |names| == 1 then names[0]
    else names[0] + ", " + Join(names[1..])
  }

  /** A blocker is named by its title, or by its id when the title is empty. */
  function NameOf(nodes: TicketRows, b: Id): string {
    if b in nodes && nodes[b].title.Some? && nodes[b].title.value != "" then nodes[b].title.value
    else NatToString(b)
  }

  function Names(nodes: TicketRows, blockers: seq<Id>): seq<string> {
    seq(|blockers|, i requires 0 <= i < |blockers| => NameOf(nodes, blockers[i]))
  }

  function FormatBlockReason(nodes: TicketRows, blockers: seq<Id>): string {
    "Blocked by " + NatToString(|blockers|)
    + (if |blockers| == 1 then " dependency: " else " dependencies: ")
    + Join(Names(nodes, blockers))
  }

  /** The dependencies of `t` that are not done, in the order the edges list them. */
  function Blockers(nodes: TicketRows, edges: seq<Edge>, t: Id): seq<Id> {
    Cascade.Unfinished(StatesOf(nodes), Cascade.FirstSeen(Cascade.Targets(edges, t)))
  }

  function BlockReason(nodes: TicketRows, edges: seq<Edge>, t: Id, status: Status): Option<string> {
    if status == Pending && |Blockers(nodes, edges, t)| > 0
    then Some(FormatBlockReason(nodes, Blockers(nodes, edges, t)))
    else None
  }

  function DerivedTicket(row: TicketRow, t: Id, nodes: TicketRows, edges: seq<Edge>, refs: seq<BlueprintRef>): TicketRow {
    row.(progress := if row.status == Done then 100 else 0,
         blockReason := BlockReason(nodes, edges, t, row.status),
         incoming := Incoming(edges, t),
         outgoing := Outgoing(edges, t),
         blueprintCount := RefsOf(refs, t))
  }

  function DerivedEpic(row: EpicRow, e: Id, list: seq<TicketNode>, ticketEpic: map<Id, Id>,
                       edges: seq<Edge>, refs: seq<BlueprintRef>): EpicRow {
    row.(counts := EpicCountsOf(list),
         dependencyCount := IntraEpic(edges, ticketEpic, e),
         blueprintCount := |EpicBlueprints(refs, ticketEpic, e)|)
  }

  function EpicStatuses(view: SpecView, ids: seq<Id>): seq<EpicStatus> {
    seq(|ids|, i requires 0 <= i < |ids| => EpicCountsOf(EpicNodeList(view, ids[i])).status)
  }

  function DerivedSpec(row: SpecRow, view: SpecView): SpecRow {
    row.(counts := SpecCountsOf(EpicStatuses(view, EpicIds(view)), NodeList(view)),
         dependencyCount := |EdgeRows(view)|,
         blueprintCount := |view.blueprints|)
  }

  /** Whatever tree is stored, some build for this spec produced it. */
  ghost predicate TreeCached(specId: Id, tree: Option<DependencyTree>) {
    tree.Some? ==> Built(tree.value) && tree.value.specificationId == specId
  }

  /** The two materialised scalars are those of the stored tree. */
  ghost predicate ScalarsOfTree(spec: SpecRow) {
    spec.tree.Some? ==>
      && spec.criticalPathLength == spec.tree.value.summary.criticalPathLength
      && spec.maxBlockerDepth == spec.tree.value.summary.maxBlockerDepth
  }

  ghost predicate SpecCached(specId: Id, spec: SpecRow) {
    TreeCached(specId, spec.tree) && ScalarsOfTree(spec)
  }

  /** The cached tree is a built tree that a rebuild from the rows would leave alone. */
  ghost predicate TreeCurrent(specId: Id, tree: Option<DependencyTree>, epics: EpicRows, rows: TicketRows, E: set<Edge>) {
    tree.Some? && Built(tree.value) && MatchesRows(specId, epics, rows, E, tree.value)
  }

  ghost predicate TicketsDerived(view: SpecView) {
    && Consistent(Statuses(view), view.edges)
    && forall t | t in view.tickets ::
         view.tickets[t] == DerivedTicket(view.tickets[t], t, Nodes(view), EdgeRows(view), RefRows(view))
  }

  ghost predicate EpicsDerived(view: SpecView) {
    forall e | e in view.epics ::
      view.epics[e] == DerivedEpic(view.epics[e], e, EpicNodeList(view, e), TicketEpic(view), EdgeRows(view), RefRows(view))
  }

  /** Every recompute-owned column of the spec equals its derivation from the rows. */
  ghost predicate SpecConsistent(specId: Id, spec: SpecRow, view: SpecView) {
    && TicketsDerived(view)
    && EpicsDerived(view)
    && spec == DerivedSpec(spec, view)
    && ScalarsOfTree(spec)
    && TreeCurrent(specId, spec.tree, EpicNodes(view), Nodes(view), view.edges)
  }

  /** Ends inside the spec. */
  ghost predicate ViewClosed(view: SpecView) {
    && Within(view.edges, view.tickets.Keys)
    && (forall r | r in view.refs :: r.ticketId in view.tickets)
    && (forall t | t in view.tickets :: view.tickets[t].epicId in view.epics)
  }

  /** Columns no recompute touches. */
  ghost predicate SameTicket(a: TicketRow, b: TicketRow) {
    a.epicId == b.epicId && a.number == b.number && a.title == b.title && a.estimate == b.estimate
  }

  ghost predicate SameEpic(a: EpicRow, b: EpicRow) {
    a.specId == b.specId && a.number == b.number && a.title == b.title
  }
}
