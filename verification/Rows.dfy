/** All tables together: what belongs to a spec, and when the derived columns are sound. */
module Rows {
  import opened Graph
  import opened Ordering
  import opened Types
  import opened StatusCalculator
  import opened Counts
  import opened TreeSpec
  import opened StoredRows
  import opened Recompute

  datatype ProjectRow = ProjectRow(counts: ProjectCounts)

  /** A snapshot of the tables.  A blueprint row shows only its spec. */
  datatype Db = Db(
    projects: map<Id, ProjectRow>,
    specs: map<Id, SpecRow>,
    epics: map<Id, EpicRow>,
    tickets: map<Id, TicketRow>,
    deps: set<Edge>,
    blueprints: map<Id, Id>,
    refs: set<BlueprintRef>)

  // ---------------------------------------------------------------------------
  // What belongs to a spec
  // ---------------------------------------------------------------------------

  predicate EpicIn(epics: map<Id, EpicRow>, e: Id, s: Id) {
    e in epics && epics[e].specId == s
  }

  predicate TicketIn(db: Db, t: Id, s: Id) {
    t in db.tickets && EpicIn(db.epics, db.tickets[t].epicId, s)
  }

  function EpicsOf(db: Db, s: Id): map<Id, EpicRow> {
    map e | e in db.epics && EpicIn(db.epics, e, s) :: db.epics[e]
  }

  function TicketsOf(db: Db, s: Id): map<Id, TicketRow> {
    map t | t in db.tickets && TicketIn(db, t, s) :: db.tickets[t]
  }

  /** Edges with both ends in the spec, as `_recompute_spec` keeps them. */
  function EdgesOf(db: Db, s: Id): set<Edge> {
    set d | d in db.deps && TicketIn(db, d.src, s) && TicketIn(db, d.dst, s)
  }

  function BlueprintIdsOf(db: Db, s: Id): set<Id> {
    set b | b in db.blueprints && db.blueprints[b] == s
  }

  function RefsIn(db: Db, s: Id): set<BlueprintRef> {
    set r | r in db.refs && TicketIn(db, r.ticketId, s)
  }

  function ViewOf(db: Db, s: Id): SpecView {
    SpecView(EpicsOf(db, s), TicketsOf(db, s), EdgesOf(db, s), BlueprintIdsOf(db, s), RefsIn(db, s))
  }

  lemma ViewsAreClosed(db: Db, s: Id)
    ensures ViewClosed(ViewOf(db, s))
  {
  }

  // ---------------------------------------------------------------------------
  // Foreign keys, and soundness of the derived columns
  // ---------------------------------------------------------------------------

  ghost predicate ForeignKeys(db: Db) {
    && (forall s | s in db.specs :: db.specs[s].projectId in db.projects)
    && (forall e | e in db.epics :: db.epics[e].specId in db.specs)
    && (forall t | t in db.tickets :: db.tickets[t].epicId in db.epics)
    && Within(db.deps, db.tickets.Keys)
    && (forall b | b in db.blueprints :: db.blueprints[b] in db.specs)
    && (forall r | r in db.refs :: r.ticketId in db.tickets && r.blueprintId in db.blueprints)
  }

  /** Every recompute-owned column of the spec, its epics and its tickets is right. */
  ghost predicate SpecOk(db: Db, s: Id) {
    s in db.specs && SpecConsistent(s, db.specs[s], ViewOf(db, s))
  }

  function CountsView(row: SpecRow): SpecCountsView {
    SpecCountsView(row.status, row.counts.epicCount, row.counts.completedEpics, row.counts.ticketCount,
                   row.counts.completed)
  }

  function SpecsOf(specs: map<Id, SpecRow>, p: Id): set<Id> {
    set s | s in specs && specs[s].projectId == p
  }

  function SpecViews(specs: map<Id, SpecRow>, p: Id): seq<SpecCountsView> {
    var ids := Sorted(SpecsOf(specs, p));
    assert forall i | 0 <= i < |ids| :: ids[i] in Elems(ids);
    seq(|ids|, i requires 0 <= i < |ids| => CountsView(specs[ids[i]]))
  }

  ghost predicate ProjectOk(db: Db, p: Id) {
    p in db.projects && db.projects[p].counts == ProjectCountsOf(SpecViews(db.specs, p))
  }

  ghost predicate TreesCached(specs: map<Id, SpecRow>) {
    forall s {:trigger SpecCached(s, specs[s])} | s in specs :: SpecCached(s, specs[s])
  }

  /** What a mutation leaves behind for the recompute worklist: only the listed specs and
      projects may be stale. */
  ghost predicate SoundExcept(db: Db, stale: set<Id>, staleProjects: set<Id>) {
    ForeignKeys(db) && TreesCached(db.specs) && SpecsOk(db, stale) && ProjectsOk(db, staleProjects)
  }

  ghost predicate SpecsOk(db: Db, stale: set<Id>) {
    forall s {:trigger SpecOk(db, s)} | s in db.specs && s !in stale :: SpecOk(db, s)
  }

  ghost predicate ProjectsOk(db: Db, stale: set<Id>) {
    forall p {:trigger ProjectOk(db, p)} | p in db.projects && p !in stale :: ProjectOk(db, p)
  }

  /** Every derived column in the database equals its derivation from the rows. */
  ghost predicate Sound(db: Db) {
    SoundExcept(db, {}, {})
  }

  // ---------------------------------------------------------------------------
  // Writing one recomputed spec back
  // ---------------------------------------------------------------------------

  function Merge(db: Db, s: Id, spec: SpecRow, view: SpecView): Db {
    db.(specs := db.specs[s := spec], epics := db.epics + view.epics, tickets := db.tickets + view.tickets)
  }

  ghost predicate Rewrites(db: Db, s: Id, spec: SpecRow, view: SpecView) {
    s in db.specs && SameSources(view, ViewOf(db, s)) && spec.projectId == db.specs[s].projectId
  }

  lemma MergedEpics(db: Db, s: Id, spec: SpecRow, view: SpecView, e: Id, s2: Id)
    requires Rewrites(db, s, spec, view)
    ensures var next := Merge(db, s, spec, view);
            && (e in next.epics <==> e in db.epics)
            && (EpicIn(next.epics, e, s2) <==> EpicIn(db.epics, e, s2))
            && (e in db.epics ==> next.epics[e] == if EpicIn(db.epics, e, s) then view.epics[e] else db.epics[e])
  {
    assert e in view.epics <==> EpicIn(db.epics, e, s);
    if e in view.epics {
      assert SameEpic(view.epics[e], ViewOf(db, s).epics[e]);
    }
  }

  lemma MergedTickets(db: Db, s: Id, spec: SpecRow, view: SpecView, t: Id, s2: Id)
    requires Rewrites(db, s, spec, view)
    ensures var next := Merge(db, s, spec, view);
            && (t in next.tickets <==> t in db.tickets)
            && (TicketIn(next, t, s2) <==> TicketIn(db, t, s2))
            && (t in db.tickets ==> next.tickets[t] == if TicketIn(db, t, s) then view.tickets[t] else db.tickets[t])
            && (t in db.tickets ==> next.tickets[t].epicId == db.tickets[t].epicId)
  {
    assert t in view.tickets <==> TicketIn(db, t, s);
    if t in view.tickets {
      assert SameTicket(view.tickets[t], ViewOf(db, s).tickets[t]);
    }
    if t in db.tickets {
      MergedEpics(db, s, spec, view, db.tickets[t].epicId, s2);
    }
  }

  lemma MergedEdges(db: Db, s: Id, spec: SpecRow, view: SpecView, s2: Id)
    requires Rewrites(db, s, spec, view)
    ensures var next := Merge(db, s, spec, view);
            EdgesOf(next, s2) == EdgesOf(db, s2) && RefsIn(next, s2) == RefsIn(db, s2)
            && BlueprintIdsOf(next, s2) == BlueprintIdsOf(db, s2)
  {
    forall t {
      MergedTickets(db, s, spec, view, t, s2);
    }
  }

  lemma MergedOwnEpics(db: Db, s: Id, spec: SpecRow, view: SpecView)
    requires Rewrites(db, s, spec, view)
    ensures EpicsOf(Merge(db, s, spec, view), s) == view.epics
  {
    var next := Merge(db, s, spec, view);
    forall e
      ensures e in EpicsOf(next, s) <==> e in view.epics
      ensures e in view.epics ==> EpicsOf(next, s)[e] == view.epics[e]
    {
      MergedEpics(db, s, spec, view, e, s);
    }
    MapsAgree(view.epics.Keys, EpicsOf(next, s), view.epics);
  }

  lemma MergedOwnTickets(db: Db, s: Id, spec: SpecRow, view: SpecView)
    requires Rewrites(db, s, spec, view)
    ensures TicketsOf(Merge(db, s, spec, view), s) == view.tickets
  {
    var next := Merge(db, s, spec, view);
    forall t
      ensures t in TicketsOf(next, s) <==> t in view.tickets
      ensures t in view.tickets ==> TicketsOf(next, s)[t] == view.tickets[t]
    {
      MergedTickets(db, s, spec, view, t, s);
    }
    MapsAgree(view.tickets.Keys, TicketsOf(next, s), view.tickets);
  }

  lemma MergedOwn(db: Db, s: Id, spec: SpecRow, view: SpecView)
    requires Rewrites(db, s, spec, view)
    ensures ViewOf(Merge(db, s, spec, view), s) == view
  {
    MergedEdges(db, s, spec, view, s);
    MergedOwnEpics(db, s, spec, view);
    MergedOwnTickets(db, s, spec, view);
  }

  lemma MergedOtherEpics(db: Db, s: Id, spec: SpecRow, view: SpecView, s2: Id)
    requires Rewrites(db, s, spec, view) && s2 != s
    ensures EpicsOf(Merge(db, s, spec, view), s2) == EpicsOf(db, s2)
  {
    var next := Merge(db, s, spec, view);
    forall e
      ensures e in EpicsOf(next, s2) <==> e in EpicsOf(db, s2)
      ensures e in EpicsOf(db, s2) ==> EpicsOf(next, s2)[e] == EpicsOf(db, s2)[e]
    {
      MergedEpics(db, s, spec, view, e, s2);
    }
    MapsAgree(EpicsOf(db, s2).Keys, EpicsOf(next, s2), EpicsOf(db, s2));
  }

  lemma MergedOtherTickets(db: Db, s: Id, spec: SpecRow, view: SpecView, s2: Id)
    requires Rewrites(db, s, spec, view) && s2 != s
    ensures TicketsOf(Merge(db, s, spec, view), s2) == TicketsOf(db, s2)
  {
    var next := Merge(db, s, spec, view);
    forall t
      ensures t in TicketsOf(next, s2) <==> t in TicketsOf(db, s2)
      ensures t in TicketsOf(db, s2) ==> TicketsOf(next, s2)[t] == TicketsOf(db, s2)[t]
    {
      MergedTickets(db, s, spec, view, t, s2);
    }
    MapsAgree(TicketsOf(db, s2).Keys, TicketsOf(next, s2), TicketsOf(db, s2));
  }

  /** The other specs do not notice. */
  lemma MergedOther(db: Db, s: Id, spec: SpecRow, view: SpecView, s2: Id)
    requires Rewrites(db, s, spec, view) && s2 != s
    ensures ViewOf(Merge(db, s, spec, view), s2) == ViewOf(db, s2)
  {
    MergedEdges(db, s, spec, view, s2);
    MergedOtherEpics(db, s, spec, view, s2);
    MergedOtherTickets(db, s, spec, view, s2);
  }

  lemma MergedKeys(db: Db, s: Id, spec: SpecRow, view: SpecView)
    requires Rewrites(db, s, spec, view) && ForeignKeys(db)
    ensures ForeignKeys(Merge(db, s, spec, view))
    ensures Merge(db, s, spec, view).epics.Keys == db.epics.Keys
    ensures Merge(db, s, spec, view).tickets.Keys == db.tickets.Keys
  {
    var next := Merge(db, s, spec, view);
    MergedEpicKeys(db, s, spec, view);
    MergedTicketKeys(db, s, spec, view);
    forall e | e in next.epics
      ensures next.epics[e].specId in next.specs
    {
      MergedEpics(db, s, spec, view, e, db.epics[e].specId);
    }
  }

  lemma MergedEpicKeys(db: Db, s: Id, spec: SpecRow, view: SpecView)
    requires Rewrites(db, s, spec, view)
    ensures Merge(db, s, spec, view).epics.Keys == db.epics.Keys
  {
    forall e {
      MergedEpics(db, s, spec, view, e, s);
    }
  }

  lemma MergedTicketKeys(db: Db, s: Id, spec: SpecRow, view: SpecView)
    requires Rewrites(db, s, spec, view)
    ensures var next := Merge(db, s, spec, view);
            next.tickets.Keys == db.tickets.Keys && forall t | t in db.tickets :: next.tickets[t].epicId == db.tickets[t].epicId
  {
    forall t {
      MergedTickets(db, s, spec, view, t, s);
    }
  }

  lemma SameProjects(specs: map<Id, SpecRow>, s: Id, spec: SpecRow, p: Id)
    requires s in specs && spec.projectId == specs[s].projectId && p != spec.projectId
    ensures SpecViews(specs[s := spec], p) == SpecViews(specs, p)
  {
    assert SpecsOf(specs[s := spec], p) == SpecsOf(specs, p);
    var ids := Sorted(SpecsOf(specs, p));
    forall i | 0 <= i < |ids|
      ensures ids[i] != s && ids[i] in specs
    {
      assert ids[i] in Elems(ids);
    }
  }

  lemma SameViewOk(db: Db, next: Db, s: Id)
    requires s in db.specs && s in next.specs && next.specs[s] == db.specs[s] && ViewOf(next, s) == ViewOf(db, s)
    ensures SpecOk(db, s) ==> SpecOk(next, s)
  {
  }

  lemma MergedOwnOk(db: Db, s: Id, spec: SpecRow, view: SpecView)
    requires Rewrites(db, s, spec, view) && SpecConsistent(s, spec, view)
    ensures SpecOk(Merge(db, s, spec, view), s)
  {
    MergedOwn(db, s, spec, view);
  }

  lemma MergedOtherOk(db: Db, s: Id, spec: SpecRow, view: SpecView, s2: Id)
    requires Rewrites(db, s, spec, view) && s2 != s && s2 in db.specs
    ensures SpecOk(db, s2) ==> SpecOk(Merge(db, s, spec, view), s2)
  {
    MergedOther(db, s, spec, view, s2);
    SameViewOk(db, Merge(db, s, spec, view), s2);
  }

  lemma MergedCached(db: Db, s: Id, spec: SpecRow, view: SpecView)
    requires TreesCached(db.specs) && SpecConsistent(s, spec, view)
    ensures TreesCached(db.specs[s := spec])
  {
  }

  lemma MergedSpecs(db: Db, s: Id, spec: SpecRow, view: SpecView, stale: set<Id>)
    requires Rewrites(db, s, spec, view) && SpecConsistent(s, spec, view) && SpecsOk(db, stale)
    ensures SpecsOk(Merge(db, s, spec, view), stale - {s})
  {
    var next := Merge(db, s, spec, view);
    MergedOwnOk(db, s, spec, view);
    forall s2 | s2 in next.specs && s2 !in stale && s2 != s
      ensures SpecOk(next, s2)
    {
      assert SpecOk(db, s2);
      MergedOtherOk(db, s, spec, view, s2);
    }
  }

  lemma MergedProjects(db: Db, s: Id, spec: SpecRow, view: SpecView, stale: set<Id>)
    requires Rewrites(db, s, spec, view) && ProjectsOk(db, stale)
    ensures ProjectsOk(Merge(db, s, spec, view), stale + {spec.projectId})
  {
    var next := Merge(db, s, spec, view);
    forall p | p in next.projects && p !in stale + {spec.projectId}
      ensures ProjectOk(next, p)
    {
      SameProjects(db.specs, s, spec, p);
      assert ProjectOk(db, p);
    }
  }

  /** Writing a consistent spec back takes it off the worklist and puts its project on. */
  lemma MergedSound(db: Db, s: Id, spec: SpecRow, view: SpecView, stale: set<Id>, staleProjects: set<Id>)
    requires Rewrites(db, s, spec, view) && SpecConsistent(s, spec, view)
    requires SoundExcept(db, stale, staleProjects)
    ensures SoundExcept(Merge(db, s, spec, view), stale - {s}, staleProjects + {spec.projectId})
  {
    MergedKeys(db, s, spec, view);
    MergedCached(db, s, spec, view);
    MergedSpecs(db, s, spec, view, stale);
    MergedProjects(db, s, spec, view, staleProjects);
  }

  /** A spec and its rows are as they were. */
  ghost predicate SameSpec(before: Db, after: Db, s: Id) {
    && (s in before.specs <==> s in after.specs)
    && (s in before.specs ==> before.specs[s] == after.specs[s])
    && ViewOf(before, s) == ViewOf(after, s)
  }

  /** Dependencies between tickets of different specs, links across specs and everything
      no derivation writes. */
  ghost predicate SameTables(before: Db, after: Db) {
    && before.projects.Keys == after.projects.Keys
    && before.specs.Keys == after.specs.Keys
    && before.epics.Keys == after.epics.Keys && before.tickets.Keys == after.tickets.Keys
    && before.deps == after.deps && before.blueprints == after.blueprints && before.refs == after.refs
    && (forall t | t in before.tickets :: SameTicket(before.tickets[t], after.tickets[t]))
    && (forall e | e in before.epics :: SameEpic(before.epics[e], after.epics[e]))
    && (forall s | s in before.specs :: before.specs[s].projectId == after.specs[s].projectId
                                        && before.specs[s].status == after.specs[s].status)
  }

  lemma FewerStale(db: Db, stale: set<Id>, staleProjects: set<Id>, stale': set<Id>, staleProjects': set<Id>)
    requires SoundExcept(db, stale, staleProjects)
    requires stale * db.specs.Keys <= stale' && staleProjects * db.projects.Keys <= staleProjects'
    ensures SoundExcept(db, stale', staleProjects')
  {
  }

  // ---------------------------------------------------------------------------
  // One project
  // ---------------------------------------------------------------------------

  function MergeProject(db: Db, p: Id, counts: ProjectCounts): Db
    requires p in db.projects
  {
    db.(projects := db.projects[p := db.projects[p].(counts := counts)])
  }

  lemma MergedProject(db: Db, p: Id, stale: set<Id>, staleProjects: set<Id>)
    requires SoundExcept(db, stale, staleProjects) && p in db.projects
    ensures SoundExcept(MergeProject(db, p, ProjectCountsOf(SpecViews(db.specs, p))), stale, staleProjects - {p})
    ensures ProjectOk(db, p) ==> MergeProject(db, p, ProjectCountsOf(SpecViews(db.specs, p))) == db
  {
    var counts := ProjectCountsOf(SpecViews(db.specs, p));
    var next := MergeProject(db, p, counts);
    SameTablesSpecsOk(db, next, stale);
    CountedProjects(db, next, p, counts, staleProjects);
    assert next.projects.Keys == db.projects.Keys;
    if ProjectOk(db, p) {
      assert next.projects == db.projects;
    }
  }

  lemma SameTablesSpecsOk(db: Db, next: Db, stale: set<Id>)
    requires SpecsOk(db, stale) && next == db.(projects := next.projects)
    ensures SpecsOk(next, stale)
  {
    forall s | s in db.specs {
      SameTablesOk(db, next, s);
    }
  }

  lemma SameTablesOk(db: Db, next: Db, s: Id)
    requires s in db.specs && next == db.(projects := next.projects)
    ensures SpecOk(db, s) ==> SpecOk(next, s)
  {
    SameTablesSameView(db, next, s);
    SameViewOk(db, next, s);
  }

  lemma CountedProjects(db: Db, next: Db, p: Id, counts: ProjectCounts, staleProjects: set<Id>)
    requires ProjectsOk(db, staleProjects) && p in db.projects && counts == ProjectCountsOf(SpecViews(db.specs, p))
    requires next == MergeProject(db, p, counts)
    ensures ProjectsOk(next, staleProjects - {p})
  {
    forall q | q in next.projects && q !in staleProjects - {p}
      ensures ProjectOk(next, q)
    {
      assert q != p ==> ProjectOk(db, q);
    }
  }

  lemma SameTablesSameView(db: Db, next: Db, s: Id)
    requires next == db.(projects := next.projects)
    ensures ViewOf(next, s) == ViewOf(db, s)
  {
    assert forall t :: TicketIn(next, t, s) <==> TicketIn(db, t, s);
  }
}
