/** The database: the tables as fields, the worklist, and the CRUD verbs that end in it. */
module Database {
  import opened Graph
  import opened Ordering
  import opened Types
  import opened StatusCalculator
  import opened Counts
  import opened TreeSpec
  import opened StoredRows
  import opened Recompute
  import opened Rows
  import opened Mutations
  import opened Worklist
  import opened StaleCases
  import opened CrudTypes
  import opened Verbs
  import opened VerbOutcomes
  import CycleGuard

  class Database {
    var projects: map<Id, ProjectRow>
    var specs: map<Id, SpecRow>
    var epics: map<Id, EpicRow>
    var tickets: map<Id, TicketRow>
    var deps: set<Edge>
    var blueprints: map<Id, Id>
    var refs: set<BlueprintRef>

    /** An empty database with some projects. */
    constructor (projectIds: set<Id>)
      ensures Sound(Snapshot())
      ensures projects.Keys == projectIds && specs == map[] && epics == map[] && tickets == map[]
    {
      projects := map p | p in projectIds :: ProjectRow(NO_SPECS);
      specs, epics, tickets, blueprints := map[], map[], map[], map[];
      deps, refs := {}, {};
      new;
      EmptyIsSound(Snapshot());
    }

    function Snapshot(): Db
      reads this
    {
      Db(projects, specs, epics, tickets, deps, blueprints, refs)
    }

    method WriteBack(next: Db)
      modifies this`specs, this`epics, this`tickets
      requires next == Snapshot().(specs := next.specs, epics := next.epics, tickets := next.tickets)
      ensures Snapshot() == next
    {
      specs, epics, tickets := next.specs, next.epics, next.tickets;
    }

    /** `_recompute_spec` on the tables. */
    method RecomputeOne(s: Id, generatedAt: string, ghost stale: set<Id>, ghost staleProjects: set<Id>)
      modifies this`specs, this`epics, this`tickets
      requires SoundExcept(Snapshot(), stale, staleProjects) && s in specs
      ensures s in specs && specs[s].projectId == old(specs[s].projectId)
      ensures SoundExcept(Snapshot(), stale - {s}, staleProjects + {specs[s].projectId})
      ensures Recomputed(old(Snapshot()), Snapshot(), {s})
      ensures SpecOk(old(Snapshot()), s) ==> Snapshot() == old(Snapshot())
    {
      ghost var before := Snapshot();
      var view := ViewOf(Snapshot(), s);
      ViewsAreClosed(before, s);
      var spec, after := RecomputeSpec(s, specs[s], view, generatedAt);
      WriteBack(Merge(Snapshot(), s, spec, after));
      WrittenBack(before, s, spec, after, stale, staleProjects);
    }

    /** `_recompute_project`. */
    method RecomputeProject(p: Id, ghost stale: set<Id>, ghost staleProjects: set<Id>)
      modifies this`projects
      requires SoundExcept(Snapshot(), stale, staleProjects)
      ensures SoundExcept(Snapshot(), stale, staleProjects - {p})
      ensures Snapshot() == old(Snapshot()).(projects := projects) && projects.Keys == old(projects.Keys)
      ensures (p in projects ==> ProjectOk(old(Snapshot()), p)) ==> Snapshot() == old(Snapshot())
    {
      if p in projects {
        MergedProject(Snapshot(), p, stale, staleProjects);
        var counts := DeriveProjectCounts(SpecViews(specs, p));
        projects := projects[p := projects[p].(counts := counts)];
      }
    }

    /** One id of the worklist; an id seen before or of no spec is skipped. */
    method Visit(s: Id, generatedAt: string, seen: set<Id>, projectIds: set<Id>, ghost before: Db,
                 ghost stale: set<Id>, ghost staleProjects: set<Id>)
      returns (nextProjects: set<Id>)
      modifies this`specs, this`epics, this`tickets
      requires Progress(before, Snapshot(), seen, projectIds, stale, staleProjects)
      ensures Progress(before, Snapshot(), seen + {s}, nextProjects, stale, staleProjects)
    {
      if s in seen {
        assert seen + {s} == seen;
        return projectIds;
      }
      ghost var middle := Snapshot();
      if s in specs {
        RecomputeOne(s, generatedAt, stale - seen, staleProjects + projectIds);
        nextProjects := projectIds + {specs[s].projectId};
        ProgressStep(before, middle, Snapshot(), seen, projectIds, s, stale, staleProjects);
      } else {
        nextProjects := projectIds;
        ProgressSkip(before, middle, seen, projectIds, s, stale, staleProjects);
      }
    }

    method RecomputeAll(specIds: seq<Id>, generatedAt: string, ghost stale: set<Id>, ghost staleProjects: set<Id>)
      returns (projectIds: set<Id>)
      modifies this`specs, this`epics, this`tickets
      requires SoundExcept(Snapshot(), stale, staleProjects)
      ensures Progress(old(Snapshot()), Snapshot(), Elems(specIds), projectIds, stale, staleProjects)
    {
      ghost var before := Snapshot();
      NothingRecomputed(before, {});
      var seen: set<Id> := {};
      projectIds := {};
      for i := 0 to |specIds|
        invariant seen == Elems(specIds[..i])
        invariant Progress(before, Snapshot(), seen, projectIds, stale, staleProjects)
      {
        ElemsGrow(specIds, i);
        projectIds := Visit(specIds[i], generatedAt, seen, projectIds, before, stale, staleProjects);
        seen := seen + {specIds[i]};
      }
      assert specIds[..|specIds|] == specIds;
    }

    method RecomputeProjects(projectIds: set<Id>, ghost stale: set<Id>)
      modifies this`projects
      requires SoundExcept(Snapshot(), stale, projectIds)
      ensures SoundExcept(Snapshot(), stale, {})
      ensures Snapshot() == old(Snapshot()).(projects := projects) && projects.Keys == old(projects.Keys)
      ensures ProjectsOk(old(Snapshot()), {}) ==> Snapshot() == old(Snapshot())
    {
      ghost var before := Snapshot();
      var rest := projectIds;
      while rest != {}
        invariant SoundExcept(Snapshot(), stale, rest)
        invariant projects.Keys == before.projects.Keys && before.(projects := projects) == Snapshot()
        invariant ProjectsOk(before, {}) ==> Snapshot() == before
        decreases |rest|
      {
        var p :| p in rest;
        RecomputeProject(p, stale, rest);
        rest := rest - {p};
      }
    }

    /** The worklist: every listed spec once, then every project they belong to once.  It
        repairs whatever is stale among them, and changes nothing when nothing is. */
    method Recompute(specIds: seq<Id>, generatedAt: string, ghost stale: set<Id>, ghost staleProjects: set<Id>)
      modifies this`projects, this`specs, this`epics, this`tickets
      requires SoundExcept(Snapshot(), stale, staleProjects)
      requires forall p | p in staleProjects :: exists s :: s in specIds && s in specs && specs[s].projectId == p
      ensures SoundExcept(Snapshot(), stale - Elems(specIds), {})
      ensures Recomputed(old(Snapshot()), Snapshot(), Elems(specIds))
      ensures Sound(old(Snapshot())) ==> Snapshot() == old(Snapshot())
    {
      ghost var before := Snapshot();
      var projectIds := RecomputeAll(specIds, generatedAt, stale, staleProjects);
      ghost var middle := Snapshot();
      NothingLeft(before, middle, specIds, projectIds, stale, staleProjects);
      RecomputeProjects(projectIds, stale - Elems(specIds));
      WorkDone(before, middle, Snapshot(), Elems(specIds));
    }

    // -------------------------------------------------------------------------
    // The end of every verb
    // -------------------------------------------------------------------------

    method Commit(specIds: seq<Id>, generatedAt: string, ghost before: Db, ghost P: set<Id>)
      modifies this`projects, this`specs, this`epics, this`tickets
      requires Sound(before) && ForeignKeys(Snapshot())
      requires Touches(before, Snapshot(), Elems(specIds)) && ProjectsCover(before, Snapshot(), Elems(specIds), P)
      requires forall s | s in Elems(specIds) && s in specs :: SpecCached(s, specs[s])
      requires forall p | p in P :: exists s :: s in specIds && s in specs && specs[s].projectId == p
      ensures Committed(before, old(Snapshot()), Snapshot(), Elems(specIds))
    {
      ghost var mutated := Snapshot();
      TouchingMakesStale(before, mutated, Elems(specIds), P);
      Recompute(specIds, generatedAt, Elems(specIds), P);
      assert Elems(specIds) - Elems(specIds) == {};
      CommittedFrom(before, mutated, Snapshot(), Elems(specIds));
    }

    /** The common case: one spec, whose project stays. */
    method CommitOne(s: Id, generatedAt: string, ghost before: Db)
      modifies this`projects, this`specs, this`epics, this`tickets
      requires Sound(before) && ForeignKeys(Snapshot()) && Touches(before, Snapshot(), {s})
      requires s in specs && (s in before.specs ==> before.specs[s].projectId == specs[s].projectId)
      requires SpecCached(s, specs[s])
      ensures Committed(before, old(Snapshot()), Snapshot(), {s})
    {
      assert Elems([s]) == {s};
      Commit([s], generatedAt, before, {specs[s].projectId});
    }

    // -------------------------------------------------------------------------
    // Dependencies
    // -------------------------------------------------------------------------

    /** `list_dependencies` of a spec: the edges that start there. */
    function ListDependencies(s: Id): (edges: seq<Edge>)
      reads this
    {
      TreeSpec.EdgesFrom(Sorted(TicketsOf(Snapshot(), s).Keys), deps)
    }

    /** The tests `add_dependency` makes, in its order. */
    method CheckNewDependency(t: Id, d: Id) returns (e: Option<Error>)
      requires ForeignKeys(Snapshot())
      ensures e == AddDependencyError(Snapshot(), t, d)
    {
      if t == d {
        return Some(ValidationFailed);
      }
      if t !in tickets || d !in tickets {
        return Some(NotFound);
      }
      var s := SpecOfTicket(Snapshot(), t);
      if SpecOfTicket(Snapshot(), d) != s {
        return Some(ValidationFailed);
      }
      var edges := ListDependencies(s);
      ListedEdges(Snapshot(), s);
      EdgeListed(Snapshot(), s, edges, Edge(t, d));
      if Edge(t, d) in edges {
        return Some(Conflict);
      }
      var cycle := CycleGuard.WouldCreateCycle(edges, t, d);
      return if cycle then Some(Conflict) else None;
    }

    method AddDependency(t: Id, d: Id, generatedAt: string) returns (r: Result<TicketRow>)
      modifies this`projects, this`specs, this`epics, this`tickets, this`deps
      requires Sound(Snapshot())
      ensures var db := old(Snapshot());
              var error := AddDependencyError(db, t, d);
              if error.Some? then r == Err(error.value) && Snapshot() == db
              else Committed(db, WithEdge(db, Edge(t, d)), Snapshot(), {SpecOfTicket(db, t)})
                   && t in tickets && r == Ok(tickets[t])
      ensures r.Ok? ==> DepsWritten(old(Snapshot()), old(deps) + {Edge(t, d)}, Snapshot())
    {
      var error := CheckNewDependency(t, d);
      if error.Some? {
        return Err(error.value);
      }
      ghost var before := Snapshot();
      var s := SpecOfTicket(Snapshot(), t);
      deps := deps + {Edge(t, d)};
      EdgeTouches(before, deps, t, d, s);
      CachedWhenSound(before, s);
      CommitOne(s, generatedAt, before);
      ListsKeep(before, WithEdge(before, Edge(t, d)), Snapshot(), {s});
      r := Ok(tickets[t]);
    }

    method RemoveDependency(t: Id, d: Id, generatedAt: string) returns (r: Result<TicketRow>)
      modifies this`projects, this`specs, this`epics, this`tickets, this`deps
      requires Sound(Snapshot())
      ensures var db := old(Snapshot());
              if Edge(t, d) !in db.deps then r == Err(NotFound) && Snapshot() == db
              else Committed(db, WithoutEdge(db, Edge(t, d)), Snapshot(), {SpecOfTicket(db, t)})
                   && t in tickets && r == Ok(tickets[t])
      ensures r.Ok? ==> DepsWritten(old(Snapshot()), old(deps) - {Edge(t, d)}, Snapshot())
    {
      if Edge(t, d) !in deps {
        return Err(NotFound);
      }
      ghost var before := Snapshot();
      var s := SpecOfTicket(Snapshot(), t);
      deps := deps - {Edge(t, d)};
      EdgeTouches(before, deps, t, d, s);
      CachedWhenSound(before, s);
      CommitOne(s, generatedAt, before);
      ListsKeep(before, WithoutEdge(before, Edge(t, d)), Snapshot(), {s});
      r := Ok(tickets[t]);
    }

    /** One item of a batch, with the spec whose ticket gained the edge. */
    method AddItem(e: Edge, ghost before: Db) returns (failure: Option<Error>, gained: set<Id>)
      modifies this`deps
      requires ForeignKeys(before) && tickets == before.tickets && epics == before.epics
      ensures failure == if !Addable(before, e) then Some(ValidationFailed)
                         else if e in old(deps) then Some(Conflict) else None
      ensures gained == if failure.None? then SpecsOfTicket(before, e.src) else {}
      ensures deps == if failure.None? then old(deps) + {e} else old(deps)
    {
      if e.src == e.dst || e.src !in tickets || e.dst !in tickets {
        return Some(ValidationFailed), {};
      }
      if e in deps {
        return Some(Conflict), {};
      }
      deps := deps + {e};
      return None, {epics[tickets[e.src].epicId].specId};
    }

    /** Writes the items that fit, one by one, and remembers the others. */
    method AddItems(items: seq<Edge>)
      returns (affected: set<Id>, failed: seq<DependencyFailure>, added: nat)
      modifies this`deps
      requires ForeignKeys(Snapshot())
      ensures BulkState(deps, affected, failed, added) == BulkRun(old(Snapshot()), items)
    {
      ghost var before := Snapshot();
      affected, failed, added := {}, [], 0;
      for i := 0 to |items|
        invariant BulkState(deps, affected, failed, added) == BulkRun(before, items[..i])
      {
        BulkRunStep(before, items, i);
        var failure, gained := AddItem(items[i], before);
        if failure.Some? {
          failed := failed + [DependencyFailure(items[i], failure.value)];
        } else {
          added := added + 1;
          affected := affected + gained;
        }
      }
      assert items[..|items|] == items;
    }

    method AddEdges(items: seq<Edge>) returns (result: BulkAddResult, affected: set<Id>)
      modifies this`deps
      requires ForeignKeys(Snapshot())
      ensures BulkDone(old(Snapshot()), items, deps, affected, result.failed, result.added)
    {
      BulkRunIsDone(Snapshot(), items);
      var failed, added;
      affected, failed, added := AddItems(items);
      result := BulkAddResult(added, failed);
    }

    /** A batch over the cap is refused outright; otherwise each item stands alone, no
        cycle is looked for, and the worklist runs once over every spec that gained an
        edge. */
    method BulkAddDependencies(items: seq<Edge>, generatedAt: string) returns (r: Result<BulkAddResult>)
      modifies this`projects, this`specs, this`epics, this`tickets, this`deps
      requires Sound(Snapshot())
      ensures var db := old(Snapshot());
              if |items| > MAX_BULK_DEPENDENCIES then r == Err(ValidationFailed) && Snapshot() == db
              else
                && Committed(db, db.(deps := BulkDeps(db, items)), Snapshot(), BulkAffected(db, items))
                && r.Ok? && r.value.failed == BulkFailures(db, items) && r.value.added + |r.value.failed| == |items|
                && |deps| == |db.deps| + r.value.added
      ensures r.Ok? <==> |items| <= 100
      ensures r.Ok? ==> BulkWritten(old(Snapshot()), items, Snapshot())
    {
      if |items| > MAX_BULK_DEPENDENCIES {
        return Err(ValidationFailed);
      }
      ghost var before := Snapshot();
      var result, affected := AddEdges(items);
      BulkTouches(before, items);
      CommitSet(affected, generatedAt, before);
      BulkOutcome(before, items, Snapshot(), affected);
      r := Ok(result);
    }

    method CommitSet(affected: set<Id>, generatedAt: string, ghost before: Db)
      modifies this`projects, this`specs, this`epics, this`tickets
      requires Sound(before) && ForeignKeys(Snapshot()) && Touches(before, Snapshot(), affected)
      requires specs == before.specs && forall s | s in affected :: s in specs
      ensures Committed(before, old(Snapshot()), Snapshot(), affected)
    {
      var ids := Sorted(affected);
      assert Elems(ids) == affected;
      ghost var mutated := Snapshot();
      SomeSpecsStale(before, mutated, affected);
      Recompute(ids, generatedAt, affected, {});
      assert affected - Elems(ids) == {};
      CommittedFrom(before, mutated, Snapshot(), affected);
    }

    // -------------------------------------------------------------------------
    // Create
    // -------------------------------------------------------------------------

    method StoreEpic(e: Id, row: EpicRow)
      modifies this`epics
      ensures Snapshot() == PutEpic(old(Snapshot()), e, row)
    {
      epics := epics[e := row];
    }

    method StoreTicket(t: Id, row: TicketRow)
      modifies this`tickets
      ensures Snapshot() == PutTicket(old(Snapshot()), t, row)
    {
      tickets := tickets[t := row];
    }

    /** An epic row, new or rewritten in its spec, and the worklist. */
    method CommitEpic(e: Id, row: EpicRow, generatedAt: string)
      modifies this`projects, this`specs, this`epics, this`tickets
      requires Sound(Snapshot()) && row.specId in specs && (e in epics ==> epics[e].specId == row.specId)
      ensures Committed(old(Snapshot()), PutEpic(old(Snapshot()), e, row), Snapshot(), {row.specId}) && e in epics
    {
      ghost var before := Snapshot();
      StoreEpic(e, row);
      EpicTouches(before, e, row, row.specId);
      CachedWhenSound(before, row.specId);
      CommitOne(row.specId, generatedAt, before);
    }

    /** A ticket row, new or rewritten in its spec, and the worklist. */
    method CommitTicket(t: Id, row: TicketRow, s: Id, generatedAt: string)
      modifies this`projects, this`specs, this`epics, this`tickets
      requires Sound(Snapshot()) && EpicIn(epics, row.epicId, s) && (t in tickets ==> TicketIn(Snapshot(), t, s))
      ensures Committed(old(Snapshot()), PutTicket(old(Snapshot()), t, row), Snapshot(), {s}) && t in tickets
    {
      ghost var before := Snapshot();
      StoreTicket(t, row);
      assert {s, s} == {s};
      TicketTouches(before, t, row, s, s);
      CachedWhenSound(before, s);
      CommitOne(s, generatedAt, before);
    }

    method CreateSpecification(p: Id, id: Id, title: string, status: SpecStatus, generatedAt: string)
      returns (r: Result<SpecRow>)
      modifies this`projects, this`specs, this`epics, this`tickets
      requires Sound(Snapshot()) && id !in specs
      ensures var db := old(Snapshot());
              var error := CreateSpecificationError(db, p, title);
              if error.Some? then r == Err(error.value) && Snapshot() == db
              else Committed(db, PutSpec(db, id, NewSpec(p, status)), Snapshot(), {id})
                   && id in specs && r == Ok(specs[id])
      ensures r.Ok? ==>
                var db := old(Snapshot());
                SpecWritten(p, id, status, Snapshot()) && Kept(db, Snapshot(), {}, {}, {id}) && SameLists(db, Snapshot())
    {
      var error := CreateSpecificationError(Snapshot(), p, title);
      if error.Some? {
        return Err(error.value);
      }
      ghost var before := Snapshot();
      specs := specs[id := NewSpec(p, status)];
      SpecTouches(before, id, NewSpec(p, status));
      CommitOne(id, generatedAt, before);
      SpecOutcome(before, id, NewSpec(p, status), Snapshot(), {id});
      r := Ok(specs[id]);
    }

    method CreateEpic(s: Id, id: Id, title: string, number: Option<int>, generatedAt: string)
      returns (r: Result<EpicRow>)
      modifies this`projects, this`specs, this`epics, this`tickets
      requires Sound(Snapshot()) && id !in epics
      ensures var db := old(Snapshot());
              var error := CreateEpicError(db, s, title);
              if error.Some? then r == Err(error.value) && Snapshot() == db
              else Committed(db, PutEpic(db, id, NewEpic(db, s, title, number)), Snapshot(), {s})
                   && id in epics && r == Ok(epics[id])
      ensures r.Ok? ==>
                var db := old(Snapshot());
                && EpicCreated(db, s, id, title, number, Snapshot())
                && Kept(db, Snapshot(), {}, {id}, {}) && SameLists(db, Snapshot())
    {
      var error := CreateEpicError(Snapshot(), s, title);
      if error.Some? {
        return Err(error.value);
      }
      ghost var before := Snapshot();
      CommitEpic(id, NewEpic(Snapshot(), s, title, number), generatedAt);
      CreateEpicOutcome(before, s, id, title, number, Snapshot());
      r := Ok(epics[id]);
    }

    method CreateTicket(e: Id, id: Id, title: string, number: Option<int>, estimate: Option<int>, status: Status,
                        generatedAt: string)
      returns (r: Result<TicketRow>)
      modifies this`projects, this`specs, this`epics, this`tickets
      requires Sound(Snapshot()) && id !in tickets
      ensures var db := old(Snapshot());
              var error := CreateTicketError(db, e, title, status);
              if error.Some? then r == Err(error.value) && Snapshot() == db
              else Committed(db, PutTicket(db, id, NewTicket(db, e, title, number, estimate, status)), Snapshot(),
                             {db.epics[e].specId})
                   && id in tickets && r == Ok(tickets[id])
      ensures r.Ok? ==>
                var db := old(Snapshot());
                && TicketCreated(db, e, id, title, number, estimate, status, Snapshot())
                && Kept(db, Snapshot(), {id}, {}, {}) && SameLists(db, Snapshot())
    {
      var error := CreateTicketError(Snapshot(), e, title, status);
      if error.Some? {
        return Err(error.value);
      }
      var row := NewTicket(Snapshot(), e, title, number, estimate, status);
      ghost var before := Snapshot();
      CommitTicket(id, row, epics[e].specId, generatedAt);
      CreateTicketOutcome(before, e, id, title, number, estimate, status, Snapshot());
      r := Ok(tickets[id]);
    }

    method CreateBlueprint(s: Id, id: Id, title: string, generatedAt: string) returns (r: Result<Id>)
      modifies this`projects, this`specs, this`epics, this`tickets, this`blueprints
      requires Sound(Snapshot()) && id !in blueprints
      ensures var db := old(Snapshot());
              var error := CreateEpicError(db, s, title);
              if error.Some? then r == Err(error.value) && Snapshot() == db
              else r == Ok(id) && Committed(db, PutBlueprint(db, id, s), Snapshot(), {s})
      ensures r.Ok? ==> BlueprintWritten(old(Snapshot()), id, s, Snapshot())
    {
      var error := CreateEpicError(Snapshot(), s, title);
      if error.Some? {
        return Err(error.value);
      }
      ghost var before := Snapshot();
      blueprints := blueprints[id := s];
      BlueprintTouches(before, id, s);
      CachedWhenSound(before, s);
      CommitOne(s, generatedAt, before);
      ListsKeep(before, PutBlueprint(before, id, s), Snapshot(), {s});
      r := Ok(id);
    }

    // -------------------------------------------------------------------------
    // Update
    // -------------------------------------------------------------------------

    method UpdateSpecification(s: Id, status: SpecStatus, generatedAt: string) returns (r: Result<SpecRow>)
      modifies this`projects, this`specs, this`epics, this`tickets
      requires Sound(Snapshot())
      ensures var db := old(Snapshot());
              var error := UpdateSpecificationError(db, s);
              if error.Some? then r == Err(error.value) && Snapshot() == db
              else Committed(db, PutSpec(db, s, db.specs[s].(status := status)), Snapshot(), {s})
                   && s in specs && r == Ok(specs[s])
      ensures r.Ok? ==>
                var db := old(Snapshot());
                && s in db.specs && SpecWritten(db.specs[s].projectId, s, status, Snapshot())
                && Kept(db, Snapshot(), {}, {}, {s}) && SameLists(db, Snapshot())
    {
      var error := UpdateSpecificationError(Snapshot(), s);
      if error.Some? {
        return Err(error.value);
      }
      ghost var before := Snapshot();
      CachedWhenSound(before, s);
      specs := specs[s := specs[s].(status := status)];
      SpecTouches(before, s, specs[s]);
      CommitOne(s, generatedAt, before);
      SpecOutcome(before, s, before.specs[s].(status := status), Snapshot(), {s});
      r := Ok(specs[s]);
    }

    method UpdateEpic(e: Id, number: Option<int>, title: Option<string>, generatedAt: string)
      returns (r: Result<EpicRow>)
      modifies this`projects, this`specs, this`epics, this`tickets
      requires Sound(Snapshot())
      ensures var db := old(Snapshot());
              var error := UpdateEpicError(db, e);
              if error.Some? then r == Err(error.value) && Snapshot() == db
              else Committed(db, PutEpic(db, e, Renamed(db.epics[e], number, title)), Snapshot(), {db.epics[e].specId})
                   && e in epics && r == Ok(epics[e])
      ensures r.Ok? ==>
                var db := old(Snapshot());
                && EpicUpdated(db, e, number, title, Snapshot())
                && Kept(db, Snapshot(), {}, {e}, {}) && SameLists(db, Snapshot())
    {
      var error := UpdateEpicError(Snapshot(), e);
      if error.Some? {
        return Err(error.value);
      }
      ghost var before := Snapshot();
      CommitEpic(e, Renamed(epics[e], number, title), generatedAt);
      UpdateEpicOutcome(before, e, number, title, Snapshot(), {before.epics[e].specId});
      r := Ok(epics[e]);
    }

    // -------------------------------------------------------------------------
    // Links
    // -------------------------------------------------------------------------

    /** Nothing stops a link across specs. */
    method LinkBlueprint(link: BlueprintRef, generatedAt: string) returns (r: Result<TicketRow>)
      modifies this`projects, this`specs, this`epics, this`tickets, this`refs
      requires Sound(Snapshot())
      ensures var db := old(Snapshot());
              var error := LinkError(db, link);
              if error.Some? then r == Err(error.value) && Snapshot() == db
              else Committed(db, db.(refs := db.refs + {link}), Snapshot(), {SpecOfTicket(db, link.ticketId)})
                   && link.ticketId in tickets && r == Ok(tickets[link.ticketId])
      ensures r.Ok? ==> RefsWritten(old(Snapshot()), old(refs) + {link}, Snapshot())
    {
      var error := LinkError(Snapshot(), link);
      if error.Some? {
        return Err(error.value);
      }
      ghost var before := Snapshot();
      var s := SpecOfTicket(Snapshot(), link.ticketId);
      refs := refs + {link};
      RefsTouch(before, refs, s);
      CachedWhenSound(before, s);
      CommitOne(s, generatedAt, before);
      ListsKeep(before, before.(refs := before.refs + {link}), Snapshot(), {s});
      r := Ok(tickets[link.ticketId]);
    }

    method UnlinkBlueprint(link: BlueprintRef, generatedAt: string) returns (r: Result<TicketRow>)
      modifies this`projects, this`specs, this`epics, this`tickets, this`refs
      requires Sound(Snapshot())
      ensures var db := old(Snapshot());
              if link !in db.refs then r == Err(NotFound) && Snapshot() == db
              else Committed(db, db.(refs := db.refs - {link}), Snapshot(), {SpecOfTicket(db, link.ticketId)})
                   && link.ticketId in tickets && r == Ok(tickets[link.ticketId])
      ensures r.Ok? ==> RefsWritten(old(Snapshot()), old(refs) - {link}, Snapshot())
    {
      if link !in refs {
        return Err(NotFound);
      }
      ghost var before := Snapshot();
      var s := SpecOfTicket(Snapshot(), link.ticketId);
      refs := refs - {link};
      RefsTouch(before, refs, s);
      CachedWhenSound(before, s);
      CommitOne(s, generatedAt, before);
      ListsKeep(before, before.(refs := before.refs - {link}), Snapshot(), {s});
      r := Ok(tickets[link.ticketId]);
    }

    /** The worklist sees the ticket's old spec only: whatever else the update does, the
        derived columns are all right afterwards exactly when the ticket stays in its spec. */
    method UpdateTicket(t: Id, change: TicketChange, generatedAt: string) returns (r: Result<TicketRow>)
      modifies this`projects, this`specs, this`epics, this`tickets
      requires Sound(Snapshot())
      ensures var db := old(Snapshot());
              var error := UpdateTicketError(db, t, change);
              if error.Some? then r == Err(error.value) && Snapshot() == db
              else
                var row := Changed(db.tickets[t], change);
                && Recomputed(PutTicket(db, t, row), Snapshot(), {SpecOfTicket(db, t)})
                && (Sound(Snapshot()) <==> db.epics[row.epicId].specId == SpecOfTicket(db, t))
                && t in tickets && r == Ok(tickets[t])
      ensures r.Ok? ==> OnlyTicketUpdated(old(Snapshot()), t, change, Snapshot())
    {
      var error := UpdateTicketError(Snapshot(), t, change);
      if error.Some? {
        return Err(error.value);
      }
      ghost var before := Snapshot();
      var s := SpecOfTicket(Snapshot(), t);
      var row := Changed(tickets[t], change);
      ghost var s2 := epics[row.epicId].specId;
      MoveStale(before, t, row, s, s2);
      StoreTicket(t, row);
      assert Elems([s]) == {s};
      Recompute([s], generatedAt, StaleAfter(before, s, s2 == s), {});
      MoveOutcome(before, t, row, s, s2, Snapshot());
      UpdateTicketOutcome(before, t, s, change, Snapshot());
      r := Ok(tickets[t]);
    }

    // -------------------------------------------------------------------------
    // Delete
    // -------------------------------------------------------------------------

    method Store(next: Db)
      modifies this
      ensures Snapshot() == next
    {
      projects, specs, epics, tickets := next.projects, next.specs, next.epics, next.tickets;
      deps, blueprints, refs := next.deps, next.blueprints, next.refs;
    }

    /** Rows of one spec and what the foreign keys take with them, then the worklist. */
    method DropRows(epicIds: set<Id>, ticketIds: set<Id>, blueprintIds: set<Id>, s: Id, generatedAt: string)
      modifies this
      requires Sound(Snapshot()) && DropsWhole(Snapshot(), epicIds, ticketIds)
      requires forall e | e in epicIds :: EpicIn(epics, e, s)
      requires forall t | t in ticketIds :: TicketIn(Snapshot(), t, s)
      requires forall b | b in blueprintIds :: b in blueprints && blueprints[b] == s
      ensures Recomputed(Drop(old(Snapshot()), epicIds, ticketIds, blueprintIds), Snapshot(), {s})
      ensures Sound(Snapshot()) <==> NoForeignLinks(old(Snapshot()), s, blueprintIds)
    {
      ghost var before := Snapshot();
      DropStale(before, epicIds, ticketIds, blueprintIds, s);
      ghost var next := Drop(before, epicIds, ticketIds, blueprintIds);
      Store(Drop(Snapshot(), epicIds, ticketIds, blueprintIds));
      assert Elems([s]) == {s};
      Recompute([s], generatedAt, StaleAfter(before, s, NoForeignLinks(before, s, blueprintIds)), {});
      SameOutside(next, Snapshot(), s);
      DropOutcome(before, epicIds, ticketIds, blueprintIds, s, Snapshot());
    }

    method DeleteTicket(t: Id, generatedAt: string) returns (r: Result<Id>)
      modifies this
      requires Sound(Snapshot())
      ensures Sound(Snapshot())
      ensures var db := old(Snapshot());
              if t !in db.tickets then r == Err(NotFound) && Snapshot() == db
              else r == Ok(t) && Recomputed(Drop(db, {}, {t}, {}), Snapshot(), {SpecOfTicket(db, t)})
      ensures r.Ok? ==> TicketGone(old(Snapshot()), t, Snapshot())
    {
      if t !in tickets {
        return Err(NotFound);
      }
      ghost var before := Snapshot();
      DropRows({}, {t}, {}, SpecOfTicket(Snapshot(), t), generatedAt);
      DropShows(before, {}, {t}, {}, Snapshot(), {SpecOfTicket(before, t)});
      r := Ok(t);
    }

    method DeleteEpic(e: Id, generatedAt: string) returns (r: Result<Id>)
      modifies this
      requires Sound(Snapshot())
      ensures Sound(Snapshot())
      ensures var db := old(Snapshot());
              if e !in db.epics then r == Err(NotFound) && Snapshot() == db
              else r == Ok(e) && Recomputed(Drop(db, {e}, TicketsOfEpic(db, e), {}), Snapshot(), {db.epics[e].specId})
      ensures r.Ok? ==> EpicGone(old(Snapshot()), e, Snapshot())
    {
      if e !in epics {
        return Err(NotFound);
      }
      ghost var before := Snapshot();
      DropRows({e}, TicketsOfEpic(Snapshot(), e), {}, epics[e].specId, generatedAt);
      EpicGoes(before, e, Snapshot(), {before.epics[e].specId});
      r := Ok(e);
    }

    /** Only the blueprint's own spec is recomputed: the derived columns are all right
        afterwards exactly when no ticket of another spec linked it. */
    method DeleteBlueprint(b: Id, generatedAt: string) returns (r: Result<Id>)
      modifies this
      requires Sound(Snapshot())
      ensures var db := old(Snapshot());
              if b !in db.blueprints then r == Err(NotFound) && Snapshot() == db
              else
                && r == Ok(b) && Recomputed(Drop(db, {}, {}, {b}), Snapshot(), {db.blueprints[b]})
                && (Sound(Snapshot()) <==> NoForeignLinks(db, db.blueprints[b], {b}))
      ensures r.Ok? ==> BlueprintGone(old(Snapshot()), b, Snapshot())
    {
      if b !in blueprints {
        return Err(NotFound);
      }
      ghost var before := Snapshot();
      DropRows({}, {}, {b}, blueprints[b], generatedAt);
      DropShows(before, {}, {}, {b}, Snapshot(), {before.blueprints[b]});
      r := Ok(b);
    }

    /** The project is recomputed directly, since its spec is gone; the same exception for
        links from other specs. */
    method DeleteSpecification(s: Id) returns (r: Result<Id>)
      modifies this
      requires Sound(Snapshot())
      ensures var db := old(Snapshot());
              if s !in db.specs then r == Err(NotFound) && Snapshot() == db
              else
                && r == Ok(s) && Recomputed(DropSpec(db, s), Snapshot(), {})
                && (Sound(Snapshot()) <==> NoForeignLinks(db, s, BlueprintIdsOf(db, s)))
      ensures r.Ok? ==> SpecGone(old(Snapshot()), s, Snapshot())
    {
      if s !in specs {
        return Err(NotFound);
      }
      ghost var before := Snapshot();
      ghost var stale := StaleAfter(before, s, NoForeignLinks(before, s, BlueprintIdsOf(before, s))) - {s};
      DropSpecStale(before, s);
      var p := specs[s].projectId;
      Store(DropSpec(Snapshot(), s));
      RecomputeProject(p, stale, {p});
      DropSpecOutcome(before, s, Snapshot());
      SpecGoes(before, s, Snapshot());
      r := Ok(s);
    }
  }
}