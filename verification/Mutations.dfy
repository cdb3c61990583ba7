/** What each CRUD verb writes before the worklist runs, and how little of the database
    that makes stale. */
module Mutations {
  import opened Graph
  import opened Ordering
  import opened Types
  import opened Counts
  import opened StoredRows
  import opened Recompute
  import opened Rows
  import opened TreeSpec

  // ---------------------------------------------------------------------------
  // Staleness
  // ---------------------------------------------------------------------------

  /** The two databases agree on everything spec `s` reads. */
  ghost predicate AgreeOn(db: Db, next: Db, s: Id) {
    && (forall e :: EpicIn(db.epics, e, s) <==> EpicIn(next.epics, e, s))
    && (forall e | EpicIn(db.epics, e, s) :: db.epics[e] == next.epics[e])
    && (forall t :: TicketIn(db, t, s) <==> TicketIn(next, t, s))
    && (forall t | TicketIn(db, t, s) :: db.tickets[t] == next.tickets[t])
    && (forall d: Edge | TicketIn(db, d.src, s) && TicketIn(db, d.dst, s) :: d in db.deps <==> d in next.deps)
    && (forall b :: (b in db.blueprints && db.blueprints[b] == s) <==> (b in next.blueprints && next.blueprints[b] == s))
    && (forall r: BlueprintRef | TicketIn(db, r.ticketId, s) :: r in db.refs <==> r in next.refs)
  }

  lemma AgreeMeansSameView(db: Db, next: Db, s: Id)
    requires AgreeOn(db, next, s)
    ensures ViewOf(next, s) == ViewOf(db, s)
  {
    assert EdgesOf(next, s) == EdgesOf(db, s);
    assert RefsIn(next, s) == RefsIn(db, s);
    assert BlueprintIdsOf(next, s) == BlueprintIdsOf(db, s);
    assert EpicsOf(db, s).Keys == EpicsOf(next, s).Keys;
    MapsAgree(EpicsOf(db, s).Keys, EpicsOf(next, s), EpicsOf(db, s));
    assert TicketsOf(db, s).Keys == TicketsOf(next, s).Keys;
    MapsAgree(TicketsOf(db, s).Keys, TicketsOf(next, s), TicketsOf(db, s));
  }

  /** Only the specs in `S` can tell the two databases apart. */
  ghost predicate Touches(db: Db, next: Db, S: set<Id>) {
    && next.projects == db.projects
    && (forall s {:trigger SameSpec(db, next, s)} | s !in S :: SameSpec(db, next, s))
  }

  lemma AgreeElsewhere(db: Db, next: Db, S: set<Id>)
    requires next.projects == db.projects
    requires forall s | s !in S :: s in db.specs <==> s in next.specs
    requires forall s | s !in S && s in db.specs :: db.specs[s] == next.specs[s]
    requires forall s {:trigger AgreeOn(db, next, s)} | s !in S :: AgreeOn(db, next, s)
    ensures Touches(db, next, S)
  {
    forall s | s !in S
      ensures SameSpec(db, next, s)
    {
      AgreeMeansSameView(db, next, s);
    }
  }

  /** `P` holds the projects of the specs in `S`, before and after. */
  ghost predicate ProjectsCover(db: Db, next: Db, S: set<Id>, P: set<Id>) {
    && (forall s | s in S && s in db.specs :: db.specs[s].projectId in P)
    && (forall s | s in S && s in next.specs :: next.specs[s].projectId in P)
  }

  lemma SpecViewsAgree(a: map<Id, SpecRow>, b: map<Id, SpecRow>, q: Id)
    requires SpecsOf(a, q) == SpecsOf(b, q) && forall s | s in SpecsOf(a, q) :: a[s] == b[s]
    ensures SpecViews(a, q) == SpecViews(b, q)
  {
    var ids := Sorted(SpecsOf(a, q));
    forall i | 0 <= i < |ids|
      ensures ids[i] in SpecsOf(a, q)
    {
      assert ids[i] in Elems(ids);
    }
  }

  lemma OtherProjects(db: Db, next: Db, S: set<Id>, P: set<Id>, q: Id)
    requires ProjectsCover(db, next, S, P) && Touches(db, next, S) && q !in P
    ensures SpecViews(next.specs, q) == SpecViews(db.specs, q)
  {
    forall s
      ensures s in SpecsOf(next.specs, q) <==> s in SpecsOf(db.specs, q)
      ensures s in SpecsOf(db.specs, q) ==> s in next.specs && next.specs[s] == db.specs[s]
    {
      assert s !in S ==> SameSpec(db, next, s);
    }
    SpecViewsAgree(next.specs, db.specs, q);
  }

  lemma TouchedSpecs(db: Db, next: Db, S: set<Id>)
    requires Touches(db, next, S) && SpecsOk(db, {})
    ensures SpecsOk(next, S)
  {
    forall s | s in next.specs && s !in S {
      TouchedSpec(db, next, S, s);
    }
  }

  lemma TouchedSpec(db: Db, next: Db, S: set<Id>, s: Id)
    requires Touches(db, next, S) && SpecsOk(db, {}) && s !in S && s in next.specs
    ensures SpecOk(next, s)
  {
    assert SameSpec(db, next, s);
    SameViewOk(db, next, s);
  }

  lemma TouchedProjects(db: Db, next: Db, S: set<Id>, P: set<Id>)
    requires Touches(db, next, S) && ProjectsCover(db, next, S, P) && ProjectsOk(db, {})
    ensures ProjectsOk(next, P)
  {
    forall q | q in next.projects && q !in P
      ensures ProjectOk(next, q)
    {
      OtherProjects(db, next, S, P, q);
      assert ProjectOk(db, q);
    }
  }

  lemma TouchedCached(db: Db, next: Db, S: set<Id>)
    requires Touches(db, next, S) && TreesCached(db.specs)
    requires forall s | s in S && s in next.specs :: SpecCached(s, next.specs[s])
    ensures TreesCached(next.specs)
  {
    forall s | s in next.specs
      ensures SpecCached(s, next.specs[s])
    {
      assert s !in S ==> SameSpec(db, next, s);
    }
  }

  /** A mutation that only `S` can see leaves only `S` and its projects for the worklist. */
  lemma TouchingMakesStale(db: Db, next: Db, S: set<Id>, P: set<Id>)
    requires Sound(db) && Touches(db, next, S) && ProjectsCover(db, next, S, P) && ForeignKeys(next)
    requires forall s | s in S && s in next.specs :: SpecCached(s, next.specs[s])
    ensures SoundExcept(next, S, P)
  {
    TouchedSpecs(db, next, S);
    TouchedProjects(db, next, S, P);
    TouchedCached(db, next, S);
  }

  // ---------------------------------------------------------------------------
  // Edges and links
  // ---------------------------------------------------------------------------

  /** The edge starts in one of the specs. */
  ghost predicate StartsIn(db: Db, d: Edge, S: set<Id>) {
    exists s :: s in S && TicketIn(db, d.src, s)
  }

  /** Edges that start in `S` are invisible to the other specs, wherever they lead. */
  lemma EdgesTouch(db: Db, deps: set<Edge>, S: set<Id>)
    requires forall d | d in deps && d !in db.deps :: StartsIn(db, d, S)
    requires forall d | d in db.deps && d !in deps :: StartsIn(db, d, S)
    ensures Touches(db, db.(deps := deps), S)
  {
    var next := db.(deps := deps);
    forall s2 | s2 !in S
      ensures AgreeOn(db, next, s2)
    {
      forall d: Edge | TicketIn(db, d.src, s2) && TicketIn(db, d.dst, s2)
        ensures d in db.deps <==> d in next.deps
      {
        assert !StartsIn(db, d, S);
      }
    }
    AgreeElsewhere(db, next, S);
  }

  lemma RefsTouch(db: Db, refs: set<BlueprintRef>, s: Id)
    requires forall r | r in refs && r !in db.refs :: TicketIn(db, r.ticketId, s)
    requires forall r | r in db.refs && r !in refs :: TicketIn(db, r.ticketId, s)
    ensures Touches(db, db.(refs := refs), {s})
  {
    var next := db.(refs := refs);
    forall s2 | s2 != s
      ensures AgreeOn(db, next, s2)
    {
    }
    AgreeElsewhere(db, next, {s});
  }

  // ---------------------------------------------------------------------------
  // Rows
  // ---------------------------------------------------------------------------

  function PutTicket(db: Db, t: Id, row: TicketRow): Db {
    db.(tickets := db.tickets[t := row])
  }

  function PutEpic(db: Db, e: Id, row: EpicRow): Db {
    db.(epics := db.epics[e := row])
  }

  function PutSpec(db: Db, s: Id, row: SpecRow): Db {
    db.(specs := db.specs[s := row])
  }

  function PutBlueprint(db: Db, b: Id, s: Id): Db {
    db.(blueprints := db.blueprints[b := s])
  }

  /** A ticket written under an epic of `s2`, out of `s` if it was anywhere. */
  lemma TicketTouches(db: Db, t: Id, row: TicketRow, s: Id, s2: Id)
    requires EpicIn(db.epics, row.epicId, s2) && (t in db.tickets ==> TicketIn(db, t, s))
    ensures Touches(db, PutTicket(db, t, row), {s, s2})
  {
    var next := PutTicket(db, t, row);
    forall s3 | s3 !in {s, s2}
      ensures AgreeOn(db, next, s3)
    {
      assert forall u :: TicketIn(db, u, s3) <==> TicketIn(next, u, s3);
    }
    AgreeElsewhere(db, next, {s, s2});
  }

  lemma EpicTouches(db: Db, e: Id, row: EpicRow, s: Id)
    requires row.specId == s && (e in db.epics ==> db.epics[e].specId == s)
    requires forall t | t in db.tickets :: db.tickets[t].epicId in db.epics
    ensures Touches(db, PutEpic(db, e, row), {s})
  {
    var next := PutEpic(db, e, row);
    forall s2 | s2 != s
      ensures AgreeOn(db, next, s2)
    {
      assert forall u :: TicketIn(db, u, s2) <==> TicketIn(next, u, s2);
    }
    AgreeElsewhere(db, next, {s});
  }

  lemma SpecTouches(db: Db, s: Id, row: SpecRow)
    ensures Touches(db, PutSpec(db, s, row), {s})
  {
    var next := PutSpec(db, s, row);
    forall s2 | s2 != s
      ensures AgreeOn(db, next, s2)
    {
      assert forall u :: TicketIn(db, u, s2) <==> TicketIn(next, u, s2);
    }
    AgreeElsewhere(db, next, {s});
  }

  lemma BlueprintTouches(db: Db, b: Id, s: Id)
    requires b in db.blueprints ==> db.blueprints[b] == s
    ensures Touches(db, PutBlueprint(db, b, s), {s})
  {
    var next := PutBlueprint(db, b, s);
    forall s2 | s2 != s
      ensures AgreeOn(db, next, s2)
    {
      assert forall u :: TicketIn(db, u, s2) <==> TicketIn(next, u, s2);
    }
    AgreeElsewhere(db, next, {s});
  }

  // ---------------------------------------------------------------------------
  // Deletes
  // ---------------------------------------------------------------------------

  /** Rows go, and with them every edge and link that names one of them
      (`ON DELETE CASCADE`). */
  function Drop(db: Db, epics: set<Id>, tickets: set<Id>, blueprints: set<Id>): Db {
    db.(epics := db.epics - epics,
        tickets := db.tickets - tickets,
        deps := (set d | d in db.deps && d.src !in tickets && d.dst !in tickets),
        blueprints := db.blueprints - blueprints,
        refs := (set r | r in db.refs && r.ticketId !in tickets && r.blueprintId !in blueprints))
  }

  /** The rows that hang off the dropped ones are dropped too. */
  ghost predicate DropsWhole(db: Db, epics: set<Id>, tickets: set<Id>) {
    forall t | t in db.tickets && db.tickets[t].epicId in epics :: t in tickets
  }

  lemma DropKeepsKeys(db: Db, epics: set<Id>, tickets: set<Id>, blueprints: set<Id>)
    requires ForeignKeys(db) && DropsWhole(db, epics, tickets)
    ensures ForeignKeys(Drop(db, epics, tickets, blueprints))
  {
  }

  /** Links from other specs' tickets to the dropped blueprints. */
  ghost predicate NoForeignLinks(db: Db, s: Id, blueprints: set<Id>) {
    forall r | r in db.refs && r.blueprintId in blueprints :: TicketIn(db, r.ticketId, s)
  }

  lemma DropTouches(db: Db, epics: set<Id>, tickets: set<Id>, blueprints: set<Id>, s: Id)
    requires DropsWhole(db, epics, tickets) && NoForeignLinks(db, s, blueprints)
    requires forall e | e in epics :: EpicIn(db.epics, e, s)
    requires forall t | t in tickets :: TicketIn(db, t, s)
    requires forall b | b in blueprints :: b in db.blueprints && db.blueprints[b] == s
    ensures Touches(db, Drop(db, epics, tickets, blueprints), {s})
  {
    var next := Drop(db, epics, tickets, blueprints);
    forall s2 | s2 != s
      ensures AgreeOn(db, next, s2)
    {
      DropAgrees(db, epics, tickets, blueprints, s, s2);
    }
    AgreeElsewhere(db, next, {s});
  }

  lemma DropAgrees(db: Db, epics: set<Id>, tickets: set<Id>, blueprints: set<Id>, s: Id, s2: Id)
    requires DropsWhole(db, epics, tickets) && NoForeignLinks(db, s, blueprints) && s2 != s
    requires forall e | e in epics :: EpicIn(db.epics, e, s)
    requires forall t | t in tickets :: TicketIn(db, t, s)
    requires forall b | b in blueprints :: b in db.blueprints && db.blueprints[b] == s
    ensures AgreeOn(db, Drop(db, epics, tickets, blueprints), s2)
  {
    var next := Drop(db, epics, tickets, blueprints);
    forall t
      ensures TicketIn(db, t, s2) <==> TicketIn(next, t, s2)
      ensures TicketIn(db, t, s2) ==> t !in tickets && db.tickets[t] == next.tickets[t]
    {
    }
  }

  lemma DropSpecTouches(db: Db, s: Id)
    requires ForeignKeys(db) && NoForeignLinks(db, s, BlueprintIdsOf(db, s))
    ensures Touches(db, DropSpec(db, s), {s})
  {
    DropSpecWhole(db, s);
    DropTouches(db, EpicsOf(db, s).Keys, TicketsOf(db, s).Keys, BlueprintIdsOf(db, s), s);
    forall s2 | s2 != s
      ensures SameSpec(db, DropSpec(db, s), s2)
    {
      assert SameSpec(db, DropSpecRows(db, s), s2);
      SpecsOutOfView(DropSpecRows(db, s), DropSpec(db, s), s2);
    }
  }

  function DropSpecRows(db: Db, s: Id): Db {
    Drop(db, EpicsOf(db, s).Keys, TicketsOf(db, s).Keys, BlueprintIdsOf(db, s))
  }

  /** The spec and its whole subtree go. */
  function DropSpec(db: Db, s: Id): Db {
    DropSpecRows(db, s).(specs := db.specs - {s})
  }

  lemma DropSpecWhole(db: Db, s: Id)
    requires ForeignKeys(db)
    ensures DropsWhole(db, EpicsOf(db, s).Keys, TicketsOf(db, s).Keys) && ForeignKeys(DropSpec(db, s))
  {
    DropKeepsKeys(db, EpicsOf(db, s).Keys, TicketsOf(db, s).Keys, BlueprintIdsOf(db, s));
  }

  lemma SpecsOutOfView(db: Db, next: Db, s: Id)
    requires next == db.(specs := next.specs)
    ensures ViewOf(next, s) == ViewOf(db, s)
  {
    assert forall t :: TicketIn(next, t, s) <==> TicketIn(db, t, s);
  }

  /** When no spec row changes, no project can be stale. */
  lemma AllSpecsStale(db: Db, next: Db)
    requires Sound(db) && next.projects == db.projects && next.specs == db.specs && ForeignKeys(next)
    ensures SoundExcept(next, next.specs.Keys, {})
  {
    ProjectsStay(db, next);
  }

  lemma ProjectsStay(db: Db, next: Db)
    requires ProjectsOk(db, {}) && next.projects == db.projects && next.specs == db.specs
    ensures ProjectsOk(next, {})
  {
    forall p | p in next.projects
      ensures ProjectOk(next, p)
    {
      assert ProjectOk(db, p);
    }
  }

  lemma SomeSpecsStale(db: Db, next: Db, S: set<Id>)
    requires Sound(db) && Touches(db, next, S) && next.specs == db.specs && ForeignKeys(next)
    ensures SoundExcept(next, S, {})
  {
    ProjectsStay(db, next);
    TouchedSpecs(db, next, S);
  }
}
