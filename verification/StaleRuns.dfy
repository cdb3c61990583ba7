/** Runs of the verbs, from an empty database, that end with a derived column wrong. */
module StaleRuns {
  import opened Graph
  import opened Types
  import opened Counts
  import opened StoredRows
  import opened Recompute
  import opened Rows
  import opened Mutations
  import opened Worklist
  import opened CrudTypes
  import opened Verbs
  import opened Database

  /** Which rows there are: each epic, ticket and blueprint with the row it belongs to. */
  datatype Shape = Shape(specs: set<Id>, epics: map<Id, Id>, tickets: map<Id, Id>, blueprints: map<Id, Id>,
                         refs: set<BlueprintRef>)

  /** The database has these rows, under project 1, and every spec is a draft. */
  ghost predicate Stage(db: Db, shape: Shape) {
    && 1 in db.projects
    && db.specs.Keys == shape.specs && (forall s | s in shape.specs :: db.specs[s].status == Draft)
    && db.epics.Keys == shape.epics.Keys && (forall e | e in shape.epics :: db.epics[e].specId == shape.epics[e])
    && db.tickets.Keys == shape.tickets.Keys && (forall t | t in shape.tickets :: db.tickets[t].epicId == shape.tickets[t])
    && db.blueprints == shape.blueprints && db.refs == shape.refs
  }

  lemma StageStays(db: Db, after: Db, shape: Shape)
    requires Stage(db, shape) && SameTables(db, after)
    ensures Stage(after, shape)
  {
    forall e | e in shape.epics
      ensures after.epics[e].specId == shape.epics[e]
    {
      assert SameEpic(db.epics[e], after.epics[e]);
    }
    forall t | t in shape.tickets
      ensures after.tickets[t].epicId == shape.tickets[t]
    {
      assert SameTicket(db.tickets[t], after.tickets[t]);
    }
  }

  const TITLE := "A"

  lemma TitleCounts()
    ensures Trim(TITLE) != ""
  {
    TrimEmptyIff(TITLE);
    assert !Blank(TITLE[0]);
  }

  // ---------------------------------------------------------------------------
  // One step of a run
  // ---------------------------------------------------------------------------

  function PlusSpec(shape: Shape, id: Id): Shape {
    shape.(specs := shape.specs + {id})
  }

  function PlusEpic(shape: Shape, s: Id, id: Id): Shape {
    shape.(epics := shape.epics[id := s])
  }

  function PlusTicket(shape: Shape, e: Id, id: Id): Shape {
    shape.(tickets := shape.tickets[id := e])
  }

  function PlusBlueprint(shape: Shape, s: Id, id: Id): Shape {
    shape.(blueprints := shape.blueprints[id := s])
  }

  function PlusLink(shape: Shape, link: BlueprintRef): Shape {
    shape.(refs := shape.refs + {link})
  }

  lemma SpecAdded(db: Db, after: Db, shape: Shape, id: Id)
    requires Stage(db, shape) && SameTables(PutSpec(db, id, NewSpec(1, Draft)), after)
    ensures Stage(after, PlusSpec(shape, id))
  {
    StageStays(PutSpec(db, id, NewSpec(1, Draft)), after, PlusSpec(shape, id));
  }

  lemma EpicAdded(db: Db, after: Db, shape: Shape, s: Id, id: Id, row: EpicRow)
    requires Stage(db, shape) && row.specId == s && SameTables(PutEpic(db, id, row), after)
    ensures Stage(after, PlusEpic(shape, s, id))
  {
    StageStays(PutEpic(db, id, row), after, PlusEpic(shape, s, id));
  }

  lemma TicketPut(db: Db, shape: Shape, e: Id, id: Id, row: TicketRow)
    requires Stage(db, shape) && row.epicId == e
    ensures Stage(PutTicket(db, id, row), PlusTicket(shape, e, id))
  {
    var next := PutTicket(db, id, row);
    assert next.tickets.Keys == db.tickets.Keys + {id};
  }

  lemma TicketAdded(db: Db, after: Db, shape: Shape, e: Id, id: Id, row: TicketRow)
    requires Stage(db, shape) && row.epicId == e && SameTables(PutTicket(db, id, row), after)
    ensures Stage(after, PlusTicket(shape, e, id))
  {
    TicketPut(db, shape, e, id, row);
    StageStays(PutTicket(db, id, row), after, PlusTicket(shape, e, id));
  }

  lemma TicketAccepted(db: Db, e: Id, shape: Shape)
    requires Stage(db, shape) && ForeignKeys(db) && e in shape.epics
    ensures CreateTicketError(db, e, TITLE, Pending) == None
  {
    TitleCounts();
    assert db.epics[e].specId in db.specs;
  }

  method AddSpecification(d: Database, id: Id, ghost shape: Shape)
    modifies d
    requires Sound(d.Snapshot()) && Stage(d.Snapshot(), shape) && id !in shape.specs
    ensures Sound(d.Snapshot()) && Stage(d.Snapshot(), PlusSpec(shape, id))
  {
    ghost var before := d.Snapshot();
    TitleCounts();
    var r := d.CreateSpecification(1, id, TITLE, Draft, "");
    SpecAdded(before, d.Snapshot(), shape, id);
  }

  method AddEpic(d: Database, s: Id, id: Id, ghost shape: Shape)
    modifies d
    requires Sound(d.Snapshot()) && Stage(d.Snapshot(), shape) && s in shape.specs && id !in shape.epics
    ensures Sound(d.Snapshot()) && Stage(d.Snapshot(), PlusEpic(shape, s, id))
  {
    ghost var before := d.Snapshot();
    TitleCounts();
    var r := d.CreateEpic(s, id, TITLE, None, "");
    EpicAdded(before, d.Snapshot(), shape, s, id, NewEpic(before, s, TITLE, None));
  }

  method AddTicket(d: Database, e: Id, id: Id, ghost shape: Shape)
    modifies d
    requires Sound(d.Snapshot()) && Stage(d.Snapshot(), shape) && e in shape.epics && id !in shape.tickets
    ensures Sound(d.Snapshot()) && Stage(d.Snapshot(), PlusTicket(shape, e, id))
  {
    ghost var before := d.Snapshot();
    TicketAccepted(before, e, shape);
    var r := d.CreateTicket(e, id, TITLE, None, None, Pending, "");
    TicketAdded(before, d.Snapshot(), shape, e, id, NewTicket(before, e, TITLE, None, None, Pending));
  }

  method AddBlueprint(d: Database, s: Id, id: Id, ghost shape: Shape)
    modifies d
    requires Sound(d.Snapshot()) && Stage(d.Snapshot(), shape) && s in shape.specs && id !in shape.blueprints
    ensures Sound(d.Snapshot()) && Stage(d.Snapshot(), PlusBlueprint(shape, s, id))
  {
    ghost var before := d.Snapshot();
    TitleCounts();
    var r := d.CreateBlueprint(s, id, TITLE, "");
    StageStays(PutBlueprint(before, id, s), d.Snapshot(), PlusBlueprint(shape, s, id));
  }

  method AddLink(d: Database, link: BlueprintRef, ghost shape: Shape)
    modifies d
    requires Sound(d.Snapshot()) && Stage(d.Snapshot(), shape)
    requires link.ticketId in shape.tickets && link.blueprintId in shape.blueprints && link !in shape.refs
    ensures Sound(d.Snapshot()) && Stage(d.Snapshot(), PlusLink(shape, link))
  {
    ghost var before := d.Snapshot();
    var r := d.LinkBlueprint(link, "");
    StageStays(before.(refs := before.refs + {link}), d.Snapshot(), PlusLink(shape, link));
  }

  // ---------------------------------------------------------------------------
  // Runs
  // ---------------------------------------------------------------------------

  const NO_ROWS := Shape({}, map[], map[], map[], {})

  const DRAFTS := Shape({10, 20}, map[], map[], map[], {})

  const EPICS := Shape({10, 20}, map[11 := 10, 21 := 20], map[], map[], {})

  /** Specs 10 and 20 with epics 11 and 21; ticket 12 in the first. */
  const TWO_SPECS := Shape({10, 20}, map[11 := 10, 21 := 20], map[12 := 11], map[], {})

  /** Blueprint 23 of the second spec, linked from the first spec's ticket. */
  const LINKED := Shape({10, 20}, map[11 := 10, 21 := 20], map[12 := 11], map[23 := 20], {BlueprintRef(12, 23)})

  lemma DraftsAreTwo()
    ensures PlusSpec(PlusSpec(NO_ROWS, 10), 20) == DRAFTS
  {
  }

  lemma EpicsAreTwo()
    ensures PlusEpic(PlusEpic(DRAFTS, 10, 11), 20, 21) == EPICS
  {
  }

  lemma TicketMakesTwoSpecs()
    ensures PlusTicket(EPICS, 11, 12) == TWO_SPECS
  {
  }

  lemma BlueprintAndLinkAreLinked()
    ensures PlusLink(PlusBlueprint(TWO_SPECS, 20, 23), BlueprintRef(12, 23)) == LINKED
  {
  }

  method StartDrafts() returns (d: Database)
    ensures fresh(d) && Sound(d.Snapshot()) && Stage(d.Snapshot(), DRAFTS)
  {
    d := new Database({1});
    AddSpecification(d, 10, NO_ROWS);
    AddSpecification(d, 20, PlusSpec(NO_ROWS, 10));
    DraftsAreTwo();
  }

  method StartEpics() returns (d: Database)
    ensures fresh(d) && Sound(d.Snapshot()) && Stage(d.Snapshot(), EPICS)
  {
    d := StartDrafts();
    AddEpic(d, 10, 11, DRAFTS);
    AddEpic(d, 20, 21, PlusEpic(DRAFTS, 10, 11));
    EpicsAreTwo();
  }

  method StartTwoSpecs() returns (d: Database)
    ensures fresh(d) && Sound(d.Snapshot()) && Stage(d.Snapshot(), TWO_SPECS)
  {
    d := StartEpics();
    AddTicket(d, 11, 12, EPICS);
    TicketMakesTwoSpecs();
  }

  method StartLinked() returns (d: Database)
    ensures fresh(d) && Sound(d.Snapshot()) && Stage(d.Snapshot(), LINKED)
  {
    d := StartTwoSpecs();
    AddBlueprint(d, 20, 23, TWO_SPECS);
    AddLink(d, BlueprintRef(12, 23), PlusBlueprint(TWO_SPECS, 20, 23));
    BlueprintAndLinkAreLinked();
  }

  lemma MoveAccepted(db: Db)
    requires Stage(db, TWO_SPECS) && ForeignKeys(db)
    ensures UpdateTicketError(db, 12, TicketChange(Some(21), None, None, None, None)) == None
    ensures SpecOfTicket(db, 12) == 10 && db.epics[21].specId == 20
  {
    assert db.tickets[12].epicId == 11 && db.epics[11].specId == 10 && db.epics[21].specId == 20;
  }

  /** A ticket moved to another spec's epic: accepted, and that spec's counts are stale. */
  method MoveTicketRun() returns (d: Database, r: Result<TicketRow>)
    ensures fresh(d) && r.Ok? && !Sound(d.Snapshot())
  {
    d := StartTwoSpecs();
    MoveAccepted(d.Snapshot());
    r := d.UpdateTicket(12, TicketChange(Some(21), None, None, None, None), "");
  }

  lemma LinkedFromElsewhere(db: Db, blueprints: set<Id>)
    requires Stage(db, LINKED) && 23 in blueprints
    ensures !NoForeignLinks(db, 20, blueprints)
  {
    assert BlueprintRef(12, 23) in db.refs && !TicketIn(db, 12, 20);
  }

  /** That blueprint deleted: the ticket still counts the link. */
  method DeleteBlueprintRun() returns (d: Database, r: Result<Id>)
    ensures fresh(d) && r.Ok? && !Sound(d.Snapshot())
  {
    d := StartLinked();
    LinkedFromElsewhere(d.Snapshot(), {23});
    r := d.DeleteBlueprint(23, "");
  }

  /** The whole second spec deleted: the same. */
  method DeleteSpecificationRun() returns (d: Database, r: Result<Id>)
    ensures fresh(d) && r.Ok? && !Sound(d.Snapshot())
  {
    d := StartLinked();
    LinkedFromElsewhere(d.Snapshot(), BlueprintIdsOf(d.Snapshot(), 20));
    r := d.DeleteSpecification(20);
  }
}
