/** The mutations one recompute does not cover: a ticket that changes specs, and a
    blueprint that disappears under another spec's links. */
module StaleCases {
  import opened Graph
  import opened Ordering
  import opened Types
  import opened Counts
  import opened TreeSpec
  import opened TreeBuild
  import opened StoredRows
  import opened Recompute
  import opened Rows
  import opened Mutations
  import opened Worklist

  // ---------------------------------------------------------------------------
  // What the counts count
  // ---------------------------------------------------------------------------

  lemma TicketCountIs(specId: Id, spec: SpecRow, view: SpecView)
    ensures SpecConsistent(specId, spec, view) ==> spec.counts.ticketCount == |view.tickets.Keys|
  {
    assert |NodeList(view)| == |TicketIds(view)| == |view.tickets.Keys|;
  }

  lemma RefsOfConcat(a: seq<BlueprintRef>, b: seq<BlueprintRef>, t: Id)
    ensures RefsOf(a + b, t) == RefsOf(a, t) + RefsOf(b, t)
    decreases |b|
  {
    if |b| == 0 {
      assert a + b == a;
    } else {
      assert (a + b)[..|a + b| - 1] == a + b[..|b| - 1];
      RefsOfConcat(a, b[..|b| - 1], t);
    }
  }

  lemma {:induction false} RefsOfOne(v: Id, blueprints: seq<Id>, t: Id)
    ensures RefsOf(ToRefs(v, blueprints), t) == if v == t then |blueprints| else 0
    decreases |blueprints|
  {
    if |blueprints| > 0 {
      var n := |blueprints| - 1;
      RefsOfOne(v, blueprints[..n], t);
      assert ToRefs(v, blueprints)[..n] == ToRefs(v, blueprints[..n]);
    }
  }

  lemma {:induction false} RefsFromCount(ids: seq<Id>, refs: set<BlueprintRef>, t: Id)
    requires StrictlySorted(ids)
    ensures RefsOf(RefsFrom(ids, refs), t) == if t in ids then |BlueprintsOf(refs, t)| else 0
    decreases |ids|
  {
    if |ids| > 0 {
      var init, last := ids[..|ids| - 1], ids[|ids| - 1];
      RefsFromCount(init, refs, t);
      RefsOfConcat(RefsFrom(init, refs), ToRefs(last, Sorted(BlueprintsOf(refs, last))), t);
      RefsOfOne(last, Sorted(BlueprintsOf(refs, last)), t);
      assert forall v :: v in ids <==> v in init || v == last;
      assert last !in init;
    }
  }

  /** A ticket's blueprint count is the number of blueprints it links. */
  lemma BlueprintCountIs(specId: Id, spec: SpecRow, view: SpecView, t: Id)
    requires t in view.tickets
    ensures SpecConsistent(specId, spec, view) ==> view.tickets[t].blueprintCount == |BlueprintsOf(view.refs, t)|
  {
    RefsFromCount(TicketIds(view), view.refs, t);
    if SpecConsistent(specId, spec, view) {
      assert view.tickets[t] == DerivedTicket(view.tickets[t], t, Nodes(view), EdgeRows(view), RefRows(view));
    }
  }

  // ---------------------------------------------------------------------------
  // Moving a ticket to another spec
  // ---------------------------------------------------------------------------

  lemma OneMoreTicket(db: Db, t: Id, row: TicketRow, s2: Id)
    requires EpicIn(db.epics, row.epicId, s2) && !TicketIn(db, t, s2)
    ensures ViewOf(PutTicket(db, t, row), s2).tickets.Keys == ViewOf(db, s2).tickets.Keys + {t}
    ensures t !in ViewOf(db, s2).tickets
  {
    var next := PutTicket(db, t, row);
    assert forall u :: TicketIn(next, u, s2) <==> u == t || TicketIn(db, u, s2);
  }

  /** However `s` is recomputed, the spec the ticket moved to still counts without it. */
  lemma MovedTicketIsMissed(db: Db, t: Id, row: TicketRow, s2: Id, after: Db)
    requires s2 in db.specs && EpicIn(db.epics, row.epicId, s2) && !TicketIn(db, t, s2)
    requires SameSpec(PutTicket(db, t, row), after, s2)
    ensures SpecOk(db, s2) ==> !SpecOk(after, s2)
  {
    var next := PutTicket(db, t, row);
    OneMoreTicket(db, t, row, s2);
    TicketCountIs(s2, db.specs[s2], ViewOf(db, s2));
    if s2 in after.specs {
      TicketCountIs(s2, after.specs[s2], ViewOf(after, s2));
    }
  }

  // ---------------------------------------------------------------------------
  // Dropping a blueprint another spec links
  // ---------------------------------------------------------------------------

  lemma FewerBlueprints(refs: set<BlueprintRef>, fewer: set<BlueprintRef>, r: BlueprintRef)
    requires r in refs && r !in fewer && fewer <= refs
    ensures |BlueprintsOf(fewer, r.ticketId)| < |BlueprintsOf(refs, r.ticketId)|
  {
    var a, b := BlueprintsOf(fewer, r.ticketId), BlueprintsOf(refs, r.ticketId);
    assert r.blueprintId in b;
    forall x | x in a
      ensures x in b && x != r.blueprintId
    {
      var q :| q in fewer && q.ticketId == r.ticketId && q.blueprintId == x;
      assert q != r;
    }
    assert a <= b - {r.blueprintId};
    SubsetAtMost(a, b - {r.blueprintId});
  }

  /** One link of ticket `r.ticketId` is gone and nothing else about the ticket changed. */
  ghost predicate LosesLink(before: SpecView, after: SpecView, r: BlueprintRef) {
    && r in before.refs && r !in after.refs && after.refs <= before.refs
    && r.ticketId in before.tickets && r.ticketId in after.tickets
    && after.tickets[r.ticketId] == before.tickets[r.ticketId]
  }

  lemma LostLinkIsMissed(s: Id, specA: SpecRow, specB: SpecRow, before: SpecView, after: SpecView, r: BlueprintRef)
    requires LosesLink(before, after, r)
    ensures SpecConsistent(s, specA, before) ==> !SpecConsistent(s, specB, after)
  {
    BlueprintCountIs(s, specA, before, r.ticketId);
    FewerBlueprints(before.refs, after.refs, r);
    BlueprintCountIs(s, specB, after, r.ticketId);
  }

  lemma DropLosesLink(db: Db, epics: set<Id>, tickets: set<Id>, blueprints: set<Id>, s: Id, r: BlueprintRef, s2: Id)
    requires forall e | e in epics :: EpicIn(db.epics, e, s)
    requires forall t | t in tickets :: TicketIn(db, t, s)
    requires r in db.refs && r.blueprintId in blueprints && TicketIn(db, r.ticketId, s2) && s2 != s
    ensures LosesLink(ViewOf(db, s2), ViewOf(Drop(db, epics, tickets, blueprints), s2), r)
  {
    var next := Drop(db, epics, tickets, blueprints);
    assert forall t | TicketIn(next, t, s2) :: TicketIn(db, t, s2);
    assert TicketIn(next, r.ticketId, s2);
  }

  /** However `s` is recomputed after the drop, the other spec's ticket still counts the
      link it lost. */
  lemma ForeignLinkIsMissed(db: Db, epics: set<Id>, tickets: set<Id>, blueprints: set<Id>, s: Id, r: BlueprintRef,
                            s2: Id, after: Db)
    requires forall e | e in epics :: EpicIn(db.epics, e, s)
    requires forall t | t in tickets :: TicketIn(db, t, s)
    requires r in db.refs && r.blueprintId in blueprints && TicketIn(db, r.ticketId, s2) && s2 != s
    requires s2 in db.specs && ViewOf(after, s2) == ViewOf(Drop(db, epics, tickets, blueprints), s2)
    requires s2 in after.specs
    ensures SpecOk(db, s2) ==> !SpecOk(after, s2)
  {
    DropLosesLink(db, epics, tickets, blueprints, s, r, s2);
    LostLinkIsMissed(s2, db.specs[s2], after.specs[s2], ViewOf(db, s2), ViewOf(after, s2), r);
  }

  // ---------------------------------------------------------------------------
  // Exactly when one recompute is enough
  // ---------------------------------------------------------------------------

  /** What may be stale after the mutation: `s` alone, or anything. */
  ghost function StaleAfter(db: Db, s: Id, enough: bool): set<Id> {
    if enough then {s} else db.specs.Keys
  }

  lemma OneStaleSpec(db: Db, after: Db, s: Id)
    requires s in db.specs && s in after.specs && (SpecOk(db, s) ==> !SpecOk(after, s))
    ensures Sound(db) ==> !Sound(after)
  {
    assert Sound(db) ==> SpecOk(db, s);
    assert Sound(after) ==> SpecOk(after, s);
  }

  lemma MoveStale(db: Db, t: Id, row: TicketRow, s: Id, s2: Id)
    requires Sound(db) && TicketIn(db, t, s) && EpicIn(db.epics, row.epicId, s2)
    ensures SoundExcept(PutTicket(db, t, row), StaleAfter(db, s, s2 == s), {})
  {
    var next := PutTicket(db, t, row);
    PutKeepsKeys(db, t, row, s2);
    if s2 == s {
      assert {s, s} == {s};
      TicketTouches(db, t, row, s, s);
      SomeSpecsStale(db, next, {s});
    } else {
      AllSpecsStale(db, next);
    }
  }

  lemma PutKeepsKeys(db: Db, t: Id, row: TicketRow, s: Id)
    requires ForeignKeys(db) && EpicIn(db.epics, row.epicId, s)
    ensures ForeignKeys(PutTicket(db, t, row))
  {
  }

  /** A ticket update keeps the database sound if and only if the ticket stays in its spec. */
  lemma MoveOutcome(db: Db, t: Id, row: TicketRow, s: Id, s2: Id, after: Db)
    requires Sound(db) && TicketIn(db, t, s) && EpicIn(db.epics, row.epicId, s2)
    requires Recomputed(PutTicket(db, t, row), after, {s})
    requires SoundExcept(after, StaleAfter(db, s, s2 == s) - {s}, {})
    ensures Sound(after) <==> s2 == s
  {
    if s2 == s {
      NothingStale(db, s, after);
    } else {
      MovedAway(db, t, row, s, s2, after);
    }
  }

  lemma NothingStale(db: Db, s: Id, after: Db)
    requires SoundExcept(after, StaleAfter(db, s, true) - {s}, {})
    ensures Sound(after)
  {
    assert StaleAfter(db, s, true) - {s} == {};
  }

  lemma MovedAway(db: Db, t: Id, row: TicketRow, s: Id, s2: Id, after: Db)
    requires TicketIn(db, t, s) && EpicIn(db.epics, row.epicId, s2) && s2 != s && s2 in db.specs
    requires Recomputed(PutTicket(db, t, row), after, {s})
    ensures Sound(db) ==> !Sound(after)
  {
    assert SameSpec(PutTicket(db, t, row), after, s2);
    MovedTicketIsMissed(db, t, row, s2, after);
    OneStaleSpec(db, after, s2);
  }

  lemma DropStale(db: Db, epics: set<Id>, tickets: set<Id>, blueprints: set<Id>, s: Id)
    requires Sound(db) && DropsWhole(db, epics, tickets)
    requires forall e | e in epics :: EpicIn(db.epics, e, s)
    requires forall t | t in tickets :: TicketIn(db, t, s)
    requires forall b | b in blueprints :: b in db.blueprints && db.blueprints[b] == s
    ensures SoundExcept(Drop(db, epics, tickets, blueprints), StaleAfter(db, s, NoForeignLinks(db, s, blueprints)), {})
  {
    var next := Drop(db, epics, tickets, blueprints);
    DropKeepsKeys(db, epics, tickets, blueprints);
    if NoForeignLinks(db, s, blueprints) {
      DropTouches(db, epics, tickets, blueprints, s);
      SomeSpecsStale(db, next, {s});
    } else {
      AllSpecsStale(db, next);
    }
  }

  lemma SomeForeignLink(db: Db, s: Id, blueprints: set<Id>) returns (r: BlueprintRef, s2: Id)
    requires ForeignKeys(db) && !NoForeignLinks(db, s, blueprints)
    ensures r in db.refs && r.blueprintId in blueprints && TicketIn(db, r.ticketId, s2) && s2 != s && s2 in db.specs
  {
    r :| r in db.refs && r.blueprintId in blueprints && !TicketIn(db, r.ticketId, s);
    s2 := db.epics[db.tickets[r.ticketId].epicId].specId;
  }

  /** A drop keeps the database sound if and only if no other spec's ticket links one of
      the dropped blueprints. */
  lemma DropOutcome(db: Db, epics: set<Id>, tickets: set<Id>, blueprints: set<Id>, s: Id, after: Db)
    requires Sound(db)
    requires forall e | e in epics :: EpicIn(db.epics, e, s)
    requires forall t | t in tickets :: TicketIn(db, t, s)
    requires forall s2 | s2 != s :: ViewOf(after, s2) == ViewOf(Drop(db, epics, tickets, blueprints), s2)
    requires forall s2 | s2 != s && s2 in db.specs :: s2 in after.specs
    requires SoundExcept(after, StaleAfter(db, s, NoForeignLinks(db, s, blueprints)) - {s}, {})
    ensures Sound(after) <==> NoForeignLinks(db, s, blueprints)
  {
    if NoForeignLinks(db, s, blueprints) {
      NothingStale(db, s, after);
    } else {
      var r, s2 := SomeForeignLink(db, s, blueprints);
      ForeignLinkIsMissed(db, epics, tickets, blueprints, s, r, s2, after);
      OneStaleSpec(db, after, s2);
    }
  }

  lemma DropSpecStale(db: Db, s: Id)
    requires Sound(db) && s in db.specs
    ensures var ok := NoForeignLinks(db, s, BlueprintIdsOf(db, s));
            SoundExcept(DropSpec(db, s), StaleAfter(db, s, ok) - {s}, {db.specs[s].projectId})
  {
    var next, p := DropSpec(db, s), db.specs[s].projectId;
    DropSpecWhole(db, s);
    OtherProjectsKeep(db, s, p);
    if NoForeignLinks(db, s, BlueprintIdsOf(db, s)) {
      DropSpecTouches(db, s);
      TouchedSpecs(db, next, {s});
      FewerStale(next, {s}, {p}, {}, {p});
      assert StaleAfter(db, s, true) - {s} == {};
    } else {
      assert next.specs.Keys == db.specs.Keys - {s};
    }
  }

  lemma OtherProjectsKeep(db: Db, s: Id, p: Id)
    requires ProjectsOk(db, {}) && s in db.specs && db.specs[s].projectId == p
    ensures ProjectsOk(DropSpec(db, s), {p})
  {
    var next := DropSpec(db, s);
    forall q | q in next.projects && q != p
      ensures ProjectOk(next, q)
    {
      assert SpecsOf(next.specs, q) == SpecsOf(db.specs, q);
      SpecViewsAgree(next.specs, db.specs, q);
      assert ProjectOk(db, q);
    }
  }

  lemma SameOutside(a: Db, b: Db, s: Id)
    requires Recomputed(a, b, {s})
    ensures forall s2 | s2 != s :: ViewOf(b, s2) == ViewOf(a, s2)
    ensures b.specs.Keys == a.specs.Keys
  {
    forall s2 | s2 != s
      ensures ViewOf(b, s2) == ViewOf(a, s2)
    {
      assert SameSpec(a, b, s2);
    }
  }

  lemma DropSpecViews(db: Db, s: Id, after: Db)
    requires after == DropSpec(db, s).(projects := after.projects)
    ensures forall s2 | s2 != s :: ViewOf(after, s2) == ViewOf(DropSpecRows(db, s), s2)
    ensures forall s2 | s2 != s && s2 in db.specs :: s2 in after.specs
  {
    forall s2 | s2 != s
      ensures ViewOf(after, s2) == ViewOf(DropSpecRows(db, s), s2)
    {
      SameTablesSameView(DropSpec(db, s), after, s2);
      SpecsOutOfView(DropSpecRows(db, s), DropSpec(db, s), s2);
    }
  }

  lemma DropSpecOutcome(db: Db, s: Id, after: Db)
    requires Sound(db) && s in db.specs
    requires after == DropSpec(db, s).(projects := after.projects) && after.projects.Keys == db.projects.Keys
    requires SoundExcept(after, StaleAfter(db, s, NoForeignLinks(db, s, BlueprintIdsOf(db, s))) - {s}, {})
    ensures Sound(after) <==> NoForeignLinks(db, s, BlueprintIdsOf(db, s))
    ensures Recomputed(DropSpec(db, s), after, {})
  {
    ProjectRecomputed(DropSpec(db, s), after);
    DropSpecViews(db, s, after);
    DropOutcome(db, EpicsOf(db, s).Keys, TicketsOf(db, s).Keys, BlueprintIdsOf(db, s), s, after);
  }

  lemma EmptyIsSound(db: Db)
    requires db == Db(db.projects, map[], map[], map[], {}, map[], {})
    requires forall p | p in db.projects :: db.projects[p] == ProjectRow(NO_SPECS)
    ensures Sound(db)
  {
    forall p | p in db.projects
      ensures ProjectOk(db, p)
    {
      assert SpecsOf(db.specs, p) == {};
      assert SpecViews(db.specs, p) == [];
    }
  }
}
