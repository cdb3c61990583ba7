/** The stored counts of a project in a sound database, read off the spec, epic and ticket
    rows under it as sizes of sets of them. */
module ProjectColumns {
  import opened Graph
  import opened Ordering
  import opened Types
  import opened Counts
  import opened StoredRows
  import opened Recompute
  import opened Rows
  import opened StoredColumns

  ghost function SpecsWith(db: Db, p: Id, status: SpecStatus): set<Id> {
    set s | s in db.specs && db.specs[s].projectId == p && db.specs[s].status == status
  }

  ghost predicate UnderProject(db: Db, e: Id, p: Id) {
    e in db.epics && db.epics[e].specId in db.specs && db.specs[db.epics[e].specId].projectId == p
  }

  ghost function EpicsUnder(db: Db, p: Id): set<Id> {
    set e | e in db.epics && UnderProject(db, e, p)
  }

  ghost function TicketsUnder(db: Db, p: Id): set<Id> {
    set t | t in db.tickets && UnderProject(db, db.tickets[t].epicId, p)
  }

  ghost function DoneIn(db: Db, ts: set<Id>): set<Id> {
    set t | t in ts && t in db.tickets && db.tickets[t].status == Done
  }

  ghost function TicketsWithEpic(db: Db, e: Id): set<Id> {
    set t | t in db.tickets && db.tickets[t].epicId == e
  }

  /** The epic has tickets, and at most one in two hundred of them is not done. */
  ghost predicate EpicFinished(db: Db, e: Id) {
    var n := |TicketsWithEpic(db, e)|;
    n > 0 && 200 * (n - |DoneIn(db, TicketsWithEpic(db, e))|) <= n
  }

  ghost function FinishedIn(db: Db, es: set<Id>): set<Id> {
    set e | e in es && EpicFinished(db, e)
  }

  ghost predicate BucketsShow(db: Db, p: Id, c: ProjectCounts) {
    && c.specCount == |set s | s in db.specs && db.specs[s].projectId == p|
    && c.draftSpecs == |SpecsWith(db, p, Draft)| && c.planningSpecs == |SpecsWith(db, p, Planning)|
    && c.readySpecs == |SpecsWith(db, p, SpecReady)| && c.inProgressSpecs == |SpecsWith(db, p, SpecInProgress)|
    && c.inReviewSpecs == |SpecsWith(db, p, ReadyForReview)| + |SpecsWith(db, p, InReview)| + |SpecsWith(db, p, Reviewed)|
    && c.completedSpecs == |SpecsWith(db, p, SpecDone)|
  }

  ghost predicate SumsShow(db: Db, p: Id, c: ProjectCounts) {
    && c.epicCount == |EpicsUnder(db, p)| && c.completedEpics == |FinishedIn(db, EpicsUnder(db, p))|
    && c.ticketCount == |TicketsUnder(db, p)| && c.completed == |DoneIn(db, TicketsUnder(db, p))|
  }

  // ---------------------------------------------------------------------------
  // Buckets
  // ---------------------------------------------------------------------------

  ghost function Listed(specs: map<Id, SpecRow>, ids: seq<Id>, status: SpecStatus): set<Id> {
    set s | s in ids && s in specs && specs[s].status == status
  }

  lemma OneMore(a: set<Id>, b: set<Id>, x: Id, more: bool)
    requires x !in a && forall y :: y in b <==> y in a || (more && y == x)
    ensures |b| == |a| + (if more then 1 else 0)
  {
    assert b == if more then a + {x} else a;
  }

  lemma {:induction false} ListedSizes(specs: map<Id, SpecRow>, ids: seq<Id>, views: seq<SpecCountsView>, status: SpecStatus)
    requires StrictlySorted(ids) && |views| == |ids|
    requires forall i | 0 <= i < |ids| :: ids[i] in specs && views[i].status == specs[ids[i]].status
    ensures CountSpecs(views, status) == |Listed(specs, ids, status)|
    decreases |ids|
  {
    if |ids| == 0 {
      assert Listed(specs, ids, status) == {};
    } else {
      var init, s := ids[..|ids| - 1], ids[|ids| - 1];
      assert ids == init + [s] && s !in init;
      ListedSizes(specs, init, views[..|init|], status);
      OneMore(Listed(specs, init, status), Listed(specs, ids, status), s, specs[s].status == status);
    }
  }

  lemma ViewsAt(specs: map<Id, SpecRow>, p: Id)
    ensures var ids, views := Sorted(SpecsOf(specs, p)), SpecViews(specs, p);
            && StrictlySorted(ids) && |views| == |ids| == |SpecsOf(specs, p)|
            && (forall s :: s in ids <==> s in specs && specs[s].projectId == p)
            && forall i | 0 <= i < |ids| :: ids[i] in specs && views[i] == CountsView(specs[ids[i]])
  {
    var ids := Sorted(SpecsOf(specs, p));
    assert forall s :: s in ids <==> s in Elems(ids);
    forall i | 0 <= i < |ids|
      ensures ids[i] in specs
    {
      assert ids[i] in ids;
    }
    DistinctLength(ids);
  }

  lemma Bucket(db: Db, p: Id, status: SpecStatus)
    ensures CountSpecs(SpecViews(db.specs, p), status) == |SpecsWith(db, p, status)|
  {
    var ids, views := Sorted(SpecsOf(db.specs, p)), SpecViews(db.specs, p);
    ViewsAt(db.specs, p);
    ListedSizes(db.specs, ids, views, status);
    assert Listed(db.specs, ids, status) == SpecsWith(db, p, status);
  }

  lemma OwnSpecs(db: Db, p: Id)
    ensures SpecsOf(db.specs, p) == set s | s in db.specs && db.specs[s].projectId == p
  {
  }

  lemma Buckets(db: Db, p: Id, c: ProjectCounts)
    requires c == ProjectCountsOf(SpecViews(db.specs, p))
    ensures BucketsShow(db, p, c)
  {
    BucketsCountStatuses(SpecViews(db.specs, p));
    SpecBucketsPartition(SpecViews(db.specs, p));
    ViewsAt(db.specs, p);
    OwnSpecs(db, p);
    Bucket(db, p, Draft);
    Bucket(db, p, Planning);
    Bucket(db, p, SpecReady);
    Bucket(db, p, SpecInProgress);
    Bucket(db, p, ReadyForReview);
    Bucket(db, p, InReview);
    Bucket(db, p, Reviewed);
    Bucket(db, p, SpecDone);
  }

  // ---------------------------------------------------------------------------
  // Sums
  // ---------------------------------------------------------------------------

  ghost function PartOf(all: set<Id>, owner: map<Id, Id>, s: Id): set<Id> {
    set x | x in all && x in owner && owner[x] == s
  }

  ghost function PartsOf(all: set<Id>, owner: map<Id, Id>, ids: seq<Id>): set<Id> {
    set x | x in all && x in owner && owner[x] in ids
  }

  lemma OneMorePart(all: set<Id>, owner: map<Id, Id>, init: seq<Id>, s: Id)
    requires s !in init
    ensures |PartsOf(all, owner, init + [s])| == |PartsOf(all, owner, init)| + |PartOf(all, owner, s)|
  {
    assert PartsOf(all, owner, init + [s]) == PartsOf(all, owner, init) + PartOf(all, owner, s);
    assert PartsOf(all, owner, init) !! PartOf(all, owner, s);
  }

  /** Rows split by the spec they belong to add up to the rows. */
  lemma {:induction false} PartsAddUp(all: set<Id>, owner: map<Id, Id>, ids: seq<Id>, views: seq<SpecCountsView>,
                                      f: SpecCountsView -> nat)
    requires StrictlySorted(ids) && |views| == |ids|
    requires forall i | 0 <= i < |ids| :: f(views[i]) == |PartOf(all, owner, ids[i])|
    ensures SumSpecs(views, f) == |PartsOf(all, owner, ids)|
    decreases |ids|
  {
    if |ids| == 0 {
      assert PartsOf(all, owner, ids) == {};
    } else {
      var init, s := ids[..|ids| - 1], ids[|ids| - 1];
      assert ids == init + [s] && s !in init;
      PartsAddUp(all, owner, init, views[..|init|], f);
      OneMorePart(all, owner, init, s);
    }
  }

  ghost function SpecOfEpic(db: Db): map<Id, Id> {
    map e | e in db.epics :: db.epics[e].specId
  }

  ghost function SpecOfTicket(db: Db): map<Id, Id> {
    map t | t in db.tickets && db.tickets[t].epicId in db.epics :: db.epics[db.tickets[t].epicId].specId
  }

  /** The counts of a spec row, from the database's rows. */
  ghost predicate SpecCountsParts(db: Db, s: Id, c: SpecCounts) {
    && c.epicCount == |PartOf(db.epics.Keys, SpecOfEpic(db), s)|
    && c.completedEpics == |PartOf(FinishedIn(db, db.epics.Keys), SpecOfEpic(db), s)|
    && c.ticketCount == |PartOf(db.tickets.Keys, SpecOfTicket(db), s)|
    && c.completed == |PartOf(DoneIn(db, db.tickets.Keys), SpecOfTicket(db), s)|
  }

  lemma ViewTickets(db: Db, s: Id, e: Id)
    requires EpicIn(db.epics, e, s)
    ensures TicketsOfEpic(ViewOf(db, s), e) == TicketsWithEpic(db, e)
    ensures Having(ViewOf(db, s), TicketsOfEpic(ViewOf(db, s), e), Done) == DoneIn(db, TicketsWithEpic(db, e))
  {
  }

  lemma FinishedPart(db: Db, s: Id)
    ensures FinishedEpics(ViewOf(db, s)) == PartOf(FinishedIn(db, db.epics.Keys), SpecOfEpic(db), s)
  {
    forall e
      ensures e in FinishedEpics(ViewOf(db, s)) <==> e in PartOf(FinishedIn(db, db.epics.Keys), SpecOfEpic(db), s)
    {
      if EpicIn(db.epics, e, s) {
        ViewTickets(db, s, e);
      }
    }
  }

  lemma TicketParts(db: Db, s: Id)
    ensures ViewOf(db, s).epics.Keys == PartOf(db.epics.Keys, SpecOfEpic(db), s)
    ensures ViewOf(db, s).tickets.Keys == PartOf(db.tickets.Keys, SpecOfTicket(db), s)
    ensures Having(ViewOf(db, s), ViewOf(db, s).tickets.Keys, Done) == PartOf(DoneIn(db, db.tickets.Keys), SpecOfTicket(db), s)
  {
  }

  lemma SpecParts(db: Db, s: Id)
    requires s in db.specs && SpecColumnsShow(db.specs[s], ViewOf(db, s))
    ensures SpecCountsParts(db, s, db.specs[s].counts)
  {
    FinishedPart(db, s);
    TicketParts(db, s);
  }

  lemma SpecsAreShown(db: Db, s: Id)
    requires Sound(db) && s in db.specs
    ensures SpecColumnsShow(db.specs[s], ViewOf(db, s))
  {
    assert SpecOk(db, s);
    ViewsAreClosed(db, s);
    SpecColumns(s, db.specs[s], ViewOf(db, s));
  }

  lemma UnderParts(db: Db, p: Id, ids: seq<Id>)
    requires forall s :: s in ids <==> s in db.specs && db.specs[s].projectId == p
    ensures PartsOf(db.epics.Keys, SpecOfEpic(db), ids) == EpicsUnder(db, p)
    ensures PartsOf(FinishedIn(db, db.epics.Keys), SpecOfEpic(db), ids) == FinishedIn(db, EpicsUnder(db, p))
    ensures PartsOf(db.tickets.Keys, SpecOfTicket(db), ids) == TicketsUnder(db, p)
    ensures PartsOf(DoneIn(db, db.tickets.Keys), SpecOfTicket(db), ids) == DoneIn(db, TicketsUnder(db, p))
  {
  }

  lemma Sums(db: Db, p: Id, c: ProjectCounts)
    requires c == ProjectCountsOf(SpecViews(db.specs, p))
    requires forall s | s in db.specs && db.specs[s].projectId == p :: SpecCountsParts(db, s, db.specs[s].counts)
    ensures SumsShow(db, p, c)
  {
    var ids, views := Sorted(SpecsOf(db.specs, p)), SpecViews(db.specs, p);
    ViewsAt(db.specs, p);
    forall i | 0 <= i < |ids|
      ensures SpecCountsParts(db, ids[i], db.specs[ids[i]].counts) && views[i] == CountsView(db.specs[ids[i]])
    {
      assert ids[i] in ids;
    }
    ColumnsAreSums(views);
    PartsAddUp(db.epics.Keys, SpecOfEpic(db), ids, views, (v: SpecCountsView) => v.epicCount);
    PartsAddUp(FinishedIn(db, db.epics.Keys), SpecOfEpic(db), ids, views, (v: SpecCountsView) => v.completedEpics);
    PartsAddUp(db.tickets.Keys, SpecOfTicket(db), ids, views, (v: SpecCountsView) => v.ticketCount);
    PartsAddUp(DoneIn(db, db.tickets.Keys), SpecOfTicket(db), ids, views, (v: SpecCountsView) => v.completed);
    UnderParts(db, p, ids);
  }

  lemma ProjectColumns(db: Db, p: Id)
    requires Sound(db) && p in db.projects
    ensures BucketsShow(db, p, db.projects[p].counts) && SumsShow(db, p, db.projects[p].counts)
  {
    assert ProjectOk(db, p);
    forall s | s in db.specs && db.specs[s].projectId == p
      ensures SpecCountsParts(db, s, db.specs[s].counts)
    {
      SpecsAreShown(db, s);
      SpecParts(db, s);
    }
    Buckets(db, p, db.projects[p].counts);
    Sums(db, p, db.projects[p].counts);
  }
}
