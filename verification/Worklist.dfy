/** What the recompute worklist does to a snapshot, step by step. */
module Worklist {
  import opened Graph
  import opened Ordering
  import opened Types
  import opened StatusCalculator
  import opened Counts
  import opened TreeSpec
  import opened StoredRows
  import opened Recompute
  import opened Rows
  import opened Mutations

  /** The statuses of one spec are settled, and nothing else about them changed. */
  ghost predicate Settles(before: Db, after: Db, s: Id) {
    Statuses(ViewOf(after, s)) == Settled(Statuses(ViewOf(before, s)), EdgesOf(before, s))
  }

  /** What recomputing some specs does to a snapshot: their statuses settle, the source
      columns stay, and every other spec is as it was. */
  ghost predicate Recomputed(before: Db, after: Db, S: set<Id>) {
    && SameTables(before, after)
    && (forall s {:trigger Settles(before, after, s)} | s in S && s in before.specs :: Settles(before, after, s))
    && (forall s {:trigger SameSpec(before, after, s)} | s !in S :: SameSpec(before, after, s))
  }

  lemma MergedTables(db: Db, s: Id, spec: SpecRow, view: SpecView)
    requires Rewrites(db, s, spec, view) && spec.status == db.specs[s].status
    requires Statuses(view) == Settled(Statuses(ViewOf(db, s)), EdgesOf(db, s))
    requires ForeignKeys(db)
    ensures Recomputed(db, Merge(db, s, spec, view), {s})
  {
    var next := Merge(db, s, spec, view);
    MergedOwn(db, s, spec, view);
    MergedKeys(db, s, spec, view);
    forall s2 | s2 != s
      ensures SameSpec(db, next, s2)
    {
      MergedOther(db, s, spec, view, s2);
    }
    MergedSame(db, s, spec, view);
    assert Settles(db, next, s);
  }

  lemma MergedSame(db: Db, s: Id, spec: SpecRow, view: SpecView)
    requires Rewrites(db, s, spec, view) && spec.status == db.specs[s].status && ForeignKeys(db)
    ensures SameTables(db, Merge(db, s, spec, view))
  {
    var next := Merge(db, s, spec, view);
    MergedKeys(db, s, spec, view);
    forall t | t in db.tickets
      ensures SameTicket(db.tickets[t], next.tickets[t])
    {
      MergedTickets(db, s, spec, view, t, s);
      if TicketIn(db, t, s) {
        assert SameTicket(view.tickets[t], ViewOf(db, s).tickets[t]);
      }
    }
    forall e | e in db.epics
      ensures SameEpic(db.epics[e], next.epics[e])
    {
      MergedEpics(db, s, spec, view, e, s);
      if EpicIn(db.epics, e, s) {
        assert SameEpic(view.epics[e], ViewOf(db, s).epics[e]);
      }
    }
  }

  lemma MergeNothing(db: Db, s: Id)
    requires s in db.specs
    ensures Merge(db, s, db.specs[s], ViewOf(db, s)) == db
  {
    var next := Merge(db, s, db.specs[s], ViewOf(db, s));
    assert next.epics == db.epics;
    assert next.tickets == db.tickets;
    assert next.specs == db.specs;
  }

  lemma WrittenBack(db: Db, s: Id, spec: SpecRow, view: SpecView, stale: set<Id>, staleProjects: set<Id>)
    requires SoundExcept(db, stale, staleProjects)
    requires Rewrites(db, s, spec, view) && spec.status == db.specs[s].status && SpecConsistent(s, spec, view)
    requires Statuses(view) == Settled(Statuses(ViewOf(db, s)), EdgesOf(db, s))
    requires SpecConsistent(s, db.specs[s], ViewOf(db, s)) ==> spec == db.specs[s] && view == ViewOf(db, s)
    ensures SoundExcept(Merge(db, s, spec, view), stale - {s}, staleProjects + {spec.projectId})
    ensures Recomputed(db, Merge(db, s, spec, view), {s})
    ensures SpecOk(db, s) ==> Merge(db, s, spec, view) == db
  {
    MergedSound(db, s, spec, view, stale, staleProjects);
    MergedTables(db, s, spec, view);
    if SpecOk(db, s) {
      MergeNothing(db, s);
    }
  }

  lemma SameViewStays(a: Db, b: Db, c: Db, s: Id)
    requires SameSpec(a, b, s) && SameSpec(b, c, s)
    ensures SameSpec(a, c, s)
  {
  }

  lemma SettlesStays(a: Db, b: Db, c: Db, s: Id)
    ensures Settles(a, b, s) && SameSpec(b, c, s) ==> Settles(a, c, s)
    ensures SameSpec(a, b, s) && Settles(b, c, s) ==> Settles(a, c, s)
  {
    assert ViewOf(a, s).edges == EdgesOf(a, s) && ViewOf(b, s).edges == EdgesOf(b, s);
  }

  lemma SameTablesStay(a: Db, b: Db, c: Db)
    requires SameTables(a, b) && SameTables(b, c)
    ensures SameTables(a, c)
  {
  }

  /** Recomputing disjoint sets of specs one after the other. */
  lemma RecomputedBoth(a: Db, b: Db, c: Db, S: set<Id>, T: set<Id>)
    requires Recomputed(a, b, S) && Recomputed(b, c, T) && S !! T
    ensures Recomputed(a, c, S + T)
  {
    SameTablesStay(a, b, c);
    forall s | s in S + T && s in a.specs
      ensures Settles(a, c, s)
    {
      SettlesStays(a, b, c, s);
      if s in S {
        assert Settles(a, b, s) && SameSpec(b, c, s);
      } else {
        assert SameSpec(a, b, s) && Settles(b, c, s);
      }
    }
    forall s | s !in S + T {
      SameViewStays(a, b, c, s);
    }
  }

  lemma SameSpecItself(db: Db, s: Id)
    ensures SameSpec(db, db, s)
  {
  }

  lemma NothingRecomputed(db: Db, S: set<Id>)
    requires forall s | s in S :: s !in db.specs
    ensures Recomputed(db, db, S)
  {
    forall s {
      SameSpecItself(db, s);
    }
  }

  lemma ProjectRecomputed(a: Db, b: Db)
    requires b == a.(projects := b.projects) && a.projects.Keys == b.projects.Keys
    ensures Recomputed(a, b, {})
  {
    forall s
      ensures SameSpec(a, b, s)
    {
      SameTablesSameView(a, b, s);
    }
  }

  /** How far the worklist has come. */
  ghost predicate Progress(before: Db, now: Db, seen: set<Id>, projectIds: set<Id>, stale: set<Id>, staleProjects: set<Id>) {
    && SoundExcept(now, stale - seen, staleProjects + projectIds)
    && Recomputed(before, now, seen) && now.projects == before.projects
    && (forall s | s in seen && s in now.specs :: now.specs[s].projectId in projectIds)
    && (SpecsOk(before, {}) ==> now == before)
  }

  lemma ProgressStep(before: Db, middle: Db, now: Db, seen: set<Id>, projectIds: set<Id>, s: Id,
                     stale: set<Id>, staleProjects: set<Id>)
    requires Progress(before, middle, seen, projectIds, stale, staleProjects) && s !in seen
    requires s in middle.specs && s in now.specs && now.projects == middle.projects
    requires SoundExcept(now, (stale - seen) - {s}, staleProjects + projectIds + {now.specs[s].projectId})
    requires Recomputed(middle, now, {s})
    requires SpecOk(middle, s) ==> now == middle
    ensures Progress(before, now, seen + {s}, projectIds + {now.specs[s].projectId}, stale, staleProjects)
  {
    RecomputedBoth(before, middle, now, seen, {s});
    assert stale - (seen + {s}) == (stale - seen) - {s};
    assert staleProjects + (projectIds + {now.specs[s].projectId}) == staleProjects + projectIds + {now.specs[s].projectId};
    if SpecsOk(before, {}) {
      assert SpecOk(before, s);
    }
  }

  lemma ProgressSkip(before: Db, now: Db, seen: set<Id>, projectIds: set<Id>, s: Id,
                     stale: set<Id>, staleProjects: set<Id>)
    requires Progress(before, now, seen, projectIds, stale, staleProjects) && s !in seen && s !in now.specs
    ensures Progress(before, now, seen + {s}, projectIds, stale, staleProjects)
  {
    NothingRecomputed(now, {s});
    RecomputedBoth(before, now, now, seen, {s});
    FewerStale(now, stale - seen, staleProjects + projectIds, stale - (seen + {s}), staleProjects + projectIds);
  }

  lemma NothingLeft(before: Db, now: Db, specIds: seq<Id>, projectIds: set<Id>, stale: set<Id>, staleProjects: set<Id>)
    requires Progress(before, now, Elems(specIds), projectIds, stale, staleProjects)
    requires forall p | p in staleProjects :: exists s :: s in specIds && s in before.specs && before.specs[s].projectId == p
    ensures SoundExcept(now, stale - Elems(specIds), projectIds)
    ensures Recomputed(before, now, Elems(specIds))
    ensures Sound(before) ==> now == before
  {
    forall p | p in staleProjects
      ensures p in projectIds
    {
      var s :| s in specIds && s in before.specs && before.specs[s].projectId == p;
      assert s in Elems(specIds);
    }
    FewerStale(now, stale - Elems(specIds), staleProjects + projectIds, stale - Elems(specIds), projectIds);
  }

  /** The projects after the specs: nothing but their counts changes any more. */
  lemma WorkDone(before: Db, middle: Db, after: Db, S: set<Id>)
    requires Recomputed(before, middle, S) && (Sound(before) ==> middle == before)
    requires after == middle.(projects := after.projects) && after.projects.Keys == middle.projects.Keys
    requires ProjectsOk(middle, {}) ==> after == middle
    ensures Recomputed(before, after, S)
    ensures Sound(before) ==> after == before
  {
    ProjectRecomputed(middle, after);
    RecomputedBoth(before, middle, after, S, {});
    assert S + {} == S;
  }

  /** A verb ran: it wrote `mutated` and the worklist over `S` made it sound again, while
      every other spec is as it was before the verb. */
  ghost predicate Committed(before: Db, mutated: Db, after: Db, S: set<Id>) {
    && Sound(after)
    && Recomputed(mutated, after, S)
    && (forall s {:trigger SameSpec(before, after, s)} | s !in S :: SameSpec(before, after, s))
  }

  lemma CommittedFrom(before: Db, mutated: Db, after: Db, S: set<Id>)
    requires Touches(before, mutated, S) && Recomputed(mutated, after, S) && Sound(after)
    ensures Committed(before, mutated, after, S)
  {
    forall s | s !in S {
      SameViewStays(before, mutated, after, s);
    }
  }

  lemma CachedWhenSound(db: Db, s: Id)
    requires Sound(db) && s in db.specs
    ensures SpecCached(s, db.specs[s])
  {
  }
}
