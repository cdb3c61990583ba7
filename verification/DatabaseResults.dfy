/** What the invariant of the database means for its users. */
module DatabaseResults {
  import opened Graph
  import opened Types
  import opened StatusCalculator
  import opened Cycles
  import opened BlockerDepth
  import opened TreeSpec
  import opened StoredRows
  import opened Recompute
  import opened RecomputeResults
  import opened Rows
  import opened Mutations
  import opened Worklist
  import opened Verbs
  import opened Drain
  import CycleGuard

  // ---------------------------------------------------------------------------
  // Cycle freedom over runs
  // ---------------------------------------------------------------------------

  ghost predicate AllAcyclic(db: Db) {
    forall s {:trigger EdgesOutOf(db, s)} :: Acyclic(EdgesOutOf(db, s))
  }

  lemma SameOut(a: Db, b: Db, S: set<Id>, s: Id)
    requires Recomputed(a, b, S) && ForeignKeys(a)
    ensures EdgesOutOf(b, s) == EdgesOutOf(a, s)
  {
    forall t
      ensures TicketIn(a, t, s) <==> TicketIn(b, t, s)
    {
      if t in a.tickets {
        assert SameTicket(a.tickets[t], b.tickets[t]);
        assert SameEpic(a.epics[a.tickets[t].epicId], b.epics[a.tickets[t].epicId]);
      }
    }
  }

  lemma NewOut(db: Db, e: Edge, s: Id)
    ensures EdgesOutOf(WithEdge(db, e), s)
            == if TicketIn(db, e.src, s) then EdgesOutOf(db, s) + {e} else EdgesOutOf(db, s)
  {
    assert forall t :: TicketIn(WithEdge(db, e), t, s) <==> TicketIn(db, t, s);
  }

  lemma AcceptedEdge(db: Db, t: Id, d: Id, s: Id)
    requires ForeignKeys(db) && AddDependencyError(db, t, d) == None && Acyclic(EdgesOutOf(db, s))
    ensures Acyclic(EdgesOutOf(WithEdge(db, Edge(t, d)), s))
  {
    NewOut(db, Edge(t, d), s);
    if TicketIn(db, t, s) {
      CycleGuard.OpKeepsAcyclic(EdgesOutOf(db, s), CycleGuard.AddDependency(t, d));
    }
  }

  lemma EdgeKeepsKeys(db: Db, t: Id, d: Id)
    requires ForeignKeys(db) && AddDependencyError(db, t, d) == None
    ensures ForeignKeys(WithEdge(db, Edge(t, d)))
  {
  }

  /** An accepted dependency closes no cycle in any spec. */
  lemma AddKeepsAcyclic(db: Db, t: Id, d: Id, after: Db, S: set<Id>)
    requires ForeignKeys(db) && AllAcyclic(db) && AddDependencyError(db, t, d) == None
    requires Recomputed(WithEdge(db, Edge(t, d)), after, S)
    ensures AllAcyclic(after)
  {
    EdgeKeepsKeys(db, t, d);
    forall s
      ensures Acyclic(EdgesOutOf(after, s))
    {
      SameOut(WithEdge(db, Edge(t, d)), after, S, s);
      AcceptedEdge(db, t, d, s);
    }
  }

  /** A mutation that adds no edge keeps every spec acyclic: removing a dependency,
      deleting a ticket or an epic, creating rows. */
  lemma FewerEdgesKeepAcyclic(db: Db, next: Db, after: Db, S: set<Id>)
    requires AllAcyclic(db) && ForeignKeys(next) && Recomputed(next, after, S)
    requires forall s :: EdgesOutOf(next, s) <= EdgesOutOf(db, s)
    ensures AllAcyclic(after)
  {
    forall s
      ensures Acyclic(EdgesOutOf(after, s))
    {
      SameOut(next, after, S, s);
      AcyclicMonotone(EdgesOutOf(next, s), EdgesOutOf(db, s));
    }
  }

  lemma RemovalsAddNoEdges(db: Db, e: Edge, t: Id)
    ensures forall s :: EdgesOutOf(WithoutEdge(db, e), s) <= EdgesOutOf(db, s)
    ensures forall s :: EdgesOutOf(Drop(db, {}, {t}, {}), s) <= EdgesOutOf(db, s)
  {
    var a, b := WithoutEdge(db, e), Drop(db, {}, {t}, {});
    assert forall u, s :: TicketIn(a, u, s) ==> TicketIn(db, u, s);
    assert forall u, s :: TicketIn(b, u, s) ==> TicketIn(db, u, s);
  }

  lemma NoFlag(specId: Id, spec: SpecRow, view: SpecView)
    requires SpecConsistent(specId, spec, view) && Acyclic(Restrict(view.edges, Nodes(view).Keys))
    ensures spec.tree.Some? && !spec.tree.value.summary.hasCircularDeps
  {
    ConsistentParts(specId, spec, view);
    NoCyclesIffAcyclic(Restrict(view.edges, Nodes(view).Keys), spec.tree.value.cycles);
  }

  /** In a sound database an acyclic spec is never flagged as circular. */
  lemma NoCycleFlag(db: Db, s: Id)
    requires Sound(db) && s in db.specs && AllAcyclic(db)
    ensures db.specs[s].tree.Some? && !db.specs[s].tree.value.summary.hasCircularDeps
  {
    var view := ViewOf(db, s);
    assert SpecOk(db, s);
    var F := Restrict(view.edges, Nodes(view).Keys);
    assert F <= EdgesOutOf(db, s);
    AcyclicMonotone(F, EdgesOutOf(db, s));
    NoFlag(s, db.specs[s], view);
  }

  // ---------------------------------------------------------------------------
  // Draining a spec
  // ---------------------------------------------------------------------------

  lemma DepthOfStatuses(view: SpecView)
    ensures Blocking(Nodes(view), view.edges, {}) == OpenEdges(Statuses(view), view.edges)
  {
    assert Incomplete(Nodes(view), {}) == Open(Statuses(view));
  }

  /** Work is left for exactly `d` rounds and none after one more. */
  ghost predicate DrainsAfter(states: States, E: set<Edge>, d: nat) {
    && (forall k: nat | k <= d :: Open(Rounds(states, E, k)) != {})
    && Open(Rounds(states, E, d + 1)) == {}
  }

  ghost predicate NobodyAtWork(states: States) {
    forall t | t in states :: states[t] == Done || ShouldRecalculate(states[t])
  }

  lemma NothingExcluded(rows: TicketRows, E: set<Edge>, cycles: seq<seq<Id>>, d: nat)
    requires IsCycleList(E, cycles) && Acyclic(E) && IsMaxDepth(Blocking(rows, E, CycleNodes(cycles)), d)
    ensures IsMaxDepth(Blocking(rows, E, {}), d)
  {
    NoCyclesIffAcyclic(E, cycles);
    assert CycleNodes(cycles) == {};
  }

  lemma StoredDepth(specId: Id, spec: SpecRow, view: SpecView)
    requires SpecConsistent(specId, spec, view) && ViewClosed(view) && Acyclic(view.edges)
    ensures Consistent(Statuses(view), view.edges)
    ensures IsMaxDepth(OpenEdges(Statuses(view), view.edges), spec.maxBlockerDepth)
  {
    ConsistentParts(specId, spec, view);
    ScalarsAreFromScratch(specId, spec, view);
    NothingExcluded(Nodes(view), view.edges, spec.tree.value.cycles, spec.maxBlockerDepth);
    DepthOfStatuses(view);
  }

  lemma DrainFrom(states: States, E: set<Edge>, d: nat)
    requires Consistent(states, E) && Acyclic(E) && Within(E, states.Keys) && NobodyAtWork(states)
    requires Open(states) != {} && IsMaxDepth(OpenEdges(states, E), d)
    ensures DrainsAfter(states, E, d)
  {
    DrainsInDepthPlusOneRounds(states, E, d);
  }

  /** The stored `max_blocker_depth` of an acyclic spec nobody is working on counts the
      rounds, each completing every ready ticket and recomputing. */
  lemma StoredDepthCountsRounds(specId: Id, spec: SpecRow, view: SpecView)
    requires SpecConsistent(specId, spec, view) && ViewClosed(view) && Acyclic(view.edges)
    requires NobodyAtWork(Statuses(view)) && Open(Statuses(view)) != {}
    ensures DrainsAfter(Statuses(view), view.edges, spec.maxBlockerDepth)
  {
    StoredDepth(specId, spec, view);
    DrainFrom(Statuses(view), view.edges, spec.maxBlockerDepth);
  }
}
