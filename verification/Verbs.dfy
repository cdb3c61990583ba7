/** What each CRUD verb refuses, what it writes, and who can tell. */
module Verbs {
  import opened Graph
  import opened Ordering
  import opened Types
  import opened Counts
  import opened StoredRows
  import opened Recompute
  import opened Rows
  import opened Mutations
  import opened CrudTypes
  import TreeSpec
  import TreeBuild

  // ---------------------------------------------------------------------------
  // Dependency verbs
  // ---------------------------------------------------------------------------

  function SpecOfTicket(db: Db, t: Id): Id
    requires t in db.tickets && db.tickets[t].epicId in db.epics
  {
    db.epics[db.tickets[t].epicId].specId
  }

  function WithEdge(db: Db, e: Edge): Db {
    db.(deps := db.deps + {e})
  }

  function WithoutEdge(db: Db, e: Edge): Db {
    db.(deps := db.deps - {e})
  }

  /** The edges that start in the spec, wherever they lead. */
  ghost function EdgesOutOf(db: Db, s: Id): set<Edge> {
    set d | d in db.deps && TicketIn(db, d.src, s)
  }

  /** Why an edge is refused: a self-edge, an unknown end, ends in different specs, an
      edge already there, or one that would close a cycle. */
  ghost function AddDependencyError(db: Db, t: Id, d: Id): Option<Error>
    requires ForeignKeys(db)
  {
    if t == d then Some(ValidationFailed)
    else if t !in db.tickets || d !in db.tickets then Some(NotFound)
    else if SpecOfTicket(db, t) != SpecOfTicket(db, d) then Some(ValidationFailed)
    else if Edge(t, d) in db.deps then Some(Conflict)
    else if Reach(EdgesOutOf(db, SpecOfTicket(db, t)), d, t) then Some(Conflict)
    else None
  }

  lemma ListedEdges(db: Db, s: Id)
    ensures Elems(TreeSpec.EdgesFrom(Sorted(TicketsOf(db, s).Keys), db.deps)) == EdgesOutOf(db, s)
  {
    var ids := Sorted(TicketsOf(db, s).Keys);
    var list := TreeSpec.EdgesFrom(ids, db.deps);
    forall e
      ensures e in Elems(list) <==> e in EdgesOutOf(db, s)
    {
      TreeBuild.EdgesFromElems(ids, db.deps, e);
      assert e.src in ids <==> e.src in Elems(ids);
    }
  }

  lemma EdgeListed(db: Db, s: Id, edges: seq<Edge>, e: Edge)
    requires Elems(edges) == EdgesOutOf(db, s) && TicketIn(db, e.src, s)
    ensures e in edges <==> e in db.deps
  {
    assert e in edges <==> e in Elems(edges);
  }

  lemma EdgeTouches(db: Db, deps: set<Edge>, t: Id, d: Id, s: Id)
    requires ForeignKeys(db) && TicketIn(db, t, s) && d in db.tickets
    requires deps == db.deps + {Edge(t, d)} || deps == db.deps - {Edge(t, d)}
    ensures Touches(db, db.(deps := deps), {s}) && ForeignKeys(db.(deps := deps))
  {
    assert StartsIn(db, Edge(t, d), {s});
    EdgesTouch(db, deps, {s});
  }

  // ---------------------------------------------------------------------------
  // Guards
  // ---------------------------------------------------------------------------

  predicate CreateBlocked(status: SpecStatus) {
    status == SpecDone || status == Reviewed || status == InReview
  }

  predicate UpdateBlocked(status: SpecStatus) {
    status == SpecDone || status == Reviewed
  }

  function CreateSpecificationError(db: Db, p: Id, title: string): Option<Error> {
    if Trim(title) == "" then Some(ValidationFailed)
    else if p !in db.projects then Some(ValidationFailed)
    else None
  }

  /** Also the guard of `create_blueprint`. */
  function CreateEpicError(db: Db, s: Id, title: string): Option<Error> {
    if Trim(title) == "" then Some(ValidationFailed)
    else if s !in db.specs then Some(NotFound)
    else if CreateBlocked(db.specs[s].status) then Some(PreconditionFailed)
    else None
  }

  function CreateTicketError(db: Db, e: Id, title: string, status: Status): Option<Error>
    requires ForeignKeys(db)
  {
    if Trim(title) == "" then Some(ValidationFailed)
    else if e !in db.epics then Some(NotFound)
    else if CreateBlocked(db.specs[db.epics[e].specId].status) then Some(PreconditionFailed)
    else if status == Unknown then Some(ValidationFailed)
    else None
  }

  function UpdateSpecificationError(db: Db, s: Id): Option<Error> {
    if s !in db.specs then Some(NotFound)
    else if UpdateBlocked(db.specs[s].status) then Some(PreconditionFailed)
    else None
  }

  function UpdateEpicError(db: Db, e: Id): Option<Error> {
    if e !in db.epics then Some(NotFound) else UpdateSpecificationError(db, db.epics[e].specId)
  }

  /** The modelled columns of a ticket update; an absent one stays. */
  datatype TicketChange = TicketChange(
    epicId: Option<Id>, number: Option<Option<int>>, title: Option<string>,
    estimate: Option<Option<int>>, status: Option<Status>)

  function UpdateTicketError(db: Db, t: Id, change: TicketChange): Option<Error>
    requires ForeignKeys(db)
  {
    if t !in db.tickets then Some(NotFound)
    else if UpdateEpicError(db, db.tickets[t].epicId).Some? then UpdateEpicError(db, db.tickets[t].epicId)
    else if change.status == Some(Unknown) then Some(ValidationFailed)
    else if change.epicId.Some? && change.epicId.value !in db.epics then Some(ValidationFailed)
    else None
  }

  function LinkError(db: Db, r: BlueprintRef): Option<Error> {
    if r.ticketId !in db.tickets || r.blueprintId !in db.blueprints then Some(NotFound)
    else if r in db.refs then Some(Conflict)
    else None
  }

  // ---------------------------------------------------------------------------
  // New rows
  // ---------------------------------------------------------------------------

  function Highest(ns: seq<int>): (m: int)
    requires ns != []
    ensures m in ns && forall n | n in ns :: n <= m
  {
    if |ns| == 1 then ns[0]
    else
      var init := Highest(ns[1..]);
      assert forall n | n in ns :: n == ns[0] || n in ns[1..];
      if ns[0] < init then init else ns[0]
  }

  /** `max(...) + 1`, and 1 for the first. */
  function NextNumber(ns: seq<int>): (next: int)
    ensures forall n | n in ns :: n < next
    ensures ns == [] ==> next == 1
  {
    (if ns == [] then 0 else Highest(ns)) + 1
  }

  function EpicNumbers(epics: map<Id, EpicRow>, ids: seq<Id>): (ns: seq<int>)
    requires forall e | e in ids :: e in epics
    ensures forall e | e in ids :: epics[e].number in ns
  {
    if ids == [] then [] else [epics[ids[0]].number] + EpicNumbers(epics, ids[1..])
  }

  /** A ticket without a number does not count. */
  function TicketNumbers(tickets: map<Id, TicketRow>, ids: seq<Id>): (ns: seq<int>)
    requires forall t | t in ids :: t in tickets
    ensures forall t | t in ids && tickets[t].number.Some? :: tickets[t].number.value in ns
  {
    if ids == [] then []
    else
      var number := tickets[ids[0]].number;
      (if number.Some? then [number.value] else []) + TicketNumbers(tickets, ids[1..])
  }

  function TicketsOfEpic(db: Db, e: Id): set<Id> {
    set t | t in db.tickets && db.tickets[t].epicId == e
  }

  lemma SortedIn(s: set<Id>)
    ensures forall x :: x in Sorted(s) <==> x in s
  {
    assert forall x :: x in Sorted(s) <==> x in Elems(Sorted(s));
  }

  function NextEpicNumber(db: Db, s: Id): (next: int)
    ensures forall e | EpicIn(db.epics, e, s) :: db.epics[e].number < next
  {
    SortedIn(EpicsOf(db, s).Keys);
    NextNumber(EpicNumbers(db.epics, Sorted(EpicsOf(db, s).Keys)))
  }

  function NextTicketNumber(db: Db, e: Id): (next: int)
    ensures forall t | t in db.tickets && db.tickets[t].epicId == e && db.tickets[t].number.Some? ::
              db.tickets[t].number.value < next
  {
    SortedIn(TicketsOfEpic(db, e));
    NextNumber(TicketNumbers(db.tickets, Sorted(TicketsOfEpic(db, e))))
  }

  function NewSpec(p: Id, status: SpecStatus): SpecRow {
    SpecRow(p, status, SpecCounts(0, 0, 0, 0, 0, 0, 0, 0, 0, 0, 0), 0, 0, None, 0, None, 0, 0)
  }

  function NewEpic(db: Db, s: Id, title: string, number: Option<int>): EpicRow {
    EpicRow(s, if number.Some? then number.value else NextEpicNumber(db, s), Trim(title),
            EpicCounts(0, 0, 0, 0, 0, 0, 0, Todo), 0, 0)
  }

  function NewTicket(db: Db, e: Id, title: string, number: Option<int>, estimate: Option<int>, status: Status): TicketRow {
    TicketRow(e, Some(if number.Some? then number.value else NextTicketNumber(db, e)), Trim(title),
              Some(if estimate.Some? then estimate.value else 0), status, 0, None, 0, 0, 0)
  }

  function Renamed(row: EpicRow, number: Option<int>, title: Option<string>): EpicRow {
    row.(number := if number.Some? then number.value else row.number,
         title := if title.Some? then title.value else row.title)
  }

  function Changed(row: TicketRow, change: TicketChange): TicketRow {
    row.(epicId := if change.epicId.Some? then change.epicId.value else row.epicId,
         number := if change.number.Some? then change.number.value else row.number,
         title := if change.title.Some? then change.title.value else row.title,
         estimate := if change.estimate.None? then row.estimate
                     else Some(if change.estimate.value.Some? then change.estimate.value.value else 0),
         status := if change.status.Some? then change.status.value else row.status)
  }

  // ---------------------------------------------------------------------------
  // The bulk path
  // ---------------------------------------------------------------------------

  const MAX_BULK_DEPENDENCIES := 100

  datatype DependencyFailure = DependencyFailure(item: Edge, error: Error)

  datatype BulkAddResult = BulkAddResult(added: nat, failed: seq<DependencyFailure>)

  /** An item fits the tables: no self-edge, both ends there.  Cycles and ends in
      different specs are not looked at. */
  predicate Addable(db: Db, e: Edge) {
    e.src != e.dst && e.src in db.tickets && e.dst in db.tickets
  }

  function BulkDeps(db: Db, items: seq<Edge>): set<Edge> {
    db.deps + set e | e in items && Addable(db, e)
  }

  /** The items refused, in order, each for its own reason. */
  function BulkFailures(db: Db, items: seq<Edge>): seq<DependencyFailure> {
    if |items| == 0 then []
    else
      var init, e := items[..|items| - 1], items[|items| - 1];
      BulkFailures(db, init)
      + (if !Addable(db, e) then [DependencyFailure(e, ValidationFailed)]
         else if e in BulkDeps(db, init) then [DependencyFailure(e, Conflict)]
         else [])
  }

  /** The specs whose tickets gained an edge. */
  function BulkAffected(db: Db, items: seq<Edge>): set<Id> {
    set e | e in BulkDeps(db, items) && e !in db.deps && e.src in db.tickets && db.tickets[e.src].epicId in db.epics
      :: db.epics[db.tickets[e.src].epicId].specId
  }

  lemma BulkStep(db: Db, items: seq<Edge>, i: nat)
    requires i < |items|
    ensures var e := items[i];
            && BulkDeps(db, items[..i + 1]) == BulkDeps(db, items[..i]) + (if Addable(db, e) then {e} else {})
            && BulkFailures(db, items[..i + 1])
               == BulkFailures(db, items[..i])
                  + (if !Addable(db, e) then [DependencyFailure(e, ValidationFailed)]
                     else if e in BulkDeps(db, items[..i]) then [DependencyFailure(e, Conflict)]
                     else [])
  {
    assert items[..i + 1][..i] == items[..i];
    assert items[..i + 1] == items[..i] + [items[i]];
    assert forall e :: e in items[..i + 1] <==> e in items[..i] || e == items[i];
  }

  lemma BulkAffectedStep(db: Db, items: seq<Edge>, i: nat)
    requires i < |items| && ForeignKeys(db)
    ensures var e := items[i];
            BulkAffected(db, items[..i + 1])
            == BulkAffected(db, items[..i])
               + (if Addable(db, e) && e !in BulkDeps(db, items[..i]) then {SpecOfTicket(db, e.src)} else {})
  {
    BulkStep(db, items, i);
    var e := items[i];
    var a, b := BulkAffected(db, items[..i]), BulkAffected(db, items[..i + 1]);
    forall s
      ensures s in b <==> s in a || (Addable(db, e) && e !in BulkDeps(db, items[..i]) && s == SpecOfTicket(db, e.src))
    {
      if s in b {
        var f :| f in BulkDeps(db, items[..i + 1]) && f !in db.deps && f.src in db.tickets
                 && db.tickets[f.src].epicId in db.epics && SpecOfTicket(db, f.src) == s;
        assert f in BulkDeps(db, items[..i]) || f == e;
      }
    }
  }

  ghost predicate BulkDone(db: Db, items: seq<Edge>, deps: set<Edge>, affected: set<Id>,
                           failed: seq<DependencyFailure>, added: nat)
  {
    && deps == BulkDeps(db, items) && affected == BulkAffected(db, items) && failed == BulkFailures(db, items)
    && added + |failed| == |items| && |deps| == |db.deps| + added
  }

  lemma BulkMisfit(db: Db, items: seq<Edge>, i: nat, deps: set<Edge>, affected: set<Id>,
                   failed: seq<DependencyFailure>, added: nat)
    requires ForeignKeys(db) && i < |items| && BulkDone(db, items[..i], deps, affected, failed, added)
    requires !Addable(db, items[i])
    ensures BulkDone(db, items[..i + 1], deps, affected, failed + [DependencyFailure(items[i], ValidationFailed)], added)
  {
    BulkStep(db, items, i);
    BulkAffectedStep(db, items, i);
    assert deps + {} == deps && affected + {} == affected;
  }

  lemma AddAgain(deps: set<Edge>, e: Edge)
    requires e in deps
    ensures deps + {e} == deps
  {
  }

  lemma BulkDuplicate(db: Db, items: seq<Edge>, i: nat, deps: set<Edge>, affected: set<Id>,
                      failed: seq<DependencyFailure>, added: nat)
    requires ForeignKeys(db) && i < |items| && BulkDone(db, items[..i], deps, affected, failed, added)
    requires Addable(db, items[i]) && items[i] in deps
    ensures BulkDone(db, items[..i + 1], deps, affected, failed + [DependencyFailure(items[i], Conflict)], added)
  {
    BulkStep(db, items, i);
    BulkAffectedStep(db, items, i);
    AddAgain(deps, items[i]);
    assert affected + {} == affected;
  }

  lemma BulkAdded(db: Db, items: seq<Edge>, i: nat, deps: set<Edge>, affected: set<Id>,
                  failed: seq<DependencyFailure>, added: nat)
    requires ForeignKeys(db) && i < |items| && BulkDone(db, items[..i], deps, affected, failed, added)
    requires Addable(db, items[i]) && items[i] !in deps
    ensures BulkDone(db, items[..i + 1], deps + {items[i]}, affected + {SpecOfTicket(db, items[i].src)}, failed, added + 1)
  {
    BulkStep(db, items, i);
    BulkAffectedStep(db, items, i);
  }

  /** Where a batch stands. */
  datatype BulkState = BulkState(deps: set<Edge>, affected: set<Id>, failed: seq<DependencyFailure>, added: nat)

  function BulkOne(db: Db, st: BulkState, e: Edge): BulkState {
    if !Addable(db, e) then st.(failed := st.failed + [DependencyFailure(e, ValidationFailed)])
    else if e in st.deps then st.(failed := st.failed + [DependencyFailure(e, Conflict)])
    else BulkState(st.deps + {e}, st.affected + SpecsOfTicket(db, e.src), st.failed, st.added + 1)
  }

  function SpecsOfTicket(db: Db, t: Id): set<Id> {
    if t in db.tickets && db.tickets[t].epicId in db.epics then {SpecOfTicket(db, t)} else {}
  }

  function BulkRun(db: Db, items: seq<Edge>): BulkState {
    if |items| == 0 then BulkState(db.deps, {}, [], 0)
    else BulkOne(db, BulkRun(db, items[..|items| - 1]), items[|items| - 1])
  }

  lemma BulkRunStep(db: Db, items: seq<Edge>, i: nat)
    requires i < |items|
    ensures BulkRun(db, items[..i + 1]) == BulkOne(db, BulkRun(db, items[..i]), items[i])
  {
    assert items[..i + 1][..i] == items[..i];
  }

  lemma BulkItem(db: Db, items: seq<Edge>, i: nat, st: BulkState, next: BulkState)
    requires ForeignKeys(db) && i < |items| && next == BulkOne(db, st, items[i])
    requires BulkDone(db, items[..i], st.deps, st.affected, st.failed, st.added)
    ensures BulkDone(db, items[..i + 1], next.deps, next.affected, next.failed, next.added)
  {
    if !Addable(db, items[i]) {
      BulkMisfit(db, items, i, st.deps, st.affected, st.failed, st.added);
    } else if items[i] in st.deps {
      BulkDuplicate(db, items, i, st.deps, st.affected, st.failed, st.added);
    } else {
      BulkAdded(db, items, i, st.deps, st.affected, st.failed, st.added);
    }
  }

  lemma {:induction false} BulkRunIsDoneTo(db: Db, items: seq<Edge>, i: nat, st: BulkState)
    requires ForeignKeys(db) && i <= |items| && st == BulkRun(db, items[..i])
    ensures BulkDone(db, items[..i], st.deps, st.affected, st.failed, st.added)
    decreases i
  {
    if i == 0 {
      NothingDone(db, items[..0]);
    } else {
      var before := BulkRun(db, items[..i - 1]);
      BulkRunIsDoneTo(db, items, i - 1, before);
      BulkRunStep(db, items, i - 1);
      BulkItem(db, items, i - 1, before, st);
    }
  }

  /** A run of the batch does what the batch promises. */
  lemma BulkRunIsDone(db: Db, items: seq<Edge>)
    requires ForeignKeys(db)
    ensures var st := BulkRun(db, items); BulkDone(db, items, st.deps, st.affected, st.failed, st.added)
  {
    assert items[..|items|] == items;
    BulkRunIsDoneTo(db, items, |items|, BulkRun(db, items));
  }

  lemma NothingDone(db: Db, items: seq<Edge>)
    requires |items| == 0
    ensures BulkRun(db, items) == BulkState(db.deps, {}, [], 0) && BulkDone(db, items, db.deps, {}, [], 0)
  {
    assert BulkDeps(db, items) == db.deps;
  }

  lemma BulkTouches(db: Db, items: seq<Edge>)
    requires ForeignKeys(db)
    ensures var next := db.(deps := BulkDeps(db, items));
            Touches(db, next, BulkAffected(db, items)) && ForeignKeys(next)
    ensures forall s | s in BulkAffected(db, items) :: s in db.specs
  {
    var S := BulkAffected(db, items);
    forall d | d in BulkDeps(db, items) && d !in db.deps
      ensures StartsIn(db, d, S)
    {
      assert SpecOfTicket(db, d.src) in S && TicketIn(db, d.src, SpecOfTicket(db, d.src));
    }
    EdgesTouch(db, BulkDeps(db, items), S);
  }
}
