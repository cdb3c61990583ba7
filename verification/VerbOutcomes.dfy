/** What the tables hold after a CRUD verb, column by column, and exactly when each verb is
    refused. */
module VerbOutcomes {
  import opened Graph
  import opened Types
  import opened StatusCalculator
  import opened Counts
  import opened StoredRows
  import opened Recompute
  import opened Rows
  import opened Mutations
  import opened Worklist
  import opened CrudTypes
  import opened Verbs
  import TreeSpec
  import Ordering

  // ---------------------------------------------------------------------------
  // What the worklist leaves alone
  // ---------------------------------------------------------------------------

  ghost predicate InSpec(db: Db, t: Id, s: Id) {
    t in db.tickets && db.tickets[t].epicId in db.epics && db.epics[db.tickets[t].epicId].specId == s
  }

  ghost predicate SameTicketColumns(a: TicketRow, b: TicketRow) {
    && a.epicId == b.epicId && a.number == b.number && a.title == b.title && a.estimate == b.estimate
    && (a.status == Done <==> b.status == Done) && (a.status == Active <==> b.status == Active)
    && (a.status == Unknown <==> b.status == Unknown)
  }

  ghost predicate SameEpicColumns(a: EpicRow, b: EpicRow) {
    a.specId == b.specId && a.number == b.number && a.title == b.title
  }

  ghost predicate SameSpecColumns(a: SpecRow, b: SpecRow) {
    a.projectId == b.projectId && a.status == b.status
  }

  ghost predicate TicketsKept(db: Db, after: Db, ts: set<Id>) {
    && after.tickets.Keys - ts == db.tickets.Keys - ts
    && forall t | t in db.tickets && t !in ts :: t in after.tickets && SameTicketColumns(db.tickets[t], after.tickets[t])
  }

  ghost predicate EpicsKept(db: Db, after: Db, es: set<Id>) {
    && after.epics.Keys - es == db.epics.Keys - es
    && forall e | e in db.epics && e !in es :: e in after.epics && SameEpicColumns(db.epics[e], after.epics[e])
  }

  ghost predicate SpecsKept(db: Db, after: Db, ss: set<Id>) {
    && after.specs.Keys - ss == db.specs.Keys - ss
    && forall s | s in db.specs && s !in ss :: s in after.specs && SameSpecColumns(db.specs[s], after.specs[s])
  }

  /** Apart from the named rows, no row comes, goes or changes in a column a user sets. */
  ghost predicate Kept(db: Db, after: Db, ts: set<Id>, es: set<Id>, ss: set<Id>) {
    && TicketsKept(db, after, ts) && EpicsKept(db, after, es) && SpecsKept(db, after, ss)
    && after.projects.Keys == db.projects.Keys
  }

  ghost predicate SameLists(db: Db, after: Db) {
    after.deps == db.deps && after.blueprints == db.blueprints && after.refs == db.refs
  }

  ghost predicate WaitsFor(db: Db, t: Id, s: Id, d: Id) {
    Edge(t, d) in db.deps && InSpec(db, d, s) && db.tickets[d].status != Done
  }

  /** Done, active and unrecognised stay; anything else is ready, or pending while a
      dependency in the spec is not done. */
  ghost predicate StatusRule(db: Db, t: Id, s: Id, given: Status, next: Status) {
    if given == Done || given == Active || given == Unknown then next == given
    else next == if exists d :: WaitsFor(db, t, s, d) then Pending else Ready
  }

  lemma TicketsStay(before: Db, after: Db, s: Id)
    requires SameTables(before, after)
    ensures forall t :: InSpec(before, t, s) <==> InSpec(after, t, s)
  {
    forall t
      ensures InSpec(before, t, s) <==> InSpec(after, t, s)
    {
      if t in before.tickets {
        assert SameTicket(before.tickets[t], after.tickets[t]);
      }
    }
  }

  lemma StatusOf(before: Db, after: Db, s: Id, t: Id)
    requires SameTables(before, after) && Settles(before, after, s) && InSpec(before, t, s)
    ensures InSpec(after, t, s)
    ensures after.tickets[t].status == Derived(Statuses(ViewOf(before, s)), EdgesOf(before, s), t)
  {
    TicketsStay(before, after, s);
    assert t in Statuses(ViewOf(after, s)) && Statuses(ViewOf(after, s))[t] == after.tickets[t].status;
  }

  lemma DoneStays(before: Db, after: Db, s: Id, d: Id)
    requires SameTables(before, after) && Settles(before, after, s)
    ensures Lookup(Statuses(ViewOf(before, s)), d) == Done <==> InSpec(after, d, s) && after.tickets[d].status == Done
  {
    TicketsStay(before, after, s);
    if InSpec(before, d, s) {
      StatusOf(before, after, s, d);
    }
  }

  lemma WaitingIff(before: Db, after: Db, s: Id, t: Id)
    requires SameTables(before, after) && Settles(before, after, s) && InSpec(before, t, s)
    ensures AllDone(Statuses(ViewOf(before, s)), DepsOf(EdgesOf(before, s), t)) <==> !exists d :: WaitsFor(after, t, s, d)
  {
    TicketsStay(before, after, s);
    var states, deps := Statuses(ViewOf(before, s)), DepsOf(EdgesOf(before, s), t);
    forall d
      ensures WaitsFor(after, t, s, d) <==> d in deps && Lookup(states, d) != Done
    {
      DoneStays(before, after, s, d);
      assert Edge(t, d).src == t && Edge(t, d).dst == d;
      if d in deps {
        assert Edge(t, d) in EdgesOf(before, s);
      }
      if WaitsFor(after, t, s, d) {
        assert Edge(t, d) in EdgesOf(before, s);
      }
    }
  }

  /** The worklist settles the status a ticket was given. */
  lemma StatusSettles(before: Db, after: Db, s: Id, t: Id)
    requires SameTables(before, after) && Settles(before, after, s) && InSpec(before, t, s)
    ensures InSpec(after, t, s) && StatusRule(after, t, s, before.tickets[t].status, after.tickets[t].status)
  {
    StatusOf(before, after, s, t);
    WaitingIff(before, after, s, t);
    assert Lookup(Statuses(ViewOf(before, s)), t) == before.tickets[t].status;
  }

  lemma OutsideStays(before: Db, after: Db, s: Id, t: Id)
    requires SameSpec(before, after, s) && InSpec(before, t, s)
    ensures t in after.tickets && after.tickets[t] == before.tickets[t]
  {
    assert t in ViewOf(before, s).tickets && t in ViewOf(after, s).tickets;
  }

  lemma OneTicketKept(before: Db, after: Db, S: set<Id>, t: Id)
    requires Recomputed(before, after, S) && ForeignKeys(before) && t in before.tickets
    ensures t in after.tickets && SameTicketColumns(before.tickets[t], after.tickets[t])
  {
    var s := before.epics[before.tickets[t].epicId].specId;
    assert SameTicket(before.tickets[t], after.tickets[t]);
    assert InSpec(before, t, s);
    if s in S {
      assert Settles(before, after, s);
      StatusSettles(before, after, s, t);
    } else {
      assert SameSpec(before, after, s);
      OutsideStays(before, after, s, t);
    }
  }

  /** The worklist keeps every row, and every column a user sets: only pending and ready
      tickets may change status. */
  lemma WorklistKeeps(before: Db, after: Db, S: set<Id>)
    requires Recomputed(before, after, S) && ForeignKeys(before)
    ensures Kept(before, after, {}, {}, {}) && SameLists(before, after)
  {
    forall t | t in before.tickets
      ensures t in after.tickets && SameTicketColumns(before.tickets[t], after.tickets[t])
    {
      OneTicketKept(before, after, S, t);
    }
    forall e | e in before.epics
      ensures e in after.epics && SameEpicColumns(before.epics[e], after.epics[e])
    {
      assert SameEpic(before.epics[e], after.epics[e]);
    }
  }

  lemma DerivedProgress(row: TicketRow, t: Id, nodes: TreeSpec.TicketRows, edges: seq<Edge>, refs: seq<BlueprintRef>)
    requires row == DerivedTicket(row, t, nodes, edges, refs)
    ensures row.progress == if row.status == Done then 100 else 0
  {
  }

  lemma ProgressFrom(specId: Id, spec: SpecRow, view: SpecView, t: Id)
    requires SpecConsistent(specId, spec, view) && t in view.tickets
    ensures view.tickets[t].progress == if view.tickets[t].status == Done then 100 else 0
  {
    DerivedProgress(view.tickets[t], t, Nodes(view), EdgeRows(view), RefRows(view));
  }

  lemma InView(db: Db, s: Id, t: Id)
    requires InSpec(db, t, s)
    ensures t in ViewOf(db, s).tickets && ViewOf(db, s).tickets[t] == db.tickets[t]
  {
  }

  lemma ProgressShows(db: Db, s: Id, t: Id)
    requires Sound(db) && InSpec(db, t, s)
    ensures db.tickets[t].progress == if db.tickets[t].status == Done then 100 else 0
  {
    var view := ViewOf(db, s);
    InView(db, s, t);
    assert view.tickets[t].progress == if view.tickets[t].status == Done then 100 else 0 by {
      assert SpecOk(db, s);
      ProgressFrom(s, db.specs[s], view, t);
    }
  }

  // ---------------------------------------------------------------------------
  // Updates
  // ---------------------------------------------------------------------------

  /** A given value is written, an absent one leaves the column. */
  ghost predicate Written<T>(given: Option<T>, before: T, after: T) {
    after == if given.Some? then given.value else before
  }

  /** A given estimate of nothing is 0. */
  ghost predicate ColumnsWritten(change: TicketChange, row: TicketRow, next: TicketRow) {
    && Written(change.epicId, row.epicId, next.epicId) && Written(change.number, row.number, next.number)
    && Written(change.title, row.title, next.title)
    && (change.estimate == None ==> next.estimate == row.estimate)
    && (change.estimate == Some(None) ==> next.estimate == Some(0))
    && (change.estimate.Some? && change.estimate.value.Some? ==> next.estimate == change.estimate.value)
  }

  /** The row of an updated ticket.  In its spec, the given status settles and the progress
      goes with it; moved to another spec, the row stays as written. */
  ghost predicate TicketUpdated(db: Db, t: Id, s: Id, change: TicketChange, after: Db) {
    && t in after.tickets && InSpec(db, t, s)
    && var row, next := db.tickets[t], after.tickets[t];
       var given := if change.status.Some? then change.status.value else row.status;
       && ColumnsWritten(change, row, next)
       && if InSpec(after, t, s)
          then StatusRule(after, t, s, given, next.status) && next.progress == if next.status == Done then 100 else 0
          else next.status == given && next.progress == row.progress && next.blockReason == row.blockReason
  }

  lemma ChangedColumns(row: TicketRow, change: TicketChange)
    ensures var next := Changed(row, change);
            && ColumnsWritten(change, row, next) && next.progress == row.progress && next.blockReason == row.blockReason
            && next.status == if change.status.Some? then change.status.value else row.status
  {
  }

  lemma PutTicketKeeps(db: Db, t: Id, row: TicketRow, after: Db)
    requires Kept(PutTicket(db, t, row), after, {}, {}, {}) && SameLists(PutTicket(db, t, row), after)
    ensures Kept(db, after, {t}, {}, {}) && SameLists(db, after)
  {
    var mid := PutTicket(db, t, row);
    assert after.tickets.Keys - {} == after.tickets.Keys && mid.tickets.Keys - {} == mid.tickets.Keys;
    assert mid.tickets.Keys - {t} == db.tickets.Keys - {t};
    forall u | u in db.tickets && u !in {t}
      ensures u in after.tickets && SameTicketColumns(db.tickets[u], after.tickets[u])
    {
      assert u in mid.tickets && mid.tickets[u] == db.tickets[u];
    }
    assert EpicsKept(db, after, {}) && SpecsKept(db, after, {});
  }

  lemma PutKeepsForeignKeys(db: Db, t: Id, row: TicketRow)
    requires ForeignKeys(db) && row.epicId in db.epics
    ensures ForeignKeys(PutTicket(db, t, row))
  {
  }

  lemma SettledRow(mid: Db, after: Db, t: Id, s: Id)
    requires Recomputed(mid, after, {s}) && s in mid.specs && InSpec(mid, t, s)
    ensures InSpec(after, t, s) && StatusRule(after, t, s, mid.tickets[t].status, after.tickets[t].status)
  {
    assert Settles(mid, after, s);
    StatusSettles(mid, after, s, t);
  }

  lemma MovedRow(mid: Db, after: Db, t: Id, s: Id)
    requires Recomputed(mid, after, {s}) && ForeignKeys(mid) && t in mid.tickets && !InSpec(mid, t, s)
    ensures !InSpec(after, t, s) && t in after.tickets && after.tickets[t] == mid.tickets[t]
  {
    TicketsStay(mid, after, s);
    var s2 := mid.epics[mid.tickets[t].epicId].specId;
    assert SameSpec(mid, after, s2);
    OutsideStays(mid, after, s2, t);
  }

  lemma UpdatedRow(mid: Db, t: Id, s: Id, after: Db)
    requires ForeignKeys(mid) && Recomputed(mid, after, {s}) && s in mid.specs && t in mid.tickets
    requires InSpec(mid, t, s) ==> Sound(after)
    ensures t in after.tickets
            && var row, next := mid.tickets[t], after.tickets[t];
               if InSpec(after, t, s)
               then StatusRule(after, t, s, row.status, next.status) && next.progress == (if next.status == Done then 100 else 0)
               else next == row
  {
    if InSpec(mid, t, s) {
      SettledRow(mid, after, t, s);
      ProgressShows(after, s, t);
    } else {
      MovedRow(mid, after, t, s);
    }
  }

  lemma TicketWritten(db: Db, t: Id, s: Id, row: TicketRow, after: Db)
    requires ForeignKeys(db) && row.epicId in db.epics && s in db.specs
    requires Recomputed(PutTicket(db, t, row), after, {s}) && (db.epics[row.epicId].specId == s ==> Sound(after))
    ensures Kept(db, after, {t}, {}, {}) && SameLists(db, after) && t in after.tickets
    ensures SameTicketColumns(row, after.tickets[t])
    ensures if InSpec(after, t, s)
            then StatusRule(after, t, s, row.status, after.tickets[t].status)
                 && after.tickets[t].progress == (if after.tickets[t].status == Done then 100 else 0)
            else after.tickets[t] == row
  {
    var mid := PutTicket(db, t, row);
    PutKeepsForeignKeys(db, t, row);
    UpdatedRow(mid, t, s, after);
    WorklistKeeps(mid, after, {s});
    PutTicketKeeps(db, t, row, after);
    assert t in mid.tickets && mid.tickets[t] == row;
  }

  /** An updated ticket, and nothing else that a user sets. */
  ghost predicate OnlyTicketUpdated(db: Db, t: Id, change: TicketChange, after: Db) {
    (exists s :: TicketUpdated(db, t, s, change, after)) && Kept(db, after, {t}, {}, {}) && SameLists(db, after)
  }

  lemma UpdateTicketOutcome(db: Db, t: Id, s: Id, change: TicketChange, after: Db)
    requires ForeignKeys(db) && InSpec(db, t, s) && Changed(db.tickets[t], change).epicId in db.epics
    requires Recomputed(PutTicket(db, t, Changed(db.tickets[t], change)), after, {s})
    requires db.epics[Changed(db.tickets[t], change).epicId].specId == s ==> Sound(after)
    ensures OnlyTicketUpdated(db, t, change, after)
  {
    ChangedColumns(db.tickets[t], change);
    TicketWritten(db, t, s, Changed(db.tickets[t], change), after);
    assert TicketUpdated(db, t, s, change, after);
  }

  /** The row of an updated epic. */
  ghost predicate EpicUpdated(db: Db, e: Id, number: Option<int>, title: Option<string>, after: Db) {
    && e in db.epics && e in after.epics && after.epics[e].specId == db.epics[e].specId
    && Written(number, db.epics[e].number, after.epics[e].number)
    && Written(title, db.epics[e].title, after.epics[e].title)
  }

  lemma PutEpicKeeps(db: Db, e: Id, row: EpicRow, after: Db)
    requires Kept(PutEpic(db, e, row), after, {}, {}, {}) && SameLists(PutEpic(db, e, row), after)
    ensures Kept(db, after, {}, {e}, {}) && SameLists(db, after)
    ensures e in after.epics && SameEpicColumns(row, after.epics[e])
  {
    var mid := PutEpic(db, e, row);
    assert after.epics.Keys - {} == after.epics.Keys && mid.epics.Keys - {} == mid.epics.Keys;
    assert mid.epics.Keys - {e} == db.epics.Keys - {e};
    forall f | f in db.epics && f !in {e}
      ensures f in after.epics && SameEpicColumns(db.epics[f], after.epics[f])
    {
      assert f in mid.epics && mid.epics[f] == db.epics[f];
    }
    assert TicketsKept(db, after, {}) && SpecsKept(db, after, {});
  }

  lemma UpdateEpicOutcome(db: Db, e: Id, number: Option<int>, title: Option<string>, after: Db, S: set<Id>)
    requires ForeignKeys(db) && e in db.epics
    requires Recomputed(PutEpic(db, e, Renamed(db.epics[e], number, title)), after, S)
    ensures EpicUpdated(db, e, number, title, after) && Kept(db, after, {}, {e}, {}) && SameLists(db, after)
  {
    var row := Renamed(db.epics[e], number, title);
    WorklistKeeps(PutEpic(db, e, row), after, S);
    PutEpicKeeps(db, e, row, after);
  }

  lemma PutSpecKeeps(db: Db, s: Id, row: SpecRow, after: Db)
    requires Kept(PutSpec(db, s, row), after, {}, {}, {}) && SameLists(PutSpec(db, s, row), after)
    ensures Kept(db, after, {}, {}, {s}) && SameLists(db, after)
    ensures s in after.specs && SameSpecColumns(row, after.specs[s])
  {
    var mid := PutSpec(db, s, row);
    assert after.specs.Keys - {} == after.specs.Keys && mid.specs.Keys - {} == mid.specs.Keys;
    assert mid.specs.Keys - {s} == db.specs.Keys - {s};
    forall x | x in db.specs && x !in {s}
      ensures x in after.specs && SameSpecColumns(db.specs[x], after.specs[x])
    {
      assert x in mid.specs && mid.specs[x] == db.specs[x];
    }
    assert TicketsKept(db, after, {}) && EpicsKept(db, after, {});
  }

  ghost predicate SpecWritten(p: Id, s: Id, status: SpecStatus, after: Db) {
    s in after.specs && after.specs[s].projectId == p && after.specs[s].status == status
  }

  lemma SpecOutcome(db: Db, s: Id, row: SpecRow, after: Db, S: set<Id>)
    requires ForeignKeys(db) && row.projectId in db.projects && Recomputed(PutSpec(db, s, row), after, S)
    ensures SpecWritten(row.projectId, s, row.status, after) && Kept(db, after, {}, {}, {s}) && SameLists(db, after)
  {
    WorklistKeeps(PutSpec(db, s, row), after, S);
    PutSpecKeeps(db, s, row, after);
  }

  // ---------------------------------------------------------------------------
  // New rows
  // ---------------------------------------------------------------------------

  ghost predicate Numbered(db: Db, e: Id, t: Id) {
    t in db.tickets && db.tickets[t].epicId == e && db.tickets[t].number.Some?
  }

  /** 1 in an epic without numbered tickets, and otherwise one more than the largest. */
  ghost predicate IsNextTicket(db: Db, e: Id, n: int) {
    if exists t :: Numbered(db, e, t)
    then
      && (exists t :: Numbered(db, e, t) && db.tickets[t].number.value == n - 1)
      && forall t | Numbered(db, e, t) :: db.tickets[t].number.value <= n - 1
    else n == 1
  }

  ghost predicate Belongs(db: Db, s: Id, e: Id) {
    e in db.epics && db.epics[e].specId == s
  }

  /** 1 in a spec without epics, and otherwise one more than the largest. */
  ghost predicate IsNextEpic(db: Db, s: Id, n: int) {
    if exists e :: Belongs(db, s, e)
    then
      && (exists e :: Belongs(db, s, e) && db.epics[e].number == n - 1)
      && forall e | Belongs(db, s, e) :: db.epics[e].number <= n - 1
    else n == 1
  }

  lemma {:induction false} NumberedTicket(tickets: map<Id, TicketRow>, ids: seq<Id>, n: int) returns (t: Id)
    requires (forall t | t in ids :: t in tickets) && n in TicketNumbers(tickets, ids)
    ensures t in ids && tickets[t].number == Some(n)
    decreases |ids|
  {
    t := ids[0];
    if tickets[t].number != Some(n) {
      t := NumberedTicket(tickets, ids[1..], n);
    }
  }

  lemma {:induction false} NumberedEpic(epics: map<Id, EpicRow>, ids: seq<Id>, n: int) returns (e: Id)
    requires (forall e | e in ids :: e in epics) && n in EpicNumbers(epics, ids)
    ensures e in ids && epics[e].number == n
    decreases |ids|
  {
    e := ids[0];
    if epics[e].number != n {
      e := NumberedEpic(epics, ids[1..], n);
    }
  }

  lemma TopTicket(db: Db, e: Id, n: int, t: Id)
    requires Numbered(db, e, t) && db.tickets[t].number.value == n - 1
    requires forall u | Numbered(db, e, u) :: db.tickets[u].number.value <= n - 1
    ensures IsNextTicket(db, e, n)
  {
  }

  lemma TopEpic(db: Db, s: Id, n: int, e: Id)
    requires Belongs(db, s, e) && db.epics[e].number == n - 1
    requires forall f | Belongs(db, s, f) :: db.epics[f].number <= n - 1
    ensures IsNextEpic(db, s, n)
  {
  }

  lemma NextTicketIs(db: Db, e: Id)
    ensures IsNextTicket(db, e, NextTicketNumber(db, e))
  {
    var ids := Ordering.Sorted(Verbs.TicketsOfEpic(db, e));
    SortedIn(Verbs.TicketsOfEpic(db, e));
    var ns := TicketNumbers(db.tickets, ids);
    forall t | Numbered(db, e, t)
      ensures db.tickets[t].number.value in ns
    {
      assert t in ids;
    }
    if ns != [] {
      var t := NumberedTicket(db.tickets, ids, Highest(ns));
      TopTicket(db, e, NextTicketNumber(db, e), t);
    }
  }

  lemma NextEpicIs(db: Db, s: Id)
    ensures IsNextEpic(db, s, NextEpicNumber(db, s))
  {
    var ids := Ordering.Sorted(EpicsOf(db, s).Keys);
    SortedIn(EpicsOf(db, s).Keys);
    var ns := EpicNumbers(db.epics, ids);
    forall e | Belongs(db, s, e)
      ensures db.epics[e].number in ns
    {
      assert e in ids;
    }
    if ns != [] {
      var e := NumberedEpic(db.epics, ids, Highest(ns));
      TopEpic(db, s, NextEpicNumber(db, s), e);
    }
  }

  /** The white space `str.strip` takes off. */
  ghost predicate White(c: char) {
    c as int in {9, 10, 11, 12, 13, 28, 29, 30, 31, 32, 0x85, 0xA0, 0x1680, 0x2000, 0x2001, 0x2002, 0x2003, 0x2004,
                 0x2005, 0x2006, 0x2007, 0x2008, 0x2009, 0x200A, 0x2028, 0x2029, 0x202F, 0x205F, 0x3000}
  }

  ghost predicate HasText(s: string) {
    exists i :: 0 <= i < |s| && !White(s[i])
  }

  /** `t` is `s` without the white space around it. */
  ghost predicate Trimmed(s: string, t: string) {
    exists i, j :: 0 <= i <= j <= |s| && IsCut(s, i, j) && t == s[i..j]
  }

  ghost predicate IsCut(s: string, i: nat, j: nat)
    requires i <= j <= |s|
  {
    && (forall k | 0 <= k < i :: White(s[k])) && (forall k | j <= k < |s| :: White(s[k]))
    && (i < j ==> !White(s[i]) && !White(s[j - 1]))
  }

  lemma {:induction false} LeftCut(s: string) returns (i: nat)
    ensures i <= |s| && TrimLeft(s) == s[i..] && (forall k | 0 <= k < i :: White(s[k])) && (i < |s| ==> !White(s[i]))
    decreases |s|
  {
    i := 0;
    if s != "" && Blank(s[0]) {
      var j := LeftCut(s[1..]);
      i := j + 1;
      assert forall k | 1 <= k < i :: s[k] == s[1..][k - 1];
    }
  }

  lemma {:induction false} RightCut(s: string) returns (j: nat)
    ensures j <= |s| && TrimRight(s) == s[..j] && (forall k | j <= k < |s| :: White(s[k])) && (j > 0 ==> !White(s[j - 1]))
    decreases |s|
  {
    j := |s|;
    if s != "" && Blank(s[|s| - 1]) {
      j := RightCut(s[..|s| - 1]);
    }
  }

  lemma TrimIs(s: string)
    ensures Trimmed(s, Trim(s)) && (Trim(s) == "" <==> !HasText(s))
  {
    var i := LeftCut(s);
    var n := RightCut(s[i..]);
    var j := i + n;
    assert s[i..][..n] == s[i..j];
    forall k | j <= k < |s|
      ensures White(s[k])
    {
      assert s[k] == s[i..][k - i];
    }
    if n > 0 {
      assert s[i..][n - 1] == s[j - 1] && s[i..][0] == s[i];
    }
    assert IsCut(s, i, j);
  }

  ghost predicate NewTicketColumns(db: Db, e: Id, title: string, number: Option<int>, estimate: Option<int>, next: TicketRow) {
    && next.epicId == e && Trimmed(title, next.title)
    && next.number.Some? && (if number.Some? then next.number == number else IsNextTicket(db, e, next.number.value))
    && next.estimate == (if estimate.Some? then estimate else Some(0))
  }

  /** The row of a new ticket: nothing depends on it and it depends on nothing, so a status
      that is not done or active becomes ready. */
  ghost predicate TicketCreated(db: Db, e: Id, id: Id, title: string, number: Option<int>, estimate: Option<int>,
                                status: Status, after: Db) {
    && id in after.tickets && NewTicketColumns(db, e, title, number, estimate, after.tickets[id])
    && after.tickets[id].status == (if status == Done || status == Active then status else Ready)
    && after.tickets[id].progress == (if status == Done then 100 else 0)
  }

  lemma NewTicketIs(db: Db, e: Id, title: string, number: Option<int>, estimate: Option<int>, status: Status)
    ensures var row := NewTicket(db, e, title, number, estimate, status);
            NewTicketColumns(db, e, title, number, estimate, row) && row.status == status
  {
    TrimIs(title);
    NextTicketIs(db, e);
  }

  lemma NoDependencies(db: Db, id: Id, after: Db, s: Id)
    requires ForeignKeys(db) && id !in db.tickets && after.deps == db.deps
    ensures forall d :: !WaitsFor(after, id, s, d)
  {
    forall d
      ensures !WaitsFor(after, id, s, d)
    {
      assert Edge(id, d).src == id;
    }
  }

  lemma NewRow(db: Db, id: Id, s: Id, row: TicketRow, after: Db)
    requires ForeignKeys(db) && EpicIn(db.epics, row.epicId, s) && s in db.specs && id !in db.tickets
    requires Recomputed(PutTicket(db, id, row), after, {s}) && Sound(after)
    ensures Kept(db, after, {id}, {}, {}) && SameLists(db, after)
    ensures id in after.tickets && SameTicketColumns(row, after.tickets[id])
    ensures row.status == Pending || row.status == Ready ==> after.tickets[id].status == Ready
    ensures after.tickets[id].progress == if after.tickets[id].status == Done then 100 else 0
  {
    TicketWritten(db, id, s, row, after);
    NoDependencies(db, id, after, s);
    assert InSpec(after, id, s) by {
      assert SameEpicColumns(db.epics[row.epicId], after.epics[row.epicId]);
    }
  }

  lemma CreatedFrom(db: Db, e: Id, id: Id, title: string, number: Option<int>, estimate: Option<int>, status: Status,
                    row: TicketRow, after: Db)
    requires row == NewTicket(db, e, title, number, estimate, status) && status != Unknown
    requires id in after.tickets && SameTicketColumns(row, after.tickets[id])
    requires row.status == Pending || row.status == Ready ==> after.tickets[id].status == Ready
    requires after.tickets[id].progress == if after.tickets[id].status == Done then 100 else 0
    ensures TicketCreated(db, e, id, title, number, estimate, status, after)
  {
    NewTicketIs(db, e, title, number, estimate, status);
  }

  lemma CreateTicketOutcome(db: Db, e: Id, id: Id, title: string, number: Option<int>, estimate: Option<int>,
                            status: Status, after: Db)
    requires ForeignKeys(db) && id !in db.tickets && e in db.epics && status != Unknown
    requires Sound(after)
    requires Recomputed(PutTicket(db, id, NewTicket(db, e, title, number, estimate, status)), after, {db.epics[e].specId})
    ensures TicketCreated(db, e, id, title, number, estimate, status, after)
    ensures Kept(db, after, {id}, {}, {}) && SameLists(db, after)
  {
    var s, row := db.epics[e].specId, NewTicket(db, e, title, number, estimate, status);
    NewRow(db, id, s, row, after);
    CreatedFrom(db, e, id, title, number, estimate, status, row, after);
  }

  /** The row of a new epic. */
  ghost predicate EpicCreated(db: Db, s: Id, id: Id, title: string, number: Option<int>, after: Db) {
    && id in after.epics && after.epics[id].specId == s && Trimmed(title, after.epics[id].title)
    && if number.Some? then after.epics[id].number == number.value else IsNextEpic(db, s, after.epics[id].number)
  }

  lemma CreateEpicOutcome(db: Db, s: Id, id: Id, title: string, number: Option<int>, after: Db)
    requires ForeignKeys(db) && id !in db.epics && s in db.specs
    requires Recomputed(PutEpic(db, id, NewEpic(db, s, title, number)), after, {s})
    ensures EpicCreated(db, s, id, title, number, after) && Kept(db, after, {}, {id}, {}) && SameLists(db, after)
  {
    var row := NewEpic(db, s, title, number);
    TrimIs(title);
    NextEpicIs(db, s);
    WorklistKeeps(PutEpic(db, id, row), after, {s});
    PutEpicKeeps(db, id, row, after);
  }

  // ---------------------------------------------------------------------------
  // Edges, links and blueprints
  // ---------------------------------------------------------------------------

  ghost predicate DepsWritten(db: Db, deps: set<Edge>, after: Db) {
    && Kept(db, after, {}, {}, {}) && after.deps == deps && after.blueprints == db.blueprints && after.refs == db.refs
  }

  ghost predicate RefsWritten(db: Db, refs: set<BlueprintRef>, after: Db) {
    && Kept(db, after, {}, {}, {}) && after.deps == db.deps && after.blueprints == db.blueprints && after.refs == refs
  }

  ghost predicate BlueprintWritten(db: Db, b: Id, s: Id, after: Db) {
    && Kept(db, after, {}, {}, {}) && after.deps == db.deps && after.refs == db.refs
    && after.blueprints == db.blueprints[b := s]
  }

  lemma ListsKeep(db: Db, mid: Db, after: Db, S: set<Id>)
    requires Recomputed(mid, after, S) && ForeignKeys(mid)
    requires mid == db.(deps := mid.deps, blueprints := mid.blueprints, refs := mid.refs)
    ensures Kept(db, after, {}, {}, {}) && SameLists(mid, after)
  {
    WorklistKeeps(mid, after, S);
  }

  // ---------------------------------------------------------------------------
  // Deletes
  // ---------------------------------------------------------------------------

  /** The rows are gone, and with them exactly the edges and links that named one of them. */
  ghost predicate Gone(db: Db, es: set<Id>, ts: set<Id>, bs: set<Id>, after: Db) {
    && es !! after.epics.Keys && ts !! after.tickets.Keys
    && (forall d :: d in after.deps <==> d in db.deps && d.src !in ts && d.dst !in ts)
    && (forall b :: b in after.blueprints <==> b in db.blueprints && b !in bs)
    && (forall b | b in after.blueprints :: after.blueprints[b] == db.blueprints[b])
    && (forall r :: r in after.refs <==> r in db.refs && r.ticketId !in ts && r.blueprintId !in bs)
  }

  lemma RowsDropped(db: Db, mid: Db, es: set<Id>, ts: set<Id>, after: Db)
    requires mid.tickets == db.tickets - ts && mid.epics == db.epics - es
    requires TicketsKept(mid, after, {}) && EpicsKept(mid, after, {})
    ensures TicketsKept(db, after, ts) && EpicsKept(db, after, es) && es !! after.epics.Keys && ts !! after.tickets.Keys
  {
    assert after.tickets.Keys - {} == after.tickets.Keys && mid.tickets.Keys - {} == mid.tickets.Keys;
    assert after.epics.Keys - {} == after.epics.Keys && mid.epics.Keys - {} == mid.epics.Keys;
    assert mid.tickets.Keys == db.tickets.Keys - ts && mid.epics.Keys == db.epics.Keys - es;
    forall u | u in db.tickets && u !in ts
      ensures u in after.tickets && SameTicketColumns(db.tickets[u], after.tickets[u])
    {
      assert u in mid.tickets && mid.tickets[u] == db.tickets[u];
    }
    forall e | e in db.epics && e !in es
      ensures e in after.epics && SameEpicColumns(db.epics[e], after.epics[e])
    {
      assert e in mid.epics && mid.epics[e] == db.epics[e];
    }
  }

  lemma DropKeeps(db: Db, es: set<Id>, ts: set<Id>, bs: set<Id>, mid: Db, after: Db)
    requires mid == Drop(db, es, ts, bs).(specs := mid.specs)
    requires Kept(mid, after, {}, {}, {}) && SameLists(mid, after)
    ensures TicketsKept(db, after, ts) && EpicsKept(db, after, es) && Gone(db, es, ts, bs, after)
    ensures after.projects.Keys == db.projects.Keys
  {
    RowsDropped(db, mid, es, ts, after);
  }

  lemma DropShows(db: Db, es: set<Id>, ts: set<Id>, bs: set<Id>, after: Db, S: set<Id>)
    requires ForeignKeys(db) && DropsWhole(db, es, ts) && Recomputed(Drop(db, es, ts, bs), after, S)
    ensures Kept(db, after, ts, es, {}) && Gone(db, es, ts, bs, after)
  {
    DropKeepsKeys(db, es, ts, bs);
    var mid := Drop(db, es, ts, bs);
    WorklistKeeps(mid, after, S);
    DropKeeps(db, es, ts, bs, mid, after);
    assert SpecsKept(db, after, {});
  }

  ghost predicate TicketGone(db: Db, t: Id, after: Db) {
    Kept(db, after, {t}, {}, {}) && Gone(db, {}, {t}, {}, after)
  }

  /** The epic goes with its tickets. */
  ghost predicate EpicGone(db: Db, e: Id, after: Db) {
    var ts := set t | t in db.tickets && db.tickets[t].epicId == e;
    Kept(db, after, ts, {e}, {}) && Gone(db, {e}, ts, {}, after)
  }

  ghost predicate BlueprintGone(db: Db, b: Id, after: Db) {
    Kept(db, after, {}, {}, {}) && Gone(db, {}, {}, {b}, after)
  }

  /** The spec goes with its epics, their tickets and its blueprints. */
  ghost predicate SpecGone(db: Db, s: Id, after: Db) {
    var es := set e | e in db.epics && db.epics[e].specId == s;
    var ts := set t | t in db.tickets && InSpec(db, t, s);
    var bs := set b | b in db.blueprints && db.blueprints[b] == s;
    Kept(db, after, ts, es, {s}) && Gone(db, es, ts, bs, after) && s !in after.specs
  }

  lemma EpicTickets(db: Db, e: Id)
    ensures Verbs.TicketsOfEpic(db, e) == set t | t in db.tickets && db.tickets[t].epicId == e
    ensures DropsWhole(db, {e}, Verbs.TicketsOfEpic(db, e))
  {
  }

  lemma EpicGoes(db: Db, e: Id, after: Db, S: set<Id>)
    requires ForeignKeys(db) && Recomputed(Drop(db, {e}, Verbs.TicketsOfEpic(db, e), {}), after, S)
    ensures EpicGone(db, e, after)
  {
    EpicTickets(db, e);
    DropShows(db, {e}, Verbs.TicketsOfEpic(db, e), {}, after, S);
  }

  lemma SpecDropKeeps(db: Db, s: Id, mid: Db, after: Db)
    requires mid.specs == db.specs - {s} && SpecsKept(mid, after, {})
    ensures SpecsKept(db, after, {s}) && s !in after.specs
  {
    assert after.specs.Keys - {} == after.specs.Keys && mid.specs.Keys - {} == mid.specs.Keys;
    assert mid.specs.Keys == db.specs.Keys - {s};
    forall x | x in db.specs && x !in {s}
      ensures x in after.specs && SameSpecColumns(db.specs[x], after.specs[x])
    {
      assert x in mid.specs && mid.specs[x] == db.specs[x];
    }
  }

  lemma SpecSets(db: Db, s: Id)
    ensures EpicsOf(db, s).Keys == set e | e in db.epics && db.epics[e].specId == s
    ensures TicketsOf(db, s).Keys == set t | t in db.tickets && InSpec(db, t, s)
  {
  }

  lemma SpecRowsGo(db: Db, s: Id, mid: Db, after: Db)
    requires mid == DropSpec(db, s) && Kept(mid, after, {}, {}, {}) && SameLists(mid, after)
    ensures SpecGone(db, s, after)
  {
    DropKeeps(db, EpicsOf(db, s).Keys, TicketsOf(db, s).Keys, BlueprintIdsOf(db, s), mid, after);
    SpecDropKeeps(db, s, mid, after);
    SpecSets(db, s);
  }

  lemma SpecGoes(db: Db, s: Id, after: Db)
    requires ForeignKeys(db) && Recomputed(DropSpec(db, s), after, {})
    ensures SpecGone(db, s, after)
  {
    DropSpecWhole(db, s);
    WorklistKeeps(DropSpec(db, s), after, {});
    SpecRowsGo(db, s, DropSpec(db, s), after);
  }

  // ---------------------------------------------------------------------------
  // Refusals
  // ---------------------------------------------------------------------------

  ghost predicate ReadOnly(db: Db, s: Id) {
    s in db.specs && (db.specs[s].status == SpecDone || db.specs[s].status == Reviewed)
  }

  ghost predicate ClosedToNew(db: Db, s: Id) {
    ReadOnly(db, s) || (s in db.specs && db.specs[s].status == InReview)
  }

  lemma CreateSpecificationRefusals(db: Db, p: Id, title: string)
    ensures var error := CreateSpecificationError(db, p, title);
            && (error == None <==> HasText(title) && p in db.projects)
            && (error.Some? ==> error == Some(ValidationFailed))
  {
    TrimIs(title);
  }

  /** Also when a blueprint is refused. */
  lemma CreateEpicRefusals(db: Db, s: Id, title: string)
    ensures var error := CreateEpicError(db, s, title);
            && (error == Some(ValidationFailed) <==> !HasText(title))
            && (error == Some(NotFound) <==> HasText(title) && s !in db.specs)
            && (error == Some(PreconditionFailed) <==> HasText(title) && ClosedToNew(db, s))
            && error != Some(Conflict)
  {
    TrimIs(title);
  }

  lemma CreateTicketRefusals(db: Db, e: Id, title: string, status: Status)
    requires ForeignKeys(db)
    ensures var error := CreateTicketError(db, e, title, status);
            var frozen := e in db.epics && ClosedToNew(db, db.epics[e].specId);
            && (error == Some(ValidationFailed) <==> !HasText(title) || (e in db.epics && !frozen && status == Unknown))
            && (error == Some(NotFound) <==> HasText(title) && e !in db.epics)
            && (error == Some(PreconditionFailed) <==> HasText(title) && frozen)
            && error != Some(Conflict)
  {
    TrimIs(title);
  }

  lemma UpdateSpecificationRefusals(db: Db, s: Id)
    ensures var error := UpdateSpecificationError(db, s);
            && (error == Some(NotFound) <==> s !in db.specs) && (error == Some(PreconditionFailed) <==> ReadOnly(db, s))
            && (error == None <==> s in db.specs && !ReadOnly(db, s))
  {
  }

  lemma UpdateEpicRefusals(db: Db, e: Id)
    requires ForeignKeys(db)
    ensures var error := UpdateEpicError(db, e);
            && (error == Some(NotFound) <==> e !in db.epics)
            && (error == Some(PreconditionFailed) <==> e in db.epics && ReadOnly(db, db.epics[e].specId))
            && (error == None <==> e in db.epics && !ReadOnly(db, db.epics[e].specId))
  {
  }

  lemma UpdateTicketRefusals(db: Db, t: Id, change: TicketChange)
    requires ForeignKeys(db)
    ensures var error := UpdateTicketError(db, t, change);
            var frozen := t in db.tickets && ReadOnly(db, db.epics[db.tickets[t].epicId].specId);
            && (error == Some(NotFound) <==> t !in db.tickets)
            && (error == Some(PreconditionFailed) <==> frozen)
            && (error == Some(ValidationFailed)
                <==> t in db.tickets && !frozen
                     && (change.status == Some(Unknown) || (change.epicId.Some? && change.epicId.value !in db.epics)))
            && error != Some(Conflict)
  {
  }

  lemma LinkRefusals(db: Db, r: BlueprintRef)
    ensures var error := LinkError(db, r);
            && (error == Some(NotFound) <==> r.ticketId !in db.tickets || r.blueprintId !in db.blueprints)
            && (error == Some(Conflict) <==> r.ticketId in db.tickets && r.blueprintId in db.blueprints && r in db.refs)
            && (error.Some? ==> error == Some(NotFound) || error == Some(Conflict))
  {
  }

  /** A dependency is refused for a self-edge, an unknown end, ends in different specs, an
      edge already there, or a walk back from the other end inside the edges of the spec. */
  lemma AddDependencyRefusals(db: Db, t: Id, d: Id, s: Id)
    requires ForeignKeys(db) && (t in db.tickets ==> InSpec(db, t, s))
    ensures var error := AddDependencyError(db, t, d);
            var known := t in db.tickets && d in db.tickets;
            && (error == Some(ValidationFailed) <==> t == d || (known && !InSpec(db, d, s)))
            && (error == Some(NotFound) <==> t != d && !known)
            && (error == Some(Conflict)
                <==> t != d && known && InSpec(db, d, s) && (Edge(t, d) in db.deps || Reach(EdgesOutOf(db, s), d, t)))
            && error != Some(PreconditionFailed)
  {
  }

  // ---------------------------------------------------------------------------
  // Batches of dependencies
  // ---------------------------------------------------------------------------

  /** Why item `i` of a batch is refused, if it is. */
  ghost function Verdict(db: Db, items: seq<Edge>, i: nat): Option<Error>
    requires i < |items|
  {
    var e := items[i];
    if e.src == e.dst || e.src !in db.tickets || e.dst !in db.tickets then Some(ValidationFailed)
    else if e in db.deps || exists j :: 0 <= j < i && items[j] == e then Some(Conflict)
    else None
  }

  ghost function Refused(db: Db, items: seq<Edge>, n: nat): seq<DependencyFailure>
    requires n <= |items|
  {
    if n == 0 then []
    else
      var verdict := Verdict(db, items, n - 1);
      Refused(db, items, n - 1) + (if verdict.Some? then [DependencyFailure(items[n - 1], verdict.value)] else [])
  }

  /** A batch adds exactly the edges between two different known tickets. */
  ghost predicate BulkWritten(db: Db, items: seq<Edge>, after: Db) {
    DepsWritten(db, db.deps + (set e | e in items && e.src != e.dst && e.src in db.tickets && e.dst in db.tickets), after)
  }

  lemma BulkOutcome(db: Db, items: seq<Edge>, after: Db, S: set<Id>)
    requires Recomputed(db.(deps := BulkDeps(db, items)), after, S) && ForeignKeys(db.(deps := BulkDeps(db, items)))
    ensures BulkWritten(db, items, after)
  {
    FittingEdges(db, items);
    ListsKeep(db, db.(deps := BulkDeps(db, items)), after, S);
  }

  lemma FittingEdges(db: Db, items: seq<Edge>)
    ensures BulkDeps(db, items)
            == db.deps + set e | e in items && e.src != e.dst && e.src in db.tickets && e.dst in db.tickets
  {
  }

  lemma {:induction false} BulkRefusals(db: Db, items: seq<Edge>, n: nat)
    requires n <= |items|
    ensures BulkFailures(db, items[..n]) == Refused(db, items, n)
    decreases n
  {
    if n > 0 {
      BulkRefusals(db, items, n - 1);
      BulkStep(db, items, n - 1);
      var e := items[n - 1];
      assert e in items[..n - 1] <==> exists j :: 0 <= j < n - 1 && items[j] == e;
    }
  }
}
