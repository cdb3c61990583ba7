/** The count rollups (`counts`): each derivation loop, what it computes, and the
    conservation laws that tie the levels together. */
module Counts {
  import opened Graph
  import opened Ordering
  import opened Types

  // ---------------------------------------------------------------------------
  // Progress
  // ---------------------------------------------------------------------------

  /** Half-up percentage over exact rationals. */
  function ProgressPct(completed: nat, total: nat): int {
    if total == 0 then 0
    else ((completed as real / total as real) * 100.0 + 0.5).Floor
  }

  lemma CastProduct(d: nat, a: int, k: real)
    requires k == d as real
    ensures (d * a) as real == (a as real) * k
  {
  }

  lemma FloorBelow(x: real, n: int, d: nat, k: real, p: int)
    requires k == d as real && k > 0.0 && x * k == n as real && p as real <= x
    ensures d * p <= n
  {
    ScaleReal(p as real, x, k);
    CastProduct(d, p, k);
  }

  lemma FloorAbove(x: real, n: int, d: nat, k: real, p: int)
    requires k == d as real && k > 0.0 && x * k == n as real && x < p as real
    ensures n < d * p
  {
    ScaleRealStrict(x, p as real, k);
    CastProduct(d, p, k);
  }

  lemma FloorBracket(x: real, n: int, d: nat)
    requires d > 0 && x * (d as real) == n as real
    ensures d * x.Floor <= n < d * (x.Floor + 1)
  {
    FloorBelow(x, n, d, d as real, x.Floor);
    FloorAbove(x, n, d, d as real, x.Floor + 1);
  }

  /** The percentage is the integer part of (200c + t) / 2t. */
  lemma ProgressBracket(c: nat, t: nat)
    requires t > 0
    ensures var p := ProgressPct(c, t);
            2 * t * p <= 200 * c + t < 2 * t * (p + 1)
  {
    var q := c as real / t as real;
    var x := q * 100.0 + 0.5;
    var T := t as real;
    assert q * T == c as real;
    assert x * (2.0 * T) == 200.0 * (q * T) + T;
    assert (2 * t) as real == 2.0 * T;
    FloorBracket(x, 200 * c + t, 2 * t);
  }

  lemma ScaleReal(a: real, b: real, k: real)
    requires a <= b && k > 0.0
    ensures a * k <= b * k
  {
  }

  lemma ScaleRealStrict(a: real, b: real, k: real)
    requires a < b && k > 0.0
    ensures a * k < b * k
  {
  }

  lemma ProductBelow(t: nat, p: int, q: int)
    requires t > 0 && t * p < t * q
    ensures p < q
  {
    assert t * p == t * q + t * (p - q);
    assert p >= q ==> t * (p - q) >= 0;
  }

  /** Progress is a percentage, and it is 100 exactly when at most half a percent is left. */
  lemma ProgressRange(c: nat, t: nat)
    requires c <= t
    ensures 0 <= ProgressPct(c, t) <= 100
    ensures ProgressPct(c, t) == 100 <==> t > 0 && 200 * (t - c) <= t
  {
    if t > 0 {
      var p := ProgressPct(c, t);
      ProgressBracket(c, t);
      assert 2 * t * p == (2 * t) * p && 2 * t * (p + 1) == (2 * t) * (p + 1);
      assert (2 * t) * 0 < (2 * t) * (p + 1);
      ProductBelow(2 * t, 0, p + 1);
      assert (2 * t) * p < (2 * t) * 101;
      ProductBelow(2 * t, p, 101);
      if 200 * (t - c) <= t {
        assert (2 * t) * 100 < (2 * t) * (p + 1);
        ProductBelow(2 * t, 100, p + 1);
      }
    }
  }

  lemma ProgressMonotone(c: nat, d: nat, t: nat)
    requires c <= d
    ensures ProgressPct(c, t) <= ProgressPct(d, t)
  {
    if t > 0 {
      var p, q := ProgressPct(c, t), ProgressPct(d, t);
      ProgressBracket(c, t);
      ProgressBracket(d, t);
      assert 2 * t * p == (2 * t) * p && 2 * t * (q + 1) == (2 * t) * (q + 1);
      ProductBelow(2 * t, p, q + 1);
    }
  }

  // ---------------------------------------------------------------------------
  // Ticket tallies
  // ---------------------------------------------------------------------------

  datatype TicketTally = TicketTally(
    ticketCount: nat, pending: nat, ready: nat, active: nat, completed: nat, estimatedMinutes: int)

  function CountStatus(tickets: seq<TicketNode>, s: Status): nat {
    if |tickets| == 0 then 0
    else CountStatus(tickets[..|tickets| - 1], s) + (if tickets[|tickets| - 1].status == s then 1 else 0)
  }

  function Estimates(tickets: seq<TicketNode>): int {
    if |tickets| == 0 then 0
    else
      var e := tickets[|tickets| - 1].estimatedMinutes;
      Estimates(tickets[..|tickets| - 1]) + (if e.Some? then e.value else 0)
  }

  function Tally(tickets: seq<TicketNode>): TicketTally {
    TicketTally(|tickets|, CountStatus(tickets, Pending), CountStatus(tickets, Ready),
                CountStatus(tickets, Active), CountStatus(tickets, Done), Estimates(tickets))
  }

  method TallyTickets(tickets: seq<TicketNode>) returns (tally: TicketTally)
    ensures tally == Tally(tickets)
  {
    var pending, ready, active, completed := 0, 0, 0, 0;
    var estimatedMinutes := 0;
    for i := 0 to |tickets|
      invariant Tally(tickets[..i]) == TicketTally(i, pending, ready, active, completed, estimatedMinutes)
    {
      var t := tickets[i];
      assert tickets[..i + 1][..i] == tickets[..i];
      if t.status == Pending {
        pending := pending + 1;
      } else if t.status == Ready {
        ready := ready + 1;
      } else if t.status == Active {
        active := active + 1;
      } else if t.status == Done {
        completed := completed + 1;
      }
      estimatedMinutes := estimatedMinutes + (if t.estimatedMinutes.Some? then t.estimatedMinutes.value else 0);
    }
    assert tickets[..|tickets|] == tickets;
    tally := TicketTally(|tickets|, pending, ready, active, completed, estimatedMinutes);
  }

  /** The status buckets partition the tickets when every status is one of the four. */
  lemma {:induction false} BucketsPartition(tickets: seq<TicketNode>)
    ensures var t := Tally(tickets);
            t.pending + t.ready + t.active + t.completed + CountStatus(tickets, Unknown) == t.ticketCount
    decreases |tickets|
  {
    if |tickets| > 0 {
      BucketsPartition(tickets[..|tickets| - 1]);
    }
  }

  lemma {:induction false} TallyConcat(a: seq<TicketNode>, b: seq<TicketNode>)
    ensures forall s :: CountStatus(a + b, s) == CountStatus(a, s) + CountStatus(b, s)
    ensures Estimates(a + b) == Estimates(a) + Estimates(b)
    decreases |b|
  {
    if |b| == 0 {
      assert a + b == a;
    } else {
      TallyConcat(a, b[..|b| - 1]);
      assert (a + b)[..|a + b| - 1] == a + b[..|b| - 1];
    }
  }

  lemma TallyOne(t: TicketNode)
    ensures forall s :: CountStatus([t], s) == if t.status == s then 1 else 0
    ensures Estimates([t]) == if t.estimatedMinutes.Some? then t.estimatedMinutes.value else 0
  {
    assert [t][..0] == [];
  }

  function WithTicket(y: TicketTally, t: TicketNode): TicketTally {
    TicketTally(
      y.ticketCount + 1,
      y.pending + (if t.status == Pending then 1 else 0),
      y.ready + (if t.status == Ready then 1 else 0),
      y.active + (if t.status == Active then 1 else 0),
      y.completed + (if t.status == Done then 1 else 0),
      y.estimatedMinutes + (if t.estimatedMinutes.Some? then t.estimatedMinutes.value else 0))
  }

  /** What one row contributes, wherever it stands. */
  lemma TallyWithout(b: seq<TicketNode>, i: nat) returns (rest: seq<TicketNode>)
    requires i < |b|
    ensures |rest| == |b| - 1
    ensures multiset(rest) == multiset(b) - multiset{b[i]}
    ensures Tally(b) == WithTicket(Tally(rest), b[i])
  {
    rest := b[..i] + b[i + 1..];
    assert b == b[..i] + ([b[i]] + b[i + 1..]);
    TallyBetween(b[..i], b[i], b[i + 1..]);
    assert multiset(b) == multiset(b[..i]) + multiset([b[i]]) + multiset(b[i + 1..]);
  }

  lemma TallyBetween(before: seq<TicketNode>, t: TicketNode, after: seq<TicketNode>)
    ensures Tally(before + ([t] + after)) == WithTicket(Tally(before + after), t)
  {
    TallyOne(t);
    TallyConcat(before, [t] + after);
    TallyConcat([t], after);
    TallyConcat(before, after);
  }

  lemma SameLength(a: seq<TicketNode>, b: seq<TicketNode>)
    requires multiset(a) == multiset(b)
    ensures |a| == |b|
  {
    assert |a| == |multiset(a)| && |b| == |multiset(b)|;
  }

  /** A tally does not depend on the order in which the rows were read. */
  lemma {:induction false} TallyOrderFree(a: seq<TicketNode>, b: seq<TicketNode>)
    requires multiset(a) == multiset(b)
    ensures Tally(a) == Tally(b)
    decreases |a|
  {
    SameLength(a, b);
    if |a| == 0 {
      assert a == b;
    } else {
      var last := a[|a| - 1];
      assert last in multiset(b);
      var i :| 0 <= i < |b| && b[i] == last;
      var restB := TallyWithout(b, i);
      var restA := TallyWithout(a, |a| - 1);
      TallyOrderFree(restA, restB);
    }
  }

  // ---------------------------------------------------------------------------
  // Epics
  // ---------------------------------------------------------------------------

  datatype EpicStatus = Todo | InProgress | Completed

  datatype EpicCounts = EpicCounts(
    ticketCount: nat, pending: nat, ready: nat, active: nat, completed: nat,
    estimatedMinutes: int, progress: int, status: EpicStatus)

  function DeriveEpicStatus(ticketCount: nat, completed: nat, active: nat, progress: int): EpicStatus {
    if ticketCount == 0 then Todo
    else if progress == 100 then Completed
    else if active > 0 || completed > 0 then InProgress
    else Todo
  }

  function EpicCountsOf(tickets: seq<TicketNode>): EpicCounts {
    var t := Tally(tickets);
    var progress := ProgressPct(t.completed, t.ticketCount);
    EpicCounts(t.ticketCount, t.pending, t.ready, t.active, t.completed, t.estimatedMinutes, progress,
               DeriveEpicStatus(t.ticketCount, t.completed, t.active, progress))
  }

  method DeriveEpicCounts(tickets: seq<TicketNode>) returns (counts: EpicCounts)
    ensures counts == EpicCountsOf(tickets)
  {
    var t := TallyTickets(tickets);
    var progress := ProgressPct(t.completed, t.ticketCount);
    counts := EpicCounts(t.ticketCount, t.pending, t.ready, t.active, t.completed, t.estimatedMinutes, progress,
                         DeriveEpicStatus(t.ticketCount, t.completed, t.active, progress));
  }

  lemma {:induction false} DoneCountIsAll(tickets: seq<TicketNode>)
    ensures CountStatus(tickets, Done) <= |tickets|
    ensures CountStatus(tickets, Done) == |tickets| <==> forall t | t in tickets :: t.status == Done
    decreases |tickets|
  {
    if |tickets| > 0 {
      var init, last := tickets[..|tickets| - 1], tickets[|tickets| - 1];
      DoneCountIsAll(init);
      assert forall t :: t in tickets <==> t in init || t == last;
    }
  }

  /** An epic is completed exactly when at most one ticket in two hundred is open; with
      fewer than 200 tickets that means all of them are done. */
  lemma EpicCompletedIff(tickets: seq<TicketNode>)
    ensures EpicCountsOf(tickets).status == Completed
            <==> |tickets| > 0 && 200 * (|tickets| - CountStatus(tickets, Done)) <= |tickets|
    ensures 0 < |tickets| < 200 ==>
              (EpicCountsOf(tickets).status == Completed <==> forall t | t in tickets :: t.status == Done)
  {
    DoneCountIsAll(tickets);
    ProgressRange(CountStatus(tickets, Done), |tickets|);
  }

  lemma {:induction false} CountZeroIff(tickets: seq<TicketNode>, s: Status)
    ensures CountStatus(tickets, s) == 0 <==> forall t | t in tickets :: t.status != s
    decreases |tickets|
  {
    if |tickets| > 0 {
      var init, last := tickets[..|tickets| - 1], tickets[|tickets| - 1];
      CountZeroIff(init, s);
      assert forall t :: t in tickets <==> t in init || t == last;
    }
  }

  /** An epic is to do exactly when none of its tickets is active or done, as in an empty
      epic; otherwise it is in progress until at most one ticket in two hundred is open. */
  lemma EpicTodoIff(tickets: seq<TicketNode>)
    ensures EpicCountsOf(tickets).status == Todo
            <==> forall t | t in tickets :: t.status != Active && t.status != Done
    ensures EpicCountsOf(tickets).status == InProgress
            <==> (exists t :: t in tickets && (t.status == Active || t.status == Done))
                 && |tickets| < 200 * (|tickets| - CountStatus(tickets, Done))
  {
    CountZeroIff(tickets, Active);
    CountZeroIff(tickets, Done);
    DoneCountIsAll(tickets);
    EpicCompletedIff(tickets);
    ProgressRange(CountStatus(tickets, Done), |tickets|);
  }

  /** Progress is the percentage of the completed, rounded half up, and 0 of nothing. */
  lemma ProgressIsRounded(c: nat, t: nat)
    ensures t == 0 ==> ProgressPct(c, t) == 0
    ensures t > 0 ==> var p := ProgressPct(c, t);
                      2 * t * p <= 200 * c + t < 2 * t * (p + 1)
  {
    if t > 0 {
      ProgressBracket(c, t);
    }
  }

  function DoneTickets(n: nat): (tickets: seq<TicketNode>)
    ensures |tickets| == n
  {
    if n == 0 then [] else DoneTickets(n - 1) + [TicketNode(n - 1, Done, None, None, None, None)]
  }

  lemma {:induction false} AllOfThemDone(n: nat)
    ensures CountStatus(DoneTickets(n), Done) == n
  {
    if n > 0 {
      AllOfThemDone(n - 1);
      assert DoneTickets(n)[..n - 1] == DoneTickets(n - 1);
    }
  }

  /** Behind 199 done tickets a pending one no longer keeps its epic from being completed. */
  lemma OneLeftIsCompleted(n: nat)
    ensures var tickets := DoneTickets(n) + [TicketNode(n, Pending, None, None, None, None)];
            EpicCountsOf(tickets).status == Completed <==> n >= 199
  {
    var tickets := DoneTickets(n) + [TicketNode(n, Pending, None, None, None, None)];
    AllOfThemDone(n);
    assert tickets[..n] == DoneTickets(n);
    EpicCompletedIff(tickets);
  }

  // ---------------------------------------------------------------------------
  // Specifications
  // ---------------------------------------------------------------------------

  datatype SpecCounts = SpecCounts(
    epicCount: nat, todoEpics: nat, inProgressEpics: nat, completedEpics: nat,
    ticketCount: nat, completed: nat, pending: nat, ready: nat, active: nat,
    estimatedMinutes: int, progress: int)

  function CountEpics(epics: seq<EpicStatus>, s: EpicStatus): nat {
    if |epics| == 0 then 0
    else CountEpics(epics[..|epics| - 1], s) + (if epics[|epics| - 1] == s then 1 else 0)
  }

  function SpecCountsOf(epics: seq<EpicStatus>, tickets: seq<TicketNode>): SpecCounts {
    var t := Tally(tickets);
    SpecCounts(|epics|, CountEpics(epics, Todo), CountEpics(epics, InProgress), CountEpics(epics, Completed),
               t.ticketCount, t.completed, t.pending, t.ready, t.active,
               t.estimatedMinutes, ProgressPct(t.completed, t.ticketCount))
  }

  method DeriveSpecCounts(epics: seq<EpicStatus>, tickets: seq<TicketNode>) returns (counts: SpecCounts)
    ensures counts == SpecCountsOf(epics, tickets)
  {
    var todo, inProgress, completed := 0, 0, 0;
    for i := 0 to |epics|
      invariant todo == CountEpics(epics[..i], Todo)
      invariant inProgress == CountEpics(epics[..i], InProgress)
      invariant completed == CountEpics(epics[..i], Completed)
    {
      assert epics[..i + 1][..i] == epics[..i];
      if epics[i] == Todo {
        todo := todo + 1;
      } else if epics[i] == InProgress {
        inProgress := inProgress + 1;
      } else if epics[i] == Completed {
        completed := completed + 1;
      }
    }
    assert epics[..|epics|] == epics;
    var t := TallyTickets(tickets);
    counts := SpecCounts(|epics|, todo, inProgress, completed, t.ticketCount, t.completed, t.pending, t.ready,
                         t.active, t.estimatedMinutes, ProgressPct(t.completed, t.ticketCount));
  }

  lemma {:induction false} EpicBucketsPartition(epics: seq<EpicStatus>)
    ensures CountEpics(epics, Todo) + CountEpics(epics, InProgress) + CountEpics(epics, Completed) == |epics|
    decreases |epics|
  {
    if |epics| > 0 {
      EpicBucketsPartition(epics[..|epics| - 1]);
    }
  }

  // ---------------------------------------------------------------------------
  // Projects
  // ---------------------------------------------------------------------------

  datatype SpecStatus =
    | Draft | Planning | SpecReady | SpecInProgress | ReadyForReview | InReview | Reviewed | SpecDone

  datatype SpecCountsView = SpecCountsView(
    status: SpecStatus, epicCount: nat, completedEpics: nat, ticketCount: nat, completed: nat)

  datatype ProjectCounts = ProjectCounts(
    specCount: nat, completedSpecs: nat, draftSpecs: nat, planningSpecs: nat, readySpecs: nat,
    inProgressSpecs: nat, inReviewSpecs: nat,
    epicCount: nat, completedEpics: nat, ticketCount: nat, completed: nat)

  const NO_SPECS := ProjectCounts(0, 0, 0, 0, 0, 0, 0, 0, 0, 0, 0)

  function AddSpec(p: ProjectCounts, v: SpecCountsView): ProjectCounts {
    var q := p.(specCount := p.specCount + 1,
                epicCount := p.epicCount + v.epicCount,
                completedEpics := p.completedEpics + v.completedEpics,
                ticketCount := p.ticketCount + v.ticketCount,
                completed := p.completed + v.completed);
    match v.status
    case Draft => q.(draftSpecs := q.draftSpecs + 1)
    case Planning => q.(planningSpecs := q.planningSpecs + 1)
    case SpecReady => q.(readySpecs := q.readySpecs + 1)
    case SpecInProgress => q.(inProgressSpecs := q.inProgressSpecs + 1)
    case ReadyForReview => q.(inReviewSpecs := q.inReviewSpecs + 1)
    case InReview => q.(inReviewSpecs := q.inReviewSpecs + 1)
    case Reviewed => q.(inReviewSpecs := q.inReviewSpecs + 1)
    case SpecDone => q.(completedSpecs := q.completedSpecs + 1)
  }

  function ProjectCountsOf(specs: seq<SpecCountsView>): ProjectCounts {
    if |specs| == 0 then NO_SPECS
    else AddSpec(ProjectCountsOf(specs[..|specs| - 1]), specs[|specs| - 1])
  }

  method DeriveProjectCounts(specs: seq<SpecCountsView>) returns (counts: ProjectCounts)
    ensures counts == ProjectCountsOf(specs)
  {
    var draft, planning, ready, inProgress, inReview, done := 0, 0, 0, 0, 0, 0;
    var epicCount: nat, completedEpics: nat, ticketCount: nat, completed: nat := 0, 0, 0, 0;
    for i := 0 to |specs|
      invariant ProjectCountsOf(specs[..i])
                == ProjectCounts(i, done, draft, planning, ready, inProgress, inReview,
                                 epicCount, completedEpics, ticketCount, completed)
    {
      var v := specs[i];
      assert specs[..i + 1][..i] == specs[..i];
      if v.status == Draft {
        draft := draft + 1;
      } else if v.status == Planning {
        planning := planning + 1;
      } else if v.status == SpecReady {
        ready := ready + 1;
      } else if v.status == SpecInProgress {
        inProgress := inProgress + 1;
      } else if v.status == ReadyForReview || v.status == InReview || v.status == Reviewed {
        inReview := inReview + 1;
      } else if v.status == SpecDone {
        done := done + 1;
      }
      epicCount := epicCount + v.epicCount;
      completedEpics := completedEpics + v.completedEpics;
      ticketCount := ticketCount + v.ticketCount;
      completed := completed + v.completed;
    }
    assert specs[..|specs|] == specs;
    counts := ProjectCounts(|specs|, done, draft, planning, ready, inProgress, inReview,
                            epicCount, completedEpics, ticketCount, completed);
  }

  /** The six buckets and the completed specs partition the project. */
  lemma {:induction false} SpecBucketsPartition(specs: seq<SpecCountsView>)
    ensures var p := ProjectCountsOf(specs);
            p.specCount == |specs|
            && p.draftSpecs + p.planningSpecs + p.readySpecs + p.inProgressSpecs + p.inReviewSpecs
               + p.completedSpecs == p.specCount
    decreases |specs|
  {
    if |specs| > 0 {
      SpecBucketsPartition(specs[..|specs| - 1]);
    }
  }

  function CountSpecs(specs: seq<SpecCountsView>, s: SpecStatus): nat {
    if |specs| == 0 then 0
    else CountSpecs(specs[..|specs| - 1], s) + (if specs[|specs| - 1].status == s then 1 else 0)
  }

  function SumSpecs(specs: seq<SpecCountsView>, f: SpecCountsView -> nat): nat {
    if |specs| == 0 then 0 else SumSpecs(specs[..|specs| - 1], f) + f(specs[|specs| - 1])
  }

  /** Each bucket is the number of specs with that status, the three review statuses in one
      bucket, and the other columns are sums over the specs. */
  lemma {:induction false} BucketsCountStatuses(specs: seq<SpecCountsView>)
    ensures var p := ProjectCountsOf(specs);
            && p.draftSpecs == CountSpecs(specs, Draft) && p.planningSpecs == CountSpecs(specs, Planning)
            && p.readySpecs == CountSpecs(specs, SpecReady) && p.inProgressSpecs == CountSpecs(specs, SpecInProgress)
            && p.inReviewSpecs
               == CountSpecs(specs, ReadyForReview) + CountSpecs(specs, InReview) + CountSpecs(specs, Reviewed)
            && p.completedSpecs == CountSpecs(specs, SpecDone)
    decreases |specs|
  {
    if |specs| > 0 {
      BucketsCountStatuses(specs[..|specs| - 1]);
    }
  }

  lemma {:induction false} ColumnsAreSums(specs: seq<SpecCountsView>)
    ensures var p := ProjectCountsOf(specs);
            && p.epicCount == SumSpecs(specs, (v: SpecCountsView) => v.epicCount)
            && p.completedEpics == SumSpecs(specs, (v: SpecCountsView) => v.completedEpics)
            && p.ticketCount == SumSpecs(specs, (v: SpecCountsView) => v.ticketCount)
            && p.completed == SumSpecs(specs, (v: SpecCountsView) => v.completed)
    decreases |specs|
  {
    if |specs| > 0 {
      ColumnsAreSums(specs[..|specs| - 1]);
    }
  }

  // ---------------------------------------------------------------------------
  // Dependencies
  // ---------------------------------------------------------------------------

  datatype DependencyCounts = DependencyCounts(
    incoming: map<Id, nat>, outgoing: map<Id, nat>, specification: nat, epic: map<Id, nat>)

  function Get(m: map<Id, nat>, k: Id): nat {
    if k in m then m[k] else 0
  }

  function Outgoing(edges: seq<Edge>, v: Id): nat {
    if |edges| == 0 then 0
    else Outgoing(edges[..|edges| - 1], v) + (if edges[|edges| - 1].src == v then 1 else 0)
  }

  function Incoming(edges: seq<Edge>, v: Id): nat {
    if |edges| == 0 then 0
    else Incoming(edges[..|edges| - 1], v) + (if edges[|edges| - 1].dst == v then 1 else 0)
  }

  predicate Inside(e: Edge, ticketEpic: map<Id, Id>, epic: Id) {
    e.src in ticketEpic && ticketEpic[e.src] == epic && e.dst in ticketEpic && ticketEpic[e.dst] == epic
  }

  /** The edges with both ends in the epic. */
  function IntraEpic(edges: seq<Edge>, ticketEpic: map<Id, Id>, epic: Id): nat {
    if |edges| == 0 then 0
    else IntraEpic(edges[..|edges| - 1], ticketEpic, epic)
         + (if Inside(edges[|edges| - 1], ticketEpic, epic) then 1 else 0)
  }

  function Bumped(m: map<Id, nat>, k: Id): map<Id, nat> {
    m[k := Get(m, k) + 1]
  }

  ghost predicate CountsEdges(edges: seq<Edge>, ticketEpic: map<Id, Id>, c: DependencyCounts) {
    && (forall v :: Get(c.incoming, v) == Incoming(edges, v))
    && (forall v :: Get(c.outgoing, v) == Outgoing(edges, v))
    && (forall k :: Get(c.epic, k) == IntraEpic(edges, ticketEpic, k))
    && c.specification == |edges|
  }

  method DeriveDependencyCounts(edges: seq<Edge>, ticketEpic: map<Id, Id>) returns (c: DependencyCounts)
    ensures CountsEdges(edges, ticketEpic, c)
  {
    var incoming: map<Id, nat>, outgoing: map<Id, nat>, epic: map<Id, nat> := map[], map[], map[];
    for i := 0 to |edges|
      invariant CountsEdges(edges[..i], ticketEpic, DependencyCounts(incoming, outgoing, i, epic))
    {
      var e := edges[i];
      ghost var was := DependencyCounts(incoming, outgoing, i, epic);
      assert edges[..i + 1][..i] == edges[..i];
      outgoing := Bumped(outgoing, e.src);
      incoming := Bumped(incoming, e.dst);
      if e.src in ticketEpic && e.dst in ticketEpic && ticketEpic[e.src] == ticketEpic[e.dst] {
        epic := Bumped(epic, ticketEpic[e.src]);
      }
      assert forall v :: Get(was.incoming, v) == Incoming(edges[..i], v);
      assert forall v :: Get(was.outgoing, v) == Outgoing(edges[..i], v);
      assert forall k :: Get(was.epic, k) == IntraEpic(edges[..i], ticketEpic, k);
    }
    assert edges[..|edges|] == edges;
    c := DependencyCounts(incoming, outgoing, |edges|, epic);
  }

  function SumIncoming(edges: seq<Edge>, ids: seq<Id>): nat {
    if |ids| == 0 then 0 else SumIncoming(edges, ids[..|ids| - 1]) + Incoming(edges, ids[|ids| - 1])
  }

  function SumOutgoing(edges: seq<Edge>, ids: seq<Id>): nat {
    if |ids| == 0 then 0 else SumOutgoing(edges, ids[..|ids| - 1]) + Outgoing(edges, ids[|ids| - 1])
  }

  lemma {:induction false} SumsGrow(edges: seq<Edge>, ids: seq<Id>)
    requires |edges| > 0 && Distinct(ids)
    ensures var init, e := edges[..|edges| - 1], edges[|edges| - 1];
            && SumIncoming(edges, ids) == SumIncoming(init, ids) + (if e.dst in ids then 1 else 0)
            && SumOutgoing(edges, ids) == SumOutgoing(init, ids) + (if e.src in ids then 1 else 0)
    decreases |ids|
  {
    if |ids| > 0 {
      var init, last := ids[..|ids| - 1], ids[|ids| - 1];
      SumsGrow(edges, init);
      assert forall v :: v in ids <==> v in init || v == last;
      assert last !in init;
    }
  }

  lemma {:induction false} SumsEmpty(ids: seq<Id>)
    ensures SumIncoming([], ids) == 0 && SumOutgoing([], ids) == 0
    decreases |ids|
  {
    if |ids| > 0 {
      SumsEmpty(ids[..|ids| - 1]);
    }
  }

  /** Over all tickets, the incoming counts and the outgoing counts each add up to the
      number of edges. */
  lemma {:induction false} DependencyCountsConserved(edges: seq<Edge>, ids: seq<Id>)
    requires Distinct(ids) && forall e | e in edges :: e.src in ids && e.dst in ids
    ensures SumIncoming(edges, ids) == |edges| && SumOutgoing(edges, ids) == |edges|
    decreases |edges|
  {
    if |edges| == 0 {
      SumsEmpty(ids);
      assert edges == [];
    } else {
      assert forall e | e in edges[..|edges| - 1] :: e in edges;
      DependencyCountsConserved(edges[..|edges| - 1], ids);
      SumsGrow(edges, ids);
      assert edges[|edges| - 1] in edges;
    }
  }

  // ---------------------------------------------------------------------------
  // Blueprints
  // ---------------------------------------------------------------------------

  datatype BlueprintRef = BlueprintRef(ticketId: Id, blueprintId: Id)

  datatype BlueprintCounts = BlueprintCounts(specification: nat, ticket: map<Id, nat>, epic: map<Id, nat>)

  function RefsOf(refs: seq<BlueprintRef>, ticket: Id): nat {
    if |refs| == 0 then 0
    else RefsOf(refs[..|refs| - 1], ticket) + (if refs[|refs| - 1].ticketId == ticket then 1 else 0)
  }

  /** The distinct blueprints linked by the epic's tickets. */
  function EpicBlueprints(refs: seq<BlueprintRef>, ticketEpic: map<Id, Id>, epic: Id): set<Id> {
    set r | r in refs && r.ticketId in ticketEpic && ticketEpic[r.ticketId] == epic :: r.blueprintId
  }

  function GetSet(m: map<Id, set<Id>>, k: Id): set<Id> {
    if k in m then m[k] else {}
  }

  method DeriveBlueprintCounts(blueprints: seq<Id>, refs: seq<BlueprintRef>, ticketEpic: map<Id, Id>)
    returns (c: BlueprintCounts)
    ensures c.specification == |blueprints|
    ensures forall t :: Get(c.ticket, t) == RefsOf(refs, t)
    ensures forall k :: Get(c.epic, k) == |EpicBlueprints(refs, ticketEpic, k)|
  {
    var ticketCounts: map<Id, nat> := map[];
    var epicIds: map<Id, set<Id>> := map[];
    for i := 0 to |refs|
      invariant forall t :: Get(ticketCounts, t) == RefsOf(refs[..i], t)
      invariant forall k :: GetSet(epicIds, k) == EpicBlueprints(refs[..i], ticketEpic, k)
    {
      var r := refs[i];
      ghost var wasT, wasE := ticketCounts, epicIds;
      assert refs[..i + 1][..i] == refs[..i];
      assert refs[..i + 1] == refs[..i] + [r];
      ticketCounts := Bumped(ticketCounts, r.ticketId);
      if r.ticketId in ticketEpic {
        var k := ticketEpic[r.ticketId];
        epicIds := epicIds[k := GetSet(epicIds, k) + {r.blueprintId}];
      }
      assert forall t :: Get(wasT, t) == RefsOf(refs[..i], t);
      forall k
        ensures GetSet(epicIds, k) == EpicBlueprints(refs[..i + 1], ticketEpic, k)
      {
        assert GetSet(wasE, k) == EpicBlueprints(refs[..i], ticketEpic, k);
        OneMoreRef(refs[..i], r, ticketEpic, k);
      }
    }
    assert refs[..|refs|] == refs;
    var epicCounts := map k | k in epicIds :: |epicIds[k]|;
    forall k
      ensures Get(epicCounts, k) == |EpicBlueprints(refs, ticketEpic, k)|
    {
      assert GetSet(epicIds, k) == EpicBlueprints(refs, ticketEpic, k);
    }
    c := BlueprintCounts(|blueprints|, ticketCounts, epicCounts);
  }

  lemma OneMoreRef(refs: seq<BlueprintRef>, r: BlueprintRef, ticketEpic: map<Id, Id>, k: Id)
    ensures EpicBlueprints(refs + [r], ticketEpic, k)
            == if r.ticketId in ticketEpic && ticketEpic[r.ticketId] == k
               then EpicBlueprints(refs, ticketEpic, k) + {r.blueprintId}
               else EpicBlueprints(refs, ticketEpic, k)
  {
    assert forall s :: s in refs + [r] <==> s in refs || s == r;
  }
}
