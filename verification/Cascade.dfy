/** The status cascade run to its fixpoint, and the single-hop cascades that refine it. */
module Cascade {
  import opened Graph
  import opened Ordering
  import opened Types
  import opened StatusCalculator

  // ---------------------------------------------------------------------------
  // Edge scans
  // ---------------------------------------------------------------------------

  /** `items` without repetitions, in first-seen order. */
  function FirstSeen(items: seq<Id>): (r: seq<Id>)
    ensures Elems(r) == Elems(items) && Distinct(r)
  {
    if |items| == 0 then []
    else
      var init, last := items[..|items| - 1], items[|items| - 1];
      var r := FirstSeen(init);
      assert forall x :: x in items <==> x in init || x == last;
      assert forall x :: x in r <==> x in Elems(r);
      assert forall x :: x in init <==> x in Elems(init);
      if last in r then r else r + [last]
  }

  function Targets(edges: seq<Edge>, v: Id): (r: seq<Id>)
    ensures Elems(r) == DepsOf(Elems(edges), v)
  {
    if |edges| == 0 then []
    else
      var init, e := edges[..|edges| - 1], edges[|edges| - 1];
      assert forall f :: f in edges <==> f in init || f == e;
      assert forall x :: x in DepsOf(Elems(edges), v) <==> x in DepsOf(Elems(init), v) || (e.src == v && x == e.dst)
        by { TargetSplit(edges, v); }
      if e.src == v then Targets(init, v) + [e.dst] else Targets(init, v)
  }

  lemma TargetSplit(edges: seq<Edge>, v: Id)
    requires |edges| > 0
    ensures var init, e := edges[..|edges| - 1], edges[|edges| - 1];
            forall x :: x in DepsOf(Elems(edges), v)
                        <==> x in DepsOf(Elems(init), v) || (e.src == v && x == e.dst)
  {
    var init, e := edges[..|edges| - 1], edges[|edges| - 1];
    assert Elems(edges) == Elems(init) + {e};
  }

  lemma TargetsStep(edges: seq<Edge>, v: Id, i: nat)
    requires i < |edges|
    ensures Targets(edges[..i + 1], v)
            == if edges[i].src == v then Targets(edges[..i], v) + [edges[i].dst] else Targets(edges[..i], v)
  {
    assert edges[..i + 1][..i] == edges[..i];
  }

  lemma FirstSeenStep(init: seq<Id>, last: Id)
    ensures FirstSeen(init + [last]) == if last in FirstSeen(init) then FirstSeen(init) else FirstSeen(init) + [last]
  {
    assert (init + [last])[..|init|] == init;
  }

  /** What the scan finds at one more edge. */
  lemma ScanStep(edges: seq<Edge>, v: Id, i: nat, out: seq<Id>)
    requires i < |edges| && out == FirstSeen(Targets(edges[..i], v))
    ensures FirstSeen(Targets(edges[..i + 1], v))
            == if edges[i].src == v && edges[i].dst !in Elems(out) then out + [edges[i].dst] else out
  {
    TargetsStep(edges, v, i);
    FirstSeenStep(Targets(edges[..i], v), edges[i].dst);
  }

  method FindDependencies(edges: seq<Edge>, v: Id) returns (out: seq<Id>)
    ensures out == FirstSeen(Targets(edges, v))
    ensures Elems(out) == DepsOf(Elems(edges), v) && Distinct(out)
  {
    out := [];
    var seen: set<Id> := {};
    for i := 0 to |edges|
      invariant out == FirstSeen(Targets(edges[..i], v)) && seen == Elems(out)
    {
      var e := edges[i];
      ScanStep(edges, v, i, out);
      if e.src == v && e.dst !in seen {
        ElemsAppend(out, e.dst);
        seen := seen + {e.dst};
        out := out + [e.dst];
      }
    }
    assert edges[..|edges|] == edges;
  }

  function Reversed(edges: seq<Edge>): (r: seq<Edge>)
    ensures |r| == |edges| && forall i | 0 <= i < |r| :: r[i] == Edge(edges[i].dst, edges[i].src)
  {
    seq(|edges|, i requires 0 <= i < |edges| => Edge(edges[i].dst, edges[i].src))
  }

  /** The tickets that depend on `v`: the dependencies of `v` in the reversed graph. */
  function DependentsOf(E: set<Edge>, v: Id): set<Id> {
    set e | e in E && e.dst == v :: e.src
  }

  lemma ReversedDeps(edges: seq<Edge>, v: Id)
    ensures DepsOf(Elems(Reversed(edges)), v) == DependentsOf(Elems(edges), v)
  {
    var R := Reversed(edges);
    forall x
      ensures x in DepsOf(Elems(R), v) <==> x in DependentsOf(Elems(edges), v)
    {
      if x in DepsOf(Elems(R), v) {
        var e :| e in Elems(R) && e.src == v && e.dst == x;
        var i :| 0 <= i < |R| && R[i] == e;
        assert edges[i] in Elems(edges) && edges[i].dst == v && edges[i].src == x;
      }
      if x in DependentsOf(Elems(edges), v) {
        var e :| e in Elems(edges) && e.dst == v && e.src == x;
        var i :| 0 <= i < |edges| && edges[i] == e;
        assert R[i] in Elems(R) && R[i].src == v && R[i].dst == x;
      }
    }
  }

  method FindDependents(edges: seq<Edge>, v: Id) returns (out: seq<Id>)
    ensures out == FirstSeen(Targets(Reversed(edges), v))
    ensures Elems(out) == DependentsOf(Elems(edges), v) && Distinct(out)
  {
    out := [];
    var seen: set<Id> := {};
    var R := Reversed(edges);
    for i := 0 to |edges|
      invariant out == FirstSeen(Targets(R[..i], v)) && seen == Elems(out)
    {
      var e := edges[i];
      ScanStep(R, v, i, out);
      if e.dst == v && e.src !in seen {
        ElemsAppend(out, e.src);
        seen := seen + {e.src};
        out := out + [e.src];
      }
    }
    assert R[..|edges|] == R;
    ReversedDeps(edges, v);
  }

  // ---------------------------------------------------------------------------
  // The dependency check
  // ---------------------------------------------------------------------------

  datatype DependencyCheckResult = DependencyCheckResult(allCompleted: bool, blockers: seq<Id>, missing: seq<Id>)

  function Unfinished(states: States, deps: seq<Id>): (r: seq<Id>)
    ensures forall d :: d in r <==> d in deps && Lookup(states, d) != Done
  {
    if |deps| == 0 then []
    else
      var init, last := deps[..|deps| - 1], deps[|deps| - 1];
      assert forall d :: d in deps <==> d in init || d == last;
      if Lookup(states, last) != Done then Unfinished(states, init) + [last] else Unfinished(states, init)
  }

  function Absent(states: States, deps: seq<Id>): (r: seq<Id>)
    ensures forall d :: d in r <==> d in deps && d !in states
  {
    if |deps| == 0 then []
    else
      var init, last := deps[..|deps| - 1], deps[|deps| - 1];
      assert forall d :: d in deps <==> d in init || d == last;
      if last !in states then Absent(states, init) + [last] else Absent(states, init)
  }

  /** Every dependency that is not done blocks, in first-seen order; a dependency that
      is not among the tickets both blocks and is missing. */
  method CheckDependenciesCompleted(v: Id, states: States, edges: seq<Edge>) returns (r: DependencyCheckResult)
    ensures r.allCompleted <==> AllDone(states, DepsOf(Elems(edges), v))
    ensures r.blockers == Unfinished(states, FirstSeen(Targets(edges, v)))
    ensures r.missing == Absent(states, FirstSeen(Targets(edges, v)))
  {
    var deps := FindDependencies(edges, v);
    assert forall d :: d in deps <==> d in Elems(deps);
    var blockers, missing := [], [];
    for i := 0 to |deps|
      invariant blockers == Unfinished(states, deps[..i]) && missing == Absent(states, deps[..i])
    {
      assert deps[..i + 1][..i] == deps[..i];
      if deps[i] !in states {
        missing, blockers := missing + [deps[i]], blockers + [deps[i]];
      } else if states[deps[i]] != Done {
        blockers := blockers + [deps[i]];
      }
    }
    assert deps[..|deps|] == deps;
    assert |blockers| > 0 ==> blockers[0] in blockers;
    r := DependencyCheckResult(|blockers| == 0, blockers, missing);
  }

  // ---------------------------------------------------------------------------
  // The cascade to the fixpoint
  // ---------------------------------------------------------------------------

  /** Between its initial and its settled status, with the done set unchanged. */
  ghost predicate OnTheWay(initial: States, E: set<Edge>, states: States) {
    && states.Keys == initial.Keys
    && forall v | v in initial :: states[v] == initial[v] || states[v] == Derived(initial, E, v)
  }

  lemma OnTheWayDerived(initial: States, E: set<Edge>, states: States, v: Id)
    requires OnTheWay(initial, E, states) && v in initial
    ensures Derived(states, E, v) == Derived(initial, E, v)
    ensures ShouldRecalculate(states[v]) <==> ShouldRecalculate(initial[v])
  {
    assert forall u :: Lookup(states, u) == Done <==> Lookup(initial, u) == Done;
    DerivedSame(states, initial, E, v);
  }

  lemma PassSettles(initial: States, E: set<Edge>, states: States, ids: seq<Id>)
    requires OnTheWay(initial, E, states) && Elems(ids) == initial.Keys
    requires forall k | 0 <= k < |ids| :: ids[k] in initial && states[ids[k]] == Derived(initial, E, ids[k])
    ensures states == Settled(initial, E)
  {
    forall v | v in initial
      ensures states[v] == Derived(initial, E, v)
    {
      assert v in Elems(ids);
      var k :| 0 <= k < |ids| && ids[k] == v;
    }
  }

  lemma StatusesAllDone(states: States, deps: seq<Id>, statuses: seq<Status>)
    requires |statuses| == |deps| && forall i | 0 <= i < |deps| :: statuses[i] == Lookup(states, deps[i])
    ensures (forall s | s in statuses :: s == Done) <==> AllDone(states, Elems(deps))
  {
    if forall s | s in statuses :: s == Done {
      forall d | d in Elems(deps)
        ensures Lookup(states, d) == Done
      {
        var i :| 0 <= i < |deps| && deps[i] == d;
        assert statuses[i] in statuses;
      }
    }
    if AllDone(states, Elems(deps)) {
      forall s | s in statuses
        ensures s == Done
      {
        var i :| 0 <= i < |statuses| && statuses[i] == s;
        assert deps[i] in Elems(deps);
      }
    }
  }

  /** Re-derives one ticket in place. */
  method Rederive(states: States, edges: seq<Edge>, v: Id) returns (next: States)
    requires v in states
    ensures next == states[v := Derived(states, Elems(edges), v)]
  {
    var current := states[v];
    if !ShouldRecalculate(current) {
      assert states[v := current] == states;
      return states;
    }
    var deps := FindDependencies(edges, v);
    var statuses := seq(|deps|, i requires 0 <= i < |deps| => Lookup(states, deps[i]));
    StatusesAllDone(states, deps, statuses);
    var updated := CalculateTicketStatus(current, statuses);
    next := states[v := updated];
  }

  /** `_cascade_to_fixpoint`: whatever the order of the tickets, the settled statuses,
      after at most two passes over them. */
  method CascadeToFixpoint(ids: seq<Id>, initial: States, edges: seq<Edge>)
    returns (states: States, ghost passes: nat)
    requires Elems(ids) == initial.Keys
    ensures states == Settled(initial, Elems(edges))
    ensures passes <= 2
  {
    ghost var E := Elems(edges);
    assert forall v :: v in ids <==> v in Elems(ids);
    states := initial;
    passes := 0;
    var changed := true;
    while changed
      invariant OnTheWay(initial, E, states)
      invariant passes == 0 ==> changed
      invariant passes > 0 ==> states == Settled(initial, E)
      invariant passes == 2 ==> !changed
      invariant passes <= 2
      decreases 2 - passes, changed
    {
      changed := false;
      for i := 0 to |ids|
        invariant OnTheWay(initial, E, states)
        invariant forall k | 0 <= k < i :: states[ids[k]] == Derived(initial, E, ids[k])
        invariant passes > 0 ==> states == Settled(initial, E) && !changed
      {
        var v := ids[i];
        OnTheWayDerived(initial, E, states, v);
        var next := Rederive(states, edges, v);
        if next[v] != states[v] {
          states := next;
          changed := true;
        }
      }
      passes := passes + 1;
      PassSettles(initial, E, states, ids);
    }
  }

  // ---------------------------------------------------------------------------
  // The single-hop cascades
  // ---------------------------------------------------------------------------

  datatype Reason = DepsCompleted | DepReverted

  datatype CascadeTransition = CascadeTransition(ticketId: Id, fromStatus: Status, toStatus: Status, reason: Reason)

  function Promote(v: Id): CascadeTransition {
    CascadeTransition(v, Pending, Ready, DepsCompleted)
  }

  function Demote(v: Id): CascadeTransition {
    CascadeTransition(v, Ready, Pending, DepReverted)
  }

  function Promotions(states: States, E: set<Edge>, ids: seq<Id>): seq<CascadeTransition> {
    if |ids| == 0 then []
    else
      var rest, v := Promotions(states, E, ids[..|ids| - 1]), ids[|ids| - 1];
      if Lookup(states, v) == Pending && AllDone(states, DepsOf(E, v)) then rest + [Promote(v)] else rest
  }

  function Demotions(states: States, ids: seq<Id>): seq<CascadeTransition> {
    if |ids| == 0 then []
    else
      var rest, v := Demotions(states, ids[..|ids| - 1]), ids[|ids| - 1];
      if Lookup(states, v) == Ready then rest + [Demote(v)] else rest
  }

  /** Every dependency of the ticket is done. */
  ghost predicate Unblocked(states: States, E: set<Edge>, v: Id) {
    forall d | Edge(v, d) in E :: Lookup(states, d) == Done
  }

  lemma UnblockedIff(states: States, E: set<Edge>, v: Id)
    ensures Unblocked(states, E, v) <==> AllDone(states, DepsOf(E, v))
  {
    forall d
      ensures d in DepsOf(E, v) <==> Edge(v, d) in E
    {
      if Edge(v, d) in E {
        assert Edge(v, d).src == v && Edge(v, d).dst == d;
      }
    }
  }

  /** The promotions: from pending to ready because dependencies were completed, of exactly
      the pending tickets that nothing blocks. */
  lemma {:induction false} PromotionsShow(states: States, E: set<Edge>, ids: seq<Id>, p: CascadeTransition)
    ensures p in Promotions(states, E, ids) <==>
            && p.fromStatus == Pending && p.toStatus == Ready && p.reason == DepsCompleted
            && p.ticketId in ids && Lookup(states, p.ticketId) == Pending && Unblocked(states, E, p.ticketId)
    decreases |ids|
  {
    if |ids| > 0 {
      var init, v := ids[..|ids| - 1], ids[|ids| - 1];
      PromotionsShow(states, E, init, p);
      UnblockedIff(states, E, v);
      assert p.ticketId in ids <==> p.ticketId in init || p.ticketId == v;
    }
  }

  /** The demotions: from ready to pending because a dependency was reverted, of exactly the
      ready tickets. */
  lemma {:induction false} DemotionsShow(states: States, ids: seq<Id>, p: CascadeTransition)
    ensures p in Demotions(states, ids) <==>
            && p.fromStatus == Ready && p.toStatus == Pending && p.reason == DepReverted
            && p.ticketId in ids && Lookup(states, p.ticketId) == Ready
    decreases |ids|
  {
    if |ids| > 0 {
      var init, v := ids[..|ids| - 1], ids[|ids| - 1];
      DemotionsShow(states, init, p);
      assert p.ticketId in ids <==> p.ticketId in init || p.ticketId == v;
    }
  }

  lemma PromotionsStep(states: States, E: set<Edge>, ids: seq<Id>, i: nat)
    requires i < |ids|
    ensures Promotions(states, E, ids[..i + 1])
            == if Lookup(states, ids[i]) == Pending && AllDone(states, DepsOf(E, ids[i]))
               then Promotions(states, E, ids[..i]) + [Promote(ids[i])] else Promotions(states, E, ids[..i])
  {
    assert ids[..i + 1][..i] == ids[..i];
  }

  lemma DemotionsStep(states: States, ids: seq<Id>, i: nat)
    requires i < |ids|
    ensures Demotions(states, ids[..i + 1])
            == if Lookup(states, ids[i]) == Ready
               then Demotions(states, ids[..i]) + [Demote(ids[i])] else Demotions(states, ids[..i])
  {
    assert ids[..i + 1][..i] == ids[..i];
  }

  method CascadeOnCompleted(states: States, edges: seq<Edge>, changed: Id) returns (ts: seq<CascadeTransition>)
    ensures ts == if Lookup(states, changed) != Done then []
                  else Promotions(states, Elems(edges), FirstSeen(Targets(Reversed(edges), changed)))
  {
    ts := [];
    if Lookup(states, changed) != Done {
      return;
    }
    var dependents := FindDependents(edges, changed);
    for i := 0 to |dependents|
      invariant ts == Promotions(states, Elems(edges), dependents[..i])
    {
      var v := dependents[i];
      PromotionsStep(states, Elems(edges), dependents, i);
      if Lookup(states, v) != Pending {
        continue;
      }
      var check := CheckDependenciesCompleted(v, states, edges);
      if !check.allCompleted {
        continue;
      }
      ts := ts + [Promote(v)];
    }
    assert dependents[..|dependents|] == dependents;
  }

  method CascadeOnUncompleted(states: States, edges: seq<Edge>, changed: Id) returns (ts: seq<CascadeTransition>)
    ensures ts == if Lookup(states, changed) == Done then []
                  else Demotions(states, FirstSeen(Targets(Reversed(edges), changed)))
  {
    ts := [];
    if Lookup(states, changed) == Done {
      return;
    }
    var dependents := FindDependents(edges, changed);
    for i := 0 to |dependents|
      invariant ts == Demotions(states, dependents[..i])
    {
      var v := dependents[i];
      DemotionsStep(states, dependents, i);
      if Lookup(states, v) != Ready {
        continue;
      }
      ts := ts + [Demote(v)];
    }
    assert dependents[..|dependents|] == dependents;
  }

  function DependencyChange(states: States, E: set<Edge>, changed: Id): seq<CascadeTransition> {
    var done := AllDone(states, DepsOf(E, changed));
    if Lookup(states, changed) == Pending && done then [Promote(changed)]
    else if Lookup(states, changed) == Ready && !done then [Demote(changed)]
    else []
  }

  /** A changed pending ticket that nothing blocks is promoted, a ready one that something
      blocks is demoted, and nothing else happens. */
  lemma DependencyChangeShows(states: States, E: set<Edge>, changed: Id, p: CascadeTransition)
    ensures |DependencyChange(states, E, changed)| <= 1
    ensures p in DependencyChange(states, E, changed) <==>
            && p.ticketId == changed && p.fromStatus == Lookup(states, changed)
            && ((p.fromStatus == Pending && p.toStatus == Ready && p.reason == DepsCompleted && Unblocked(states, E, changed))
                || (p.fromStatus == Ready && p.toStatus == Pending && p.reason == DepReverted && !Unblocked(states, E, changed)))
  {
    UnblockedIff(states, E, changed);
  }

  method CascadeOnDependencyChange(states: States, edges: seq<Edge>, changed: Id) returns (ts: seq<CascadeTransition>)
    ensures ts == DependencyChange(states, Elems(edges), changed)
  {
    ts := [];
    var status := Lookup(states, changed);
    if status != Pending && status != Ready {
      return;
    }
    var check := CheckDependenciesCompleted(changed, states, edges);
    if status == Pending && check.allCompleted {
      ts := ts + [Promote(changed)];
    } else if status == Ready && !check.allCompleted {
      ts := ts + [Demote(changed)];
    }
  }

  /** The statuses after a list of transitions. */
  function Apply(states: States, ts: seq<CascadeTransition>): States {
    if |ts| == 0 then states
    else Apply(states, ts[..|ts| - 1])[ts[|ts| - 1].ticketId := ts[|ts| - 1].toStatus]
  }

  function Promoted(states: States, E: set<Edge>, ids: seq<Id>): States {
    map v | v in states ::
      if v in ids && states[v] == Pending && AllDone(states, DepsOf(E, v)) then Ready else states[v]
  }

  function Demoted(states: States, ids: seq<Id>): States {
    map v | v in states :: if v in ids && states[v] == Ready then Pending else states[v]
  }

  lemma PromotedMore(states: States, E: set<Edge>, init: seq<Id>, last: Id)
    ensures Promoted(states, E, init + [last])
            == if Lookup(states, last) == Pending && AllDone(states, DepsOf(E, last))
               then Promoted(states, E, init)[last := Ready] else Promoted(states, E, init)
  {
  }

  lemma DemotedMore(states: States, init: seq<Id>, last: Id)
    ensures Demoted(states, init + [last])
            == if Lookup(states, last) == Ready then Demoted(states, init)[last := Pending] else Demoted(states, init)
  {
  }

  lemma ApplyOneMore(states: States, rest: seq<CascadeTransition>, t: CascadeTransition)
    ensures Apply(states, rest + [t]) == Apply(states, rest)[t.ticketId := t.toStatus]
  {
    assert (rest + [t])[..|rest|] == rest;
  }

  lemma {:induction false} ApplyPromotions(states: States, E: set<Edge>, ids: seq<Id>)
    ensures Apply(states, Promotions(states, E, ids)) == Promoted(states, E, ids)
    decreases |ids|
  {
    if |ids| > 0 {
      var init, last := ids[..|ids| - 1], ids[|ids| - 1];
      ApplyPromotions(states, E, init);
      assert ids == init + [last];
      PromotedMore(states, E, init, last);
      ApplyOneMore(states, Promotions(states, E, init), Promote(last));
    }
  }

  lemma {:induction false} ApplyDemotions(states: States, ids: seq<Id>)
    ensures Apply(states, Demotions(states, ids)) == Demoted(states, ids)
    decreases |ids|
  {
    if |ids| > 0 {
      var init, last := ids[..|ids| - 1], ids[|ids| - 1];
      ApplyDemotions(states, init);
      assert ids == init + [last];
      DemotedMore(states, init, last);
      ApplyOneMore(states, Demotions(states, init), Demote(last));
    }
  }

  /** Completing a ticket: one hop of promotions reaches the fixpoint. */
  lemma CompletedRefinesFixpoint(states: States, E: set<Edge>, x: Id, dependents: seq<Id>)
    requires Consistent(states, E) && x in states && Elems(dependents) == DependentsOf(E, x)
    ensures var after := states[x := Done];
            Apply(after, Promotions(after, E, dependents)) == Settled(after, E)
  {
    var after := states[x := Done];
    ApplyPromotions(after, E, dependents);
    forall v | v in after && v !in dependents && v != x
      ensures after[v] == Derived(after, E, v)
    {
      NotADependent(E, v, x, dependents);
      assert forall d | d in DepsOf(E, v) :: Lookup(after, d) == Lookup(states, d);
      assert states[v] == Derived(states, E, v);
    }
    forall v | v in after && v in dependents && v != x
      ensures Derived(after, E, v)
              == if after[v] == Pending && AllDone(after, DepsOf(E, v)) then Ready else after[v]
    {
      assert states[v] == Derived(states, E, v);
      assert AllDone(states, DepsOf(E, v)) ==> AllDone(after, DepsOf(E, v));
    }
  }

  lemma NotADependent(E: set<Edge>, v: Id, x: Id, dependents: seq<Id>)
    requires Elems(dependents) == DependentsOf(E, x) && v !in dependents
    ensures x !in DepsOf(E, v)
  {
    assert v !in Elems(dependents);
  }

  /** Reopening a ticket: one hop of demotions reaches the fixpoint exactly when the new
      status of the ticket itself is sticky or what its own dependencies give (or it is
      ready and among the demoted, because it depends on itself). */
  lemma UncompletedRefinesFixpoint(states: States, E: set<Edge>, x: Id, status: Status, dependents: seq<Id>)
    requires Consistent(states, E) && x in states && status != Done
    requires Elems(dependents) == DependentsOf(E, x)
    ensures var after := states[x := status];
            Apply(after, Demotions(after, dependents)) == Settled(after, E)
            <==> status == Derived(after, E, x) || (status == Ready && Edge(x, x) in E)
  {
    var after := states[x := status];
    ApplyDemotions(after, dependents);
    var hopped := Apply(after, Demotions(after, dependents));
    forall v | v in after && v != x
      ensures hopped[v] == Derived(after, E, v)
    {
      assert states[v] == Derived(states, E, v);
      if v in dependents {
        assert v in Elems(dependents);
        assert x in DepsOf(E, v);
        assert Lookup(after, x) != Done && !AllDone(after, DepsOf(E, v));
      } else {
        NotADependent(E, v, x, dependents);
        assert forall d | d in DepsOf(E, v) :: Lookup(after, d) == Lookup(states, d);
      }
    }
    assert x in dependents <==> Edge(x, x) in E by {
      assert x in dependents <==> x in Elems(dependents);
      if Edge(x, x) in E {
        assert Edge(x, x).dst == x && Edge(x, x).src == x;
      }
    }
    if Edge(x, x) in E {
      assert Edge(x, x).src == x && x in DepsOf(E, x) && Lookup(after, x) != Done;
      assert !AllDone(after, DepsOf(E, x));
    }
    assert hopped == Settled(after, E) <==> hopped[x] == Derived(after, E, x);
  }

  /** The condition matters: a ticket reopened as pending although its own dependencies
      are all done stays pending in one hop, while the fixpoint makes it ready. */
  lemma ReopenedPendingNeedsFixpoint()
    ensures var states: States := map[1 := Done];
            var after := states[1 := Pending];
            Consistent(states, {}) && Apply(after, Demotions(after, [])) != Settled(after, {})
  {
    var states: States := map[1 := Done];
    var after := states[1 := Pending];
    assert Settled(after, {})[1] == Ready;
  }

  /** Adding or removing dependencies of one ticket: re-deriving that ticket alone
      reaches the fixpoint. */
  lemma DependencyChangeRefinesFixpoint(states: States, E: set<Edge>, F: set<Edge>, x: Id)
    requires Consistent(states, E) && x in states
    requires forall e: Edge | e.src != x :: e in E <==> e in F
    ensures Apply(states, DependencyChange(states, F, x)) == Settled(states, F)
  {
    var ts := DependencyChange(states, F, x);
    assert |ts| == 1 ==> ts[..0] == [] && Apply(states, ts) == states[ts[0].ticketId := ts[0].toStatus];
    forall v | v in states && v != x
      ensures states[v] == Derived(states, F, v)
    {
      assert states[v] == Derived(states, E, v);
      assert DepsOf(E, v) == DepsOf(F, v);
    }
    assert Apply(states, ts)[x] == Derived(states, F, x);
  }
}
