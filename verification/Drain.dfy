/** Working a spec off round by round: the longest blocking walk measures exactly how
    many rounds of "complete every ready ticket, then recompute" are left. */
module Drain {
  import opened Graph
  import opened Ordering
  import opened Types
  import opened StatusCalculator
  import opened BlockerDepth

  ghost function Open(states: States): set<Id> {
    set v | v in states && states[v] != Done
  }

  /** The dependencies still in the way. */
  ghost function OpenEdges(states: States, E: set<Edge>): set<Edge> {
    Restrict(E, Open(states))
  }

  /** A consistent acyclic spec in which nobody is at work. */
  ghost predicate Idle(states: States, E: set<Edge>) {
    && Consistent(states, E) && Acyclic(E) && Within(E, states.Keys)
    && forall v | v in states :: states[v] == Done || ShouldRecalculate(states[v])
  }

  /** Every ready ticket is completed, then statuses are re-derived. */
  ghost function Round(states: States, E: set<Edge>): States {
    Settled(Worked(states), E)
  }

  ghost function Rounds(states: States, E: set<Edge>, k: nat): States {
    if k == 0 then states else Rounds(Round(states, E), E, k - 1)
  }

  /** In an idle spec the ready tickets are the open ones without an open dependency. */
  lemma ReadyIffUnblocked(states: States, E: set<Edge>, v: Id)
    requires Idle(states, E) && v in Open(states)
    ensures states[v] == Ready <==> forall u :: Edge(v, u) !in OpenEdges(states, E)
  {
    assert states[v] == Derived(states, E, v);
    if states[v] == Ready {
      forall u | Edge(v, u) in E
        ensures Lookup(states, u) == Done
      {
        assert Edge(v, u).dst in DepsOf(E, v);
      }
    } else {
      var u :| u in DepsOf(E, v) && Lookup(states, u) != Done;
      var e :| e in E && e.src == v && e.dst == u;
      assert Edge(v, u) in OpenEdges(states, E);
    }
  }

  /** Unless all is done, some ticket is ready. */
  lemma {:induction false} SomeTicketReady(states: States, E: set<Edge>, v: Id) returns (r: Id)
    requires Idle(states, E) && v in Open(states)
    ensures r in states && states[r] == Ready
    decreases Below(E, v)
  {
    if states[v] == Ready {
      r := v;
    } else {
      ReadyIffUnblocked(states, E, v);
      var u :| Edge(v, u) in OpenEdges(states, E);
      BelowShrinks(E, v, u);
      r := SomeTicketReady(states, E, u);
    }
  }

  ghost function Worked(states: States): States {
    map v | v in states :: if states[v] == Ready then Done else states[v]
  }

  lemma RoundOpens(states: States, E: set<Edge>, v: Id)
    requires forall u | u in states :: states[u] == Done || ShouldRecalculate(states[u])
    ensures v in Open(Round(states, E)) <==> v in states && states[v] == Pending
    ensures v in states ==> Round(states, E)[v] == Done || ShouldRecalculate(Round(states, E)[v])
  {
    if v in states {
      assert Lookup(Worked(states), v) == Worked(states)[v];
    }
  }

  lemma RoundIsIdle(states: States, E: set<Edge>)
    requires Idle(states, E)
    ensures Idle(Round(states, E), E)
    ensures forall v :: v in Open(Round(states, E)) <==> v in states && states[v] == Pending
  {
    SettledIsTheFixpoint(Worked(states), E, Worked(states));
    forall v
      ensures v in Open(Round(states, E)) <==> v in states && states[v] == Pending
      ensures v in states ==> Round(states, E)[v] == Done || ShouldRecalculate(Round(states, E)[v])
    {
      RoundOpens(states, E, v);
    }
    assert Round(states, E).Keys == states.Keys;
  }

  /** Inside a walk of open tickets only the last can be ready. */
  lemma WalkSurvives(states: States, E: set<Edge>, p: seq<Id>)
    requires Idle(states, E) && Walk(OpenEdges(states, E), p) && |p| >= 2
    ensures Walk(OpenEdges(Round(states, E), E), p[..|p| - 1])
  {
    RoundIsIdle(states, E);
    var B := OpenEdges(states, E);
    var q := p[..|p| - 1];
    forall i | 0 <= i < |q|
      ensures q[i] in Open(Round(states, E))
    {
      assert Step(B, p, i);
      ReadyIffUnblocked(states, E, p[i]);
    }
    forall i | 0 <= i < |q| - 1
      ensures Step(OpenEdges(Round(states, E), E), q, i)
    {
      assert Step(B, p, i);
      assert q[i] in Open(Round(states, E)) && q[i + 1] in Open(Round(states, E));
    }
  }

  lemma WalkExtends(B: set<Edge>, B': set<Edge>, q: seq<Id>, u: Id)
    requires B' <= B && Walk(B', q) && Edge(q[|q| - 1], u) in B
    ensures Walk(B, q + [u])
  {
    var p := q + [u];
    forall i | 0 <= i < |p| - 1
      ensures Step(B, p, i)
    {
      if i < |q| - 1 {
        assert Step(B', q, i);
      }
    }
  }

  /** A walk that survives the round could have gone one step further before it. */
  lemma WalkWasLonger(states: States, E: set<Edge>, q: seq<Id>) returns (u: Id)
    requires Idle(states, E) && Walk(OpenEdges(Round(states, E), E), q)
    requires q[|q| - 1] in Open(Round(states, E))
    ensures Walk(OpenEdges(states, E), q + [u])
  {
    RoundIsIdle(states, E);
    var last := q[|q| - 1];
    assert last in Open(states);
    ReadyIffUnblocked(states, E, last);
    u :| Edge(last, u) in OpenEdges(states, E);
    WalkExtends(OpenEdges(states, E), OpenEdges(Round(states, E), E), q, u);
  }

  lemma EdgeIsWalk(B: set<Edge>, v: Id, u: Id)
    requires Edge(v, u) in B
    ensures Walk(B, [v, u])
  {
    assert Step(B, [v, u], 0);
  }

  lemma DepthZeroAllReady(states: States, E: set<Edge>, v: Id)
    requires Idle(states, E) && IsMaxDepth(OpenEdges(states, E), 0) && v in Open(states)
    ensures states[v] == Ready
  {
    var B := OpenEdges(states, E);
    ReadyIffUnblocked(states, E, v);
    forall u
      ensures Edge(v, u) !in B
    {
      if Edge(v, u) in B {
        EdgeIsWalk(B, v, u);
        assert false;
      }
    }
  }

  lemma SurvivorsBound(states: States, E: set<Edge>, d: nat, q: seq<Id>)
    requires Idle(states, E) && IsMaxDepth(OpenEdges(states, E), d) && d > 0
    requires Walk(OpenEdges(Round(states, E), E), q)
    ensures |q| <= d
  {
    if |q| >= 2 {
      WalkInit(OpenEdges(Round(states, E), E), q);
      var u := WalkWasLonger(states, E, q);
    }
  }

  /** One round lowers the depth by exactly one; at depth zero it finishes everything. */
  lemma RoundLowersDepth(states: States, E: set<Edge>, d: nat)
    requires Idle(states, E) && IsMaxDepth(OpenEdges(states, E), d)
    ensures d == 0 ==> Open(Round(states, E)) == {}
    ensures d > 0 ==> Open(Round(states, E)) != {} && IsMaxDepth(OpenEdges(Round(states, E), E), d - 1)
  {
    RoundIsIdle(states, E);
    if d == 0 {
      forall v | v in Open(states)
        ensures states[v] == Ready
      {
        DepthZeroAllReady(states, E, v);
      }
    } else {
      var p := LongestSurvives(states, E, d);
      forall q | Walk(OpenEdges(Round(states, E), E), q)
        ensures |q| <= d
      {
        SurvivorsBound(states, E, d, q);
      }
    }
  }

  lemma LongestSurvives(states: States, E: set<Edge>, d: nat) returns (p: seq<Id>)
    requires Idle(states, E) && IsMaxDepth(OpenEdges(states, E), d) && d > 0
    ensures Walk(OpenEdges(Round(states, E), E), p) && |p| == d && p[0] in Open(Round(states, E))
  {
    var B := OpenEdges(states, E);
    var q :| Walk(B, q) && |q| == d + 1;
    WalkSurvives(states, E, q);
    RoundIsIdle(states, E);
    assert Step(B, q, 0);
    ReadyIffUnblocked(states, E, q[0]);
    p := q[..d];
  }

  /** There is work for `d` more rounds ... */
  ghost predicate WorkFor(states: States, E: set<Edge>, d: nat) {
    Open(states) != {} && (d > 0 ==> WorkFor(Round(states, E), E, d - 1))
  }

  /** ... and the round after them is the last. */
  ghost predicate EndsAfter(states: States, E: set<Edge>, d: nat) {
    if d == 0 then Open(Round(states, E)) == {} else EndsAfter(Round(states, E), E, d - 1)
  }

  lemma NextRound(states: States, E: set<Edge>, d: nat) returns (next: States)
    requires Idle(states, E) && Open(states) != {} && IsMaxDepth(OpenEdges(states, E), d) && d > 0
    ensures Idle(next, E) && Open(next) != {} && IsMaxDepth(OpenEdges(next, E), d - 1)
    ensures WorkFor(next, E, d - 1) ==> WorkFor(states, E, d)
    ensures EndsAfter(next, E, d - 1) ==> EndsAfter(states, E, d)
  {
    next := Round(states, E);
    RoundLowersDepth(states, E, d);
    RoundIsIdle(states, E);
  }

  lemma {:induction false} DepthIsWork(states: States, E: set<Edge>, d: nat)
    requires Idle(states, E) && Open(states) != {} && IsMaxDepth(OpenEdges(states, E), d)
    ensures WorkFor(states, E, d)
    decreases d
  {
    if d > 0 {
      var next := NextRound(states, E, d);
      DepthIsWork(next, E, d - 1);
    }
  }

  lemma LastRound(states: States, E: set<Edge>, d: nat)
    requires Idle(states, E) && IsMaxDepth(OpenEdges(states, E), d) && d == 0
    ensures EndsAfter(states, E, d)
  {
    RoundLowersDepth(states, E, d);
  }

  lemma {:induction false} DepthIsEnd(states: States, E: set<Edge>, d: nat)
    requires Idle(states, E) && Open(states) != {} && IsMaxDepth(OpenEdges(states, E), d)
    ensures EndsAfter(states, E, d)
    decreases d
  {
    if d == 0 {
      LastRound(states, E, d);
    } else {
      var next := NextRound(states, E, d);
      DepthIsEnd(next, E, d - 1);
    }
  }

  lemma {:induction false} WorkIsLeft(states: States, E: set<Edge>, d: nat, k: nat)
    requires WorkFor(states, E, d) && k <= d
    ensures Open(Rounds(states, E, k)) != {}
    decreases k
  {
    if k > 0 {
      WorkIsLeft(Round(states, E), E, d - 1, k - 1);
    }
  }

  lemma {:induction false} WorkEnds(states: States, E: set<Edge>, d: nat)
    requires EndsAfter(states, E, d)
    ensures Open(Rounds(states, E, d + 1)) == {}
    decreases d
  {
    if d > 0 {
      WorkEnds(Round(states, E), E, d - 1);
    }
  }

  /** A spec with open tickets drains in exactly `d + 1` rounds. */
  lemma DrainsInDepthPlusOneRounds(states: States, E: set<Edge>, d: nat)
    requires Idle(states, E) && Open(states) != {} && IsMaxDepth(OpenEdges(states, E), d)
    ensures forall k: nat | k <= d :: Open(Rounds(states, E, k)) != {}
    ensures Open(Rounds(states, E, d + 1)) == {}
  {
    DepthIsWork(states, E, d);
    forall k: nat | k <= d {
      WorkIsLeft(states, E, d, k);
    }
    DepthIsEnd(states, E, d);
    WorkEnds(states, E, d);
  }
}
