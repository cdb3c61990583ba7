/** The status decision (`status_calculator`) and its reading over a whole spec. */
module StatusCalculator {
  import opened Graph
  import opened Types

  type States = map<Id, Status>

  /** `active` and `done` are sticky; only these two are re-derived. */
  predicate ShouldRecalculate(s: Status) {
    s.Pending? || s.Ready?
  }

  function CalculateTicketStatus(current: Status, dependencyStatuses: seq<Status>): Status {
    if !ShouldRecalculate(current) then current
    else if forall s | s in dependencyStatuses :: s == Done then Ready
    else Pending
  }

  function Lookup(states: States, v: Id): Status {
    if v in states then states[v] else Unknown
  }

  function DepsOf(E: set<Edge>, v: Id): set<Id> {
    set e | e in E && e.src == v :: e.dst
  }

  predicate AllDone(states: States, deps: set<Id>) {
    forall d | d in deps :: Lookup(states, d) == Done
  }

  /** What a ticket's status should be: sticky, or ready exactly when all its
      dependencies are done. */
  function Derived(states: States, E: set<Edge>, v: Id): Status {
    if !ShouldRecalculate(Lookup(states, v)) then Lookup(states, v)
    else if AllDone(states, DepsOf(E, v)) then Ready
    else Pending
  }

  /** Every ticket has its derived status. */
  ghost predicate Consistent(states: States, E: set<Edge>) {
    forall v | v in states :: states[v] == Derived(states, E, v)
  }

  function Settled(states: States, E: set<Edge>): States {
    map v | v in states :: Derived(states, E, v)
  }

  /** Derivation looks at statuses only through "done" and "re-derivable". */
  lemma DerivedSame(s: States, t: States, E: set<Edge>, v: Id)
    requires forall u :: Lookup(s, u) == Done <==> Lookup(t, u) == Done
    requires Lookup(s, v) == Lookup(t, v) || (ShouldRecalculate(Lookup(s, v)) && ShouldRecalculate(Lookup(t, v)))
    ensures Derived(s, E, v) == Derived(t, E, v)
  {
  }

  /** Settling fixes the done set, leaves sticky tickets alone and needs no second pass:
      its result is consistent, and it is the only consistent state that agrees with the
      input on the sticky tickets and on which tickets are re-derivable. */
  lemma SettledIsTheFixpoint(states: States, E: set<Edge>, other: States)
    ensures Consistent(Settled(states, E), E)
    ensures forall v | v in states && !ShouldRecalculate(states[v]) :: Settled(states, E)[v] == states[v]
    ensures other.Keys == states.Keys && Consistent(other, E)
            && (forall v | v in states :: other[v] == states[v]
                  || (ShouldRecalculate(other[v]) && ShouldRecalculate(states[v])))
            ==> other == Settled(states, E)
  {
    var t := Settled(states, E);
    assert forall u :: Lookup(states, u) == Done <==> Lookup(t, u) == Done;
    forall v | v in t
      ensures t[v] == Derived(t, E, v)
    {
      DerivedSame(states, t, E, v);
    }
    if other.Keys == states.Keys && Consistent(other, E)
       && forall v | v in states :: other[v] == states[v]
            || (ShouldRecalculate(other[v]) && ShouldRecalculate(states[v])) {
      assert forall u :: Lookup(states, u) == Done <==> Lookup(other, u) == Done;
      forall v | v in states
        ensures other[v] == t[v]
      {
        DerivedSame(states, other, E, v);
      }
    }
  }
}
