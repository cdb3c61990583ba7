/** The mutable aggregate, the incremental fold over it, and the replay loop. */
module Aggregate {
  import opened Graph
  import opened Types
  import opened AggregateFold
  import opened AggregateReplay

  // ---------------------------------------------------------------------------
  // Datapoints
  // ---------------------------------------------------------------------------

  datatype RegistryType = RegisteredSpec | Registered(revisionType: RevisionType)

  type TypeRegistry = map<Id, RegistryType>

  /** The spec first, then every revised entity, which may overwrite it. */
  function BuildRegistry(env: Env, revisions: map<Id, EntityRevision>): TypeRegistry {
    map[env.specificationId := RegisteredSpec] + map e | e in revisions :: Registered(revisions[e].revisionType)
  }

  function ResolveEntityType(env: Env, registry: TypeRegistry, e: Id): (t: Option<DatapointType>)
  {
    if e == env.specificationId then Some(SpecType)
    else if e !in registry then Some(TicketType)
    else
      match registry[e]
      case RegisteredSpec => Some(SpecType)
      case Registered(EpicRevision) => Some(EpicType)
      case Registered(TicketRevision) => Some(TicketType)
      case Registered(BlueprintRevision) => None
  }

  lemma RegistryResolves(env: Env, revisions: map<Id, EntityRevision>, e: Id)
    ensures ResolveEntityType(env, BuildRegistry(env, revisions), e) == ResolveType(env, revisions, e)
  {
  }

  method EmitPerAffected(env: Env, a: Action, trigger: string, registry: TypeRegistry, ghost revisions: map<Id, EntityRevision>)
    returns (out: seq<Datapoint>)
    requires registry == BuildRegistry(env, revisions)
    ensures out == PerAffected(env, a, trigger, revisions, a.scores)
  {
    out := [];
    for i := 0 to |a.scores|
      invariant out == PerAffected(env, a, trigger, revisions, a.scores[..i])
    {
      assert a.scores[..i + 1][..i] == a.scores[..i];
      var e, score := a.scores[i].0, a.scores[i].1;
      RegistryResolves(env, revisions, e);
      var t := ResolveEntityType(env, registry, e);
      if t.Some? {
        out := out + [MakeDatapoint(env, a, trigger, t.value, e, score)];
      }
    }
    assert a.scores[..|a.scores|] == a.scores;
  }

  /** What one successful action emits. */
  method DatapointsOf(env: Env, a: Action, registry: TypeRegistry, ghost revisions: map<Id, EntityRevision>)
    returns (out: seq<Datapoint>)
    requires registry == BuildRegistry(env, revisions) && a.outcome == Success
    ensures out == Emit(env, revisions, a)
  {
    var trigger := AffectedTrigger(a);
    if a.operation == CreateEpic {
      out := Single(env, a, "created", EpicType, a.entityId);
    } else if a.operation == CreateTicket {
      out := Single(env, a, "created", TicketType, a.entityId);
    } else if a.operation == UpdateSpec {
      out := Single(env, a, "metadata_updated", SpecType,
                    if a.entityId.Some? then a.entityId else Some(env.specificationId));
    } else if a.operation == UpdateEpic {
      out := Single(env, a, "epic_field_updated", EpicType, a.entityId);
    } else if a.operation == UpdateTicket {
      out := Single(env, a, "ticket_field_updated", TicketType, a.entityId);
    } else if trigger.Some? {
      out := EmitPerAffected(env, a, trigger.value, registry, revisions);
    } else {
      out := [];
    }
  }

  method ComputeDatapoints(env: Env, actions: seq<Action>, registry: TypeRegistry, ghost revisions: map<Id, EntityRevision>)
    returns (out: seq<Datapoint>)
    requires registry == BuildRegistry(env, revisions)
    ensures out == Datapoints(env, revisions, actions)
  {
    out := [];
    for i := 0 to |actions|
      invariant out == Datapoints(env, revisions, actions[..i])
    {
      assert actions[..i + 1][..i] == actions[..i];
      if actions[i].outcome == Success {
        var emitted := DatapointsOf(env, actions[i], registry, revisions);
        out := out + emitted;
      }
    }
    assert actions[..|actions|] == actions;
  }

  // ---------------------------------------------------------------------------
  // The aggregate
  // ---------------------------------------------------------------------------

  class Aggregate {
    var sessionId: Id
    var timeline: seq<PhaseTimelineEntry>
    var triggers: map<string, nat>
    var globalScore: Option<real>
    var perEntity: map<Id, PerEntityScore>
    var counts: EntityCounts
    var revisions: map<Id, EntityRevision>
    var opsMix: map<Operation, nat>
    var history: seq<ScoreHistoryEntry>
    var denied: map<string, nat>
    var actorMix: map<string, ActorMix>
    var variantCounts: map<string, nat>
    var findings: map<string, nat>
    var deltas: map<Operation, ScoreDelta>
    var lastAction: Option<Id>
    var lastTransition: Option<Id>
    var lastUpdatedAt: string

    function TrailView(): Trail
      reads this
    {
      Trail(timeline, triggers)
    }

    function TallyView(): Tally
      reads this
    {
      Tally(globalScore, counts, revisions, opsMix, history, denied, actorMix, variantCounts, findings, deltas)
    }

    function View(): Projection
      reads this
    {
      Projection(sessionId, TrailView(), TallyView(), perEntity, lastAction, lastTransition, lastUpdatedAt)
    }

    /** `create_empty_aggregate`. */
    constructor Empty(env: Env)
      ensures View() == EmptyProjection(env)
      ensures sessionId == env.sessionId && timeline == [] && triggers == map[] && globalScore == None && perEntity == map[]
      ensures counts == EntityCounts(0, 0, 0, 0) && revisions == map[] && opsMix == map[] && history == []
      ensures denied == map[] && actorMix == map[] && variantCounts == map[] && findings == map[] && deltas == map[]
      ensures lastAction == None && lastTransition == None && lastUpdatedAt == "1970-01-01T00:00:00+00:00"
    {
      sessionId := env.sessionId;
      timeline, triggers := [], map[];
      globalScore, perEntity := None, map[];
      counts := EntityCounts(0, 0, 0, 0);
      revisions, opsMix, history, denied, actorMix := map[], map[], [], map[], map[];
      variantCounts, findings, deltas := map[], map[], map[];
      lastAction, lastTransition, lastUpdatedAt := None, None, EPOCH;
    }

    /** `_clone_aggregate`. */
    constructor Clone(a: Aggregate)
      ensures View() == a.View()
    {
      sessionId := a.sessionId;
      timeline, triggers := a.timeline, a.triggers;
      globalScore, perEntity := a.globalScore, a.perEntity;
      counts, revisions, opsMix, history := a.counts, a.revisions, a.opsMix, a.history;
      denied, actorMix, variantCounts := a.denied, a.actorMix, a.variantCounts;
      findings, deltas := a.findings, a.deltas;
      lastAction, lastTransition, lastUpdatedAt := a.lastAction, a.lastTransition, a.lastUpdatedAt;
    }

    method CloseActiveEntry(env: Env, at: string)
      modifies this`timeline
      ensures timeline == CloseLast(env, old(timeline), at)
    {
      if timeline != [] {
        timeline := timeline[|timeline| - 1 := CloseEntry(env, timeline[|timeline| - 1], at)];
      }
    }

    method ApplyTransitions(env: Env, ts: seq<Transition>)
      modifies this`timeline, this`triggers
      ensures TrailView() == FoldTrail(env, old(TrailView()), ts)
    {
      ghost var before := TrailView();
      for i := 0 to |ts|
        invariant TrailView() == FoldTrail(env, before, ts[..i])
      {
        assert ts[..i + 1][..i] == ts[..i];
        triggers := Bump(triggers, ts[i].trigger);
        CloseActiveEntry(env, ts[i].triggeredAt);
        timeline := timeline + [PhaseTimelineEntry(ts[i].toPhase, ts[i].triggeredAt, None, None)];
      }
      assert ts[..|ts|] == ts;
    }

    method FoldFindingsCategories(env: Env, a: Action)
      modifies this`findings
      ensures findings == BumpKnown(env, old(findings), a.findings)
    {
      ghost var before := findings;
      for i := 0 to |a.findings|
        invariant findings == BumpKnown(env, before, a.findings[..i])
      {
        assert a.findings[..i + 1][..i] == a.findings[..i];
        if a.findings[i] in env.categories {
          findings := Bump(findings, a.findings[i]);
        }
      }
      assert a.findings[..|a.findings|] == a.findings;
    }

    /** The tallies every action feeds, whatever its outcome. */
    method FoldAnyOutcome(env: Env, a: Action)
      modifies this`opsMix, this`actorMix, this`variantCounts, this`findings
      ensures opsMix == Bump(old(opsMix), a.operation) && actorMix == FoldActorMix(old(actorMix), a)
      ensures variantCounts == FoldVariant(env, old(variantCounts), a)
      ensures findings == BumpKnown(env, old(findings), a.findings)
    {
      opsMix := Bump(opsMix, a.operation);
      actorMix := FoldActorMix(actorMix, a);
      variantCounts := FoldVariant(env, variantCounts, a);
      FoldFindingsCategories(env, a);
    }

    /** The previous score runs along in a local; it starts from the persisted one. */
    method ApplyActions(env: Env, actions: seq<Action>)
      modifies this`globalScore, this`counts, this`revisions, this`opsMix, this`history, this`denied, this`actorMix,
               this`variantCounts, this`findings, this`deltas
      ensures TallyView() == FoldTally(env, old(TallyView()), actions) && TrailView() == old(TrailView())
    {
      ghost var before := TallyView();
      var previous := globalScore;
      for i := 0 to |actions|
        invariant previous == globalScore
        invariant TallyView() == FoldTally(env, before, actions[..i])
      {
        assert actions[..i + 1][..i] == actions[..i];
        previous := ApplyAction(env, actions[i], previous);
      }
      assert actions[..|actions|] == actions;
    }

    method ApplyAction(env: Env, a: Action, previous: Option<real>) returns (next: Option<real>)
      modifies this`globalScore, this`counts, this`revisions, this`opsMix, this`history, this`denied, this`actorMix,
               this`variantCounts, this`findings, this`deltas
      requires previous == globalScore
      ensures TallyView() == StepTally(env, old(TallyView()), a) && next == globalScore
    {
      next := previous;
      FoldAnyOutcome(env, a);
      if a.outcome == Denied {
        denied := FoldDenied(denied, a);
        return;
      }
      counts := CountEntities(counts, a);
      revisions := Revise(revisions, a);
      next := FoldScore(a, previous);
    }

    /** A score goes into the history, and its difference to the one before into the deltas. */
    method FoldScore(a: Action, previous: Option<real>) returns (next: Option<real>)
      modifies this`globalScore, this`history, this`deltas
      requires previous == globalScore
      ensures next == globalScore == if a.scoreAfter.Some? then a.scoreAfter else old(globalScore)
      ensures history == if a.scoreAfter.None? then old(history)
                         else old(history) + [ScoreHistoryEntry(a.performedAt, a.scoreAfter.value, a.id)]
      ensures deltas == if a.scoreAfter.None? || previous.None? then old(deltas)
                        else AddDelta(old(deltas), a.operation, a.scoreAfter.value - previous.value)
    {
      next := previous;
      if a.scoreAfter.Some? {
        if previous.Some? {
          deltas := AddDelta(deltas, a.operation, a.scoreAfter.value - previous.value);
        }
        next := a.scoreAfter;
        globalScore := a.scoreAfter;
        history := history + [ScoreHistoryEntry(a.performedAt, a.scoreAfter.value, a.id)];
      }
    }

    method ApplyDatapointsToPerEntity(dps: seq<Datapoint>)
      modifies this`perEntity
      ensures perEntity == ApplyDatapoints(old(perEntity), dps)
      ensures TallyView() == old(TallyView()) && TrailView() == old(TrailView())
    {
      ghost var before := perEntity;
      for i := 0 to |dps|
        invariant perEntity == ApplyDatapoints(before, dps[..i])
      {
        assert dps[..i + 1][..i] == dps[..i];
        perEntity := perEntity[dps[i].entityId := PerEntityScore(dps[i].entityType, dps[i].score)];
      }
      assert dps[..|dps|] == dps;
    }

    /** Actions, then their datapoints against the registry they leave behind. */
    method AbsorbActions(env: Env, actions: seq<Action>) returns (dps: seq<Datapoint>)
      modifies this
      ensures TallyView() == FoldTally(env, old(TallyView()), actions)
      ensures dps == Datapoints(env, TallyView().revisions, actions) && perEntity == ApplyDatapoints(old(perEntity), dps)
      ensures TrailView() == old(TrailView())
      ensures sessionId == old(sessionId) && lastAction == old(lastAction) && lastTransition == old(lastTransition)
    {
      ApplyActions(env, actions);
      dps := EmitDatapoints(env, actions);
    }

    method EmitDatapoints(env: Env, actions: seq<Action>) returns (dps: seq<Datapoint>)
      modifies this`perEntity
      ensures dps == Datapoints(env, revisions, actions) && perEntity == ApplyDatapoints(old(perEntity), dps)
      ensures TallyView() == old(TallyView()) && TrailView() == old(TrailView())
    {
      dps := ComputeDatapoints(env, actions, BuildRegistry(env, revisions), revisions);
      ApplyDatapointsToPerEntity(dps);
    }

    /** Transitions first; they and the actions write different fields. */
    method AbsorbRows(env: Env, actions: seq<Action>, ts: seq<Transition>) returns (dps: seq<Datapoint>)
      modifies this
      ensures TrailView() == FoldTrail(env, old(TrailView()), ts)
      ensures TallyView() == FoldTally(env, old(TallyView()), actions)
      ensures dps == Datapoints(env, TallyView().revisions, actions) && perEntity == ApplyDatapoints(old(perEntity), dps)
      ensures sessionId == old(sessionId) && lastAction == old(lastAction) && lastTransition == old(lastTransition)
    {
      ApplyTransitions(env, ts);
      dps := AbsorbActions(env, actions);
    }

    /** A kind with no new items leaves its cursor alone. */
    method StampCursors(actions: seq<Action>, ts: seq<Transition>, now: string)
      modifies this`lastAction, this`lastTransition, this`lastUpdatedAt
      ensures TallyView() == old(TallyView()) && TrailView() == old(TrailView()) && lastUpdatedAt == now
      ensures lastAction == if |actions| == 0 then old(lastAction) else MaxActionId(actions)
      ensures lastTransition == if |ts| == 0 then old(lastTransition) else MaxTransitionId(ts)
    {
      lastAction := if |actions| > 0 then MaxActionId(actions) else lastAction;
      lastTransition := if |ts| > 0 then MaxTransitionId(ts) else lastTransition;
      lastUpdatedAt := now;
    }

    method Absorb(env: Env, actions: seq<Action>, ts: seq<Transition>, now: string) returns (dps: seq<Datapoint>)
      modifies this
      ensures AggregateUpdate(View(), dps) == Update(env, old(View()), actions, ts, now)
    {
      ghost var before := View();
      dps := AbsorbRows(env, actions, ts);
      StampCursors(actions, ts, now);
      UpdateParts(env, before, actions, ts, now, View(), dps);
    }
  }

  lemma UpdateParts(env: Env, p: Projection, actions: seq<Action>, ts: seq<Transition>, now: string,
                    q: Projection, dps: seq<Datapoint>)
    requires q.sessionId == p.sessionId && q.lastUpdatedAt == now
    requires q.trail == FoldTrail(env, p.trail, ts) && q.tally == FoldTally(env, p.tally, actions)
    requires dps == Datapoints(env, q.tally.revisions, actions) && q.perEntity == ApplyDatapoints(p.perEntity, dps)
    requires q.lastAction == if |actions| == 0 then p.lastAction else MaxActionId(actions)
    requires q.lastTransition == if |ts| == 0 then p.lastTransition else MaxTransitionId(ts)
    ensures AggregateUpdate(q, dps) == Update(env, p, actions, ts, now)
  {
  }

  // ---------------------------------------------------------------------------
  // The two folds
  // ---------------------------------------------------------------------------

  /** `compute_aggregate_update`: works on a clone, so the previous aggregate keeps every
      field. */
  method ComputeAggregateUpdate(env: Env, previous: Aggregate?, actions: seq<Action>, ts: seq<Transition>, now: string)
    returns (next: Aggregate, dps: seq<Datapoint>)
    ensures fresh(next)
    ensures AggregateUpdate(next.View(), dps)
            == Update(env, if previous == null then EmptyProjection(env) else previous.View(), actions, ts, now)
  {
    if previous == null {
      next := new Aggregate.Empty(env);
    } else {
      next := new Aggregate.Clone(previous);
    }
    dps := next.Absorb(env, actions, ts, now);
  }

  /** `replay_compute`: one pass when no positive batch size is given, chunks otherwise. */
  method ReplayCompute(env: Env, actions: seq<Action>, ts: seq<Transition>, clock: Clock, batchSize: Option<int>)
    returns (aggregate: Aggregate, dps: seq<Datapoint>, batches: nat)
    ensures batchSize.None? || batchSize.value <= 0 ==>
              AggregateUpdate(aggregate.View(), dps) == SinglePass(env, actions, ts, clock) && batches == 1
    ensures batchSize.Some? && batchSize.value > 0 ==>
              var run := Chunked(env, actions, ts, clock, batchSize.value);
              aggregate.View() == run.state && dps == run.dps && batches == run.batches
  {
    if batchSize.None? || batchSize.value <= 0 {
      aggregate, dps := ComputeAggregateUpdate(env, null, actions, ts, clock(0));
      return aggregate, dps, 1;
    }
    aggregate, dps, batches := ReplayChunks(env, actions, ts, clock, batchSize.value);
  }

  /** The loop variables hold `run`; no aggregate yet means the empty one. */
  ghost predicate Holds(env: Env, run: Run, current: Aggregate?, dps: seq<Datapoint>, cursor: nat, batches: nat)
    reads current
  {
    && run.dps == dps && run.cursor == cursor && run.batches == batches && (current == null <==> batches == 0)
    && run.state == if current == null then EmptyProjection(env) else current.View()
  }

  /** One chunk of the loop. */
  method ReplayChunk(env: Env, actions: seq<Action>, ts: seq<Transition>, clock: Clock, size: nat,
                     current: Aggregate?, cursor: nat, batches: nat, lo: nat, ghost run: Run)
    returns (next: Aggregate, emitted: seq<Datapoint>, end: nat)
    requires size > 0 && lo < |actions| && cursor <= |ts|
    requires Holds(env, run, current, run.dps, cursor, batches)
    ensures fresh(next)
    ensures Holds(env, StepRun(env, actions, ts, clock, size, run, lo), next, run.dps + emitted, end, batches + 1)
  {
    var hi := ChunkEnd(lo, size, |actions|);
    end := AdvanceCursor(ts, cursor, actions[hi - 1].id);
    next, emitted := ComputeAggregateUpdate(env, current, actions[lo..hi], ts[cursor..end], clock(batches));
  }

  method ReplayChunks(env: Env, actions: seq<Action>, ts: seq<Transition>, clock: Clock, size: nat)
    returns (aggregate: Aggregate, dps: seq<Datapoint>, batches: nat)
    requires size > 0
    ensures Holds(env, Chunked(env, actions, ts, clock, size), aggregate, dps, |ts|, batches)
  {
    var current: Aggregate? := null;
    var cursor: nat, lo: nat := 0, 0;
    dps, batches := [], 0;
    ghost var run := Start(env);
    while lo < |actions|
      invariant lo <= |actions| && cursor <= |ts| && Holds(env, run, current, dps, cursor, batches)
      invariant RunFrom(env, actions, ts, clock, size, run, lo) == RunFrom(env, actions, ts, clock, size, Start(env), 0)
      decreases |actions| - lo
    {
      var next, emitted, end := ReplayChunk(env, actions, ts, clock, size, current, cursor, batches, lo, run);
      run := StepRun(env, actions, ts, clock, size, run, lo);
      current, dps, cursor, batches, lo := next, dps + emitted, end, batches + 1, ChunkEnd(lo, size, |actions|);
    }
    aggregate, dps, batches := Flush(env, ts, clock, current, dps, cursor, batches, run);
  }

  /** The transitions after the last action, or the only batch of an empty session. */
  method Flush(env: Env, ts: seq<Transition>, clock: Clock, current: Aggregate?, dps: seq<Datapoint>, cursor: nat,
               batches: nat, ghost run: Run)
    returns (aggregate: Aggregate, allDps: seq<Datapoint>, count: nat)
    requires cursor <= |ts| && Holds(env, run, current, dps, cursor, batches)
    ensures Holds(env, Finish(env, ts, clock, run), aggregate, allDps, |ts|, count)
  {
    if cursor < |ts| || current == null {
      var next, emitted := ComputeAggregateUpdate(env, current, [], ts[cursor..], clock(batches));
      return next, dps + emitted, batches + 1;
    }
    return current, dps, batches;
  }

  method AdvanceCursor(ts: seq<Transition>, cursor: nat, cutoff: Id) returns (end: nat)
    requires cursor <= |ts|
    ensures end == Advance(ts, cursor, cutoff)
  {
    end := cursor;
    while end < |ts| && ts[end].id <= cutoff
      invariant cursor <= end <= |ts|
      invariant Advance(ts, end, cutoff) == Advance(ts, cursor, cutoff)
    {
      end := end + 1;
    }
  }
}
