/** The planning projection: its inputs, its dimensions and the folds over them. */
module AggregateFold {
  import opened Graph
  import opened Types
  import opened Decimal

  // ---------------------------------------------------------------------------
  // Inputs
  // ---------------------------------------------------------------------------

  datatype Operation =
    | CreateEpic | UpdateEpic | DeleteEpic
    | CreateTicket | UpdateTicket | DeleteTicket
    | CreateBlueprint | UpdateBlueprint | DeleteBlueprint
    | UpdateSpec
    | CreateDependencies | DeleteDependencies
    | LinkBlueprintToTickets | UnlinkBlueprintToTickets
    | PhaseComplete | PhaseAdvance
    | Other(name: string)

  datatype Outcome = Success | Denied

  datatype Actor = Agent | Human

  /** What the projector reads out of the payload: list lengths where the value is a list,
      titles where it is a string. */
  datatype Payload = Payload(dependencies: Option<nat>, ids: Option<nat>, title: Option<string>, fieldsTitle: Option<string>)

  /** An empty entity id counts as absent.  Scores come in insertion order. */
  datatype Action = Action(
    id: Id, sessionId: Id, performedAt: string, phase: string, operation: Operation,
    outcome: Outcome, actor: Actor, entityId: Option<Id>, payload: Payload, denyReason: string,
    scoreAfter: Option<real>, scores: seq<(Id, real)>, guidanceVariant: string, findings: seq<string>)

  datatype Transition = Transition(id: Id, triggeredAt: string, toPhase: string, trigger: string)

  /** The session, and what the fold takes from outside: the known enum values and the
      timestamp parser. */
  datatype Env = Env(
    sessionId: Id, projectId: Id, specificationId: Id,
    variants: set<string>, categories: set<string>, parseMs: string -> Option<int>)

  // ---------------------------------------------------------------------------
  // The projection
  // ---------------------------------------------------------------------------

  datatype PhaseTimelineEntry = PhaseTimelineEntry(
    phase: string, enteredAt: string, exitedAt: Option<string>, durationMs: Option<int>)

  datatype DatapointType = SpecType | EpicType | TicketType

  datatype PerEntityScore = PerEntityScore(entityType: DatapointType, score: real)

  datatype EntityCounts = EntityCounts(epic: int, ticket: int, blueprint: int, dependency: int)

  datatype RevisionType = EpicRevision | TicketRevision | BlueprintRevision

  datatype EntityRevision = EntityRevision(revisionType: RevisionType, title: string, count: nat, lastRevisedAt: string)

  datatype ScoreHistoryEntry = ScoreHistoryEntry(at: string, score: real, triggerActionId: Id)

  datatype ActorMix = ActorMix(agent: nat, human: nat)

  datatype ScoreDelta = ScoreDelta(sum: real, count: nat)

  /** What transitions write. */
  datatype Trail = Trail(timeline: seq<PhaseTimelineEntry>, triggers: map<string, nat>)

  /** What actions write. */
  datatype Tally = Tally(
    globalScore: Option<real>,
    counts: EntityCounts,
    revisions: map<Id, EntityRevision>,
    opsMix: map<Operation, nat>,
    history: seq<ScoreHistoryEntry>,
    denied: map<string, nat>,
    actorMix: map<string, ActorMix>,
    variantCounts: map<string, nat>,
    findings: map<string, nat>,
    deltas: map<Operation, ScoreDelta>)

  datatype Projection = Projection(
    sessionId: Id, trail: Trail, tally: Tally, perEntity: map<Id, PerEntityScore>,
    lastAction: Option<Id>, lastTransition: Option<Id>, lastUpdatedAt: string)

  datatype Datapoint = Datapoint(
    id: string, entityId: Id, entityType: DatapointType, sessionId: Id, projectId: Id,
    recordedAt: string, score: real, triggerActionId: Id, trigger: string)

  const EMPTY_TRAIL := Trail([], map[])

  const EMPTY_TALLY :=
    Tally(None, EntityCounts(0, 0, 0, 0), map[], map[], [], map[], map[], map[], map[], map[])

  const EPOCH := "1970-01-01T00:00:00+00:00"

  function EmptyProjection(env: Env): Projection {
    Projection(env.sessionId, EMPTY_TRAIL, EMPTY_TALLY, map[], None, None, EPOCH)
  }

  // ---------------------------------------------------------------------------
  // Transitions
  // ---------------------------------------------------------------------------

  function Bump<K(==)>(m: map<K, nat>, k: K): map<K, nat> {
    m[k := (if k in m then m[k] else 0) + 1]
  }

  function Max(a: int, b: int): int {
    if a < b then b else a
  }

  /** Closes an entry; an empty exit time does not count as closed. */
  function CloseEntry(env: Env, e: PhaseTimelineEntry, at: string): PhaseTimelineEntry {
    if e.exitedAt.Some? && e.exitedAt.value != "" then e
    else
      var entered, exited := env.parseMs(e.enteredAt), env.parseMs(at);
      e.(exitedAt := Some(at),
         durationMs := if entered.Some? && exited.Some? then Some(Max(0, exited.value - entered.value)) else e.durationMs)
  }

  function CloseLast(env: Env, timeline: seq<PhaseTimelineEntry>, at: string): seq<PhaseTimelineEntry> {
    if timeline == [] then [] else timeline[|timeline| - 1 := CloseEntry(env, timeline[|timeline| - 1], at)]
  }

  function StepTrail(env: Env, trail: Trail, t: Transition): Trail {
    Trail(CloseLast(env, trail.timeline, t.triggeredAt) + [PhaseTimelineEntry(t.toPhase, t.triggeredAt, None, None)],
          Bump(trail.triggers, t.trigger))
  }

  function FoldTrail(env: Env, trail: Trail, ts: seq<Transition>): Trail {
    if |ts| == 0 then trail else StepTrail(env, FoldTrail(env, trail, ts[..|ts| - 1]), ts[|ts| - 1])
  }

  lemma {:induction false} FoldTrailConcat(env: Env, trail: Trail, a: seq<Transition>, b: seq<Transition>)
    ensures FoldTrail(env, trail, a + b) == FoldTrail(env, FoldTrail(env, trail, a), b)
    decreases |b|
  {
    if |b| == 0 {
      assert a + b == a;
    } else {
      FoldTrailConcat(env, trail, a, b[..|b| - 1]);
      assert (a + b)[..|a + b| - 1] == a + b[..|b| - 1];
    }
  }

  // ---------------------------------------------------------------------------
  // Actions
  // ---------------------------------------------------------------------------

  function FoldActorMix(m: map<string, ActorMix>, a: Action): map<string, ActorMix> {
    var b := if a.phase in m then m[a.phase] else ActorMix(0, 0);
    m[a.phase := if a.actor == Human then b.(human := b.human + 1) else b.(agent := b.agent + 1)]
  }

  /** Unknown variants are not counted, nor is an absent one. */
  function FoldVariant(env: Env, m: map<string, nat>, a: Action): map<string, nat> {
    if a.guidanceVariant == "" || a.guidanceVariant !in env.variants then m else Bump(m, a.guidanceVariant)
  }

  function BumpKnown(env: Env, m: map<string, nat>, cats: seq<string>): map<string, nat> {
    if |cats| == 0 then m
    else
      var init, cat := BumpKnown(env, m, cats[..|cats| - 1]), cats[|cats| - 1];
      if cat in env.categories then Bump(init, cat) else init
  }

  function FoldDenied(m: map<string, nat>, a: Action): map<string, nat> {
    if a.denyReason == "" then m else Bump(m, a.denyReason)
  }

  function InferDependencyCount(p: Payload): nat {
    if p.dependencies.Some? then p.dependencies.value
    else if p.ids.Some? then p.ids.value
    else 1
  }

  function CountEntities(c: EntityCounts, a: Action): EntityCounts {
    match a.operation
    case CreateEpic => c.(epic := c.epic + 1)
    case DeleteEpic => c.(epic := Max(0, c.epic - 1))
    case CreateTicket => c.(ticket := c.ticket + 1)
    case DeleteTicket => c.(ticket := Max(0, c.ticket - 1))
    case CreateBlueprint => c.(blueprint := c.blueprint + 1)
    case DeleteBlueprint => c.(blueprint := Max(0, c.blueprint - 1))
    case CreateDependencies => c.(dependency := c.dependency + InferDependencyCount(a.payload))
    case DeleteDependencies => c.(dependency := Max(0, c.dependency - InferDependencyCount(a.payload)))
    case _ => c
  }

  function RevisionTypeOf(op: Operation): Option<RevisionType> {
    match op
    case CreateEpic => Some(EpicRevision)
    case UpdateEpic => Some(EpicRevision)
    case CreateTicket => Some(TicketRevision)
    case UpdateTicket => Some(TicketRevision)
    case CreateBlueprint => Some(BlueprintRevision)
    case UpdateBlueprint => Some(BlueprintRevision)
    case _ => None
  }

  function ExtractTitle(p: Payload): Option<string> {
    if p.title.Some? then p.title else p.fieldsTitle
  }

  /** Who an action revises, and as what. */
  function Revises(a: Action): Option<(Id, RevisionType)> {
    if a.outcome == Success && a.entityId.Some? && RevisionTypeOf(a.operation).Some?
    then Some((a.entityId.value, RevisionTypeOf(a.operation).value))
    else None
  }

  function Revise(revisions: map<Id, EntityRevision>, a: Action): map<Id, EntityRevision> {
    if a.entityId.None? || RevisionTypeOf(a.operation).None? then revisions
    else
      var id := a.entityId.value;
      var known := id in revisions;
      var title := ExtractTitle(a.payload);
      revisions[id := EntityRevision(RevisionTypeOf(a.operation).value,
                                     if title.Some? then title.value else if known then revisions[id].title else "",
                                     (if known then revisions[id].count else 0) + 1,
                                     a.performedAt)]
  }

  function AddDelta(deltas: map<Operation, ScoreDelta>, op: Operation, delta: real): map<Operation, ScoreDelta> {
    var acc := if op in deltas then deltas[op] else ScoreDelta(0.0, 0);
    deltas[op := ScoreDelta(acc.sum + delta, acc.count + 1)]
  }

  /** The action was not denied and carries a score. */
  predicate Scored(a: Action) {
    a.outcome == Success && a.scoreAfter.Some?
  }

  function FoldDelta(y: Tally, a: Action): map<Operation, ScoreDelta> {
    if Scored(a) && y.globalScore.Some? then AddDelta(y.deltas, a.operation, a.scoreAfter.value - y.globalScore.value)
    else y.deltas
  }

  function FoldHistory(history: seq<ScoreHistoryEntry>, a: Action): seq<ScoreHistoryEntry> {
    if Scored(a) then history + [ScoreHistoryEntry(a.performedAt, a.scoreAfter.value, a.id)] else history
  }

  function StepTally(env: Env, y: Tally, a: Action): Tally {
    var ok := a.outcome == Success;
    Tally(if Scored(a) then a.scoreAfter else y.globalScore,
          if ok then CountEntities(y.counts, a) else y.counts,
          if ok then Revise(y.revisions, a) else y.revisions,
          Bump(y.opsMix, a.operation),
          FoldHistory(y.history, a),
          if ok then y.denied else FoldDenied(y.denied, a),
          FoldActorMix(y.actorMix, a),
          FoldVariant(env, y.variantCounts, a),
          BumpKnown(env, y.findings, a.findings),
          FoldDelta(y, a))
  }

  function FoldTally(env: Env, y: Tally, actions: seq<Action>): Tally {
    if |actions| == 0 then y else StepTally(env, FoldTally(env, y, actions[..|actions| - 1]), actions[|actions| - 1])
  }

  lemma {:induction false} FoldTallyConcat(env: Env, y: Tally, a: seq<Action>, b: seq<Action>)
    ensures FoldTally(env, y, a + b) == FoldTally(env, FoldTally(env, y, a), b)
    decreases |b|
  {
    if |b| == 0 {
      assert a + b == a;
    } else {
      FoldTallyConcat(env, y, a, b[..|b| - 1]);
      assert (a + b)[..|a + b| - 1] == a + b[..|b| - 1];
    }
  }

  // ---------------------------------------------------------------------------
  // Datapoints
  // ---------------------------------------------------------------------------

  /** The upsert key, from the texts of the two ids. */
  function DatapointKey(action: string, entity: string, trigger: string): string {
    action + "#" + (entity + "#" + trigger)
  }

  function DatapointId(actionId: Id, entityId: Id, trigger: string): string {
    DatapointKey(NatToString(actionId), NatToString(entityId), trigger)
  }

  lemma {:induction false} HashCut(a: string, b: string, x: string, y: string)
    requires '#' !in a && '#' !in b && a + "#" + x == b + "#" + y
    ensures a == b && x == y
    decreases |a|
  {
    var s := a + "#" + x;
    assert s[0] == if a == "" then '#' else a[0];
    assert s[0] == if b == "" then '#' else b[0];
    if a == "" {
      assert x == s[1..] == y;
    } else {
      assert s[1..] == a[1..] + "#" + x == b[1..] + "#" + y;
      HashCut(a[1..], b[1..], x, y);
    }
  }

  /** One key per action, entity and trigger, as long as no id's text holds a '#':
      re-deriving a datapoint overwrites it, and no other datapoint does. */
  lemma DatapointKeyInjective(a: string, e: string, t: string, b: string, f: string, u: string)
    requires '#' !in a && '#' !in e && '#' !in b && '#' !in f
    ensures DatapointKey(a, e, t) == DatapointKey(b, f, u) <==> a == b && e == f && t == u
  {
    if DatapointKey(a, e, t) == DatapointKey(b, f, u) {
      HashCut(a, b, e + "#" + t, f + "#" + u);
      HashCut(e, f, t, u);
    }
  }

  /** With a '#' in an id, two datapoints can share a key. */
  lemma DatapointKeysCollide(a: string, m: string, e: string, t: string)
    ensures DatapointKey(a + "#" + m, e, t) == DatapointKey(a, m + "#" + e, t)
  {
  }

  lemma DigitsHaveNoHash(s: string)
    requires AllDigits(s)
    ensures '#' !in s
  {
  }

  lemma DatapointIdInjective(a: Id, e: Id, t: string, b: Id, f: Id, u: string)
    ensures DatapointId(a, e, t) == DatapointId(b, f, u) <==> a == b && e == f && t == u
  {
    ParsePrinted(a);
    ParsePrinted(b);
    ParsePrinted(e);
    ParsePrinted(f);
    DigitsHaveNoHash(NatToString(a));
    DigitsHaveNoHash(NatToString(b));
    DigitsHaveNoHash(NatToString(e));
    DigitsHaveNoHash(NatToString(f));
    DatapointKeyInjective(NatToString(a), NatToString(e), t, NatToString(b), NatToString(f), u);
  }

  function ScoreIn(scores: seq<(Id, real)>, e: Id): Option<real> {
    if |scores| == 0 then None
    else if scores[0].0 == e then Some(scores[0].1)
    else ScoreIn(scores[1..], e)
  }

  function ScoreFor(a: Action, e: Id): Option<real> {
    if ScoreIn(a.scores, e).Some? then ScoreIn(a.scores, e) else a.scoreAfter
  }

  /** The registered type decides; a blueprint has no datapoints, and anything unknown is a
      ticket. */
  function ResolveType(env: Env, revisions: map<Id, EntityRevision>, e: Id): Option<DatapointType> {
    if e == env.specificationId then Some(SpecType)
    else if e !in revisions then Some(TicketType)
    else
      match revisions[e].revisionType
      case EpicRevision => Some(EpicType)
      case TicketRevision => Some(TicketType)
      case BlueprintRevision => None
  }

  function MakeDatapoint(env: Env, a: Action, trigger: string, t: DatapointType, e: Id, score: real): Datapoint {
    Datapoint(DatapointId(a.id, e, trigger), e, t, a.sessionId, env.projectId, a.performedAt, score, a.id, trigger)
  }

  function Single(env: Env, a: Action, trigger: string, t: DatapointType, e: Option<Id>): seq<Datapoint> {
    if e.None? || ScoreFor(a, e.value).None? then []
    else [MakeDatapoint(env, a, trigger, t, e.value, ScoreFor(a, e.value).value)]
  }

  /** One datapoint per scored entity that has a datapoint type. */
  function PerAffected(env: Env, a: Action, trigger: string, revisions: map<Id, EntityRevision>, scores: seq<(Id, real)>):
    seq<Datapoint>
  {
    if |scores| == 0 then []
    else
      var last := scores[|scores| - 1];
      var t := ResolveType(env, revisions, last.0);
      PerAffected(env, a, trigger, revisions, scores[..|scores| - 1])
      + (if t.Some? then [MakeDatapoint(env, a, trigger, t.value, last.0, last.1)] else [])
  }

  /** The trigger of the operations that score every affected entity. */
  function AffectedTrigger(a: Action): Option<string> {
    match a.operation
    case UpdateBlueprint => Some("blueprint_field_updated")
    case CreateDependencies => Some("dependency_added")
    case DeleteDependencies => Some("dependency_removed")
    case LinkBlueprintToTickets => Some("blueprint_linked")
    case UnlinkBlueprintToTickets => Some("blueprint_unlinked")
    case PhaseComplete => if a.phase == "cross_validation" then Some("cross_val_recompute") else None
    case PhaseAdvance => if a.phase == "cross_validation" then Some("cross_val_recompute") else None
    case _ => None
  }

  function Emit(env: Env, revisions: map<Id, EntityRevision>, a: Action): seq<Datapoint> {
    if a.outcome == Denied then []
    else
      match a.operation
      case CreateEpic => Single(env, a, "created", EpicType, a.entityId)
      case CreateTicket => Single(env, a, "created", TicketType, a.entityId)
      case UpdateSpec =>
        Single(env, a, "metadata_updated", SpecType, if a.entityId.Some? then a.entityId else Some(env.specificationId))
      case UpdateEpic => Single(env, a, "epic_field_updated", EpicType, a.entityId)
      case UpdateTicket => Single(env, a, "ticket_field_updated", TicketType, a.entityId)
      case _ =>
        if AffectedTrigger(a).Some? then PerAffected(env, a, AffectedTrigger(a).value, revisions, a.scores) else []
  }

  /** `compute_datapoints`. */
  function Datapoints(env: Env, revisions: map<Id, EntityRevision>, actions: seq<Action>): seq<Datapoint> {
    if |actions| == 0 then []
    else Datapoints(env, revisions, actions[..|actions| - 1]) + Emit(env, revisions, actions[|actions| - 1])
  }

  function ApplyDatapoints(perEntity: map<Id, PerEntityScore>, dps: seq<Datapoint>): map<Id, PerEntityScore> {
    if |dps| == 0 then perEntity
    else
      var d := dps[|dps| - 1];
      ApplyDatapoints(perEntity, dps[..|dps| - 1])[d.entityId := PerEntityScore(d.entityType, d.score)]
  }

  lemma {:induction false} ApplyDatapointsConcat(m: map<Id, PerEntityScore>, a: seq<Datapoint>, b: seq<Datapoint>)
    ensures ApplyDatapoints(m, a + b) == ApplyDatapoints(ApplyDatapoints(m, a), b)
    decreases |b|
  {
    if |b| == 0 {
      assert a + b == a;
    } else {
      ApplyDatapointsConcat(m, a, b[..|b| - 1]);
      assert (a + b)[..|a + b| - 1] == a + b[..|b| - 1];
    }
  }

  // ---------------------------------------------------------------------------
  // One incremental update
  // ---------------------------------------------------------------------------

  function Later(a: Option<Id>, b: Id): Option<Id> {
    if a.Some? && b <= a.value then a else Some(b)
  }

  function MaxActionId(actions: seq<Action>): Option<Id> {
    if |actions| == 0 then None else Later(MaxActionId(actions[..|actions| - 1]), actions[|actions| - 1].id)
  }

  function MaxTransitionId(ts: seq<Transition>): Option<Id> {
    if |ts| == 0 then None else Later(MaxTransitionId(ts[..|ts| - 1]), ts[|ts| - 1].id)
  }

  datatype AggregateUpdate = AggregateUpdate(projection: Projection, datapoints: seq<Datapoint>)

  /** The registry of the batch is read after the batch. */
  function Update(env: Env, p: Projection, actions: seq<Action>, transitions: seq<Transition>, now: string): AggregateUpdate {
    var tally := FoldTally(env, p.tally, actions);
    var dps := Datapoints(env, tally.revisions, actions);
    AggregateUpdate(
      Projection(p.sessionId, FoldTrail(env, p.trail, transitions), tally, ApplyDatapoints(p.perEntity, dps),
                 if |actions| == 0 then p.lastAction else MaxActionId(actions),
                 if |transitions| == 0 then p.lastTransition else MaxTransitionId(transitions),
                 now),
      dps)
  }
}
