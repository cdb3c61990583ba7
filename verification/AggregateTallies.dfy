/** What every tally of the projection is, read off the actions it was folded from: counted
    dimensions, entity counters, revisions, scores, cursors and datapoints. */
module AggregateTallies {
  import opened Graph
  import opened Types
  import opened Decimal
  import opened Ordering
  import opened AggregateFold

  function From(env: Env, actions: seq<Action>): Tally {
    FoldTally(env, EMPTY_TALLY, actions)
  }

  // ---------------------------------------------------------------------------
  // Counted dimensions
  // ---------------------------------------------------------------------------

  function Count(actions: seq<Action>, p: Action -> bool): nat {
    if |actions| == 0 then 0
    else Count(actions[..|actions| - 1], p) + (if p(actions[|actions| - 1]) then 1 else 0)
  }

  /** The map holds `n` under the key, and nothing when that is 0. */
  ghost predicate Holds<K(!new)>(m: map<K, nat>, k: K, n: nat) {
    (k in m <==> n > 0) && (k in m ==> m[k] == n)
  }

  /** The operation mix counts each operation, whatever the outcome. */
  lemma {:induction false} OperationsAreCounted(env: Env, actions: seq<Action>, op: Operation)
    ensures Holds(From(env, actions).opsMix, op, Count(actions, (a: Action) => a.operation == op))
    decreases |actions|
  {
    if |actions| > 0 {
      OperationsAreCounted(env, actions[..|actions| - 1], op);
    }
  }

  function SumOver(ops: seq<Operation>, m: map<Operation, nat>): nat {
    if |ops| == 0 then 0
    else SumOver(ops[..|ops| - 1], m) + (if ops[|ops| - 1] in m then m[ops[|ops| - 1]] else 0)
  }

  lemma {:induction false} BumpSums(ops: seq<Operation>, m: map<Operation, nat>, op: Operation)
    requires Distinct(ops)
    ensures SumOver(ops, Bump(m, op)) == SumOver(ops, m) + (if op in ops then 1 else 0)
    decreases |ops|
  {
    if |ops| > 0 {
      var init, last := ops[..|ops| - 1], ops[|ops| - 1];
      BumpSums(init, m, op);
      assert op in ops <==> op in init || op == last;
      assert last !in init;
    }
  }

  lemma {:induction false} NothingSums(ops: seq<Operation>)
    ensures SumOver(ops, map[]) == 0
    decreases |ops|
  {
    if |ops| > 0 {
      NothingSums(ops[..|ops| - 1]);
    }
  }

  /** Over all operations the mix adds up to the number of actions. */
  lemma {:induction false} OperationsAddUp(env: Env, ops: seq<Operation>, actions: seq<Action>)
    requires Distinct(ops) && forall a | a in actions :: a.operation in ops
    ensures SumOver(ops, From(env, actions).opsMix) == |actions|
    decreases |actions|
  {
    if |actions| == 0 {
      NothingSums(ops);
    } else {
      var init, last := actions[..|actions| - 1], actions[|actions| - 1];
      assert last in actions && forall a | a in init :: a in actions;
      OperationsAddUp(env, ops, init);
      BumpSums(ops, From(env, init).opsMix, last.operation);
    }
  }

  /** Denied actions are counted by their reason, those that give one. */
  lemma {:induction false} DenialsAreCounted(env: Env, actions: seq<Action>, reason: string)
    ensures Holds(From(env, actions).denied, reason,
                  if reason == "" then 0
                  else Count(actions, (a: Action) => a.outcome == Denied && a.denyReason == reason))
    decreases |actions|
  {
    if |actions| > 0 {
      DenialsAreCounted(env, actions[..|actions| - 1], reason);
    }
  }

  /** Known guidance variants are counted, whatever the outcome. */
  lemma {:induction false} VariantsAreCounted(env: Env, actions: seq<Action>, variant: string)
    ensures Holds(From(env, actions).variantCounts, variant,
                  if variant == "" || variant !in env.variants then 0
                  else Count(actions, (a: Action) => a.guidanceVariant == variant))
    decreases |actions|
  {
    if |actions| > 0 {
      VariantsAreCounted(env, actions[..|actions| - 1], variant);
    }
  }

  function Occurrences(actions: seq<Action>, cat: string): nat {
    if |actions| == 0 then 0
    else Occurrences(actions[..|actions| - 1], cat) + multiset(actions[|actions| - 1].findings)[cat]
  }

  lemma {:induction false} KnownAreBumped(env: Env, m: map<string, nat>, cats: seq<string>, cat: string, n: nat)
    requires Holds(m, cat, n)
    ensures Holds(BumpKnown(env, m, cats), cat, if cat in env.categories then n + multiset(cats)[cat] else n)
    decreases |cats|
  {
    if |cats| > 0 {
      var init, last := cats[..|cats| - 1], cats[|cats| - 1];
      assert cats == init + [last];
      KnownAreBumped(env, m, init, cat, n);
    }
  }

  /** Known findings categories are counted as often as they occur. */
  lemma {:induction false} FindingsAreCounted(env: Env, actions: seq<Action>, cat: string)
    ensures Holds(From(env, actions).findings, cat, if cat in env.categories then Occurrences(actions, cat) else 0)
    decreases |actions|
  {
    if |actions| > 0 {
      var init, last := actions[..|actions| - 1], actions[|actions| - 1];
      FindingsAreCounted(env, init, cat);
      KnownAreBumped(env, From(env, init).findings, last.findings, cat,
                     if cat in env.categories then Occurrences(init, cat) else 0);
    }
  }

  /** Every action of a phase is counted once, as its actor's. */
  lemma {:induction false} ActorsAreCounted(env: Env, actions: seq<Action>, phase: string)
    ensures var m := From(env, actions).actorMix;
            var agents := Count(actions, (a: Action) => a.phase == phase && a.actor == Agent);
            var humans := Count(actions, (a: Action) => a.phase == phase && a.actor == Human);
            && (phase in m <==> agents + humans > 0)
            && (phase in m ==> m[phase] == ActorMix(agents, humans))
            && agents + humans == Count(actions, (a: Action) => a.phase == phase)
    decreases |actions|
  {
    if |actions| > 0 {
      ActorsAreCounted(env, actions[..|actions| - 1], phase);
    }
  }

  // ---------------------------------------------------------------------------
  // Entity counters
  // ---------------------------------------------------------------------------

  datatype Kind = Epics | Tickets | Blueprints | Dependencies

  function Counter(c: EntityCounts, kind: Kind): int {
    match kind
    case Epics => c.epic
    case Tickets => c.ticket
    case Blueprints => c.blueprint
    case Dependencies => c.dependency
  }

  function Creates(kind: Kind): Operation {
    match kind
    case Epics => CreateEpic
    case Tickets => CreateTicket
    case Blueprints => CreateBlueprint
    case Dependencies => CreateDependencies
  }

  function Deletes(kind: Kind): Operation {
    match kind
    case Epics => DeleteEpic
    case Tickets => DeleteTicket
    case Blueprints => DeleteBlueprint
    case Dependencies => DeleteDependencies
  }

  /** How many entities one action is about: the length of the payload's `dependencies`, else
      of its `ids`, else one. */
  function Weight(a: Action, kind: Kind): nat {
    if kind != Dependencies then 1
    else if a.payload.dependencies.Some? then a.payload.dependencies.value
    else if a.payload.ids.Some? then a.payload.ids.value
    else 1
  }

  /** What a successful action adds to a counter. */
  function Move(a: Action, kind: Kind): int {
    if a.outcome == Denied then 0
    else if a.operation == Creates(kind) then Weight(a, kind)
    else if a.operation == Deletes(kind) then -(Weight(a, kind) as int)
    else 0
  }

  function Net(actions: seq<Action>, kind: Kind): int {
    if |actions| == 0 then 0 else Net(actions[..|actions| - 1], kind) + Move(actions[|actions| - 1], kind)
  }

  lemma CounterMoves(env: Env, y: Tally, a: Action, kind: Kind)
    requires Counter(y.counts, kind) >= 0
    ensures var moved := Counter(y.counts, kind) + Move(a, kind);
            Counter(StepTally(env, y, a).counts, kind) == if moved < 0 then 0 else moved
  {
  }

  lemma SuffixMoves(actions: seq<Action>, j: nat, kind: Kind)
    requires j < |actions|
    ensures Net(actions[j..], kind) == Net(actions[..|actions| - 1][j..], kind) + Move(actions[|actions| - 1], kind)
  {
    assert actions[j..][..|actions| - 1 - j] == actions[..|actions| - 1][j..];
  }

  /** A counter is the largest net move over the suffixes of the run: each shortfall is
      forgotten where it occurs. */
  lemma {:induction false} CounterIsLargestSuffix(env: Env, actions: seq<Action>, kind: Kind) returns (at: nat)
    ensures at <= |actions| && Counter(From(env, actions).counts, kind) == Net(actions[at..], kind) >= 0
    ensures forall j | 0 <= j <= |actions| :: Net(actions[j..], kind) <= Counter(From(env, actions).counts, kind)
    decreases |actions|
  {
    var n := |actions|;
    if n == 0 {
      return 0;
    }
    var init, last := actions[..n - 1], actions[n - 1];
    at := CounterIsLargestSuffix(env, init, kind);
    CounterMoves(env, From(env, init), last, kind);
    forall j | 0 <= j < n
      ensures Net(actions[j..], kind) == Net(init[j..], kind) + Move(last, kind)
    {
      SuffixMoves(actions, j, kind);
    }
    if Counter(From(env, init).counts, kind) + Move(last, kind) < 0 {
      at := n;
    }
  }

  /** When no prefix of the run deletes more than it created, a counter is the net move. */
  lemma {:induction false} CounterIsNet(env: Env, actions: seq<Action>, kind: Kind)
    requires forall j | 0 <= j <= |actions| :: Net(actions[..j], kind) >= 0
    ensures Counter(From(env, actions).counts, kind) == Net(actions, kind)
    decreases |actions|
  {
    var n := |actions|;
    if n > 0 {
      var init := actions[..n - 1];
      forall j | 0 <= j <= n - 1
        ensures Net(init[..j], kind) >= 0
      {
        assert init[..j] == actions[..j];
      }
      CounterIsNet(env, init, kind);
      assert actions[..n] == actions && init[..n - 1] == init;
      CounterMoves(env, From(env, init), actions[n - 1], kind);
    }
  }

  /** Creates less deletes, of what is counted one by one. */
  lemma {:induction false} NetIsCreatesLessDeletes(actions: seq<Action>, kind: Kind)
    requires kind != Dependencies
    ensures Net(actions, kind)
            == Count(actions, (a: Action) => a.outcome == Success && a.operation == Creates(kind))
               - Count(actions, (a: Action) => a.outcome == Success && a.operation == Deletes(kind))
    decreases |actions|
  {
    if |actions| > 0 {
      NetIsCreatesLessDeletes(actions[..|actions| - 1], kind);
    }
  }

  // ---------------------------------------------------------------------------
  // Revisions
  // ---------------------------------------------------------------------------

  /** A successful create or update of the entity. */
  predicate Touches(a: Action, e: Id) {
    && a.outcome == Success && a.entityId == Some(e)
    && a.operation in {CreateEpic, UpdateEpic, CreateTicket, UpdateTicket, CreateBlueprint, UpdateBlueprint}
  }

  function LastTouch(actions: seq<Action>, e: Id): Option<Action> {
    if |actions| == 0 then None
    else if Touches(actions[|actions| - 1], e) then Some(actions[|actions| - 1])
    else LastTouch(actions[..|actions| - 1], e)
  }

  function NextTitle(a: Action, before: string): string {
    if a.payload.title.Some? then a.payload.title.value
    else if a.payload.fieldsTitle.Some? then a.payload.fieldsTitle.value
    else before
  }

  /** The title of the last such action that gives one: at the top of its payload, or else
      among the fields. */
  function LastTitle(actions: seq<Action>, e: Id): string {
    if |actions| == 0 then ""
    else
      var before := LastTitle(actions[..|actions| - 1], e);
      if Touches(actions[|actions| - 1], e) then NextTitle(actions[|actions| - 1], before) else before
  }

  predicate TypeFits(op: Operation, t: RevisionType) {
    && (t == EpicRevision <==> op == CreateEpic || op == UpdateEpic)
    && (t == TicketRevision <==> op == CreateTicket || op == UpdateTicket)
  }

  ghost predicate RevisionShows(m: map<Id, EntityRevision>, e: Id, n: nat, last: Option<Action>, title: string) {
    && (e in m <==> n > 0) && (e in m <==> last.Some?) && (e !in m ==> title == "")
    && (e in m ==> m[e].count == n && m[e].title == title && m[e].lastRevisedAt == last.value.performedAt
                   && TypeFits(last.value.operation, m[e].revisionType))
  }

  lemma StepRevision(env: Env, y: Tally, a: Action, e: Id, n: nat, last: Option<Action>, title: string)
    requires RevisionShows(y.revisions, e, n, last, title)
    ensures RevisionShows(StepTally(env, y, a).revisions, e, if Touches(a, e) then n + 1 else n,
                          if Touches(a, e) then Some(a) else last, if Touches(a, e) then NextTitle(a, title) else title)
  {
    var next := StepTally(env, y, a).revisions;
    assert next == if a.outcome == Success then Revise(y.revisions, a) else y.revisions;
  }

  /** A revised entity: how often, with which title, when and as what. */
  lemma {:induction false} RevisionsAreTouches(env: Env, actions: seq<Action>, e: Id)
    ensures RevisionShows(From(env, actions).revisions, e, Count(actions, (a: Action) => Touches(a, e)),
                          LastTouch(actions, e), LastTitle(actions, e))
    decreases |actions|
  {
    if |actions| > 0 {
      var init, last := actions[..|actions| - 1], actions[|actions| - 1];
      RevisionsAreTouches(env, init, e);
      StepRevision(env, From(env, init), last, e, Count(init, (a: Action) => Touches(a, e)), LastTouch(init, e),
                   LastTitle(init, e));
    }
  }

  // ---------------------------------------------------------------------------
  // Scores
  // ---------------------------------------------------------------------------

  /** The successful actions that carry a score, in order. */
  function Graded(actions: seq<Action>): (g: seq<Action>)
    ensures forall a | a in g :: a.scoreAfter.Some?
  {
    if |actions| == 0 then []
    else
      var a := actions[|actions| - 1];
      Graded(actions[..|actions| - 1]) + (if a.outcome == Success && a.scoreAfter.Some? then [a] else [])
  }

  lemma {:induction false} HistoryIsGraded(env: Env, actions: seq<Action>)
    ensures var g, y := Graded(actions), From(env, actions);
            && |y.history| == |g|
            && (forall k | 0 <= k < |g| ::
                  g[k].scoreAfter.Some?
                  && y.history[k] == ScoreHistoryEntry(g[k].performedAt, g[k].scoreAfter.value, g[k].id))
            && y.globalScore == if |g| == 0 then None else g[|g| - 1].scoreAfter
    decreases |actions|
  {
    if |actions| > 0 {
      HistoryIsGraded(env, actions[..|actions| - 1]);
    }
  }

  /** The steps from one score to the next that an operation made. */
  function Steps(g: seq<Action>, op: Operation): (d: ScoreDelta)
    requires forall a | a in g :: a.scoreAfter.Some?
  {
    if |g| < 2 then ScoreDelta(0.0, 0)
    else
      var last, before := g[|g| - 1], g[|g| - 2];
      var d := Steps(g[..|g| - 1], op);
      if last.operation == op then ScoreDelta(d.sum + (last.scoreAfter.value - before.scoreAfter.value), d.count + 1) else d
  }

  ghost predicate DeltasShow(y: Tally, g: seq<Action>, op: Operation)
    requires forall a | a in g :: a.scoreAfter.Some?
  {
    && (op in y.deltas <==> Steps(g, op).count > 0) && (op in y.deltas ==> y.deltas[op] == Steps(g, op))
    && (Steps(g, op).count == 0 ==> Steps(g, op).sum == 0.0)
  }

  lemma StepsMore(g: seq<Action>, a: Action, op: Operation)
    requires (forall b | b in g :: b.scoreAfter.Some?) && a.scoreAfter.Some?
    ensures var d := Steps(g, op);
            Steps(g + [a], op)
            == if |g| > 0 && a.operation == op
               then ScoreDelta(d.sum + (a.scoreAfter.value - g[|g| - 1].scoreAfter.value), d.count + 1) else d
  {
    assert (g + [a])[..|g|] == g;
  }

  lemma StepDeltas(env: Env, y: Tally, g: seq<Action>, a: Action, op: Operation)
    requires (forall b | b in g :: b.scoreAfter.Some?) && DeltasShow(y, g, op)
    requires y.globalScore == if |g| == 0 then None else g[|g| - 1].scoreAfter
    ensures a.outcome == Success && a.scoreAfter.Some? ==> DeltasShow(StepTally(env, y, a), g + [a], op)
    ensures !(a.outcome == Success && a.scoreAfter.Some?) ==> DeltasShow(StepTally(env, y, a), g, op)
  {
    if a.outcome == Success && a.scoreAfter.Some? {
      StepsMore(g, a, op);
    }
    assert StepTally(env, y, a).deltas == FoldDelta(y, a);
  }

  /** The deltas of an operation are the steps it made. */
  lemma {:induction false} DeltasAreSteps(env: Env, actions: seq<Action>, op: Operation)
    ensures DeltasShow(From(env, actions), Graded(actions), op)
    decreases |actions|
  {
    if |actions| > 0 {
      var init, last := actions[..|actions| - 1], actions[|actions| - 1];
      DeltasAreSteps(env, init, op);
      HistoryIsGraded(env, init);
      StepDeltas(env, From(env, init), Graded(init), last, op);
      assert Graded(init) + [] == Graded(init);
    }
  }

  // ---------------------------------------------------------------------------
  // Cursors and entity scores
  // ---------------------------------------------------------------------------

  /** The cursor is the largest id of the batch. */
  lemma {:induction false} ActionCursorIsMax(actions: seq<Action>) returns (k: nat)
    requires |actions| > 0
    ensures k < |actions| && MaxActionId(actions) == Some(actions[k].id)
    ensures forall i | 0 <= i < |actions| :: actions[i].id <= actions[k].id
    decreases |actions|
  {
    var n := |actions| - 1;
    k := n;
    if n > 0 {
      var j := ActionCursorIsMax(actions[..n]);
      if actions[n].id <= actions[j].id {
        k := j;
      }
    }
  }

  lemma {:induction false} TransitionCursorIsMax(ts: seq<Transition>) returns (k: nat)
    requires |ts| > 0
    ensures k < |ts| && MaxTransitionId(ts) == Some(ts[k].id)
    ensures forall i | 0 <= i < |ts| :: ts[i].id <= ts[k].id
    decreases |ts|
  {
    var n := |ts| - 1;
    k := n;
    if n > 0 {
      var j := TransitionCursorIsMax(ts[..n]);
      if ts[n].id <= ts[j].id {
        k := j;
      }
    }
  }

  /** The score of an entity is its last datapoint's. */
  lemma {:induction false} EntityScoreIsLast(m: map<Id, PerEntityScore>, dps: seq<Datapoint>, k: nat)
    requires k < |dps| && forall j | k < j < |dps| :: dps[j].entityId != dps[k].entityId
    ensures var after, e := ApplyDatapoints(m, dps), dps[k].entityId;
            e in after && after[e] == PerEntityScore(dps[k].entityType, dps[k].score)
    decreases |dps|
  {
    if k < |dps| - 1 {
      EntityScoreIsLast(m, dps[..|dps| - 1], k);
    }
  }

  lemma {:induction false} EntityScoreIsKept(m: map<Id, PerEntityScore>, dps: seq<Datapoint>, e: Id)
    requires forall d | d in dps :: d.entityId != e
    ensures var after := ApplyDatapoints(m, dps);
            (e in after <==> e in m) && (e in m ==> after[e] == m[e])
    decreases |dps|
  {
    if |dps| > 0 {
      var init, last := dps[..|dps| - 1], dps[|dps| - 1];
      assert dps == init + [last] && last in dps;
      EntityScoreIsKept(m, init, e);
    }
  }

  // ---------------------------------------------------------------------------
  // Datapoints
  // ---------------------------------------------------------------------------

  /** The action lists this score for the entity. */
  ghost predicate Lists(a: Action, e: Id, score: real) {
    exists k :: 0 <= k < |a.scores| && a.scores[k] == (e, score) && forall j | 0 <= j < k :: a.scores[j].0 != e
  }

  lemma {:induction false} ScoreInIsFirst(scores: seq<(Id, real)>, e: Id, k: nat)
    requires k < |scores| && scores[k].0 == e && forall j | 0 <= j < k :: scores[j].0 != e
    ensures ScoreIn(scores, e) == Some(scores[k].1)
    decreases |scores|
  {
    if k > 0 {
      assert scores[0].0 != e;
      ScoreInIsFirst(scores[1..], e, k - 1);
    }
  }

  lemma {:induction false} NoScoreIn(scores: seq<(Id, real)>, e: Id)
    requires forall k | 0 <= k < |scores| :: scores[k].0 != e
    ensures ScoreIn(scores, e) == None
    decreases |scores|
  {
    if |scores| > 0 {
      NoScoreIn(scores[1..], e);
    }
  }

  /** The listed score goes before the global one. */
  lemma ListedScoreWins(a: Action, e: Id)
    ensures forall s | Lists(a, e, s) :: ScoreFor(a, e) == Some(s)
    ensures (forall k | 0 <= k < |a.scores| :: a.scores[k].0 != e) ==> ScoreFor(a, e) == a.scoreAfter
  {
    forall s | Lists(a, e, s)
      ensures ScoreFor(a, e) == Some(s)
    {
      var k :| 0 <= k < |a.scores| && a.scores[k] == (e, s) && forall j | 0 <= j < k :: a.scores[j].0 != e;
      ScoreInIsFirst(a.scores, e, k);
    }
    if forall k | 0 <= k < |a.scores| :: a.scores[k].0 != e {
      NoScoreIn(a.scores, e);
    }
  }

  /** Everything a datapoint carries over from its action. */
  ghost predicate Stamped(env: Env, a: Action, d: Datapoint, trigger: string) {
    && d.id == NatToString(a.id) + "#" + NatToString(d.entityId) + "#" + trigger
    && d.sessionId == a.sessionId && d.projectId == env.projectId && d.recordedAt == a.performedAt
    && d.triggerActionId == a.id && d.trigger == trigger
  }

  /** The operations that score the one entity they are about. */
  function OwnTrigger(op: Operation): Option<(string, DatapointType)> {
    match op
    case CreateEpic => Some(("created", EpicType))
    case CreateTicket => Some(("created", TicketType))
    case UpdateSpec => Some(("metadata_updated", SpecType))
    case UpdateEpic => Some(("epic_field_updated", EpicType))
    case UpdateTicket => Some(("ticket_field_updated", TicketType))
    case _ => None
  }

  /** The operations that score every entity they list. */
  function SharedTrigger(a: Action): Option<string> {
    match a.operation
    case UpdateBlueprint => Some("blueprint_field_updated")
    case CreateDependencies => Some("dependency_added")
    case DeleteDependencies => Some("dependency_removed")
    case LinkBlueprintToTickets => Some("blueprint_linked")
    case UnlinkBlueprintToTickets => Some("blueprint_unlinked")
    case PhaseComplete => if a.phase == "cross_validation" then Some("cross_val_recompute") else None
    case PhaseAdvance => if a.phase == "cross_validation" then Some("cross_val_recompute") else None
    case _ => None
  }

  /** The entity an action is about; a spec update may leave it out. */
  function Subject(env: Env, a: Action): Option<Id> {
    if a.entityId.None? && a.operation == UpdateSpec then Some(env.specificationId) else a.entityId
  }

  ghost predicate OwnDatapoint(env: Env, a: Action, d: Datapoint, trigger: string, t: DatapointType) {
    && Stamped(env, a, d, trigger) && d.entityType == t && Subject(env, a) == Some(d.entityId)
    && (Lists(a, d.entityId, d.score)
        || ((forall k | 0 <= k < |a.scores| :: a.scores[k].0 != d.entityId) && a.scoreAfter == Some(d.score)))
  }

  lemma StampsHold(env: Env, a: Action, trigger: string, t: DatapointType, e: Id, score: real)
    ensures Stamped(env, a, MakeDatapoint(env, a, trigger, t, e, score), trigger)
  {
    var x, y := NatToString(a.id), NatToString(e);
    assert x + "#" + (y + "#" + trigger) == x + "#" + y + "#" + trigger;
  }

  lemma FirstListing(a: Action, e: Id, k: nat) returns (s: real)
    requires k < |a.scores| && a.scores[k].0 == e
    ensures Lists(a, e, s)
    decreases k
  {
    if j :| 0 <= j < k && a.scores[j].0 == e {
      s := FirstListing(a, e, j);
    } else {
      s := a.scores[k].1;
      assert a.scores[k] == (e, s);
    }
  }

  lemma SingleShows(env: Env, a: Action, trigger: string, t: DatapointType)
    ensures var out, e := Single(env, a, trigger, t, Subject(env, a)), Subject(env, a);
            && |out| <= 1 && (|out| == 1 ==> OwnDatapoint(env, a, out[0], trigger, t))
            && (|out| == 0 <==> e.None? || (a.scoreAfter.None? && forall k | 0 <= k < |a.scores| :: a.scores[k].0 != e.value))
  {
    var e := Subject(env, a);
    if e.Some? {
      ListedScoreWins(a, e.value);
      if k :| 0 <= k < |a.scores| && a.scores[k].0 == e.value {
        var s := FirstListing(a, e.value, k);
        StampsHold(env, a, trigger, t, e.value, s);
      } else if a.scoreAfter.Some? {
        StampsHold(env, a, trigger, t, e.value, a.scoreAfter.value);
      }
    }
  }

  /** A successful action about one entity leaves one datapoint for it, of its operation's type
      and trigger, when there is a score: the entity's own if listed, else the global one. */
  lemma OwnDatapoints(env: Env, revisions: map<Id, EntityRevision>, a: Action)
    requires a.outcome == Success && OwnTrigger(a.operation).Some?
    ensures var out, e := Emit(env, revisions, a), Subject(env, a);
            && |out| <= 1
            && (|out| == 1 ==> OwnDatapoint(env, a, out[0], OwnTrigger(a.operation).value.0, OwnTrigger(a.operation).value.1))
            && (|out| == 0 <==> e.None? || (a.scoreAfter.None? && forall k | 0 <= k < |a.scores| :: a.scores[k].0 != e.value))
  {
    SingleShows(env, a, OwnTrigger(a.operation).value.0, OwnTrigger(a.operation).value.1);
  }

  /** A blueprint has no datapoints. */
  predicate HasType(env: Env, revisions: map<Id, EntityRevision>, e: Id) {
    e == env.specificationId || e !in revisions || revisions[e].revisionType != BlueprintRevision
  }

  predicate IsType(env: Env, revisions: map<Id, EntityRevision>, e: Id, t: DatapointType) {
    && (t == SpecType <==> e == env.specificationId)
    && (t == EpicType <==> e != env.specificationId && e in revisions && revisions[e].revisionType == EpicRevision)
  }

  function Kept(env: Env, revisions: map<Id, EntityRevision>, scores: seq<(Id, real)>): seq<(Id, real)> {
    if |scores| == 0 then []
    else
      var last := scores[|scores| - 1];
      Kept(env, revisions, scores[..|scores| - 1]) + (if HasType(env, revisions, last.0) then [last] else [])
  }

  ghost predicate SharedDatapoint(env: Env, revisions: map<Id, EntityRevision>, a: Action, d: Datapoint, trigger: string,
                                  listed: (Id, real)) {
    && Stamped(env, a, d, trigger) && d.entityId == listed.0 && d.score == listed.1
    && IsType(env, revisions, d.entityId, d.entityType)
  }

  lemma {:induction false} PerAffectedShows(env: Env, revisions: map<Id, EntityRevision>, a: Action, trigger: string,
                                            scores: seq<(Id, real)>)
    ensures var out, kept := PerAffected(env, a, trigger, revisions, scores), Kept(env, revisions, scores);
            |out| == |kept| && forall k | 0 <= k < |out| :: SharedDatapoint(env, revisions, a, out[k], trigger, kept[k])
    decreases |scores|
  {
    if |scores| > 0 {
      var last := scores[|scores| - 1];
      PerAffectedShows(env, revisions, a, trigger, scores[..|scores| - 1]);
      var t := ResolveType(env, revisions, last.0);
      if t.Some? {
        StampsHold(env, a, trigger, t.value, last.0, last.1);
      }
    }
  }

  /** An action about several entities leaves one datapoint for each it lists, blueprints
      aside, with the listed score and the registered type. */
  lemma SharedDatapoints(env: Env, revisions: map<Id, EntityRevision>, a: Action)
    requires a.outcome == Success && SharedTrigger(a).Some?
    ensures var out, kept := Emit(env, revisions, a), Kept(env, revisions, a.scores);
            && |out| == |kept|
            && forall k | 0 <= k < |out| :: SharedDatapoint(env, revisions, a, out[k], SharedTrigger(a).value, kept[k])
  {
    PerAffectedShows(env, revisions, a, SharedTrigger(a).value, a.scores);
  }

  /** Nothing else leaves a datapoint. */
  lemma NoDatapoints(env: Env, revisions: map<Id, EntityRevision>, a: Action)
    requires a.outcome == Denied || (OwnTrigger(a.operation).None? && SharedTrigger(a).None?)
    ensures Emit(env, revisions, a) == []
  {
  }
}
