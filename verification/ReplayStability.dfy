/** Chunked replay equals single-pass replay at one batch size exactly when every scored
    entity has its final type by the end of its action's chunk, and at every size exactly
    when no entity changes its type after an action that scored it. */
module ReplayStability {
  import opened Graph
  import opened Types
  import opened AggregateFold
  import opened AggregateReplay

  // ---------------------------------------------------------------------------
  // The type an entity is read as
  // ---------------------------------------------------------------------------

  /** The type of the last action that revised the entity. */
  function LastRevision(actions: seq<Action>, e: Id): Option<RevisionType> {
    if |actions| == 0 then None
    else
      var r := Revises(actions[|actions| - 1]);
      if r.Some? && r.value.0 == e then Some(r.value.1) else LastRevision(actions[..|actions| - 1], e)
  }

  function ReadAs(r: Option<RevisionType>): Option<DatapointType> {
    match r
    case None => Some(TicketType)
    case Some(EpicRevision) => Some(EpicType)
    case Some(TicketRevision) => Some(TicketType)
    case Some(BlueprintRevision) => None
  }

  /** What the first `j` actions make of an entity. */
  function TypeAfter(env: Env, actions: seq<Action>, j: nat, e: Id): Option<DatapointType>
    requires j <= |actions|
  {
    if e == env.specificationId then Some(SpecType) else ReadAs(LastRevision(actions[..j], e))
  }

  lemma StepRevisions(env: Env, y: Tally, a: Action)
    ensures StepTally(env, y, a).revisions == if a.outcome == Denied then y.revisions else Revise(y.revisions, a)
  {
  }

  lemma {:induction false} RegistryIsLastRevision(env: Env, actions: seq<Action>, e: Id)
    ensures var revisions := FoldTally(env, EMPTY_TALLY, actions).revisions;
            LastRevision(actions, e) == if e in revisions then Some(revisions[e].revisionType) else None
    decreases |actions|
  {
    if |actions| > 0 {
      var init, last := actions[..|actions| - 1], actions[|actions| - 1];
      RegistryIsLastRevision(env, init, e);
      StepRevisions(env, FoldTally(env, EMPTY_TALLY, init), last);
    }
  }

  lemma TypeIsResolved(env: Env, actions: seq<Action>, j: nat, e: Id)
    requires j <= |actions|
    ensures TypeAfter(env, actions, j, e) == ResolveType(env, RevisionsAt(env, actions, j), e)
  {
    RegistryIsLastRevision(env, actions[..j], e);
  }

  /** The action emits through the affected-entities path and lists a score for `e`. */
  ghost predicate Scores(a: Action, e: Id) {
    a.outcome == Success && AffectedTrigger(a).Some? && exists k :: 0 <= k < |a.scores| && a.scores[k].0 == e
  }

  ghost predicate SettledAfter(env: Env, actions: seq<Action>, i: nat, e: Id) {
    forall j | i < j <= |actions| :: TypeAfter(env, actions, j, e) == TypeAfter(env, actions, |actions|, e)
  }

  /** From the action that scores it on, an entity is read as one and the same type. */
  ghost predicate TypesSettle(env: Env, actions: seq<Action>) {
    forall i, e | 0 <= i < |actions| && Scores(actions[i], e) :: SettledAfter(env, actions, i, e)
  }

  // ---------------------------------------------------------------------------
  // Chunks
  // ---------------------------------------------------------------------------

  function StartOfChunk(i: nat, size: nat): (lo: nat)
    requires size > 0
    ensures lo <= i
  {
    i - i % size
  }

  /** Where the chunk that holds action `i` ends. */
  function EndOfChunk(i: nat, size: nat, n: nat): (end: nat)
    requires size > 0 && i < n
    ensures i < end <= n
  {
    ChunkEnd(StartOfChunk(i, size), size, n)
  }

  /** By the end of its action's chunk, every scored entity is read as in the end. */
  ghost predicate ChunkTypesSettle(env: Env, actions: seq<Action>, size: nat)
    requires size > 0
  {
    forall i, e | 0 <= i < |actions| && Scores(actions[i], e) ::
      TypeAfter(env, actions, EndOfChunk(i, size, |actions|), e) == TypeAfter(env, actions, |actions|, e)
  }

  /** A chunk may start here. */
  predicate Aligned(lo: nat, size: nat, n: nat)
    requires size > 0
  {
    lo == n || lo % size == 0
  }

  lemma RemainderIs(q: nat, r: nat, size: nat)
    requires r < size
    ensures (q * size + r) % size == r
  {
    var x := q * size + r;
    assert x == (x / size) * size + x % size;
    var k := x / size - q;
    assert k * size == r - x % size;
    assert k > 0 ==> k * size >= size;
    assert k < 0 ==> k * size + size <= 0;
  }

  lemma NextIsAligned(lo: nat, size: nat, n: nat)
    requires size > 0 && lo < n && Aligned(lo, size, n)
    ensures Aligned(ChunkEnd(lo, size, n), size, n)
  {
    assert lo + size == (lo / size + 1) * size;
    RemainderIs(lo / size + 1, 0, size);
  }

  lemma InChunk(lo: nat, i: nat, size: nat, n: nat)
    requires size > 0 && Aligned(lo, size, n) && lo <= i < ChunkEnd(lo, size, n) && i < n
    ensures StartOfChunk(i, size) == lo && EndOfChunk(i, size, n) == ChunkEnd(lo, size, n)
  {
    assert i == (lo / size) * size + (i - lo);
    RemainderIs(lo / size, i - lo, size);
  }

  lemma SettlesAtEverySize(env: Env, actions: seq<Action>)
    ensures TypesSettle(env, actions) <==> forall size: nat | size > 0 :: ChunkTypesSettle(env, actions, size)
  {
    if TypesSettle(env, actions) {
      forall size: nat, i, e | size > 0 && 0 <= i < |actions| && Scores(actions[i], e)
        ensures TypeAfter(env, actions, EndOfChunk(i, size, |actions|), e) == TypeAfter(env, actions, |actions|, e)
      {
        assert SettledAfter(env, actions, i, e);
      }
    }
    if forall size: nat | size > 0 :: ChunkTypesSettle(env, actions, size) {
      forall i, e, j | 0 <= i < j <= |actions| && Scores(actions[i], e)
        ensures TypeAfter(env, actions, j, e) == TypeAfter(env, actions, |actions|, e)
      {
        assert ChunkTypesSettle(env, actions, j);
        RemainderIs(0, i, j);
        assert EndOfChunk(i, j, |actions|) == j;
      }
    }
  }

  // ---------------------------------------------------------------------------
  // Settled types are enough
  // ---------------------------------------------------------------------------

  type Registry = map<Id, EntityRevision>

  lemma {:induction false} PerAffectedSame(env: Env, a: Action, trigger: string, r: Registry, r': Registry, scores: seq<(Id, real)>)
    requires forall k | 0 <= k < |scores| :: ResolveType(env, r, scores[k].0) == ResolveType(env, r', scores[k].0)
    ensures PerAffected(env, a, trigger, r, scores) == PerAffected(env, a, trigger, r', scores)
    decreases |scores|
  {
    if |scores| > 0 {
      PerAffectedSame(env, a, trigger, r, r', scores[..|scores| - 1]);
    }
  }

  /** The two registries type everything the action scores alike. */
  ghost predicate TypedAlike(env: Env, r: Registry, r': Registry, a: Action) {
    forall e | Scores(a, e) :: ResolveType(env, r, e) == ResolveType(env, r', e)
  }

  lemma EmitSame(env: Env, a: Action, r: Registry, r': Registry)
    requires TypedAlike(env, r, r', a)
    ensures Emit(env, r, a) == Emit(env, r', a)
  {
    if a.outcome == Success && AffectedTrigger(a).Some? {
      forall k | 0 <= k < |a.scores|
        ensures ResolveType(env, r, a.scores[k].0) == ResolveType(env, r', a.scores[k].0)
      {
        assert Scores(a, a.scores[k].0);
      }
      PerAffectedSame(env, a, AffectedTrigger(a).value, r, r', a.scores);
    }
  }

  lemma {:induction false} DatapointsMore(env: Env, r: Registry, init: seq<Action>, last: Action)
    ensures Datapoints(env, r, init + [last]) == Datapoints(env, r, init) + Emit(env, r, last)
  {
    assert (init + [last])[..|init|] == init;
  }

  lemma {:induction false} DatapointsSame(env: Env, actions: seq<Action>, r: Registry, r': Registry)
    requires forall i | 0 <= i < |actions| :: TypedAlike(env, r, r', actions[i])
    ensures Datapoints(env, r, actions) == Datapoints(env, r', actions)
    decreases |actions|
  {
    if |actions| > 0 {
      var init, last := actions[..|actions| - 1], actions[|actions| - 1];
      forall i | 0 <= i < |init|
        ensures TypedAlike(env, r, r', init[i])
      {
        assert init[i] == actions[i];
      }
      DatapointsSame(env, init, r, r');
      EmitSame(env, last, r, r');
      assert actions == init + [last];
      DatapointsMore(env, r, init, last);
      DatapointsMore(env, r', init, last);
    }
  }

  lemma {:induction false} DatapointsConcat(env: Env, r: Registry, a: seq<Action>, b: seq<Action>)
    ensures Datapoints(env, r, a + b) == Datapoints(env, r, a) + Datapoints(env, r, b)
    decreases |b|
  {
    if |b| == 0 {
      assert a + b == a;
    } else {
      var init := b[..|b| - 1];
      DatapointsConcat(env, r, a, init);
      assert (a + b)[..|a + b| - 1] == a + init;
      Regroup(Datapoints(env, r, a), Datapoints(env, r, init), Emit(env, r, b[|b| - 1]));
    }
  }

  lemma ActionTypedAlike(env: Env, actions: seq<Action>, size: nat, i: nat)
    requires size > 0 && ChunkTypesSettle(env, actions, size) && i < |actions|
    ensures TypedAlike(env, RevisionsAt(env, actions, EndOfChunk(i, size, |actions|)),
                       RevisionsAt(env, actions, |actions|), actions[i])
  {
    var hi := EndOfChunk(i, size, |actions|);
    forall e | Scores(actions[i], e)
      ensures ResolveType(env, RevisionsAt(env, actions, hi), e)
              == ResolveType(env, RevisionsAt(env, actions, |actions|), e)
    {
      TypeIsResolved(env, actions, hi, e);
      TypeIsResolved(env, actions, |actions|, e);
    }
  }

  lemma ChunkSame(env: Env, actions: seq<Action>, size: nat, lo: nat, hi: nat)
    requires size > 0 && ChunkTypesSettle(env, actions, size) && lo < |actions| && Aligned(lo, size, |actions|)
    requires hi == ChunkEnd(lo, size, |actions|)
    ensures Datapoints(env, RevisionsAt(env, actions, hi), actions[lo..hi])
            == Datapoints(env, RevisionsAt(env, actions, |actions|), actions[lo..hi])
  {
    var part, r, r' := actions[lo..hi], RevisionsAt(env, actions, hi), RevisionsAt(env, actions, |actions|);
    forall i | 0 <= i < |part|
      ensures TypedAlike(env, r, r', part[i])
    {
      InChunk(lo, lo + i, size, |actions|);
      ActionTypedAlike(env, actions, size, lo + i);
    }
    DatapointsSame(env, part, r, r');
  }

  /** One chunk, and the ones after it. */
  lemma FirstChunk(env: Env, actions: seq<Action>, size: nat, lo: nat, hi: nat)
    requires size > 0 && lo < |actions| && hi == ChunkEnd(lo, size, |actions|)
    ensures ChunkDatapoints(env, actions, size, lo)
            == Datapoints(env, RevisionsAt(env, actions, hi), actions[lo..hi]) + ChunkDatapoints(env, actions, size, hi)
  {
  }

  lemma CutAt(env: Env, r: Registry, actions: seq<Action>, lo: nat, hi: nat)
    requires lo <= hi <= |actions|
    ensures Datapoints(env, r, actions[lo..]) == Datapoints(env, r, actions[lo..hi]) + Datapoints(env, r, actions[hi..])
  {
    assert actions[lo..] == actions[lo..hi] + actions[hi..];
    DatapointsConcat(env, r, actions[lo..hi], actions[hi..]);
  }

  lemma {:induction false} ChunksSame(env: Env, actions: seq<Action>, size: nat, lo: nat)
    requires size > 0 && ChunkTypesSettle(env, actions, size) && lo <= |actions| && Aligned(lo, size, |actions|)
    ensures ChunkDatapoints(env, actions, size, lo)
            == Datapoints(env, RevisionsAt(env, actions, |actions|), actions[lo..])
    decreases |actions| - lo
  {
    if lo == |actions| {
      assert actions[lo..] == [];
    } else {
      var hi := ChunkEnd(lo, size, |actions|);
      NextIsAligned(lo, size, |actions|);
      ChunkSame(env, actions, size, lo, hi);
      ChunksSame(env, actions, size, hi);
      FirstChunk(env, actions, size, lo, hi);
      CutAt(env, RevisionsAt(env, actions, |actions|), actions, lo, hi);
    }
  }

  /** The chunked replay is the single pass: same aggregate, same datapoints. */
  ghost predicate SameReplay(env: Env, actions: seq<Action>, ts: seq<Transition>, clock: Clock, size: nat)
    requires size > 0
  {
    var run, u := Chunked(env, actions, ts, clock, size), SinglePass(env, actions, ts, clock);
    run.state == u.projection && run.dps == u.datapoints
  }

  lemma SettledTypesReplay(env: Env, actions: seq<Action>, ts: seq<Transition>, clock: Clock, size: nat)
    requires OrderedActions(actions) && OrderedTransitions(ts) && ConstantClock(clock) && size > 0
    requires ChunkTypesSettle(env, actions, size)
    ensures SameReplay(env, actions, ts, clock, size)
  {
    ChunksSame(env, actions, size, 0);
    assert actions[0..] == actions;
    ChunkedDatapoints(env, actions, ts, clock, size);
    SingleReaches(env, actions, ts, clock);
    AgreeOnDatapoints(env, actions, ts, clock, size);
  }

  // ---------------------------------------------------------------------------
  // Settled types are needed
  // ---------------------------------------------------------------------------

  lemma {:induction false} InPerAffected(env: Env, a: Action, trigger: string, r: Registry, scores: seq<(Id, real)>, d: Datapoint)
    requires d in PerAffected(env, a, trigger, r, scores)
    ensures d.triggerActionId == a.id && ResolveType(env, r, d.entityId) == Some(d.entityType)
    decreases |scores|
  {
    var last := scores[|scores| - 1];
    if d in PerAffected(env, a, trigger, r, scores[..|scores| - 1]) {
      InPerAffected(env, a, trigger, r, scores[..|scores| - 1], d);
    }
  }

  lemma {:induction false} PerAffectedHas(env: Env, a: Action, trigger: string, r: Registry, scores: seq<(Id, real)>, k: nat)
    requires k < |scores| && ResolveType(env, r, scores[k].0).Some?
    ensures MakeDatapoint(env, a, trigger, ResolveType(env, r, scores[k].0).value, scores[k].0, scores[k].1)
            in PerAffected(env, a, trigger, r, scores)
    decreases |scores|
  {
    if k < |scores| - 1 {
      PerAffectedHas(env, a, trigger, r, scores[..|scores| - 1], k);
    }
  }

  lemma EmitTag(env: Env, r: Registry, a: Action, d: Datapoint)
    requires d in Emit(env, r, a)
    ensures d.triggerActionId == a.id
    ensures AffectedTrigger(a).Some? ==> ResolveType(env, r, d.entityId) == Some(d.entityType)
  {
    if AffectedTrigger(a).Some? {
      InPerAffected(env, a, AffectedTrigger(a).value, r, a.scores, d);
    }
  }

  lemma {:induction false} InDatapoints(env: Env, r: Registry, actions: seq<Action>, d: Datapoint) returns (m: nat)
    requires d in Datapoints(env, r, actions)
    ensures m < |actions| && d in Emit(env, r, actions[m])
    decreases |actions|
  {
    var n := |actions| - 1;
    if d in Datapoints(env, r, actions[..n]) {
      m := InDatapoints(env, r, actions[..n], d);
    } else {
      m := n;
    }
  }

  lemma {:induction false} DatapointsHave(env: Env, r: Registry, actions: seq<Action>, m: nat, d: Datapoint)
    requires m < |actions| && d in Emit(env, r, actions[m])
    ensures d in Datapoints(env, r, actions)
    decreases |actions|
  {
    if m < |actions| - 1 {
      DatapointsHave(env, r, actions[..|actions| - 1], m, d);
    }
  }

  /** A datapoint of a chunk is one of the whole replay ... */
  lemma {:induction false} ChunksHave(env: Env, actions: seq<Action>, size: nat, lo: nat, i: nat, d: Datapoint)
    requires size > 0 && lo <= i < |actions| && Aligned(lo, size, |actions|)
    requires var hi := EndOfChunk(i, size, |actions|);
             d in Datapoints(env, RevisionsAt(env, actions, hi), actions[StartOfChunk(i, size)..hi])
    ensures d in ChunkDatapoints(env, actions, size, lo)
    decreases |actions| - lo
  {
    var hi := ChunkEnd(lo, size, |actions|);
    FirstChunk(env, actions, size, lo, hi);
    if i < hi {
      InChunk(lo, i, size, |actions|);
    } else {
      NextIsAligned(lo, size, |actions|);
      ChunksHave(env, actions, size, hi, i, d);
    }
  }

  /** ... and every datapoint of the replay is one of some chunk. */
  lemma {:induction false} InChunks(env: Env, actions: seq<Action>, size: nat, lo: nat, d: Datapoint) returns (start: nat)
    requires size > 0 && lo <= |actions| && Aligned(lo, size, |actions|)
    requires d in ChunkDatapoints(env, actions, size, lo)
    ensures start < |actions| && Aligned(start, size, |actions|)
    ensures var hi := ChunkEnd(start, size, |actions|);
            d in Datapoints(env, RevisionsAt(env, actions, hi), actions[start..hi])
    decreases |actions| - lo
  {
    if lo == |actions| {
      assert false;
    } else {
      var hi := ChunkEnd(lo, size, |actions|);
      FirstChunk(env, actions, size, lo, hi);
      if d in Datapoints(env, RevisionsAt(env, actions, hi), actions[lo..hi]) {
        start := lo;
      } else {
        NextIsAligned(lo, size, |actions|);
        start := InChunks(env, actions, size, hi, d);
      }
    }
  }

  ghost predicate DistinctActions(actions: seq<Action>) {
    forall i, j | 0 <= i < j < |actions| :: actions[i].id < actions[j].id
  }

  /** The datapoint a scored entity gets under a registry that gives it a type. */
  lemma ScoredDatapoint(env: Env, r: Registry, a: Action, e: Id) returns (d: Datapoint)
    requires Scores(a, e) && ResolveType(env, r, e).Some?
    ensures d in Emit(env, r, a) && d.triggerActionId == a.id && d.entityId == e
    ensures ResolveType(env, r, e) == Some(d.entityType)
  {
    var k :| 0 <= k < |a.scores| && a.scores[k].0 == e;
    var trigger := AffectedTrigger(a).value;
    d := MakeDatapoint(env, a, trigger, ResolveType(env, r, e).value, e, a.scores[k].1);
    PerAffectedHas(env, a, trigger, r, a.scores, k);
  }

  lemma FoundIn(env: Env, r: Registry, actions: seq<Action>, d: Datapoint) returns (m: nat)
    requires d in Datapoints(env, r, actions)
    ensures m < |actions| && actions[m].id == d.triggerActionId
    ensures AffectedTrigger(actions[m]).Some? ==> ResolveType(env, r, d.entityId) == Some(d.entityType)
  {
    m := InDatapoints(env, r, actions, d);
    EmitTag(env, r, actions[m], d);
  }

  lemma SameAction(actions: seq<Action>, i: nat, k: nat)
    requires DistinctActions(actions) && i < |actions| && k < |actions| && actions[i].id == actions[k].id
    ensures i == k
  {
  }

  /** The action a datapoint came from is found by its id, in any stretch of the session. */
  lemma FoundOnce(env: Env, r: Registry, actions: seq<Action>, lo: nat, hi: nat, i: nat, d: Datapoint)
    requires DistinctActions(actions) && lo <= hi <= |actions| && i < |actions|
    requires d.triggerActionId == actions[i].id && AffectedTrigger(actions[i]).Some?
    requires d in Datapoints(env, r, actions[lo..hi])
    ensures lo <= i < hi && ResolveType(env, r, d.entityId) == Some(d.entityType)
  {
    var m := FoundIn(env, r, actions[lo..hi], d);
    SameAction(actions, lo + m, i);
  }

  /** A scored entity with a type at the end of its chunk has a datapoint in the replay. */
  lemma ChunkDatapoint(env: Env, actions: seq<Action>, size: nat, i: nat, e: Id, hi: nat) returns (d: Datapoint)
    requires size > 0 && i < |actions| && Scores(actions[i], e) && hi == EndOfChunk(i, size, |actions|)
    requires ResolveType(env, RevisionsAt(env, actions, hi), e).Some?
    ensures d in ChunkDatapoints(env, actions, size, 0) && d.triggerActionId == actions[i].id && d.entityId == e
    ensures ResolveType(env, RevisionsAt(env, actions, hi), e) == Some(d.entityType)
  {
    var lo, r := StartOfChunk(i, size), RevisionsAt(env, actions, hi);
    d := ScoredDatapoint(env, r, actions[i], e);
    DatapointsHave(env, r, actions[lo..hi], i - lo, d);
    ChunksHave(env, actions, size, 0, i, d);
  }

  /** A type read off the registry of the action's chunk is the one read in the end. */
  lemma EarlyTypeIsFinal(env: Env, actions: seq<Action>, size: nat, i: nat, e: Id)
    requires size > 0 && DistinctActions(actions) && i < |actions| && Scores(actions[i], e)
    requires ChunkDatapoints(env, actions, size, 0) == Datapoints(env, RevisionsAt(env, actions, |actions|), actions)
    ensures var early := ResolveType(env, RevisionsAt(env, actions, EndOfChunk(i, size, |actions|)), e);
            early.Some? ==> ResolveType(env, RevisionsAt(env, actions, |actions|), e) == early
  {
    var hi := EndOfChunk(i, size, |actions|);
    if ResolveType(env, RevisionsAt(env, actions, hi), e).Some? {
      var d := ChunkDatapoint(env, actions, size, i, e, hi);
      assert actions[0..|actions|] == actions;
      FoundOnce(env, RevisionsAt(env, actions, |actions|), actions, 0, |actions|, i, d);
    }
  }

  lemma FinalTypeIsEarly(env: Env, actions: seq<Action>, size: nat, i: nat, e: Id)
    requires size > 0 && DistinctActions(actions) && i < |actions| && Scores(actions[i], e)
    requires ChunkDatapoints(env, actions, size, 0) == Datapoints(env, RevisionsAt(env, actions, |actions|), actions)
    ensures var late := ResolveType(env, RevisionsAt(env, actions, |actions|), e);
            late.Some? ==> ResolveType(env, RevisionsAt(env, actions, EndOfChunk(i, size, |actions|)), e) == late
  {
    var r := RevisionsAt(env, actions, |actions|);
    if ResolveType(env, r, e).Some? {
      var d := ScoredDatapoint(env, r, actions[i], e);
      DatapointsHave(env, r, actions, i, d);
      var lo := InChunks(env, actions, size, 0, d);
      var hi := ChunkEnd(lo, size, |actions|);
      FoundOnce(env, RevisionsAt(env, actions, hi), actions, lo, hi, i, d);
      InChunk(lo, i, size, |actions|);
    }
  }

  /** If chunks replay to the single pass, a scored entity has its final type by the end of
      its action's chunk. */
  lemma ReplaySettles(env: Env, actions: seq<Action>, size: nat)
    requires size > 0 && DistinctActions(actions)
    requires ChunkDatapoints(env, actions, size, 0) == Datapoints(env, RevisionsAt(env, actions, |actions|), actions)
    ensures ChunkTypesSettle(env, actions, size)
  {
    forall i, e | 0 <= i < |actions| && Scores(actions[i], e)
      ensures TypeAfter(env, actions, EndOfChunk(i, size, |actions|), e) == TypeAfter(env, actions, |actions|, e)
    {
      TypeIsResolved(env, actions, EndOfChunk(i, size, |actions|), e);
      TypeIsResolved(env, actions, |actions|, e);
      EarlyTypeIsFinal(env, actions, size, i, e);
      FinalTypeIsEarly(env, actions, size, i, e);
    }
  }

  lemma StrictIsOrdered(actions: seq<Action>)
    requires DistinctActions(actions)
    ensures OrderedActions(actions)
  {
  }

  /** At one batch size, chunked replay gives the single pass if and only if every scored
      entity has its final type by the end of its action's chunk. */
  lemma ReplayIffChunkTypesSettle(env: Env, actions: seq<Action>, ts: seq<Transition>, clock: Clock, size: nat)
    requires DistinctActions(actions) && OrderedTransitions(ts) && ConstantClock(clock) && size > 0
    ensures SameReplay(env, actions, ts, clock, size) <==> ChunkTypesSettle(env, actions, size)
  {
    StrictIsOrdered(actions);
    if ChunkTypesSettle(env, actions, size) {
      SettledTypesReplay(env, actions, ts, clock, size);
    }
    if SameReplay(env, actions, ts, clock, size) {
      ChunkedDatapoints(env, actions, ts, clock, size);
      SingleReaches(env, actions, ts, clock);
      ReplaySettles(env, actions, size);
    }
  }

  /** At every batch size, it does if and only if types settle. */
  lemma ReplayIffTypesSettle(env: Env, actions: seq<Action>, ts: seq<Transition>, clock: Clock)
    requires DistinctActions(actions) && OrderedTransitions(ts) && ConstantClock(clock)
    ensures (forall size: nat | size > 0 :: SameReplay(env, actions, ts, clock, size)) <==> TypesSettle(env, actions)
  {
    forall size: nat | size > 0
      ensures SameReplay(env, actions, ts, clock, size) <==> ChunkTypesSettle(env, actions, size)
    {
      ReplayIffChunkTypesSettle(env, actions, ts, clock, size);
    }
    SettlesAtEverySize(env, actions);
  }

  // ---------------------------------------------------------------------------
  // When types settle
  // ---------------------------------------------------------------------------

  /** No entity is revised under two types. */
  ghost predicate FixedTypes(actions: seq<Action>) {
    forall i, k | 0 <= i < |actions| && 0 <= k < |actions| && Revises(actions[i]).Some? && Revises(actions[k]).Some?
      && Revises(actions[i]).value.0 == Revises(actions[k]).value.0 :: Revises(actions[i]) == Revises(actions[k])
  }

  ghost predicate RevisedBy(actions: seq<Action>, k: int, e: Id)
    requires 0 <= k < |actions|
  {
    Revises(actions[k]).Some? && Revises(actions[k]).value.0 == e
  }

  /** An epic or blueprint is not scored before an action that registers it. */
  ghost predicate RegisteredFirst(actions: seq<Action>) {
    forall i, k, e | 0 <= i < |actions| && 0 <= k < |actions| && Scores(actions[i], e) && RevisedBy(actions, k, e)
      && Revises(actions[k]).value.1 != TicketRevision :: exists m :: 0 <= m <= i && RevisedBy(actions, m, e)
  }

  lemma {:induction false} LastRevisionFound(actions: seq<Action>, e: Id)
    ensures LastRevision(actions, e).None? ==> forall k | 0 <= k < |actions| :: !RevisedBy(actions, k, e)
    ensures LastRevision(actions, e).Some? ==>
              exists k :: 0 <= k < |actions| && RevisedBy(actions, k, e) && LastRevision(actions, e) == Some(Revises(actions[k]).value.1)
    decreases |actions|
  {
    if |actions| > 0 {
      var n := |actions| - 1;
      LastRevisionFound(actions[..n], e);
      assert forall k | 0 <= k < n :: RevisedBy(actions[..n], k, e) <==> RevisedBy(actions, k, e);
      if !RevisedBy(actions, n, e) && LastRevision(actions, e).Some? {
        var k :| 0 <= k < n && RevisedBy(actions[..n], k, e) && LastRevision(actions[..n], e) == Some(Revises(actions[..n][k]).value.1);
        assert RevisedBy(actions, k, e);
      }
    }
  }

  /** One fixed type per entity, epics and blueprints registered before they are scored:
      then types settle. */
  lemma FixedAndRegisteredSettle(env: Env, actions: seq<Action>)
    requires FixedTypes(actions) && RegisteredFirst(actions)
    ensures TypesSettle(env, actions)
  {
    forall i, e, j | 0 <= i < j <= |actions| && Scores(actions[i], e)
      ensures TypeAfter(env, actions, j, e) == TypeAfter(env, actions, |actions|, e)
    {
      SettleOne(env, actions, i, j, e);
    }
  }

  lemma SettleOne(env: Env, actions: seq<Action>, i: nat, j: nat, e: Id)
    requires FixedTypes(actions) && RegisteredFirst(actions) && i < j <= |actions| && Scores(actions[i], e)
    ensures TypeAfter(env, actions, j, e) == TypeAfter(env, actions, |actions|, e)
  {
    assert actions[..|actions|] == actions;
    LastRevisionFound(actions[..j], e);
    LastRevisionFound(actions, e);
    assert forall k | 0 <= k < j :: RevisedBy(actions[..j], k, e) <==> RevisedBy(actions, k, e);
    if LastRevision(actions, e).Some? {
      var k :| 0 <= k < |actions| && RevisedBy(actions, k, e) && LastRevision(actions, e) == Some(Revises(actions[k]).value.1);
      if LastRevision(actions[..j], e).Some? {
        var m :| 0 <= m < j && RevisedBy(actions[..j], m, e) && LastRevision(actions[..j], e) == Some(Revises(actions[..j][m]).value.1);
        assert Revises(actions[m]) == Revises(actions[k]);
      }
    }
  }

  // ---------------------------------------------------------------------------
  // When they do not
  // ---------------------------------------------------------------------------

  const NO_PAYLOAD := Payload(None, None, None, None)

  /** Entity 7, an epic, is scored by a dependency change; only the next action, its creation
      or an update of an epic that predates the session, registers it as one. */
  function ScoredTooEarly(registering: Operation): seq<Action> {
    [Action(1, 0, "", "", CreateDependencies, Success, Agent, None, NO_PAYLOAD, "", None, [(7, 1.0)], "", []),
     Action(2, 0, "", "", registering, Success, Agent, Some(7), NO_PAYLOAD, "", None, [], "", [])]
  }

  lemma TypedTooEarly(env: Env, registering: Operation)
    requires env.specificationId != 7 && RevisionTypeOf(registering) == Some(EpicRevision)
    ensures TypeAfter(env, ScoredTooEarly(registering), 1, 7) == Some(TicketType)
    ensures TypeAfter(env, ScoredTooEarly(registering), 2, 7) == Some(EpicType)
  {
    var actions := ScoredTooEarly(registering);
    assert actions[..1] == [actions[0]] && actions[..2] == actions && [actions[0]][..0] == [];
    assert Revises(actions[0]) == None && LastRevision([actions[0]], 7) == LastRevision([], 7);
  }

  lemma OnlySevenIsScored(env: Env, registering: Operation, i: nat, e: Id)
    requires RevisionTypeOf(registering) == Some(EpicRevision) && i < 2 && Scores(ScoredTooEarly(registering)[i], e)
    ensures i == 0 && e == 7
  {
  }

  lemma TooEarlyForOne(env: Env, registering: Operation, size: nat)
    requires env.specificationId != 7 && RevisionTypeOf(registering) == Some(EpicRevision) && size > 0
    ensures ChunkTypesSettle(env, ScoredTooEarly(registering), size) <==> size >= 2
  {
    var actions := ScoredTooEarly(registering);
    TypedTooEarly(env, registering);
    RemainderIs(0, 0, size);
    if size == 1 {
      assert EndOfChunk(0, size, 2) == 1;
      assert actions[0].scores[0].0 == 7;
      assert Scores(actions[0], 7);
    } else {
      forall i, e | 0 <= i < |actions| && Scores(actions[i], e)
        ensures TypeAfter(env, actions, EndOfChunk(i, size, |actions|), e) == TypeAfter(env, actions, |actions|, e)
      {
        OnlySevenIsScored(env, registering, i, e);
        assert EndOfChunk(0, size, 2) == 2;
      }
    }
  }

  /** Chunks of one lose the equality; any larger chunk holds both actions and keeps it. */
  lemma EarlyScoreBreaksReplay(env: Env, ts: seq<Transition>, clock: Clock, registering: Operation, size: nat)
    requires env.specificationId != 7 && OrderedTransitions(ts) && ConstantClock(clock) && size > 0
    requires RevisionTypeOf(registering) == Some(EpicRevision)
    ensures SameReplay(env, ScoredTooEarly(registering), ts, clock, size) <==> size >= 2
  {
    TooEarlyForOne(env, registering, size);
    ReplayIffChunkTypesSettle(env, ScoredTooEarly(registering), ts, clock, size);
  }
}
