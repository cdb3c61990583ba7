/** Conservation laws of the projection: score deltas telescope, and the phase timeline
    leaves no gap. */
module AggregateLaws {
  import opened Types
  import opened AggregateFold
  import opened Ordering

  // ---------------------------------------------------------------------------
  // Score deltas
  // ---------------------------------------------------------------------------

  type Deltas = map<Operation, ScoreDelta>

  function DeltaOf(m: Deltas, k: Operation): ScoreDelta {
    if k in m then m[k] else ScoreDelta(0.0, 0)
  }

  /** Sum and count over a list of operations. */
  function TotalOver(ops: seq<Operation>, m: Deltas): ScoreDelta {
    if |ops| == 0 then ScoreDelta(0.0, 0)
    else
      var rest, last := TotalOver(ops[..|ops| - 1], m), DeltaOf(m, ops[|ops| - 1]);
      ScoreDelta(rest.sum + last.sum, rest.count + last.count)
  }

  lemma {:induction false} AddDeltaTotals(ops: seq<Operation>, m: Deltas, op: Operation, delta: real)
    requires Distinct(ops)
    ensures var before, after := TotalOver(ops, m), TotalOver(ops, AddDelta(m, op, delta));
            after == if op in ops then ScoreDelta(before.sum + delta, before.count + 1) else before
    decreases |ops|
  {
    if |ops| > 0 {
      var init, last := ops[..|ops| - 1], ops[|ops| - 1];
      AddDeltaTotals(init, m, op, delta);
      assert op in ops <==> op in init || op == last;
      assert last !in init;
    }
  }

  lemma {:induction false} NothingTotals(ops: seq<Operation>)
    ensures TotalOver(ops, map[]) == ScoreDelta(0.0, 0)
    decreases |ops|
  {
    if |ops| > 0 {
      NothingTotals(ops[..|ops| - 1]);
    }
  }

  /** `ops` lists each operation at most once and leaves out none that has deltas. */
  ghost predicate Telescopes(ops: seq<Operation>, y: Tally) {
    var h := y.history;
    && y.globalScore == (if |h| == 0 then None else Some(h[|h| - 1].score))
    && TotalOver(ops, y.deltas)
       == (if |h| == 0 then ScoreDelta(0.0, 0) else ScoreDelta(h[|h| - 1].score - h[0].score, |h| - 1))
  }

  lemma StepTelescopes(env: Env, ops: seq<Operation>, y: Tally, a: Action)
    requires Distinct(ops) && Telescopes(ops, y) && a.operation in ops
    ensures Telescopes(ops, StepTally(env, y, a))
  {
    if Scored(a) && y.globalScore.Some? {
      AddDeltaTotals(ops, y.deltas, a.operation, a.scoreAfter.value - y.globalScore.value);
    }
  }

  /** From the empty aggregate, the deltas over all operations add up to last score minus
      first, and there is one fewer of them than scores. */
  lemma {:induction false} DeltasTelescope(env: Env, ops: seq<Operation>, actions: seq<Action>)
    requires Distinct(ops) && forall a | a in actions :: a.operation in ops
    ensures Telescopes(ops, FoldTally(env, EMPTY_TALLY, actions))
    decreases |actions|
  {
    if |actions| == 0 {
      NothingTotals(ops);
    } else {
      var init, last := actions[..|actions| - 1], actions[|actions| - 1];
      assert last in actions && forall a | a in init :: a in actions;
      DeltasTelescope(env, ops, init);
      StepTelescopes(env, ops, FoldTally(env, EMPTY_TALLY, init), last);
    }
  }

  // ---------------------------------------------------------------------------
  // The phase timeline
  // ---------------------------------------------------------------------------

  function Stay(env: Env, entered: string, exited: string): Option<int> {
    var a, b := env.parseMs(entered), env.parseMs(exited);
    if a.Some? && b.Some? then Some(if b.value < a.value then 0 else b.value - a.value) else None
  }

  /** One entry per transition, each left at the time the next one starts. */
  ghost predicate IsTimeline(env: Env, ts: seq<Transition>, timeline: seq<PhaseTimelineEntry>) {
    && |timeline| == |ts|
    && forall k | 0 <= k < |ts| ::
         timeline[k] == if k + 1 < |ts|
                        then PhaseTimelineEntry(ts[k].toPhase, ts[k].triggeredAt, Some(ts[k + 1].triggeredAt),
                                                Stay(env, ts[k].triggeredAt, ts[k + 1].triggeredAt))
                        else PhaseTimelineEntry(ts[k].toPhase, ts[k].triggeredAt, None, None)
  }

  lemma {:induction false} TimelineIsContiguous(env: Env, ts: seq<Transition>)
    ensures IsTimeline(env, ts, FoldTrail(env, EMPTY_TRAIL, ts).timeline)
    decreases |ts|
  {
    if |ts| > 0 {
      var n := |ts| - 1;
      TimelineIsContiguous(env, ts[..n]);
      var before, after := FoldTrail(env, EMPTY_TRAIL, ts[..n]).timeline, FoldTrail(env, EMPTY_TRAIL, ts).timeline;
      forall k | 0 <= k < |ts|
        ensures after[k] == if k + 1 < |ts|
                            then PhaseTimelineEntry(ts[k].toPhase, ts[k].triggeredAt, Some(ts[k + 1].triggeredAt),
                                                    Stay(env, ts[k].triggeredAt, ts[k + 1].triggeredAt))
                            else PhaseTimelineEntry(ts[k].toPhase, ts[k].triggeredAt, None, None)
      {
        if k < n {
          assert ts[..n][k] == ts[k];
        }
      }
    }
  }

  /** The entry a transition closes: one with an exit time that is not empty stays as it is,
      any other is left now, with the stay as its duration when both times can be read. */
  ghost predicate Closes(env: Env, e: PhaseTimelineEntry, c: PhaseTimelineEntry, at: string) {
    if e.exitedAt.Some? && e.exitedAt.value != "" then c == e
    else
      && c.phase == e.phase && c.enteredAt == e.enteredAt && c.exitedAt == Some(at)
      && c.durationMs == if Stay(env, e.enteredAt, at).Some? then Stay(env, e.enteredAt, at) else e.durationMs
  }

  /** One transition on any timeline: the last entry closes, and a new one opens. */
  lemma TransitionCloses(env: Env, trail: Trail, t: Transition)
    ensures var before, next := trail.timeline, StepTrail(env, trail, t).timeline;
            && |next| == |before| + 1 && next[|before|] == PhaseTimelineEntry(t.toPhase, t.triggeredAt, None, None)
            && (forall k | 0 <= k < |before| - 1 :: next[k] == before[k])
            && (|before| > 0 ==> Closes(env, before[|before| - 1], next[|before| - 1], t.triggeredAt))
  {
  }

  function CountTrigger(ts: seq<Transition>, trigger: string): nat {
    if |ts| == 0 then 0
    else CountTrigger(ts[..|ts| - 1], trigger) + (if ts[|ts| - 1].trigger == trigger then 1 else 0)
  }

  lemma {:induction false} TriggersAreCounted(env: Env, ts: seq<Transition>, trigger: string)
    ensures var m := FoldTrail(env, EMPTY_TRAIL, ts).triggers;
            CountTrigger(ts, trigger) == if trigger in m then m[trigger] else 0
    decreases |ts|
  {
    if |ts| > 0 {
      TriggersAreCounted(env, ts[..|ts| - 1], trigger);
    }
  }
}
