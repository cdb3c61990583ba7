/** Replaying a session in chunks, and exactly when that gives what one pass gives. */
module AggregateReplay {
  import opened Graph
  import opened Types
  import opened AggregateFold

  type Clock = nat -> string

  /** A replay under way: the aggregate, the datapoints so far, the transitions consumed
      and the batches applied. */
  datatype Run = Run(state: Projection, dps: seq<Datapoint>, cursor: nat, batches: nat)

  function ChunkEnd(lo: nat, size: nat, n: nat): nat {
    if lo + size < n then lo + size else n
  }

  /** How far the transitions reach that belong to a chunk ending at `cutoff`. */
  function Advance(ts: seq<Transition>, cursor: nat, cutoff: Id): (end: nat)
    requires cursor <= |ts|
    ensures cursor <= end <= |ts|
    decreases |ts| - cursor
  {
    if cursor < |ts| && ts[cursor].id <= cutoff then Advance(ts, cursor + 1, cutoff) else cursor
  }

  function StepRun(env: Env, actions: seq<Action>, ts: seq<Transition>, clock: Clock, size: nat, run: Run, lo: nat): (next: Run)
    requires size > 0 && lo < |actions| && run.cursor <= |ts|
    ensures next.cursor <= |ts|
  {
    var hi := ChunkEnd(lo, size, |actions|);
    var end := Advance(ts, run.cursor, actions[hi - 1].id);
    var u := Update(env, run.state, actions[lo..hi], ts[run.cursor..end], clock(run.batches));
    Run(u.projection, run.dps + u.datapoints, end, run.batches + 1)
  }

  function RunFrom(env: Env, actions: seq<Action>, ts: seq<Transition>, clock: Clock, size: nat, run: Run, lo: nat): (last: Run)
    requires size > 0 && lo <= |actions| && run.cursor <= |ts|
    ensures last.cursor <= |ts|
    decreases |actions| - lo
  {
    if lo == |actions| then run
    else RunFrom(env, actions, ts, clock, size, StepRun(env, actions, ts, clock, size, run, lo), ChunkEnd(lo, size, |actions|))
  }

  function Start(env: Env): Run {
    Run(EmptyProjection(env), [], 0, 0)
  }

  /** Trailing transitions get a batch of their own, and so does an empty session. */
  function Finish(env: Env, ts: seq<Transition>, clock: Clock, run: Run): Run
    requires run.cursor <= |ts|
  {
    if run.cursor < |ts| || run.batches == 0 then
      var u := Update(env, run.state, [], ts[run.cursor..], clock(run.batches));
      Run(u.projection, run.dps + u.datapoints, |ts|, run.batches + 1)
    else run
  }

  function Chunked(env: Env, actions: seq<Action>, ts: seq<Transition>, clock: Clock, size: nat): Run
    requires size > 0
  {
    Finish(env, ts, clock, RunFrom(env, actions, ts, clock, size, Start(env), 0))
  }

  function SinglePass(env: Env, actions: seq<Action>, ts: seq<Transition>, clock: Clock): AggregateUpdate {
    Update(env, EmptyProjection(env), actions, ts, clock(0))
  }

  // ---------------------------------------------------------------------------
  // Everything but the datapoints is the same
  // ---------------------------------------------------------------------------

  ghost predicate OrderedActions(actions: seq<Action>) {
    forall i, j | 0 <= i < j < |actions| :: actions[i].id <= actions[j].id
  }

  ghost predicate OrderedTransitions(ts: seq<Transition>) {
    forall i, j | 0 <= i < j < |ts| :: ts[i].id <= ts[j].id
  }

  lemma {:induction false} LastActionIsMax(actions: seq<Action>)
    requires OrderedActions(actions) && |actions| > 0
    ensures MaxActionId(actions) == Some(actions[|actions| - 1].id)
    decreases |actions|
  {
    if |actions| > 1 {
      LastActionIsMax(actions[..|actions| - 1]);
    }
  }

  lemma {:induction false} LastTransitionIsMax(ts: seq<Transition>)
    requires OrderedTransitions(ts) && |ts| > 0
    ensures MaxTransitionId(ts) == Some(ts[|ts| - 1].id)
    decreases |ts|
  {
    if |ts| > 1 {
      LastTransitionIsMax(ts[..|ts| - 1]);
    }
  }

  function ActionCursor(actions: seq<Action>, n: nat): Option<Id>
    requires n <= |actions|
  {
    if n == 0 then None else Some(actions[n - 1].id)
  }

  function TransitionCursor(ts: seq<Transition>, n: nat): Option<Id>
    requires n <= |ts|
  {
    if n == 0 then None else Some(ts[n - 1].id)
  }

  /** The state after `n` actions and `cursor` transitions, whatever the chunks were, but
      for the scores the datapoints leave behind. */
  ghost predicate Reached(env: Env, actions: seq<Action>, ts: seq<Transition>, n: nat, cursor: nat, p: Projection)
    requires n <= |actions| && cursor <= |ts|
  {
    && p.sessionId == env.sessionId
    && p.trail == FoldTrail(env, EMPTY_TRAIL, ts[..cursor])
    && p.tally == FoldTally(env, EMPTY_TALLY, actions[..n])
    && p.lastAction == ActionCursor(actions, n)
    && p.lastTransition == TransitionCursor(ts, cursor)
  }

  lemma TallyReaches(env: Env, actions: seq<Action>, lo: nat, hi: nat)
    requires lo <= hi <= |actions|
    ensures FoldTally(env, FoldTally(env, EMPTY_TALLY, actions[..lo]), actions[lo..hi])
            == FoldTally(env, EMPTY_TALLY, actions[..hi])
  {
    assert actions[..hi] == actions[..lo] + actions[lo..hi];
    FoldTallyConcat(env, EMPTY_TALLY, actions[..lo], actions[lo..hi]);
  }

  lemma TrailReaches(env: Env, ts: seq<Transition>, cursor: nat, end: nat)
    requires cursor <= end <= |ts|
    ensures FoldTrail(env, FoldTrail(env, EMPTY_TRAIL, ts[..cursor]), ts[cursor..end])
            == FoldTrail(env, EMPTY_TRAIL, ts[..end])
  {
    assert ts[..end] == ts[..cursor] + ts[cursor..end];
    FoldTrailConcat(env, EMPTY_TRAIL, ts[..cursor], ts[cursor..end]);
  }

  lemma ActionCursorReaches(actions: seq<Action>, lo: nat, hi: nat)
    requires OrderedActions(actions) && lo <= hi <= |actions|
    ensures (if |actions[lo..hi]| == 0 then ActionCursor(actions, lo) else MaxActionId(actions[lo..hi]))
            == ActionCursor(actions, hi)
  {
    if lo < hi {
      LastActionIsMax(actions[lo..hi]);
    }
  }

  lemma TransitionCursorReaches(ts: seq<Transition>, cursor: nat, end: nat)
    requires OrderedTransitions(ts) && cursor <= end <= |ts|
    ensures (if |ts[cursor..end]| == 0 then TransitionCursor(ts, cursor) else MaxTransitionId(ts[cursor..end]))
            == TransitionCursor(ts, end)
  {
    if cursor < end {
      LastTransitionIsMax(ts[cursor..end]);
    }
  }

  lemma UpdateReaches(env: Env, actions: seq<Action>, ts: seq<Transition>, lo: nat, hi: nat, cursor: nat, end: nat,
                      p: Projection, now: string)
    requires OrderedActions(actions) && OrderedTransitions(ts)
    requires lo <= hi <= |actions| && cursor <= end <= |ts|
    requires Reached(env, actions, ts, lo, cursor, p)
    ensures Reached(env, actions, ts, hi, end, Update(env, p, actions[lo..hi], ts[cursor..end], now).projection)
  {
    TallyReaches(env, actions, lo, hi);
    TrailReaches(env, ts, cursor, end);
    ActionCursorReaches(actions, lo, hi);
    TransitionCursorReaches(ts, cursor, end);
  }

  // ---------------------------------------------------------------------------
  // The datapoints
  // ---------------------------------------------------------------------------

  /** Entity revisions after the first `j` actions. */
  function RevisionsAt(env: Env, actions: seq<Action>, j: nat): map<Id, EntityRevision>
    requires j <= |actions|
  {
    FoldTally(env, EMPTY_TALLY, actions[..j]).revisions
  }

  /** The chunk an action falls in decides which registry it is read against. */
  function ChunkDatapoints(env: Env, actions: seq<Action>, size: nat, lo: nat): seq<Datapoint>
    requires size > 0 && lo <= |actions|
    decreases |actions| - lo
  {
    if lo == |actions| then []
    else
      var hi := ChunkEnd(lo, size, |actions|);
      Datapoints(env, RevisionsAt(env, actions, hi), actions[lo..hi]) + ChunkDatapoints(env, actions, size, hi)
  }

  ghost predicate Sound(env: Env, actions: seq<Action>, ts: seq<Transition>, n: nat, run: Run)
    requires n <= |actions|
  {
    && run.cursor <= |ts| && Reached(env, actions, ts, n, run.cursor, run.state)
    && run.state.perEntity == ApplyDatapoints(map[], run.dps)
    && (run.batches == 0 ==> n == 0 && run.dps == [])
  }

  lemma Regroup<T>(a: seq<T>, b: seq<T>, c: seq<T>)
    ensures (a + b) + c == a + (b + c)
  {
  }

  lemma NothingAdded<T>(a: seq<T>)
    ensures a + [] == a && [] + a == a
  {
  }

  lemma StepDatapoints(env: Env, actions: seq<Action>, ts: seq<Transition>, clock: Clock, size: nat, run: Run, lo: nat)
    requires size > 0 && lo < |actions| && Sound(env, actions, ts, lo, run)
    ensures var hi := ChunkEnd(lo, size, |actions|);
            StepRun(env, actions, ts, clock, size, run, lo).dps
            == run.dps + Datapoints(env, RevisionsAt(env, actions, hi), actions[lo..hi])
  {
    TallyReaches(env, actions, lo, ChunkEnd(lo, size, |actions|));
  }

  lemma StepScores(env: Env, actions: seq<Action>, ts: seq<Transition>, clock: Clock, size: nat, run: Run, lo: nat)
    requires size > 0 && lo < |actions| && run.cursor <= |ts|
    requires run.state.perEntity == ApplyDatapoints(map[], run.dps)
    ensures var next := StepRun(env, actions, ts, clock, size, run, lo);
            next.state.perEntity == ApplyDatapoints(map[], next.dps)
  {
    var hi := ChunkEnd(lo, size, |actions|);
    var end := Advance(ts, run.cursor, actions[hi - 1].id);
    ApplyDatapointsConcat(map[], run.dps,
                          Update(env, run.state, actions[lo..hi], ts[run.cursor..end], clock(run.batches)).datapoints);
  }

  lemma StepReaches(env: Env, actions: seq<Action>, ts: seq<Transition>, clock: Clock, size: nat, run: Run, lo: nat)
    requires OrderedActions(actions) && OrderedTransitions(ts) && size > 0 && lo < |actions| && run.cursor <= |ts|
    requires Reached(env, actions, ts, lo, run.cursor, run.state)
    ensures var next := StepRun(env, actions, ts, clock, size, run, lo);
            Reached(env, actions, ts, ChunkEnd(lo, size, |actions|), next.cursor, next.state)
  {
    var hi := ChunkEnd(lo, size, |actions|);
    var end := Advance(ts, run.cursor, actions[hi - 1].id);
    UpdateReaches(env, actions, ts, lo, hi, run.cursor, end, run.state, clock(run.batches));
  }

  lemma StepStaysSound(env: Env, actions: seq<Action>, ts: seq<Transition>, clock: Clock, size: nat, run: Run, lo: nat)
    requires OrderedActions(actions) && OrderedTransitions(ts) && size > 0 && lo < |actions|
    requires Sound(env, actions, ts, lo, run)
    ensures Sound(env, actions, ts, ChunkEnd(lo, size, |actions|), StepRun(env, actions, ts, clock, size, run, lo))
  {
    StepReaches(env, actions, ts, clock, size, run, lo);
    StepScores(env, actions, ts, clock, size, run, lo);
  }

  lemma {:induction false} RunStaysSound(env: Env, actions: seq<Action>, ts: seq<Transition>, clock: Clock, size: nat,
                                        run: Run, lo: nat)
    requires OrderedActions(actions) && OrderedTransitions(ts) && size > 0 && lo <= |actions|
    requires Sound(env, actions, ts, lo, run)
    ensures Sound(env, actions, ts, |actions|, RunFrom(env, actions, ts, clock, size, run, lo))
    decreases |actions| - lo
  {
    if lo < |actions| {
      StepStaysSound(env, actions, ts, clock, size, run, lo);
      RunStaysSound(env, actions, ts, clock, size, StepRun(env, actions, ts, clock, size, run, lo),
                    ChunkEnd(lo, size, |actions|));
    }
  }

  ghost predicate Stamped(clock: Clock, run: Run) {
    run.batches > 0 ==> run.state.lastUpdatedAt == clock(run.batches - 1)
  }

  lemma StepStamps(env: Env, actions: seq<Action>, ts: seq<Transition>, clock: Clock, size: nat, run: Run, lo: nat)
    requires size > 0 && lo < |actions| && run.cursor <= |ts|
    ensures Stamped(clock, StepRun(env, actions, ts, clock, size, run, lo))
  {
  }

  lemma {:induction false} RunStaysStamped(env: Env, actions: seq<Action>, ts: seq<Transition>, clock: Clock, size: nat,
                                          run: Run, lo: nat)
    requires size > 0 && lo <= |actions| && run.cursor <= |ts| && Stamped(clock, run)
    ensures Stamped(clock, RunFrom(env, actions, ts, clock, size, run, lo))
    decreases |actions| - lo
  {
    if lo < |actions| {
      StepStamps(env, actions, ts, clock, size, run, lo);
      RunStaysStamped(env, actions, ts, clock, size, StepRun(env, actions, ts, clock, size, run, lo),
                      ChunkEnd(lo, size, |actions|));
    }
  }

  lemma {:induction false} RunDatapoints(env: Env, actions: seq<Action>, ts: seq<Transition>, clock: Clock, size: nat,
                                        run: Run, lo: nat)
    requires OrderedActions(actions) && OrderedTransitions(ts) && size > 0 && lo <= |actions|
    requires Sound(env, actions, ts, lo, run)
    ensures RunFrom(env, actions, ts, clock, size, run, lo).dps == run.dps + ChunkDatapoints(env, actions, size, lo)
    decreases |actions| - lo
  {
    if lo == |actions| {
      NothingAdded(run.dps);
    } else {
      var hi := ChunkEnd(lo, size, |actions|);
      StepStaysSound(env, actions, ts, clock, size, run, lo);
      StepDatapoints(env, actions, ts, clock, size, run, lo);
      RunDatapoints(env, actions, ts, clock, size, StepRun(env, actions, ts, clock, size, run, lo), hi);
      Regroup(run.dps, Datapoints(env, RevisionsAt(env, actions, hi), actions[lo..hi]),
              ChunkDatapoints(env, actions, size, hi));
    }
  }

  lemma StartIsSound(env: Env, actions: seq<Action>, ts: seq<Transition>)
    ensures Sound(env, actions, ts, 0, Start(env))
  {
    assert actions[..0] == [] && ts[..0] == [];
  }

  lemma NoActionsLeft(actions: seq<Action>, ts: seq<Transition>, cursor: nat)
    requires cursor <= |ts|
    ensures actions[|actions|..|actions|] == [] && ts[cursor..|ts|] == ts[cursor..]
  {
  }

  lemma FinishStaysSound(env: Env, actions: seq<Action>, ts: seq<Transition>, clock: Clock, run: Run)
    requires OrderedActions(actions) && OrderedTransitions(ts) && Sound(env, actions, ts, |actions|, run)
    ensures Sound(env, actions, ts, |actions|, Finish(env, ts, clock, run))
    ensures var last := Finish(env, ts, clock, run);
            last.cursor == |ts| && last.dps == run.dps && last.batches > 0
  {
    UpdateReaches(env, actions, ts, |actions|, |actions|, run.cursor, |ts|, run.state, clock(run.batches));
    NoActionsLeft(actions, ts, run.cursor);
    FinishAddsNothing(env, ts, clock, run);
  }

  /** The last batch has no actions, so no datapoints and no scores. */
  lemma FinishAddsNothing(env: Env, ts: seq<Transition>, clock: Clock, run: Run)
    requires run.cursor <= |ts|
    ensures var last := Finish(env, ts, clock, run);
            && last.cursor == |ts| && last.dps == run.dps && last.batches > 0
            && last.state.perEntity == run.state.perEntity
    ensures Stamped(clock, run) ==> Stamped(clock, Finish(env, ts, clock, run))
  {
    NothingAdded(run.dps);
  }

  /** Whatever the chunks, the replay ends in the folds over all transitions and all
      actions, the last ids, and the scores its datapoints leave. */
  lemma ChunkedReaches(env: Env, actions: seq<Action>, ts: seq<Transition>, clock: Clock, size: nat)
    requires OrderedActions(actions) && OrderedTransitions(ts) && size > 0
    ensures Sound(env, actions, ts, |actions|, Chunked(env, actions, ts, clock, size))
    ensures Chunked(env, actions, ts, clock, size).cursor == |ts| && Chunked(env, actions, ts, clock, size).batches > 0
    ensures Stamped(clock, Chunked(env, actions, ts, clock, size))
  {
    StartIsSound(env, actions, ts);
    RunStaysSound(env, actions, ts, clock, size, Start(env), 0);
    RunStaysStamped(env, actions, ts, clock, size, Start(env), 0);
    FinishStaysSound(env, actions, ts, clock, RunFrom(env, actions, ts, clock, size, Start(env), 0));
    FinishAddsNothing(env, ts, clock, RunFrom(env, actions, ts, clock, size, Start(env), 0));
  }

  lemma ChunkedDatapoints(env: Env, actions: seq<Action>, ts: seq<Transition>, clock: Clock, size: nat)
    requires OrderedActions(actions) && OrderedTransitions(ts) && size > 0
    ensures Chunked(env, actions, ts, clock, size).dps == ChunkDatapoints(env, actions, size, 0)
  {
    StartIsSound(env, actions, ts);
    RunStaysSound(env, actions, ts, clock, size, Start(env), 0);
    RunDatapoints(env, actions, ts, clock, size, Start(env), 0);
    FinishStaysSound(env, actions, ts, clock, RunFrom(env, actions, ts, clock, size, Start(env), 0));
    NothingAdded(ChunkDatapoints(env, actions, size, 0));
  }

  lemma SingleReaches(env: Env, actions: seq<Action>, ts: seq<Transition>, clock: Clock)
    requires OrderedActions(actions) && OrderedTransitions(ts)
    ensures var u := SinglePass(env, actions, ts, clock);
            && Reached(env, actions, ts, |actions|, |ts|, u.projection)
            && u.projection.perEntity == ApplyDatapoints(map[], u.datapoints)
            && u.datapoints == Datapoints(env, RevisionsAt(env, actions, |actions|), actions)
            && u.projection.lastUpdatedAt == clock(0)
  {
    StartIsSound(env, actions, ts);
    UpdateReaches(env, actions, ts, 0, |actions|, 0, |ts|, EmptyProjection(env), clock(0));
    assert actions[0..|actions|] == actions && ts[0..|ts|] == ts && actions[..|actions|] == actions;
  }

  // ---------------------------------------------------------------------------
  // The number of batches
  // ---------------------------------------------------------------------------

  /** The smallest number of chunks of this size that hold `n` actions. */
  ghost predicate FitsIn(n: nat, size: nat, chunks: nat) {
    n <= chunks * size < n + size
  }

  /** Only transitions after the last action are left. */
  ghost predicate LeavesTrailing(actions: seq<Action>, ts: seq<Transition>, from: nat, cursor: nat)
    requires |actions| > 0 && cursor <= |ts|
  {
    var last := actions[|actions| - 1].id;
    && (forall k | from <= k < cursor :: ts[k].id <= last)
    && (cursor < |ts| ==> ts[cursor].id > last)
  }

  lemma {:induction false} AdvanceStops(ts: seq<Transition>, cursor: nat, cutoff: Id)
    requires cursor <= |ts|
    ensures var end := Advance(ts, cursor, cutoff);
            && (forall k | cursor <= k < end :: ts[k].id <= cutoff) && (end < |ts| ==> ts[end].id > cutoff)
    decreases |ts| - cursor
  {
    if cursor < |ts| && ts[cursor].id <= cutoff {
      AdvanceStops(ts, cursor + 1, cutoff);
    }
  }

  function ChunkCount(n: nat, size: nat): nat
    requires size > 0
  {
    if n == 0 then 0 else 1 + ChunkCount(if n > size then n - size else 0, size)
  }

  lemma {:induction false} ChunksFit(n: nat, size: nat)
    requires size > 0
    ensures FitsIn(n, size, ChunkCount(n, size))
    decreases n
  {
    if n == 0 {
      assert 0 * size == 0;
    } else {
      var m := if n > size then n - size else 0;
      ChunksFit(m, size);
      var c := ChunkCount(m, size);
      assert ChunkCount(n, size) * size == c * size + size;
    }
  }

  lemma StepCounts(env: Env, actions: seq<Action>, ts: seq<Transition>, clock: Clock, size: nat, run: Run, lo: nat)
    requires size > 0 && lo < |actions| && run.cursor <= |ts|
    ensures var next := StepRun(env, actions, ts, clock, size, run, lo);
            && next.batches == run.batches + 1
            && next.cursor == Advance(ts, run.cursor, actions[ChunkEnd(lo, size, |actions|) - 1].id)
  {
  }

  lemma RunSteps(env: Env, actions: seq<Action>, ts: seq<Transition>, clock: Clock, size: nat, run: Run, lo: nat)
    requires size > 0 && lo < |actions| && run.cursor <= |ts|
    ensures RunFrom(env, actions, ts, clock, size, run, lo)
            == RunFrom(env, actions, ts, clock, size, StepRun(env, actions, ts, clock, size, run, lo),
                       ChunkEnd(lo, size, |actions|))
  {
  }

  lemma TrailingFrom(actions: seq<Action>, ts: seq<Transition>, hi: nat, from: nat, middle: nat, cursor: nat)
    requires OrderedActions(actions) && 0 < hi <= |actions| && from <= middle <= |ts| && cursor <= |ts|
    requires middle == Advance(ts, from, actions[hi - 1].id)
    requires if hi < |actions| then LeavesTrailing(actions, ts, middle, cursor) else cursor == middle
    ensures LeavesTrailing(actions, ts, from, cursor)
  {
    AdvanceStops(ts, from, actions[hi - 1].id);
    assert actions[hi - 1].id <= actions[|actions| - 1].id;
  }

  /** What a run from `lo` with `batches` batches and `cursor` transitions behind it adds. */
  ghost predicate RanFrom(actions: seq<Action>, ts: seq<Transition>, size: nat, lo: nat, batches: nat, cursor: nat, last: Run)
    requires lo <= |actions| && size > 0
  {
    && last.batches == batches + ChunkCount(|actions| - lo, size)
    && cursor <= last.cursor <= |ts|
    && if lo < |actions| then LeavesTrailing(actions, ts, cursor, last.cursor) else last.cursor == cursor
  }

  lemma RanNothing(actions: seq<Action>, ts: seq<Transition>, size: nat, run: Run)
    requires run.cursor <= |ts| && size > 0
    ensures RanFrom(actions, ts, size, |actions|, run.batches, run.cursor, run)
  {
  }

  lemma RanMore(actions: seq<Action>, ts: seq<Transition>, size: nat, lo: nat, batches: nat, cursor: nat, middle: nat, last: Run)
    requires OrderedActions(actions) && size > 0 && lo < |actions| && cursor <= middle <= |ts|
    requires middle == Advance(ts, cursor, actions[ChunkEnd(lo, size, |actions|) - 1].id)
    requires RanFrom(actions, ts, size, ChunkEnd(lo, size, |actions|), batches + 1, middle, last)
    ensures RanFrom(actions, ts, size, lo, batches, cursor, last)
  {
    TrailingFrom(actions, ts, ChunkEnd(lo, size, |actions|), cursor, middle, last.cursor);
  }

  lemma {:induction false} RunCounts(env: Env, actions: seq<Action>, ts: seq<Transition>, clock: Clock, size: nat,
                                    run: Run, lo: nat)
    requires OrderedActions(actions) && size > 0 && lo <= |actions| && run.cursor <= |ts|
    ensures RanFrom(actions, ts, size, lo, run.batches, run.cursor, RunFrom(env, actions, ts, clock, size, run, lo))
    decreases |actions| - lo
  {
    if lo == |actions| {
      RanNothing(actions, ts, size, run);
    } else {
      var hi, next := ChunkEnd(lo, size, |actions|), StepRun(env, actions, ts, clock, size, run, lo);
      StepCounts(env, actions, ts, clock, size, run, lo);
      RunCounts(env, actions, ts, clock, size, next, hi);
      RunSteps(env, actions, ts, clock, size, run, lo);
      RanMore(actions, ts, size, lo, run.batches, run.cursor, next.cursor,
              RunFrom(env, actions, ts, clock, size, next, hi));
    }
  }

  lemma FinishCounts(env: Env, ts: seq<Transition>, clock: Clock, run: Run)
    requires run.cursor <= |ts|
    ensures Finish(env, ts, clock, run).batches
            == if run.cursor < |ts| || run.batches == 0 then run.batches + 1 else run.batches
  {
  }

  ghost predicate SomeAfter(actions: seq<Action>, ts: seq<Transition>) {
    |actions| == 0 || exists k :: 0 <= k < |ts| && ts[k].id > actions[|actions| - 1].id
  }

  ghost predicate OneForEachChunk(n: nat, size: nat, batches: nat, more: bool) {
    if more then batches > 0 && FitsIn(n, size, batches - 1) else FitsIn(n, size, batches)
  }

  lemma CountedBatches(actions: seq<Action>, ts: seq<Transition>, size: nat, run: Run, batches: nat)
    requires size > 0 && RanFrom(actions, ts, size, 0, 0, 0, run)
    requires batches == if run.cursor < |ts| || run.batches == 0 then run.batches + 1 else run.batches
    ensures OneForEachChunk(|actions|, size, batches, SomeAfter(actions, ts))
  {
    ChunksFit(|actions|, size);
    if |actions| > 0 && run.cursor < |ts| {
      assert ts[run.cursor].id > actions[|actions| - 1].id;
    }
  }

  /** A replay applies one batch for each chunk, and one more when a transition comes after the
      last action or there is no action at all. */
  lemma BatchesAreChunks(env: Env, actions: seq<Action>, ts: seq<Transition>, clock: Clock, size: nat)
    requires OrderedActions(actions) && size > 0
    ensures OneForEachChunk(|actions|, size, Chunked(env, actions, ts, clock, size).batches, SomeAfter(actions, ts))
  {
    var run := RunFrom(env, actions, ts, clock, size, Start(env), 0);
    RunCounts(env, actions, ts, clock, size, Start(env), 0);
    FinishCounts(env, ts, clock, run);
    CountedBatches(actions, ts, size, run, Finish(env, ts, clock, run).batches);
  }

  ghost predicate ConstantClock(clock: Clock) {
    forall k :: clock(k) == clock(0)
  }

  /** So the two replays agree exactly when their datapoints do. */
  lemma AgreeOnDatapoints(env: Env, actions: seq<Action>, ts: seq<Transition>, clock: Clock, size: nat)
    requires OrderedActions(actions) && OrderedTransitions(ts) && size > 0 && ConstantClock(clock)
    ensures var run, u := Chunked(env, actions, ts, clock, size), SinglePass(env, actions, ts, clock);
            run.dps == u.datapoints ==> run.state == u.projection
  {
    ChunkedReaches(env, actions, ts, clock, size);
    SingleReaches(env, actions, ts, clock);
  }
}
