/** What the critical path says about the ticket rows themselves. */
module CriticalPathRows {
  import opened Graph
  import opened Types
  import opened LexOrder
  import opened CriticalPath

  type Rows = map<Id, TicketNode>

  predicate PositiveEstimate(t: TicketNode) {
    t.estimatedMinutes.Some? && t.estimatedMinutes.value > 0
  }

  /** The positive estimates of the listed tickets, added up. */
  function PositiveMinutes(rows: Rows, c: seq<Id>): int
    requires forall v | v in c :: v in rows
  {
    if |c| == 0 then 0
    else
      var t := rows[c[|c| - 1]];
      PositiveMinutes(rows, c[..|c| - 1]) + (if PositiveEstimate(t) then t.estimatedMinutes.value else 0)
  }

  /** How many of the listed tickets have no positive estimate. */
  function WithoutEstimate(rows: Rows, c: seq<Id>): nat
    requires forall v | v in c :: v in rows
  {
    if |c| == 0 then 0
    else WithoutEstimate(rows, c[..|c| - 1]) + (if PositiveEstimate(rows[c[|c| - 1]]) then 0 else 1)
  }

  function Total(rows: Rows, c: seq<Id>): int
    requires forall v | v in c :: v in rows
  {
    PositiveMinutes(rows, c) + WithoutEstimate(rows, c)
  }

  /** A dependency chain of tickets that are not excluded, deepest dependency first. */
  ghost predicate RowChain(rows: Rows, E: set<Edge>, exclude: set<Id>, c: seq<Id>) {
    && |c| > 0 && (forall v | v in c :: v in rows && v !in exclude)
    && forall i | 0 < i < |c| :: Edge(c[i], c[i - 1]) in E
  }

  function IdsOf(path: seq<CriticalPathNode>): (ids: seq<Id>)
    ensures |ids| == |path|
  {
    seq(|path|, i requires 0 <= i < |path| => path[i].id)
  }

  /** What a reader sees of a ticket: a missing number is 0, a missing or empty title the
      placeholder, a missing estimate an hour. */
  ghost predicate Shows(n: CriticalPathNode, t: TicketNode) {
    && n.id == t.id
    && n.ticketNumber == (match t.ticketNumber case None => 0 case Some(k) => k)
    && (t.title.None? || t.title.value == "" ==> n.title == "<unnumbered>")
    && (t.title.Some? && t.title.value != "" ==> n.title == t.title.value)
    && n.estimatedMinutes == (match t.estimatedMinutes case None => 60 case Some(k) => k)
  }

  lemma {:induction false} WeightIsTotal(rows: Rows, exclude: set<Id>, c: seq<Id>)
    requires forall v | v in c :: v in rows && v !in exclude
    ensures Weight(Weights(rows, exclude), c) == Total(rows, c)
    decreases |c|
  {
    if |c| > 0 {
      WeightIsTotal(rows, exclude, c[..|c| - 1]);
    }
  }

  lemma {:induction false} AllMissing(rows: Rows, c: seq<Id>)
    requires forall v | v in c :: v in rows && !PositiveEstimate(rows[v])
    ensures Total(rows, c) == |c|
    decreases |c|
  {
    if |c| > 0 {
      AllMissing(rows, c[..|c| - 1]);
    }
  }

  lemma ChainIsRowChain(rows: Rows, E: set<Edge>, exclude: set<Id>, c: seq<Id>)
    ensures var N := Included(rows, exclude);
            Chain(Restrict(E, N), N, c) <==> RowChain(rows, E, exclude, c)
  {
    var N := Included(rows, exclude);
    if RowChain(rows, E, exclude, c) {
      forall i | 0 <= i < |c| - 1
        ensures Link(Restrict(E, N), c, i)
      {
        assert Edge(c[i + 1], c[i]) in E && c[i] in c && c[i + 1] in c;
      }
    }
    if Chain(Restrict(E, N), N, c) {
      forall i | 0 < i < |c|
        ensures Edge(c[i], c[i - 1]) in E
      {
        assert Link(Restrict(E, N), c, i - 1);
      }
    }
  }

  /** No chain of tickets in `rows` is heavier than `c`, and of the equally heavy ones none
      comes before it. */
  ghost predicate Heaviest(rows: Rows, E: set<Edge>, exclude: set<Id>, c: seq<Id>)
    requires forall v | v in c :: v in rows
  {
    forall d | RowChain(rows, E, exclude, d) ::
      Total(rows, d) < Total(rows, c) || (Total(rows, d) == Total(rows, c) && (d == c || Less(c, d)))
  }

  lemma BestIsHeaviest(rows: Rows, E: set<Edge>, exclude: set<Id>, c: seq<Id>)
    requires var N := Included(rows, exclude);
             N != {} && IsCriticalPath(Restrict(E, N), N, Weights(rows, exclude), c)
    ensures RowChain(rows, E, exclude, c) && Heaviest(rows, E, exclude, c)
  {
    var N, w := Included(rows, exclude), Weights(rows, exclude);
    ChainIsRowChain(rows, E, exclude, c);
    WeightIsTotal(rows, exclude, c);
    forall d | RowChain(rows, E, exclude, d)
      ensures Total(rows, d) < Total(rows, c) || (Total(rows, d) == Total(rows, c) && (d == c || Less(c, d)))
    {
      ChainIsRowChain(rows, E, exclude, d);
      WeightIsTotal(rows, exclude, d);
      assert Beats(w, c, d);
    }
  }

  lemma PathShowsIds(rows: Rows, ids: seq<Id>, path: seq<CriticalPathNode>)
    requires (forall v | v in rows :: rows[v].id == v) && forall v | v in ids :: v in rows
    requires path == RenderPath(rows, ids)
    ensures IdsOf(path) == ids && forall i | 0 <= i < |ids| :: Shows(path[i], rows[ids[i]])
  {
    assert forall i | 0 <= i < |ids| :: ids[i] in ids && IdsOf(path)[i] == rows[ids[i]].id;
  }

  lemma PathOnRows(rows: Rows, E: set<Edge>, exclude: set<Id>, ids: seq<Id>)
    requires var N := Included(rows, exclude);
             IsCriticalPath(Restrict(E, N), N, Weights(rows, exclude), ids)
    requires forall v | v in ids :: v in rows
    ensures Weight(Weights(rows, exclude), ids) == Total(rows, ids)
    ensures ids == [] <==> forall v | v in rows :: v in exclude
    ensures ids != [] ==> RowChain(rows, E, exclude, ids) && Heaviest(rows, E, exclude, ids)
  {
    var N := Included(rows, exclude);
    if N == {} {
      assert forall v | v in rows && v !in exclude :: v in N;
    } else {
      var v :| v in N;
      assert v in rows && v !in exclude;
      BestIsHeaviest(rows, E, exclude, ids);
      WeightIsTotal(rows, exclude, ids);
    }
  }

  /** The result in terms of the rows alone: minutes are the positive estimates on the path
      plus one for each ticket without one, no chain of open tickets is worth more, and each
      node shows its row. */
  ghost predicate ReadsRows(rows: Rows, E: set<Edge>, exclude: set<Id>, r: CriticalPathResult) {
    var c := IdsOf(r.path);
    && r.length == |c| && (forall v | v in c :: v in rows) && r.minutes == Total(rows, c)
    && (c == [] <==> forall v | v in rows :: v in exclude)
    && (c != [] ==> RowChain(rows, E, exclude, c) && Heaviest(rows, E, exclude, c))
    && (forall i | 0 <= i < |c| :: Shows(r.path[i], rows[c[i]]))
  }

  lemma CriticalPathReadsRows(rows: Rows, E: set<Edge>, exclude: set<Id>, r: CriticalPathResult)
    requires exists ids :: IsCriticalPathResult(rows, E, exclude, ids, r)
    requires forall v | v in rows :: rows[v].id == v
    ensures ReadsRows(rows, E, exclude, r)
  {
    var ids :| IsCriticalPathResult(rows, E, exclude, ids, r);
    PathShowsIds(rows, ids, r.path);
    PathOnRows(rows, E, exclude, ids);
  }

  /** Without any positive estimate the minutes are the number of tickets. */
  lemma NoEstimatesCountTickets(rows: Rows, E: set<Edge>, exclude: set<Id>, r: CriticalPathResult)
    requires ReadsRows(rows, E, exclude, r) && forall v | v in rows :: !PositiveEstimate(rows[v])
    ensures r.minutes == r.length
  {
    AllMissing(rows, IdsOf(r.path));
  }
}
