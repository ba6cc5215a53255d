/** Which finished requests reach the ledger (`apps/gateway/src/request-sampling.ts`): a decaying
    histogram per route, the threshold read off it, the one-in-N turn, and the sampler that keeps
    a picture of every route. Weights are exact reals; the edges are any increasing sequence. */
module Sampler {
  import opened Options

  const DISTRIBUTION_WINDOW := 1024.0
  const TAIL_QUANTILE := 0.99
  const BORING_OUTCOME := "done"
  const KEPT_WHOLE: nat := 1
  const KEEP_EVERY := 1
  const OTHER_ROUTE := "other"

  datatype RouteState = RouteState(buckets: seq<real>, total: real, turns: nat)

  datatype Row = Row(route: string, outcome: string, sse: bool, durationMs: Option<real>)

  ghost predicate Increasing(edges: seq<real>) {
    edges != [] && forall i, j :: 0 <= i < j < |edges| ==> edges[i] < edges[j]
  }

  function EmptyRoute(edges: seq<real>): RouteState {
    RouteState(seq(|edges| + 1, _ => 0.0), 0.0, 0)
  }

  /** The first edge a duration does not exceed, or the bucket past the last of them. */
  function BucketOf(edges: seq<real>, d: real): (b: nat)
    ensures b <= |edges|
    ensures b < |edges| ==> d <= edges[b]
    ensures forall i :: 0 <= i < b ==> edges[i] < d
  {
    if edges == [] then 0
    else if d <= edges[0] then 0
    else
      var rest := BucketOf(edges[1..], d);
      assert forall i :: 1 <= i < 1 + rest ==> edges[i] == edges[1..][i - 1];
      1 + rest
  }

  /** The weight in the first `n` buckets. */
  function Below(buckets: seq<real>, n: nat): real
    requires n <= |buckets|
  {
    if n == 0 then 0.0 else Below(buckets, n - 1) + buckets[n - 1]
  }

  ghost predicate Holds99(state: RouteState, i: nat) {
    i < |state.buckets| && Below(state.buckets, i + 1) >= state.total * TAIL_QUANTILE
  }

  /** `at` is the bucket whose edge the threshold is: the lowest with 99% of the weight at or below
      it, or the last finite one when there is none. */
  ghost predicate IsThreshold(edges: seq<real>, state: RouteState, at: nat)
    requires |state.buckets| == |edges| + 1
  {
    && at < |edges|
    && (forall i :: 0 <= i < at ==> !Holds99(state, i))
    && (at < |edges| - 1 ==> Holds99(state, at))
  }

  function ThresholdAt(edges: seq<real>, state: RouteState, from: nat): (at: nat)
    requires |state.buckets| == |edges| + 1 && from < |edges|
    requires forall i :: 0 <= i < from ==> !Holds99(state, i)
    ensures IsThreshold(edges, state, at)
    decreases |edges| - from
  {
    if Below(state.buckets, from + 1) >= state.total * TAIL_QUANTILE || from == |edges| - 1 then from
    else ThresholdAt(edges, state, from + 1)
  }

  function TailThreshold(edges: seq<real>, state: RouteState): real
    requires |state.buckets| == |edges| + 1 && edges != []
  {
    edges[ThresholdAt(edges, state, 0)]
  }

  lemma ThresholdIsUnique(edges: seq<real>, state: RouteState, a: nat, b: nat)
    requires |state.buckets| == |edges| + 1
    requires IsThreshold(edges, state, a) && IsThreshold(edges, state, b)
    ensures a == b
  {
    assert a < b ==> !Holds99(state, a);
    assert b < a ==> !Holds99(state, b);
  }

  /** `tailThresholdOf`: the running sum, edge by edge. */
  method TailThresholdOf(edges: seq<real>, state: RouteState) returns (threshold: real)
    requires |state.buckets| == |edges| + 1 && edges != []
    ensures threshold == TailThreshold(edges, state)
  {
    var wanted := state.total * TAIL_QUANTILE;
    var below := 0.0;
    for index := 0 to |edges|
      invariant below == Below(state.buckets, index)
      invariant forall i :: 0 <= i < index ==> !Holds99(state, i)
    {
      below := below + state.buckets[index];
      if below >= wanted {
        ThresholdIsUnique(edges, state, index, ThresholdAt(edges, state, 0));
        return edges[index];
      }
    }
    ThresholdIsUnique(edges, state, |edges| - 1, ThresholdAt(edges, state, 0));
    return edges[|edges| - 1];
  }

  function Decayed(state: RouteState): (r: RouteState)
    ensures |r.buckets| == |state.buckets|
  {
    RouteState(seq(|state.buckets|, i requires 0 <= i < |state.buckets| => state.buckets[i] / 2.0),
               state.total / 2.0, state.turns)
  }

  function Grown(edges: seq<real>, state: RouteState, d: real): (r: RouteState)
    requires |state.buckets| == |edges| + 1
    ensures |r.buckets| == |edges| + 1
  {
    var landed := BucketOf(edges, d);
    RouteState(state.buckets[landed := state.buckets[landed] + 1.0], state.total + 1.0, state.turns)
  }

  predicate Halves(state: RouteState) {
    state.total + 1.0 > DISTRIBUTION_WINDOW
  }

  /** A picture after one more request, halved when that takes it past the window. */
  function Observed(edges: seq<real>, state: RouteState, d: real): (r: RouteState)
    requires |state.buckets| == |edges| + 1
    ensures |r.buckets| == |edges| + 1 && r.turns == state.turns
  {
    var grown := Grown(edges, state, d);
    if grown.total > DISTRIBUTION_WINDOW then Decayed(grown) else grown
  }

  function DurationOf(row: Row): real {
    if row.durationMs.Some? then row.durationMs.value else 0.0
  }

  predicate IsInteresting(row: Row, threshold: real, d: real) {
    row.outcome != BORING_OUTCOME || row.sse || d > threshold
  }

  /** One row's decision, a weight or none, and its route's state after it. */
  function RateFor(edges: seq<real>, state: RouteState, row: Row, oneIn: nat): (r: (Option<nat>, RouteState))
    requires |state.buckets| == |edges| + 1 && edges != [] && oneIn >= 1
    ensures |r.1.buckets| == |edges| + 1
  {
    var d := DurationOf(row);
    var next := Observed(edges, state, d);
    if IsInteresting(row, TailThreshold(edges, next), d) then (Some(KEPT_WHOLE), next)
    else (if next.turns % oneIn == 0 then Some(oneIn) else None, next.(turns := next.turns + 1))
  }

  // ---------------------------------------------------------------- the sampler

  function RouteTag(known: set<string>, route: string): string {
    if route in known then route else OTHER_ROUTE
  }

  type Routes = map<string, RouteState>

  ghost predicate Shaped(edges: seq<real>, routes: Routes) {
    forall key :: key in routes ==> |routes[key].buckets| == |edges| + 1
  }

  function StateOf(edges: seq<real>, routes: Routes, key: string): RouteState {
    if key in routes then routes[key] else EmptyRoute(edges)
  }

  /** One `Ref.modify`: only the row's own route is read or written. */
  function Decide(edges: seq<real>, known: set<string>, oneIn: nat, routes: Routes, row: Row)
    : (r: (Option<nat>, Routes))
    requires edges != [] && oneIn >= 1 && Shaped(edges, routes)
    ensures Shaped(edges, r.1)
  {
    var key := RouteTag(known, row.route);
    var (rate, next) := RateFor(edges, StateOf(edges, routes, key), row, oneIn);
    (rate, routes[key := next])
  }

  class RequestSampler {
    const edges: seq<real>
    const known: set<string>
    const oneIn: nat
    var routes: Routes

    ghost predicate Valid()
      reads this
    {
      Increasing(edges) && oneIn >= 1 && Shaped(edges, routes)
    }

    /** A configured turn below one is raised to one. */
    constructor (edges: seq<real>, known: set<string>, configured: int)
      requires Increasing(edges)
      ensures Valid() && routes == map[]
      ensures this.edges == edges && this.known == known
      ensures oneIn == if configured >= 1 then configured else 1
    {
      this.edges := edges;
      this.known := known;
      this.oneIn := if configured >= KEEP_EVERY then configured else KEEP_EVERY;
      this.routes := map[];
    }

    method Rate(row: Row) returns (rate: Option<nat>)
      requires Valid()
      modifies this`routes
      ensures Valid()
      ensures (rate, routes) == Decide(edges, known, oneIn, old(routes), row)
    {
      var key := RouteTag(known, row.route);
      var state := if key in routes then routes[key] else EmptyRoute(edges);
      var d := DurationOf(row);
      var next := Observed(edges, state, d);
      var threshold := TailThresholdOf(edges, next);
      if IsInteresting(row, threshold, d) {
        rate := Some(KEPT_WHOLE);
      } else {
        rate := if next.turns % oneIn == 0 then Some(oneIn) else None;
        next := next.(turns := next.turns + 1);
      }
      routes := routes[key := next];
    }
  }

  // ---------------------------------------------------------------- traces

  /** What each row of a trace weighs. */
  function Decisions(edges: seq<real>, known: set<string>, oneIn: nat, routes: Routes, rows: seq<Row>)
    : (r: seq<Option<nat>>)
    requires edges != [] && oneIn >= 1 && Shaped(edges, routes)
    ensures |r| == |rows|
    decreases |rows|
  {
    if rows == [] then []
    else
      var (rate, next) := Decide(edges, known, oneIn, routes, rows[0]);
      [rate] + Decisions(edges, known, oneIn, next, rows[1..])
  }

  /** The same for a single route, from its own picture. */
  function RouteDecisions(edges: seq<real>, oneIn: nat, state: RouteState, rows: seq<Row>): (r: seq<Option<nat>>)
    requires |state.buckets| == |edges| + 1 && edges != [] && oneIn >= 1
    ensures |r| == |rows|
    decreases |rows|
  {
    if rows == [] then []
    else
      var (rate, next) := RateFor(edges, state, rows[0], oneIn);
      [rate] + RouteDecisions(edges, oneIn, next, rows[1..])
  }

  /** The elements of `xs` at the positions where `rows` are on one route. */
  function OnRoute<A>(known: set<string>, key: string, rows: seq<Row>, xs: seq<A>): seq<A>
    requires |rows| == |xs|
    decreases |rows|
  {
    if rows == [] then []
    else
      var rest := OnRoute(known, key, rows[1..], xs[1..]);
      if RouteTag(known, rows[0].route) == key then [xs[0]] + rest else rest
  }

  /** However requests on different routes interleave, what a route's rows weigh is what they would
      weigh if the others had not happened. */
  lemma {:induction false} RoutesAreIndependent(
      edges: seq<real>, known: set<string>, oneIn: nat, routes: Routes, rows: seq<Row>, key: string)
    requires edges != [] && oneIn >= 1 && Shaped(edges, routes)
    ensures OnRoute(known, key, rows, Decisions(edges, known, oneIn, routes, rows))
         == RouteDecisions(edges, oneIn, StateOf(edges, routes, key), OnRoute(known, key, rows, rows))
    decreases |rows|
  {
    hide RateFor;
    if rows != [] {
      var (rate, next) := Decide(edges, known, oneIn, routes, rows[0]);
      var rest := Decisions(edges, known, oneIn, next, rows[1..]);
      assert ([rate] + rest)[1..] == rest;
      RoutesAreIndependent(edges, known, oneIn, next, rows[1..], key);
      var mine := OnRoute(known, key, rows[1..], rows[1..]);
      if RouteTag(known, rows[0].route) == key {
        assert ([rows[0]] + mine)[1..] == mine;
        assert next[key] == RateFor(edges, StateOf(edges, routes, key), rows[0], oneIn).1;
      } else {
        assert StateOf(edges, next, key) == StateOf(edges, routes, key);
      }
    }
  }

  function Weight(rates: seq<Option<nat>>): nat {
    if rates == [] then 0 else (if rates[0].Some? then rates[0].value else 0) + Weight(rates[1..])
  }

  /** How far the next kept turn is: what the weights stamped so far run ahead of the traffic. */
  function Ahead(oneIn: nat, turns: nat): (n: nat)
    requires oneIn >= 1
    ensures n < oneIn
  {
    if turns % oneIn == 0 then 0 else oneIn - turns % oneIn
  }

  lemma AheadStep(oneIn: nat, turns: nat)
    requires oneIn >= 1
    ensures turns % oneIn == 0 ==> Ahead(oneIn, turns) == 0 && Ahead(oneIn, turns + 1) == oneIn - 1
    ensures turns % oneIn != 0 ==> Ahead(oneIn, turns + 1) == Ahead(oneIn, turns) - 1
  {
    var q, r := turns / oneIn, turns % oneIn;
    if r == oneIn - 1 {
      RemainderIs(turns + 1, oneIn, q + 1, 0);
    } else {
      RemainderIs(turns + 1, oneIn, q, r + 1);
    }
  }

  lemma RemainderIs(t: nat, n: nat, q: nat, r: nat)
    requires r < n && t == n * q + r
    ensures t % n == r
  {
    var p := t / n;
    if p < q {
      MultiplesGrow(n, p + 1, q);
    } else if q < p {
      MultiplesGrow(n, q + 1, p);
    }
  }

  lemma MultiplesGrow(n: nat, a: nat, b: nat)
    requires a <= b
    ensures n * a <= n * b
  {}

  /** The picture after a route's rows. */
  function RouteAfter(edges: seq<real>, oneIn: nat, state: RouteState, rows: seq<Row>): (r: RouteState)
    requires |state.buckets| == |edges| + 1 && edges != [] && oneIn >= 1
    ensures |r.buckets| == |edges| + 1
    decreases |rows|
  {
    if rows == [] then state else RouteAfter(edges, oneIn, RateFor(edges, state, rows[0], oneIn).1, rows[1..])
  }

  lemma OneWeight(edges: seq<real>, oneIn: nat, state: RouteState, row: Row)
    requires |state.buckets| == |edges| + 1 && edges != [] && oneIn >= 1
    ensures var (rate, next) := RateFor(edges, state, row, oneIn);
            Weight([rate]) + Ahead(oneIn, state.turns) == 1 + Ahead(oneIn, next.turns)
  {
    AheadStep(oneIn, state.turns);
    hide Observed, TailThreshold, Ahead;
  }

  lemma {:induction false} WeightsRunAhead(edges: seq<real>, oneIn: nat, state: RouteState, rows: seq<Row>)
    requires |state.buckets| == |edges| + 1 && edges != [] && oneIn >= 1
    ensures Weight(RouteDecisions(edges, oneIn, state, rows)) + Ahead(oneIn, state.turns)
         == |rows| + Ahead(oneIn, RouteAfter(edges, oneIn, state, rows).turns)
    decreases |rows|
  {
    hide RateFor, Ahead;
    if rows != [] {
      var (rate, next) := RateFor(edges, state, rows[0], oneIn);
      var rest := RouteDecisions(edges, oneIn, next, rows[1..]);
      assert ([rate] + rest)[1..] == rest;
      OneWeight(edges, oneIn, state, rows[0]);
      WeightsRunAhead(edges, oneIn, next, rows[1..]);
    }
  }

  /** On every route of every trace, the stamped weights add up to the traffic, or exceed it by less
      than one turn. */
  lemma WeightsAreTheTraffic(edges: seq<real>, known: set<string>, oneIn: nat, rows: seq<Row>, key: string)
    requires edges != [] && oneIn >= 1
    ensures var mine := |OnRoute(known, key, rows, rows)|;
            var weight := Weight(OnRoute(known, key, rows, Decisions(edges, known, oneIn, map[], rows)));
            mine <= weight < mine + oneIn
  {
    hide Decisions, RouteDecisions, RouteAfter;
    RoutesAreIndependent(edges, known, oneIn, map[], rows, key);
    WeightsRunAhead(edges, oneIn, EmptyRoute(edges), OnRoute(known, key, rows, rows));
  }

  /** A turn of one, which every configured turn below one is raised to, keeps every row of every trace
      at a weight of one. */
  lemma {:induction false} OneInOneKeepsEverything(
      edges: seq<real>, known: set<string>, routes: Routes, rows: seq<Row>, i: nat)
    requires edges != [] && Shaped(edges, routes) && i < |rows|
    ensures Decisions(edges, known, 1, routes, rows)[i] == Some(KEPT_WHOLE)
    decreases |rows|
  {
    var (rate, next) := Decide(edges, known, 1, routes, rows[0]);
    RemainderIs(StateOf(edges, routes, RouteTag(known, rows[0].route)).turns, 1,
                StateOf(edges, routes, RouteTag(known, rows[0].route)).turns, 0);
    hide Observed, TailThreshold, IsInteresting;
    assert rate == Some(KEPT_WHOLE);
    if i > 0 {
      OneInOneKeepsEverything(edges, known, next, rows[1..], i - 1);
    }
  }

  // ---------------------------------------------------------------- what is kept for cause

  /** What puts a request on the ledger on its own: an ending other than "done", an event stream, or a
      duration past the edge that holds 99% of its route's traffic, itself counted. */
  predicate ForCause(edges: seq<real>, state: RouteState, row: Row)
    requires |state.buckets| == |edges| + 1 && edges != []
  {
    var d := if row.durationMs.Some? then row.durationMs.value else 0.0;
    row.outcome != "done" || row.sse || d > TailThreshold(edges, Observed(edges, state, d))
  }

  /** The rows of a route that are not. */
  function Ordinary(edges: seq<real>, oneIn: nat, state: RouteState, rows: seq<Row>): (n: nat)
    requires |state.buckets| == |edges| + 1 && edges != [] && oneIn >= 1
    ensures n <= |rows|
    decreases |rows|
  {
    if rows == [] then 0
    else
      (if ForCause(edges, state, rows[0]) then 0 else 1)
        + Ordinary(edges, oneIn, RateFor(edges, state, rows[0], oneIn).1, rows[1..])
  }

  lemma OneRow(edges: seq<real>, oneIn: nat, state: RouteState, row: Row)
    requires |state.buckets| == |edges| + 1 && edges != [] && oneIn >= 1
    ensures var (rate, next) := RateFor(edges, state, row, oneIn);
            && (ForCause(edges, state, row) ==> rate == Some(1) && next.turns == state.turns)
            && (!ForCause(edges, state, row) ==>
                  rate == (if state.turns % oneIn == 0 then Some(oneIn) else None) && next.turns == state.turns + 1)
  {
    hide Observed, TailThreshold;
  }

  /** Only the ordinary rows of a route move its turn. */
  lemma {:induction false} TurnsCountOrdinary(edges: seq<real>, oneIn: nat, state: RouteState, rows: seq<Row>)
    requires |state.buckets| == |edges| + 1 && edges != [] && oneIn >= 1
    ensures RouteAfter(edges, oneIn, state, rows).turns == state.turns + Ordinary(edges, oneIn, state, rows)
    decreases |rows|
  {
    hide RateFor, ForCause;
    if rows != [] {
      OneRow(edges, oneIn, state, rows[0]);
      TurnsCountOrdinary(edges, oneIn, RateFor(edges, state, rows[0], oneIn).1, rows[1..]);
    }
  }

  /** A row of a trace is decided on its own route's picture as the earlier rows of the route left it. */
  lemma {:induction false} DecidedOnItsRoute(
      edges: seq<real>, known: set<string>, oneIn: nat, routes: Routes, rows: seq<Row>, i: nat)
    requires edges != [] && oneIn >= 1 && Shaped(edges, routes) && i < |rows|
    ensures var key := RouteTag(known, rows[i].route);
            var state := RouteAfter(edges, oneIn, StateOf(edges, routes, key),
                                    OnRoute(known, key, rows[..i], rows[..i]));
            Decisions(edges, known, oneIn, routes, rows)[i] == RateFor(edges, state, rows[i], oneIn).0
    decreases |rows|
  {
    hide RateFor, RouteTag;
    var key := RouteTag(known, rows[i].route);
    var (rate, next) := Decide(edges, known, oneIn, routes, rows[0]);
    if i > 0 {
      DecidedOnItsRoute(edges, known, oneIn, next, rows[1..], i - 1);
      assert rows[..i][0] == rows[0] && rows[..i][1..] == rows[1..][..i - 1];
      var mine := OnRoute(known, key, rows[1..][..i - 1], rows[1..][..i - 1]);
      if RouteTag(known, rows[0].route) == key {
        assert ([rows[0]] + mine)[1..] == mine;
      } else {
        assert StateOf(edges, next, key) == StateOf(edges, routes, key);
      }
    }
  }

  /** What every row of every trace weighs, however the routes interleave: one if it is kept for cause, and
      otherwise one turn, or nothing, by how many ordinary rows its route had before it. */
  lemma WhatARowWeighs(edges: seq<real>, known: set<string>, oneIn: nat, rows: seq<Row>, i: nat)
    requires edges != [] && oneIn >= 1 && i < |rows|
    ensures var key := RouteTag(known, rows[i].route);
            var mine := OnRoute(known, key, rows[..i], rows[..i]);
            var state := RouteAfter(edges, oneIn, EmptyRoute(edges), mine);
            var turn := Ordinary(edges, oneIn, EmptyRoute(edges), mine);
            Decisions(edges, known, oneIn, map[], rows)[i]
              == if ForCause(edges, state, rows[i]) then Some(1)
                 else if turn % oneIn == 0 then Some(oneIn) else None
  {
    hide Decisions, RateFor, ForCause, OnRoute, RouteAfter, Ordinary;
    DecidedOnItsRoute(edges, known, oneIn, map[], rows, i);
    var key := RouteTag(known, rows[i].route);
    var mine := OnRoute(known, key, rows[..i], rows[..i]);
    TurnsCountOrdinary(edges, oneIn, EmptyRoute(edges), mine);
    OneRow(edges, oneIn, RouteAfter(edges, oneIn, EmptyRoute(edges), mine), rows[i]);
  }

  /** Two requests share a picture exactly when they are on one route, or on none the contract knows. */
  lemma OnOneRoute(known: set<string>, a: string, b: string)
    ensures RouteTag(known, a) == RouteTag(known, b) <==>
              a == b || ((a !in known || a == "other") && (b !in known || b == "other"))
    ensures RouteTag(known, a) in known + {"other"}
  {}
}
