/** What the tail rule of `Sampler` can keep: the invariant of a route's picture, when a request
    beats the threshold, and how many can over a whole run. */
module SamplerTail {
  import opened Options
  import opened Sampler

  /** Non-negative weights that `total` is the sum of, and never more than the window. */
  ghost predicate Picture(edges: seq<real>, state: RouteState) {
    && |state.buckets| == |edges| + 1
    && (forall i :: 0 <= i < |state.buckets| ==> state.buckets[i] >= 0.0)
    && state.total == Below(state.buckets, |state.buckets|)
    && state.total <= DISTRIBUTION_WINDOW
  }

  // ---------------------------------------------------------------- the invariant

  lemma {:induction false} BelowGrown(a: seq<real>, b: seq<real>, at: nat, n: nat)
    requires |a| == |b| && at < |a| && n <= |a| && b == a[at := a[at] + 1.0]
    ensures Below(b, n) == Below(a, n) + if at < n then 1.0 else 0.0
  {
    if n > 0 {
      BelowGrown(a, b, at, n - 1);
    }
  }

  lemma {:induction false} BelowHalved(a: seq<real>, b: seq<real>, n: nat)
    requires |a| == |b| && n <= |a| && forall i :: 0 <= i < |a| ==> b[i] == a[i] / 2.0
    ensures Below(b, n) == Below(a, n) / 2.0
  {
    if n > 0 {
      BelowHalved(a, b, n - 1);
    }
  }

  lemma {:induction false} BelowGrows(a: seq<real>, m: nat, n: nat)
    requires m <= n <= |a| && forall i :: 0 <= i < |a| ==> a[i] >= 0.0
    ensures Below(a, m) <= Below(a, n)
    decreases n
  {
    if m < n {
      BelowGrows(a, m, n - 1);
    }
  }

  lemma {:induction false} BelowZeros(a: seq<real>, n: nat)
    requires n <= |a| && forall i :: 0 <= i < |a| ==> a[i] == 0.0
    ensures Below(a, n) == 0.0
  {
    if n > 0 {
      BelowZeros(a, n - 1);
    }
  }

  lemma EmptyIsPicture(edges: seq<real>)
    ensures Picture(edges, EmptyRoute(edges))
  {
    BelowZeros(EmptyRoute(edges).buckets, |edges| + 1);
  }

  /** One observation: the landing bucket gains one and, past the window, everything is halved. */
  lemma ObservedIsPicture(edges: seq<real>, state: RouteState, d: real)
    requires Picture(edges, state)
    ensures Picture(edges, Observed(edges, state, d))
    ensures var next := Observed(edges, state, d);
            var j := BucketOf(edges, d);
            var k := if Halves(state) then 2.0 else 1.0;
            && next.total == (state.total + 1.0) / k
            && (forall i :: 0 <= i < |state.buckets| ==>
                  next.buckets[i] == (state.buckets[i] + if i == j then 1.0 else 0.0) / k)
  {
    var grown := Grown(edges, state, d);
    BelowGrown(state.buckets, grown.buckets, BucketOf(edges, d), |edges| + 1);
    if Halves(state) {
      BelowHalved(grown.buckets, Decayed(grown).buckets, |edges| + 1);
    }
  }

  lemma RateForIsPicture(edges: seq<real>, state: RouteState, row: Row, oneIn: nat)
    requires Picture(edges, state) && edges != [] && oneIn >= 1
    ensures Picture(edges, RateFor(edges, state, row, oneIn).1)
    ensures RateFor(edges, state, row, oneIn).1.buckets == Observed(edges, state, DurationOf(row)).buckets
    ensures RateFor(edges, state, row, oneIn).1.total == Observed(edges, state, DurationOf(row)).total
  {
    ObservedIsPicture(edges, state, DurationOf(row));
    hide Observed, Below, TailThreshold;
  }

  /** Every route's picture is sound in every state a sampler reaches from the empty one. */
  lemma {:induction false} PicturesStaySound(
      edges: seq<real>, known: set<string>, oneIn: nat, routes: Routes, rows: seq<Row>, key: string)
    requires edges != [] && oneIn >= 1 && Shaped(edges, routes)
    requires forall k :: k in routes ==> Picture(edges, routes[k])
    ensures Shaped(edges, RoutesAfter(edges, known, oneIn, routes, rows))
    ensures Picture(edges, StateOf(edges, RoutesAfter(edges, known, oneIn, routes, rows), key))
    decreases |rows|
  {
    EmptyIsPicture(edges);
    if rows != [] {
      var at := RouteTag(known, rows[0].route);
      RateForIsPicture(edges, StateOf(edges, routes, at), rows[0], oneIn);
      PicturesStaySound(edges, known, oneIn, Decide(edges, known, oneIn, routes, rows[0]).1, rows[1..], key);
    }
  }

  function RoutesAfter(edges: seq<real>, known: set<string>, oneIn: nat, routes: Routes, rows: seq<Row>): (r: Routes)
    requires edges != [] && oneIn >= 1 && Shaped(edges, routes)
    ensures Shaped(edges, r)
    decreases |rows|
  {
    if rows == [] then routes
    else RoutesAfter(edges, known, oneIn, Decide(edges, known, oneIn, routes, rows[0]).1, rows[1..])
  }

  // ---------------------------------------------------------------- beating the threshold

  /** A duration beats the threshold exactly when it is past the last edge, or when 99% of the
      weight lies in buckets below its own. */
  lemma BeatsThresholdWhen(edges: seq<real>, state: RouteState, d: real)
    requires Increasing(edges) && Picture(edges, state)
    ensures var j := BucketOf(edges, d);
            d > TailThreshold(edges, state) <==> j == |edges| || (j > 0 && Holds99(state, j - 1))
  {
    var j := BucketOf(edges, d);
    var at := ThresholdAt(edges, state, 0);
    assert at < j ==> edges[at] < d;
    assert j <= at ==> d <= edges[j] <= edges[at];
    if at < j < |edges| {
      BelowGrows(state.buckets, at + 1, j);
    }
  }

  /** A finite bucket whose requests beat the threshold holds at most 1% of the weight. */
  lemma TailBucketIsLight(edges: seq<real>, state: RouteState, d: real)
    requires Increasing(edges) && Picture(edges, state)
    requires BucketOf(edges, d) < |edges| && d > TailThreshold(edges, state)
    ensures state.buckets[BucketOf(edges, d)] <= state.total / 100.0
  {
    var j := BucketOf(edges, d);
    BeatsThresholdWhen(edges, state, d);
    BelowGrows(state.buckets, j + 1, |edges| + 1);
  }

  // ---------------------------------------------------------------- how much the tail rule keeps

  /** A row in bucket `j` that only the tail rule keeps. */
  ghost predicate KeptByTail(edges: seq<real>, state: RouteState, row: Row, j: nat)
    requires |state.buckets| == |edges| + 1 && edges != []
  {
    && BucketOf(edges, DurationOf(row)) == j
    && row.outcome == BORING_OUTCOME && !row.sse
    && DurationOf(row) > TailThreshold(edges, Observed(edges, state, DurationOf(row)))
  }

  /** Where the thinning is on, these are the rows of the bucket that are neither failures nor event streams
      and are stamped one. */
  lemma KeptByTailIsStamped(edges: seq<real>, state: RouteState, row: Row, oneIn: nat)
    requires |state.buckets| == |edges| + 1 && edges != [] && oneIn > 1
    ensures KeptByTail(edges, state, row, BucketOf(edges, DurationOf(row))) <==>
              row.outcome == "done" && !row.sse && RateFor(edges, state, row, oneIn).0 == Some(1)
    ensures forall j :: KeptByTail(edges, state, row, j) ==> j == BucketOf(edges, DurationOf(row))
  {
    hide Observed, TailThreshold, BucketOf;
  }

  ghost function TailCount(edges: seq<real>, oneIn: nat, state: RouteState, rows: seq<Row>, j: nat): nat
    requires |state.buckets| == |edges| + 1 && edges != [] && oneIn >= 1
    decreases |rows|
  {
    if rows == [] then 0
    else (if KeptByTail(edges, state, rows[0], j) then 1 else 0)
         + TailCount(edges, oneIn, RateFor(edges, state, rows[0], oneIn).1, rows[1..], j)
  }

  ghost function Halvings(edges: seq<real>, oneIn: nat, state: RouteState, rows: seq<Row>): nat
    requires |state.buckets| == |edges| + 1 && edges != [] && oneIn >= 1
    decreases |rows|
  {
    if rows == [] then 0
    else (if Halves(state) then 1 else 0) + Halvings(edges, oneIn, RateFor(edges, state, rows[0], oneIn).1, rows[1..])
  }

  /** What a bucket of this weight can still take before one percent of a full picture is in it. */
  function Room(weight: real): real {
    if weight > 10.25 then 0.0 else 10.25 - weight
  }

  function Kept(kept: bool): real {
    if kept then 1.0 else 0.0
  }

  /** One row: what it keeps is paid for by the room its bucket loses, and a halving makes at most 5.125
      more, half of what one percent of the picture was. */
  lemma OneRowOfTail(edges: seq<real>, oneIn: nat, state: RouteState, row: Row, j: nat)
    requires Increasing(edges) && oneIn >= 1 && Picture(edges, state) && j < |edges|
    ensures var next := RateFor(edges, state, row, oneIn).1;
            && Picture(edges, next)
            && Kept(KeptByTail(edges, state, row, j)) + Room(next.buckets[j])
                 <= Room(state.buckets[j]) + (if Halves(state) then 5.125 else 0.0)
  {
    var d := DurationOf(row);
    var seen := Observed(edges, state, d);
    RateForIsPicture(edges, state, row, oneIn);
    ObservedIsPicture(edges, state, d);
    assert seen.buckets[j] >= 0.0;
    if KeptByTail(edges, state, row, j) {
      TailBucketIsLight(edges, seen, d);
    }
    hide RateFor, Observed, Below, TailThreshold;
  }

  lemma {:induction false} TailIsBounded(edges: seq<real>, oneIn: nat, state: RouteState, rows: seq<Row>, j: nat)
    requires Increasing(edges) && oneIn >= 1 && Picture(edges, state) && j < |edges|
    ensures TailCount(edges, oneIn, state, rows, j) as real
         <= Room(state.buckets[j]) + 5.125 * Halvings(edges, oneIn, state, rows) as real
    decreases |rows|
  {
    hide RateFor, KeptByTail, Room;
    if rows == [] {
      RoomIsWithin(state.buckets[j]);
    } else {
      OneRowOfTail(edges, oneIn, state, rows[0], j);
      TailIsBounded(edges, oneIn, RateFor(edges, state, rows[0], oneIn).1, rows[1..], j);
    }
  }

  lemma RoomIsWithin(weight: real)
    requires weight >= 0.0
    ensures 0.0 <= Room(weight) <= 10.25
  {}

  /** Between two halvings of a route's picture, the tail rule alone keeps at most ten requests from
      any one finite bucket, in whatever order the durations come. */
  lemma TenPerBucketBetweenHalvings(edges: seq<real>, oneIn: nat, state: RouteState, rows: seq<Row>, j: nat)
    requires Increasing(edges) && oneIn >= 1 && Picture(edges, state) && j < |edges|
    requires Halvings(edges, oneIn, state, rows) == 0
    ensures TailCount(edges, oneIn, state, rows, j) <= 10
  {
    TailIsBounded(edges, oneIn, state, rows, j);
    RoomIsWithin(state.buckets[j]);
  }

  function OverHalf(total: real): real {
    if total > 512.0 then total - 512.0 else 0.0
  }

  lemma {:induction false} HalvingsAreRare(edges: seq<real>, oneIn: nat, state: RouteState, rows: seq<Row>)
    requires edges != [] && oneIn >= 1 && Picture(edges, state)
    ensures 512.0 * Halvings(edges, oneIn, state, rows) as real <= |rows| as real + OverHalf(state.total)
    decreases |rows|
  {
    if rows != [] {
      var next := RateFor(edges, state, rows[0], oneIn).1;
      RateForIsPicture(edges, state, rows[0], oneIn);
      ObservedIsPicture(edges, state, DurationOf(rows[0]));
      HalvingsAreRare(edges, oneIn, next, rows[1..]);
      assert next.total == (state.total + 1.0) / if Halves(state) then 2.0 else 1.0;
      hide RateFor, Picture;
    }
  }

  /** Over any run of a route from its first request, what one finite bucket gives the tail rule is one
      percent of a picture to begin with and one percent of the requests after. */
  lemma TailOverARun(edges: seq<real>, oneIn: nat, rows: seq<Row>, j: nat)
    requires Increasing(edges) && oneIn >= 1 && j < |edges|
    ensures TailCount(edges, oneIn, EmptyRoute(edges), rows, j) as real <= 10.25 + 5.125 * (|rows| / 512) as real
  {
    var empty := EmptyRoute(edges);
    EmptyIsPicture(edges);
    TailIsBounded(edges, oneIn, empty, rows, j);
    HalvingsAreRare(edges, oneIn, empty, rows);
    hide TailCount, Halvings, Picture;
    var h := Halvings(edges, oneIn, empty, rows);
    assert 512.0 * h as real <= |rows| as real;
    AtMostWhole(h, |rows|);
  }

  lemma AtMostWhole(h: nat, n: nat)
    requires 512.0 * h as real <= n as real
    ensures h <= n / 512
  {
    assert (512 * h) as real == 512.0 * h as real;
    assert 512 * h <= n;
  }

  // ---------------------------------------------------------------- while the picture fills in

  lemma {:induction false} TotalCountsUp(edges: seq<real>, oneIn: nat, state: RouteState, rows: seq<Row>)
    requires edges != [] && oneIn >= 1 && Picture(edges, state)
    requires state.total + |rows| as real <= DISTRIBUTION_WINDOW
    ensures Picture(edges, RouteAfter(edges, oneIn, state, rows))
    ensures RouteAfter(edges, oneIn, state, rows).total == state.total + |rows| as real
    decreases |rows|
  {
    if rows != [] {
      RateForIsPicture(edges, state, rows[0], oneIn);
      ObservedIsPicture(edges, state, DurationOf(rows[0]));
      TotalCountsUp(edges, oneIn, RateFor(edges, state, rows[0], oneIn).1, rows[1..]);
    }
  }

  /** None of a route's first 99 requests within the last edge is kept by the tail rule. */
  lemma FirstNinetyNineAreNotTail(edges: seq<real>, oneIn: nat, rows: seq<Row>, row: Row)
    requires Increasing(edges) && oneIn >= 1 && |rows| < 99
    requires DurationOf(row) <= edges[|edges| - 1]
    ensures var state := RouteAfter(edges, oneIn, EmptyRoute(edges), rows);
            DurationOf(row) <= TailThreshold(edges, Observed(edges, state, DurationOf(row)))
  {
    var d := DurationOf(row);
    EmptyIsPicture(edges);
    TotalCountsUp(edges, oneIn, EmptyRoute(edges), rows);
    var state := RouteAfter(edges, oneIn, EmptyRoute(edges), rows);
    var seen := Observed(edges, state, d);
    ObservedIsPicture(edges, state, d);
    var j := BucketOf(edges, d);
    assert j < |edges|;
    assert seen.total <= 99.0 && seen.buckets[j] >= 1.0;
    if d > TailThreshold(edges, seen) {
      TailBucketIsLight(edges, seen, d);
    }
  }

  function CountBelow(edges: seq<real>, rows: seq<Row>, j: nat): (n: nat)
    ensures n <= |rows|
    ensures n == |rows| <==> forall i :: 0 <= i < |rows| ==> BucketOf(edges, DurationOf(rows[i])) < j
  {
    if rows == [] then 0
    else
      var rest := CountBelow(edges, rows[1..], j);
      assert forall i :: 1 <= i < |rows| ==> rows[i] == rows[1..][i - 1];
      assert forall i :: 0 <= i < |rows| - 1 ==> rows[1..][i] == rows[i + 1];
      (if BucketOf(edges, DurationOf(rows[0])) < j then 1 else 0) + rest
  }

  /** Until the first halving the picture counts the rows. */
  lemma {:induction false} PictureCounts(edges: seq<real>, oneIn: nat, state: RouteState, rows: seq<Row>, j: nat)
    requires edges != [] && oneIn >= 1 && Picture(edges, state) && j <= |edges|
    requires state.total + |rows| as real <= DISTRIBUTION_WINDOW
    ensures Below(RouteAfter(edges, oneIn, state, rows).buckets, j)
         == Below(state.buckets, j) + CountBelow(edges, rows, j) as real
    decreases |rows|
  {
    if rows != [] {
      RateForIsPicture(edges, state, rows[0], oneIn);
      OneRowCounts(edges, state, DurationOf(rows[0]), j);
      var next := RateFor(edges, state, rows[0], oneIn).1;
      ObservedIsPicture(edges, state, DurationOf(rows[0]));
      hide RateFor, Observed, Below, Picture;
      PictureCounts(edges, oneIn, next, rows[1..], j);
    }
  }

  lemma OneRowCounts(edges: seq<real>, state: RouteState, d: real, j: nat)
    requires |state.buckets| == |edges| + 1 && j <= |edges| && state.total + 1.0 <= DISTRIBUTION_WINDOW
    ensures Below(Observed(edges, state, d).buckets, j)
         == Below(state.buckets, j) + if BucketOf(edges, d) < j then 1.0 else 0.0
  {
    BelowGrown(state.buckets, Grown(edges, state, d).buckets, BucketOf(edges, d), j);
  }

  /** The hundredth can be, and exactly when every one before it was in a lower bucket. */
  lemma HundredthIsTailWhen(edges: seq<real>, oneIn: nat, rows: seq<Row>, row: Row)
    requires Increasing(edges) && oneIn >= 1 && |rows| == 99
    requires DurationOf(row) <= edges[|edges| - 1]
    ensures var state := RouteAfter(edges, oneIn, EmptyRoute(edges), rows);
            var d := DurationOf(row);
            d > TailThreshold(edges, Observed(edges, state, d)) <==>
              forall i :: 0 <= i < 99 ==> BucketOf(edges, DurationOf(rows[i])) < BucketOf(edges, d)
  {
    var d := DurationOf(row);
    var j := BucketOf(edges, d);
    var empty := EmptyRoute(edges);
    var state := RouteAfter(edges, oneIn, empty, rows);
    EmptyIsPicture(edges);
    TotalCountsUp(edges, oneIn, empty, rows);
    PictureCounts(edges, oneIn, empty, rows, j);
    BelowZeros(empty.buckets, j);
    HundredthSeen(edges, state, d, CountBelow(edges, rows, j));
    hide RouteAfter, TailThreshold, Observed, Below;
  }

  lemma HundredthSeen(edges: seq<real>, state: RouteState, d: real, below: nat)
    requires Increasing(edges) && Picture(edges, state) && state.total == 99.0
    requires d <= edges[|edges| - 1] && below <= 99
    requires Below(state.buckets, BucketOf(edges, d)) == below as real
    ensures d > TailThreshold(edges, Observed(edges, state, d)) <==> below == 99
  {
    var j := BucketOf(edges, d);
    var seen := Observed(edges, state, d);
    ObservedIsPicture(edges, state, d);
    OneRowCounts(edges, state, d, j);
    BeatsThresholdWhen(edges, seen, d);
    assert j < |edges|;
    assert j == 0 ==> Below(state.buckets, 0) == 0.0;
    hide Observed, TailThreshold;
  }
}
