/** Rolling stage timings and the interpolated percentile their snapshots report. */
module Perf {
  import opened Sorting
  import opened Wrappers

  // ---------------------------------------------------------------- the percentile

  function Mix(a: real, b: real, frac: real): real {
    a * (1.0 - frac) + b * frac
  }

  /** The value at a real index, interpolated between its neighbours. */
  function At(values: seq<real>, idx: real): real
    requires values != [] && 0.0 <= idx <= (|values| - 1) as real
  {
    var lo := idx.Floor;
    var hi := if lo + 1 < |values| - 1 then lo + 1 else |values| - 1;
    if lo == hi then values[lo] else Mix(values[lo], values[hi], idx - lo as real)
  }

  function Index(n: nat, percentile: real): (idx: real)
    requires n > 0
  {
    (n - 1) as real * (percentile / 100.0)
  }

  lemma IndexGrows(n: nat, p: real, q: real)
    requires n > 0 && 0.0 <= p <= q <= 100.0
    ensures 0.0 <= Index(n, p) <= Index(n, q) <= (n - 1) as real
  {
    var m, x, y := (n - 1) as real, p / 100.0, q / 100.0;
    assert 0.0 <= x <= y <= 1.0;
    assert m * (y - x) >= 0.0 && m * (1.0 - y) >= 0.0 && m * x >= 0.0;
  }

  function Percentile(values: seq<real>, percentile: real): (p: real)
    requires 0.0 <= percentile <= 100.0
    ensures values == [] ==> p == 0.0
  {
    if values == [] then 0.0
    else
      IndexGrows(|values|, percentile, percentile);
      At(values, Index(|values|, percentile))
  }

  lemma ProductSign(x: real, y: real)
    requires x >= 0.0 && y >= 0.0
    ensures x * y >= 0.0
  {
  }

  lemma MixBetween(a: real, b: real, frac: real)
    requires a <= b && 0.0 <= frac <= 1.0
    ensures a <= Mix(a, b, frac) <= b
  {
    ProductSign(b - a, frac);
    ProductSign(b - a, 1.0 - frac);
    assert Mix(a, b, frac) == a + (b - a) * frac == b - (b - a) * (1.0 - frac);
  }

  lemma MixGrows(a: real, b: real, f: real, g: real)
    requires a <= b && f <= g
    ensures Mix(a, b, f) <= Mix(a, b, g)
  {
    assert Mix(a, b, g) - Mix(a, b, f) == (b - a) * (g - f);
  }

  lemma AtBetweenNeighbours(values: seq<real>, idx: real)
    requires values != [] && Ascending(values) && 0.0 <= idx <= (|values| - 1) as real
    ensures values[idx.Floor] <= At(values, idx)
    ensures idx.Floor + 1 < |values| ==> At(values, idx) <= values[idx.Floor + 1]
    ensures At(values, idx) <= values[|values| - 1]
  {
    var lo := idx.Floor;
    if lo + 1 < |values| {
      MixBetween(values[lo], values[lo + 1], idx - lo as real);
    }
    hide Mix;
  }

  lemma AtGrows(values: seq<real>, x: real, y: real)
    requires values != [] && Ascending(values) && 0.0 <= x <= y <= (|values| - 1) as real
    ensures At(values, x) <= At(values, y)
  {
    hide Mix;
    if x.Floor < y.Floor {
      AtBetweenNeighbours(values, x);
      AtBetweenNeighbours(values, y);
      assert values[x.Floor + 1] <= values[y.Floor];
    } else if x.Floor + 1 < |values| {
      MixGrows(values[x.Floor], values[x.Floor + 1], x - x.Floor as real, y - x.Floor as real);
    }
  }

  /** The percentile of a sorted list grows with p, and stays between the minimum and the maximum. */
  lemma PercentileIsMonotone(values: seq<real>, p: real, q: real)
    requires values != [] && Ascending(values) && 0.0 <= p <= q <= 100.0
    ensures values[0] <= Percentile(values, p) <= Percentile(values, q) <= values[|values| - 1]
  {
    hide At, Index;
    IndexGrows(|values|, p, q);
    IndexGrows(|values|, p, p);
    IndexGrows(|values|, q, q);
    AtGrows(values, Index(|values|, p), Index(|values|, q));
    AtBetweenNeighbours(values, Index(|values|, p));
    AtBetweenNeighbours(values, Index(|values|, q));
  }

  /** It passes through every value, at the percentile of its rank. */
  lemma PercentileHitsRanks(values: seq<real>, k: nat)
    requires k < |values| && |values| > 1
    ensures var p := 100.0 * (k as real / (|values| - 1) as real);
            0.0 <= p <= 100.0 && Percentile(values, p) == values[k]
  {
    var m, share := (|values| - 1) as real, k as real / (|values| - 1) as real;
    assert share * m == k as real;
    ShareBetween(k, |values| - 1, share);
    assert Index(|values|, 100.0 * share) == k as real;
    assert (k as real).Floor == k;
    assert At(values, k as real) == values[k] by {
      if k + 1 < |values| {
        assert Mix(values[k], values[k + 1], 0.0) == values[k];
      }
    }
  }

  /** Between two ranks it runs straight from the one value to the next. */
  lemma PercentileIsLinear(values: seq<real>, p: real)
    requires values != [] && 0.0 <= p <= 100.0
    ensures var idx := (|values| - 1) as real * (p / 100.0);
            var k := idx.Floor;
            && 0 <= k < |values| && 0.0 <= idx - k as real < 1.0
            && Percentile(values, p) ==
                 if k + 1 < |values| then values[k] + (idx - k as real) * (values[k + 1] - values[k]) else values[k]
  {
    IndexGrows(|values|, p, p);
    var idx := Index(|values|, p);
    var k := idx.Floor;
    if k + 1 < |values| {
      MixIsLinear(values[k], values[k + 1], idx - k as real);
    }
    hide Mix;
  }

  lemma MixIsLinear(a: real, b: real, frac: real)
    ensures Mix(a, b, frac) == a + frac * (b - a)
  {
  }

  lemma ShareBetween(k: nat, m: nat, share: real)
    requires k <= m && m > 0 && share * m as real == k as real
    ensures 0.0 <= share <= 1.0
  {
    assert share > 1.0 ==> share * m as real > m as real;
    assert share < 0.0 ==> share * m as real < 0.0;
  }

  // ---------------------------------------------------------------- the registry

  datatype Observation = Observation(stage: string, duration: real)

  function Clipped(duration: real): real {
    if duration >= 0.0 then duration else 0.0
  }

  /** All durations recorded for a stage, oldest first. */
  function Of(history: seq<Observation>, stage: string): seq<real> {
    if history == [] then []
    else
      var o := history[|history| - 1];
      Of(history[..|history| - 1], stage) + if o.stage == stage then [Clipped(o.duration)] else []
  }

  function Newest(durations: seq<real>, size: nat): seq<real> {
    if |durations| <= size then durations else durations[|durations| - size..]
  }

  function Sum(durations: seq<real>): real {
    if durations == [] then 0.0 else Sum(durations[..|durations| - 1]) + durations[|durations| - 1]
  }

  /** The three figures kept of a stage's durations: the newest of them, their sum, their number. */
  ghost predicate Tracks(durations: seq<real>, size: nat, window: seq<real>, total: real, count: nat) {
    window == Newest(durations, size) && total == Sum(durations) && count == |durations| > 0
  }

  /** A stage is in all three dictionaries or in none, which is when nothing was recorded for it. */
  ghost predicate Recorded(durations: seq<real>, size: nat, windows: map<string, seq<real>>, totals: map<string, real>,
                           counts: map<string, nat>, stage: string) {
    && (stage in windows <==> stage in totals) && (stage in windows <==> stage in counts)
    && if stage in windows then Tracks(durations, size, windows[stage], totals[stage], counts[stage])
       else durations == []
  }

  lemma OfNext(history: seq<Observation>, o: Observation, stage: string)
    ensures Of(history + [o], stage) == Of(history, stage) + if o.stage == stage then [Clipped(o.duration)] else []
  {
    assert (history + [o])[..|history|] == history;
  }

  lemma TracksNext(durations: seq<real>, d: real, size: nat, window: seq<real>, total: real, count: nat)
    requires size > 0
    requires Tracks(durations, size, window, total, count)
             || (durations == [] && window == [] && total == 0.0 && count == 0)
    ensures var longer := window + [d];
            Tracks(durations + [d], size, if |longer| > size then longer[1..] else longer, total + d, count + 1)
  {
    assert (durations + [d])[..|durations|] == durations;
  }

  lemma RecordedNext(durations: seq<real>, size: nat, windows: map<string, seq<real>>, totals: map<string, real>,
                     counts: map<string, nat>, stage: string, d: real, other: string)
    requires size > 0 && Recorded(durations, size, windows, totals, counts, other)
    ensures var longer := (if stage in windows then windows[stage] else []) + [d];
            Recorded(durations + if stage == other then [d] else [], size,
                     windows[stage := if |longer| > size then longer[1..] else longer],
                     totals[stage := (if stage in totals then totals[stage] else 0.0) + d],
                     counts[stage := (if stage in counts then counts[stage] else 0) + 1], other)
  {
    if stage == other {
      TracksNext(durations, d, size, if stage in windows then windows[stage] else [],
                 if stage in totals then totals[stage] else 0.0, if stage in counts then counts[stage] else 0);
    } else {
      assert durations + [] == durations;
    }
    hide Tracks;
  }

  /** What a snapshot reports of one stage; rounding to three digits is the caller's `round`. */
  datatype Stage = Stage(count: nat, mean: real, p50: real, p95: real, max: real, windowCount: nat)

  class PerfRegistry {
    const windowSize: nat
    var windows: map<string, seq<real>>
    var totals: map<string, real>
    var counts: map<string, nat>
    ghost var history: seq<Observation>

    ghost predicate Valid()
      reads this
    {
      windowSize >= 10 && forall stage :: Recorded(Of(history, stage), windowSize, windows, totals, counts, stage)
    }

    constructor (size: int)
      ensures Valid() && history == [] && windowSize == if size >= 10 then size else 10
    {
      windowSize := if size >= 10 then size else 10;
      windows, totals, counts := map[], map[], map[];
      history := [];
    }

    method ObserveMs(stage: string, duration: real)
      requires Valid()
      modifies this
      ensures Valid() && history == old(history) + [Observation(stage, duration)]
      ensures Of(history, stage) == old(Of(history, stage)) + [if duration > 0.0 then duration else 0.0]
      ensures forall other :: other != stage ==> Of(history, other) == old(Of(history, other))
    {
      forall other: string
        ensures Of(history + [Observation(stage, duration)], other) ==
                Of(history, other) + if other == stage then [if duration > 0.0 then duration else 0.0] else []
      {
        OfNext(history, Observation(stage, duration), other);
      }
      hide Of, Recorded;
      var d := Clipped(duration);
      var window := (if stage in windows then windows[stage] else []) + [d];
      if |window| > windowSize {
        window := window[1..];
      }
      var total := (if stage in totals then totals[stage] else 0.0) + d;
      var count := (if stage in counts then counts[stage] else 0) + 1;
      forall other: string
        ensures Recorded(Of(history + [Observation(stage, duration)], other), windowSize,
                         windows[stage := window], totals[stage := total], counts[stage := count], other)
      {
        OfNext(history, Observation(stage, duration), other);
        assert Recorded(Of(history, other), windowSize, windows, totals, counts, other);
        RecordedNext(Of(history, other), windowSize, windows, totals, counts, stage, d, other);
      }
      windows, totals, counts := windows[stage := window], totals[stage := total], counts[stage := count];
      history := history + [Observation(stage, duration)];
    }

    /** The percentiles are taken over the window, the mean over everything ever recorded. */
    method Snapshot(stage: string, round: real -> real) returns (report: Option<Stage>)
      requires Valid() && forall x, y :: x <= y ==> round(x) <= round(y)
      ensures report.Some? <==> Of(history, stage) != []
      ensures report.Some? ==>
                var r, all := report.value, Of(history, stage);
                var window := Newest(all, windowSize);
                && |window| == (if |all| < windowSize then |all| else windowSize) && window == all[|all| - |window|..]
                && r.count == |all| && r.mean == round(Sum(all) / |all| as real) && r.windowCount == |window|
                && r.p50 == round(Percentile(Sorted(window), 50.0)) && r.p95 == round(Percentile(Sorted(window), 95.0))
                && r.p50 <= r.p95 <= r.max && (exists d :: d in window && r.max == round(d))
                && forall d :: d in window ==> round(d) <= r.max
    {
      hide Percentile, Sorted, Of, Sum;
      assert Recorded(Of(history, stage), windowSize, windows, totals, counts, stage);
      if stage !in windows {
        return None;
      }
      var window := windows[stage];
      var ordered := Sorted(window);
      PercentileIsMonotone(ordered, 50.0, 95.0);
      var largest := ordered[|ordered| - 1];
      forall d | d in window
        ensures d <= largest
      {
        assert d in multiset(ordered);
      }
      assert largest in multiset(ordered);
      report := Some(Stage(counts[stage], round(totals[stage] / counts[stage] as real),
                           round(Percentile(ordered, 50.0)), round(Percentile(ordered, 95.0)),
                           round(largest), |ordered|));
    }
  }
}
