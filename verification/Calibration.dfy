/** The threshold sweep of the calibration report, and why its finite list of candidates is enough. */
module Calibration {
  import opened Collections
  import opened Sorting
  import opened Wrappers

  type Scores = seq<real>

  function AtLeast(scores: Scores, t: real): (n: nat)
    ensures n <= |scores|
    decreases |scores|
  {
    if scores == [] then 0
    else AtLeast(scores[..|scores| - 1], t) + (if scores[|scores| - 1] >= t then 1 else 0)
  }

  /** False accepts: impostor scores at or above the threshold. */
  function Far(impostor: Scores, t: real): real
    requires impostor != []
  {
    AtLeast(impostor, t) as real / |impostor| as real
  }

  /** False rejects: genuine scores below it. */
  function Frr(genuine: Scores, t: real): real
    requires genuine != []
  {
    (|genuine| - AtLeast(genuine, t)) as real / |genuine| as real
  }

  predicate Accepted(scores: Scores, t: real, i: int) { 0 <= i < |scores| && scores[i] >= t }
  predicate Refused(scores: Scores, t: real, i: int) { 0 <= i < |scores| && scores[i] < t }

  lemma {:induction false} AtLeastCounts(scores: Scores, t: real)
    ensures AtLeast(scores, t) == CountIf(|scores|, i => Accepted(scores, t, i))
    ensures |scores| - AtLeast(scores, t) == CountIf(|scores|, i => Refused(scores, t, i))
    decreases |scores|
  {
    hide CountIf;
    CountNext(0, i => Accepted(scores, t, i));
    CountNext(0, i => Refused(scores, t, i));
    if scores != [] {
      var n := |scores| - 1;
      var rest := scores[..n];
      AtLeastCounts(rest, t);
      CountSame(n, i => Accepted(scores, t, i), i => Accepted(rest, t, i));
      CountSame(n, i => Refused(scores, t, i), i => Refused(rest, t, i));
      CountNext(n, i => Accepted(scores, t, i));
      CountNext(n, i => Refused(scores, t, i));
    }
  }

  /** The rates are shares: of the impostors who score at least the threshold, and of the genuine faces who
      score below it. */
  lemma RatesAreShares(genuine: Scores, impostor: Scores, t: real)
    requires genuine != [] && impostor != []
    ensures Far(impostor, t) == |set i | 0 <= i < |impostor| && impostor[i] >= t| as real / |impostor| as real
    ensures Frr(genuine, t) == |set i | 0 <= i < |genuine| && genuine[i] < t| as real / |genuine| as real
  {
    AtLeastCounts(impostor, t);
    AtLeastCounts(genuine, t);
    hide AtLeast;
    CountIs(|impostor|, i => Accepted(impostor, t, i), set i | 0 <= i < |impostor| && impostor[i] >= t);
    CountIs(|genuine|, i => Refused(genuine, t, i), set i | 0 <= i < |genuine| && genuine[i] < t);
  }

  datatype Point = Point(threshold: real, far: real, frr: real)

  predicate InRange(t: real) { -1.0 <= t <= 1.0 }

  /** The two score lists of a calibration; cosine similarities are clipped to [-1, 1]. */
  predicate ValidScores(genuine: Scores, impostor: Scores) {
    && genuine != [] && impostor != []
    && (forall i :: 0 <= i < |genuine| ==> InRange(genuine[i]))
    && (forall i :: 0 <= i < |impostor| ==> InRange(impostor[i]))
  }

  function PointAt(genuine: Scores, impostor: Scores, t: real): Point
    requires genuine != [] && impostor != []
  {
    Point(t, Far(impostor, t), Frr(genuine, t))
  }

  // ---------------------------------------------------------------- candidates

  predicate Increasing(ts: seq<real>) {
    forall i, j :: 0 <= i < j < |ts| ==> ts[i] < ts[j]
  }

  /** A sorted list without its repetitions. */
  function Unique(sorted: seq<real>): (ts: seq<real>)
    requires Ascending(sorted)
    ensures Increasing(ts)
    ensures forall y :: y in ts <==> y in sorted
    decreases |sorted|
  {
    if sorted == [] then []
    else
      var rest := Unique(sorted[1..]);
      assert sorted == [sorted[0]] + sorted[1..];
      if |sorted| > 1 && sorted[1] == sorted[0] then assert sorted[0] in sorted[1..]; rest
      else
        ConsIncreasing(sorted[0], rest, sorted[1..]);
        [sorted[0]] + rest
  }

  lemma ConsIncreasing(first: real, rest: seq<real>, sorted: seq<real>)
    requires Increasing(rest) && Ascending(sorted) && (sorted != [] ==> first < sorted[0])
    requires forall y :: y in rest ==> y in sorted
    ensures Increasing([first] + rest)
  {
    forall i | 0 <= i < |rest|
      ensures first < rest[i]
    {
      assert rest[i] in rest && rest[i] in sorted;
      var k :| 0 <= k < |sorted| && sorted[k] == rest[i];
    }
  }

  /** `sorted(set(scores))`. */
  function SortedUnique(scores: seq<real>): (ts: seq<real>)
    ensures Increasing(ts)
    ensures forall y :: y in ts <==> y in scores
  {
    var sorted := Sorted(scores);
    assert forall y :: y in sorted <==> y in multiset(sorted);
    assert forall y :: y in scores <==> y in multiset(scores);
    Unique(sorted)
  }

  function Candidates(genuine: Scores, impostor: Scores): (ts: seq<real>)
    ensures Increasing(ts)
    ensures forall y :: y in ts <==> y in genuine || y in impostor || y == -1.0 || y == 1.0
  {
    SortedUnique(genuine + impostor + [-1.0, 1.0])
  }

  // ---------------------------------------------------------------- constant between candidates

  lemma {:induction false} NoScoreBetween(scores: Scores, t: real, u: real)
    requires forall i :: 0 <= i < |scores| ==> (scores[i] >= t <==> scores[i] >= u)
    ensures AtLeast(scores, t) == AtLeast(scores, u)
    decreases |scores|
  {
    if scores != [] {
      NoScoreBetween(scores[..|scores| - 1], t, u);
    }
  }

  lemma {:induction false} NextCandidate(ts: seq<real>, t: real) returns (k: nat)
    requires ts != [] && Increasing(ts) && t <= ts[|ts| - 1]
    ensures k < |ts| && t <= ts[k] && forall j :: 0 <= j < k ==> ts[j] < t
    decreases |ts|
  {
    k := 0;
    if ts[0] < t {
      var rest := NextCandidate(ts[1..], t);
      k := rest + 1;
    }
  }

  /** Every real threshold in [-1, 1] does exactly what the next candidate does. */
  lemma EveryThresholdIsACandidate(genuine: Scores, impostor: Scores, t: real) returns (c: real)
    requires ValidScores(genuine, impostor) && InRange(t)
    ensures c in Candidates(genuine, impostor) && t <= c && InRange(c)
    ensures Far(impostor, c) == Far(impostor, t) && Frr(genuine, c) == Frr(genuine, t)
  {
    var ts := Candidates(genuine, impostor);
    LastCandidate(genuine, impostor);
    var k := NextCandidate(ts, t);
    c := ts[k];
    forall y | y in ts
      ensures y >= t <==> y >= c
    {
      var j :| 0 <= j < |ts| && ts[j] == y;
    }
    forall i | 0 <= i < |genuine|
      ensures genuine[i] >= t <==> genuine[i] >= c
    {
      assert genuine[i] in ts;
    }
    forall i | 0 <= i < |impostor|
      ensures impostor[i] >= t <==> impostor[i] >= c
    {
      assert impostor[i] in ts;
    }
    NoScoreBetween(genuine, t, c);
    NoScoreBetween(impostor, t, c);
  }

  lemma LastCandidate(genuine: Scores, impostor: Scores)
    requires ValidScores(genuine, impostor)
    ensures var ts := Candidates(genuine, impostor);
            ts != [] && ts[|ts| - 1] == 1.0 && forall y :: y in ts ==> InRange(y)
  {
    var ts := Candidates(genuine, impostor);
    assert 1.0 in ts;
    var k :| 0 <= k < |ts| && ts[k] == 1.0;
    assert ts[|ts| - 1] in ts;
  }

  // ---------------------------------------------------------------- monotone in the threshold

  lemma {:induction false} FewerAtLeast(scores: Scores, t: real, u: real)
    requires t <= u
    ensures AtLeast(scores, u) <= AtLeast(scores, t)
    decreases |scores|
  {
    if scores != [] {
      FewerAtLeast(scores[..|scores| - 1], t, u);
    }
  }

  /** Raising the threshold never accepts more impostors and never rejects fewer genuine faces. */
  lemma RatesAreMonotone(genuine: Scores, impostor: Scores, t: real, u: real)
    requires genuine != [] && impostor != [] && t <= u
    ensures Far(impostor, u) <= Far(impostor, t) && Frr(genuine, t) <= Frr(genuine, u)
  {
    FewerAtLeast(genuine, t, u);
    FewerAtLeast(impostor, t, u);
    QuotientMonotone(AtLeast(impostor, u), AtLeast(impostor, t), |impostor|);
    QuotientMonotone(|genuine| - AtLeast(genuine, t), |genuine| - AtLeast(genuine, u), |genuine|);
  }

  lemma QuotientMonotone(a: int, b: int, n: nat)
    requires a <= b && n > 0
    ensures a as real / n as real <= b as real / n as real
  {
  }

  /** The target is attainable in [-1, 1] exactly when the threshold 1 attains it. */
  lemma AttainableIff(genuine: Scores, impostor: Scores, target: real)
    requires ValidScores(genuine, impostor)
    ensures (exists t :: InRange(t) && Far(impostor, t) <= target) <==> Far(impostor, 1.0) <= target
  {
    if t :| InRange(t) && Far(impostor, t) <= target {
      RatesAreMonotone(genuine, impostor, t, 1.0);
    }
    assert InRange(1.0);
  }

  // ---------------------------------------------------------------- the recommendation

  predicate BetterForTarget(p: Point, q: Point) {
    p.frr < q.frr || (p.frr == q.frr && p.threshold >= q.threshold)
  }

  predicate LessFar(p: Point, q: Point) {
    p.far < q.far || (p.far == q.far && p.frr <= q.frr)
  }

  /** How far the two rates are apart. */
  function Gap(p: Point): (gap: real)
    ensures gap >= 0.0 && (gap == p.far - p.frr || gap == p.frr - p.far)
  {
    if p.far >= p.frr then p.far - p.frr else p.frr - p.far
  }

  /** With an attainable target: it is met with the least FRR any threshold in [-1, 1] meeting it has,
      by the largest such threshold. Otherwise: the least FAR of any, then the least FRR, at the
      smallest candidate that has both. */
  ghost predicate Recommended(genuine: Scores, impostor: Scores, target: real, p: Point)
    requires ValidScores(genuine, impostor)
  {
    && InRange(p.threshold) && p == PointAt(genuine, impostor, p.threshold)
    && if Far(impostor, 1.0) <= target then
         && p.far <= target
         && forall t :: InRange(t) && Far(impostor, t) <= target ==> BetterForTarget(p, PointAt(genuine, impostor, t))
       else
         && (forall t :: InRange(t) ==> Far(impostor, t) > target && LessFar(p, PointAt(genuine, impostor, t)))
         && forall c :: c in Candidates(genuine, impostor) && LessFar(PointAt(genuine, impostor, c), p) ==>
              p.threshold <= c
  }

  /** No threshold in [-1, 1] balances the two rates better. */
  ghost predicate BestBalanced(genuine: Scores, impostor: Scores, p: Point)
    requires ValidScores(genuine, impostor)
  {
    && InRange(p.threshold) && p == PointAt(genuine, impostor, p.threshold)
    && forall t :: InRange(t) ==> Gap(p) <= Gap(PointAt(genuine, impostor, t))
  }

  ghost predicate Curve(genuine: Scores, impostor: Scores, points: seq<Point>)
    requires genuine != [] && impostor != []
  {
    var ts := Candidates(genuine, impostor);
    && |points| == |ts|
    && forall k :: 0 <= k < |ts| ==> points[k] == Point(ts[k], Far(impostor, ts[k]), Frr(genuine, ts[k]))
  }

  /** `min(points, key=(far, frr))`: the first of the least. */
  method LeastFar(points: seq<Point>) returns (best: Point)
    requires points != []
    ensures exists k :: 0 <= k < |points| && points[k] == best && forall j :: 0 <= j < k ==> !LessFar(points[j], best)
    ensures forall j :: 0 <= j < |points| ==> LessFar(best, points[j])
  {
    best := points[0];
    ghost var k := 0;
    for i := 1 to |points|
      invariant 0 <= k < i && points[k] == best
      invariant forall j :: 0 <= j < k ==> !LessFar(points[j], best)
      invariant forall j :: 0 <= j < i ==> LessFar(best, points[j])
    {
      if points[i].far < best.far || (points[i].far == best.far && points[i].frr < best.frr) {
        best, k := points[i], i;
      }
    }
  }

  lemma CandidatesDecide(genuine: Scores, impostor: Scores, points: seq<Point>, t: real) returns (k: nat)
    requires ValidScores(genuine, impostor) && Curve(genuine, impostor, points) && InRange(t)
    ensures k < |points| && points[k].threshold >= t
    ensures points[k].far == Far(impostor, t) && points[k].frr == Frr(genuine, t)
  {
    hide Candidates, Far, Frr;
    var c := EveryThresholdIsACandidate(genuine, impostor, t);
    k :| 0 <= k < |points| && Candidates(genuine, impostor)[k] == c;
  }

  method RunSweep(genuine: Scores, impostor: Scores, target: real)
    returns (points: seq<Point>, best: Point, eer: Point)
    requires ValidScores(genuine, impostor)
    ensures Curve(genuine, impostor, points)
    ensures forall i, j :: 0 <= i < j < |points| ==> points[i].threshold < points[j].threshold
    ensures Recommended(genuine, impostor, target, best)
    ensures BestBalanced(genuine, impostor, eer)
  {
    hide Far, Frr, AtLeast;
    var thresholds := Candidates(genuine, impostor);
    LastCandidate(genuine, impostor);
    hide Candidates;
    var forTarget: Option<Point> := None;
    points := [];
    eer := PointAt(genuine, impostor, thresholds[0]);
    for i := 0 to |thresholds|
      invariant |points| == i && forall k :: 0 <= k < i ==> points[k] == PointAt(genuine, impostor, thresholds[k])
      invariant forTarget.None? ==> forall k :: 0 <= k < i ==> points[k].far > target
      invariant forTarget.Some? ==>
                  && forTarget.value in points && forTarget.value.far <= target
                  && forall k :: 0 <= k < i && points[k].far <= target ==> BetterForTarget(forTarget.value, points[k])
      invariant i > 0 ==> eer in points && forall k :: 0 <= k < i ==> Gap(eer) <= Gap(points[k])
    {
      var point := PointAt(genuine, impostor, thresholds[i]);
      points := points + [point];
      if point.far <= target {
        if forTarget.None? {
          forTarget := Some(point);
        } else if point.frr < forTarget.value.frr {
          forTarget := Some(point);
        } else if point.frr == forTarget.value.frr && point.threshold > forTarget.value.threshold {
          forTarget := Some(point);
        }
      }
      if i == 0 || Gap(point) < Gap(eer) {
        eer := point;
      }
    }
    BalanceIsOptimal(genuine, impostor, points, eer);
    if forTarget.Some? {
      best := forTarget.value;
      MetIsOptimal(genuine, impostor, target, points, best);
    } else {
      best := LeastFar(points);
      var k :| 0 <= k < |points| && points[k] == best && forall j :: 0 <= j < k ==> !LessFar(points[j], best);
      UnmetIsOptimal(genuine, impostor, target, points, best, k);
    }
  }

  lemma IsOnCurve(genuine: Scores, impostor: Scores, points: seq<Point>, p: Point)
    requires ValidScores(genuine, impostor) && Curve(genuine, impostor, points) && p in points
    ensures InRange(p.threshold) && p == PointAt(genuine, impostor, p.threshold)
  {
    LastCandidate(genuine, impostor);
    hide Far, Frr, Candidates;
    var k :| 0 <= k < |points| && points[k] == p;
    assert Candidates(genuine, impostor)[k] in Candidates(genuine, impostor);
  }

  lemma BalanceIsOptimal(genuine: Scores, impostor: Scores, points: seq<Point>, eer: Point)
    requires ValidScores(genuine, impostor) && Curve(genuine, impostor, points) && eer in points
    requires forall k :: 0 <= k < |points| ==> Gap(eer) <= Gap(points[k])
    ensures BestBalanced(genuine, impostor, eer)
  {
    hide Far, Frr, Candidates;
    IsOnCurve(genuine, impostor, points, eer);
    forall t | InRange(t)
      ensures Gap(eer) <= Gap(PointAt(genuine, impostor, t))
    {
      var k := CandidatesDecide(genuine, impostor, points, t);
    }
  }

  lemma MetIsOptimal(genuine: Scores, impostor: Scores, target: real, points: seq<Point>, best: Point)
    requires ValidScores(genuine, impostor) && Curve(genuine, impostor, points) && best in points && best.far <= target
    requires forall k :: 0 <= k < |points| && points[k].far <= target ==> BetterForTarget(best, points[k])
    ensures Recommended(genuine, impostor, target, best)
  {
    hide Far, Frr, Candidates;
    IsOnCurve(genuine, impostor, points, best);
    AttainableIff(genuine, impostor, target);
    forall t | InRange(t) && Far(impostor, t) <= target
      ensures BetterForTarget(best, PointAt(genuine, impostor, t))
    {
      var k := CandidatesDecide(genuine, impostor, points, t);
    }
  }

  lemma UnmetIsOptimal(genuine: Scores, impostor: Scores, target: real, points: seq<Point>, best: Point, k: nat)
    requires ValidScores(genuine, impostor) && Curve(genuine, impostor, points)
    requires forall j :: 0 <= j < |points| ==> points[j].far > target && LessFar(best, points[j])
    requires k < |points| && points[k] == best && forall j :: 0 <= j < k ==> !LessFar(points[j], best)
    ensures Recommended(genuine, impostor, target, best)
  {
    hide Far, Frr, Candidates;
    IsOnCurve(genuine, impostor, points, best);
    var ts := Candidates(genuine, impostor);
    forall t | InRange(t)
      ensures Far(impostor, t) > target && LessFar(best, PointAt(genuine, impostor, t))
    {
      var j := CandidatesDecide(genuine, impostor, points, t);
    }
    assert InRange(1.0);
    forall c | c in ts && LessFar(PointAt(genuine, impostor, c), best)
      ensures best.threshold <= c
    {
      var j :| 0 <= j < |ts| && ts[j] == c;
      assert points[j] == PointAt(genuine, impostor, c);
    }
  }

  // ---------------------------------------------------------------- thresholds beyond the range

  lemma {:induction false} AllOrNoneAtLeast(scores: Scores, t: real)
    requires forall i :: 0 <= i < |scores| ==> InRange(scores[i])
    ensures t > 1.0 ==> AtLeast(scores, t) == 0
    ensures t <= -1.0 ==> AtLeast(scores, t) == |scores|
    decreases |scores|
  {
    if scores != [] {
      assert InRange(scores[|scores| - 1]);
      AllOrNoneAtLeast(scores[..|scores| - 1], t);
    }
  }

  /** Above 1 nobody is accepted, and from -1 down everybody is. */
  lemma BeyondTheRange(genuine: Scores, impostor: Scores, t: real)
    requires ValidScores(genuine, impostor)
    ensures t > 1.0 ==> Far(impostor, t) == 0.0 && Frr(genuine, t) == 1.0
    ensures t <= -1.0 ==> Far(impostor, t) == 1.0 && Frr(genuine, t) == 0.0
  {
    hide AtLeast;
    AllOrNoneAtLeast(genuine, t);
    AllOrNoneAtLeast(impostor, t);
    ExtremeShares(|genuine|);
    ExtremeShares(|impostor|);
  }

  lemma ExtremeShares(n: nat)
    requires n > 0
    ensures 0 as real / n as real == 0.0 && n as real / n as real == 1.0
  {
  }

  lemma ShareBetween(a: nat, n: nat)
    requires a <= n && n > 0
    ensures 0.0 <= a as real / n as real <= 1.0
  {
    QuotientMonotone(0, a, n);
    QuotientMonotone(a, n, n);
  }

  lemma RatesAreBounded(genuine: Scores, impostor: Scores, t: real)
    requires ValidScores(genuine, impostor)
    ensures 0.0 <= Far(impostor, t) <= 1.0 && 0.0 <= Frr(genuine, t) <= 1.0
  {
    hide AtLeast;
    ShareBetween(AtLeast(impostor, t), |impostor|);
    ShareBetween(|genuine| - AtLeast(genuine, t), |genuine|);
  }

  /** The sweep misses a target that some real threshold meets exactly when the target is at least zero and
      below the FAR of threshold 1, which is the share of impostors who score exactly 1. */
  lemma MissedOutOfRangeIff(genuine: Scores, impostor: Scores, target: real)
    requires ValidScores(genuine, impostor)
    ensures (exists t :: Far(impostor, t) <= target) && !(exists t :: InRange(t) && Far(impostor, t) <= target)
            <==> 0.0 <= target < Far(impostor, 1.0)
  {
    AttainableIff(genuine, impostor, target);
    BeyondTheRange(genuine, impostor, 2.0);
    if t :| Far(impostor, t) <= target {
      RatesAreBounded(genuine, impostor, t);
    }
  }

  /** In every other case the recommendation is as good as any real threshold: it meets the target if one
      does, with no larger FRR. */
  lemma RecommendedBeatsEveryThreshold(genuine: Scores, impostor: Scores, target: real, p: Point, t: real)
    requires ValidScores(genuine, impostor) && Recommended(genuine, impostor, target, p)
    requires !(0.0 <= target < Far(impostor, 1.0)) && Far(impostor, t) <= target
    ensures p.far <= target && p.frr <= Frr(genuine, t)
  {
    hide Far, Frr, Candidates;
    RatesAreBounded(genuine, impostor, t);
    RatesAreBounded(genuine, impostor, p.threshold);
    BeyondTheRange(genuine, impostor, t);
    BeyondTheRange(genuine, impostor, -1.0);
    var u := if t < -1.0 then -1.0 else if t > 1.0 then 1.0 else t;
    RatesAreMonotone(genuine, impostor, u, 1.0);
    assert InRange(u) && Far(impostor, u) <= target;
  }

  /** The case is met by a single impostor who scores exactly 1. */
  lemma TargetCanBeOutOfRange()
    ensures ValidScores([1.0], [1.0])
    ensures 0.0 <= 0.01 < Far([1.0], 1.0) && Far([1.0], 1.5) == 0.0
  {
    assert [1.0][..0] == [];
  }
}
