/** The chart series of the admin API: events of an interval counted into hourly or daily buckets. Times
    are microseconds since the epoch, in UTC. */
module Series {
  import opened Collections
  import opened Wrappers

  const HOUR := 3_600_000_000
  const DAY := 24 * HOUR

  datatype Row = Row(ingestedAt: int, outcome: string, outbox: Option<int>, dlq: Option<int>)

  datatype Outcome = Allow | Deny | Error

  /** Anything that is not a known outcome counts as an error. */
  function Classify(outcome: string): Outcome {
    if outcome == "allow" then Allow else if outcome == "deny" then Deny else Error
  }

  datatype Tally = Tally(events: nat, allow: nat, deny: nat, error: nat,
    outboxSum: int, outboxCount: nat, dlqSum: int, dlqCount: nat) {
    function Plus(t: Tally): Tally {
      Tally(events + t.events, allow + t.allow, deny + t.deny, error + t.error,
            outboxSum + t.outboxSum, outboxCount + t.outboxCount, dlqSum + t.dlqSum, dlqCount + t.dlqCount)
    }
  }

  const NOTHING := Tally(0, 0, 0, 0, 0, 0, 0, 0)

  function One(row: Row): Tally {
    var o := Classify(row.outcome);
    Tally(1, if o == Allow then 1 else 0, if o == Deny then 1 else 0, if o == Error then 1 else 0,
          if row.outbox.Some? then row.outbox.value else 0, if row.outbox.Some? then 1 else 0,
          if row.dlq.Some? then row.dlq.value else 0, if row.dlq.Some? then 1 else 0)
  }

  datatype Bucket = Hour | Day {
    /** In microseconds. */
    function Size(): (size: int)
      ensures Hour? ==> size == 3_600_000_000
      ensures Day? ==> size == 86_400_000_000
    {
      if Hour? then HOUR else DAY
    }

    /** The number of the bucket a time falls in; the bucket starts at its number times the size. */
    function Of(at: int): (number: int)
      ensures number * Size() <= at < (number + 1) * Size()
    {
      if Hour? then at / HOUR else at / DAY
    }
  }

  /** The buckets of an interval of at most 48 hours are hours, otherwise days. */
  function Choose(start: int, end: int): (b: Bucket)
    ensures b == Hour <==> end - start <= 172_800_000_000
  {
    if end - start <= 48 * HOUR then Hour else Day
  }

  /** Everything the rows of one bucket add up to, and what all of them do. */
  function TallyOf(rows: seq<Row>, b: Bucket, key: int): Tally
  {
    if rows == [] then NOTHING
    else
      var rest, row := TallyOf(rows[..|rows| - 1], b, key), rows[|rows| - 1];
      if b.Of(row.ingestedAt) == key then rest.Plus(One(row)) else rest
  }

  function TallyAll(rows: seq<Row>): Tally {
    if rows == [] then NOTHING else TallyAll(rows[..|rows| - 1]).Plus(One(rows[|rows| - 1]))
  }

  /** The number of buckets from the start's to the end's. */
  function Buckets(start: int, end: int, b: Bucket): (n: nat)
    ensures start <= end ==> n > 0 && (b.Of(start) + n - 1) * b.Size() <= end < (b.Of(start) + n) * b.Size()
  {
    OfGrows(b, start, end);
    if b.Of(start) > b.Of(end) then 0 else b.Of(end) - b.Of(start) + 1
  }

  lemma OfGrows(b: Bucket, x: int, y: int)
    ensures x <= y ==> b.Of(x) <= b.Of(y)
  {
  }

  // ---------------------------------------------------------------- what a tally counts

  /** Row `i` is in the bucket and, if `outcome` is given, has that outcome. */
  predicate InBucket(rows: seq<Row>, b: Bucket, key: int, i: int) {
    0 <= i < |rows| && rows[i].ingestedAt >= key * b.Size() && rows[i].ingestedAt < (key + 1) * b.Size()
  }

  predicate Allowed(rows: seq<Row>, b: Bucket, key: int, i: int) {
    InBucket(rows, b, key, i) && rows[i].outcome == "allow"
  }

  predicate Denied(rows: seq<Row>, b: Bucket, key: int, i: int) {
    InBucket(rows, b, key, i) && rows[i].outcome == "deny"
  }

  predicate HasOutbox(rows: seq<Row>, b: Bucket, key: int, i: int) {
    InBucket(rows, b, key, i) && rows[i].outbox.Some?
  }

  predicate HasDlq(rows: seq<Row>, b: Bucket, key: int, i: int) {
    InBucket(rows, b, key, i) && rows[i].dlq.Some?
  }

  function OutboxOf(rows: seq<Row>, b: Bucket, key: int, i: int): int {
    if HasOutbox(rows, b, key, i) then rows[i].outbox.value else 0
  }

  function DlqOf(rows: seq<Row>, b: Bucket, key: int, i: int): int {
    if HasDlq(rows, b, key, i) then rows[i].dlq.value else 0
  }

  lemma OfIff(b: Bucket, at: int, key: int)
    ensures b.Of(at) == key <==> key * b.Size() <= at < (key + 1) * b.Size()
  {
    if b.Of(at) < key {
      assert (b.Of(at) + 1) * b.Size() <= key * b.Size();
    } else if b.Of(at) > key {
      assert (key + 1) * b.Size() <= b.Of(at) * b.Size();
    }
  }

  lemma CountRest(n: nat, p: int -> bool, q: int -> bool)
    requires forall i :: 0 <= i < n ==> p(i) == q(i)
    ensures CountIf(n + 1, p) == CountIf(n, q) + if p(n) then 1 else 0
  {
    CountNext(n, p);
    CountSame(n, p, q);
  }

  lemma SumRest(n: nat, f: int -> int, g: int -> int)
    requires forall i :: 0 <= i < n ==> f(i) == g(i)
    ensures SumOver(n + 1, f) == SumOver(n, g) + f(n)
  {
    SumSame(n, f, g);
  }

  /** The events of a bucket, by outcome: a known outcome counts as itself, and any other as an error. */
  lemma {:induction false} TallyCounts(rows: seq<Row>, b: Bucket, key: int)
    ensures var t := TallyOf(rows, b, key);
            && t.events == CountIf(|rows|, i => InBucket(rows, b, key, i))
            && t.allow == CountIf(|rows|, i => Allowed(rows, b, key, i))
            && t.deny == CountIf(|rows|, i => Denied(rows, b, key, i))
            && t.error == t.events - t.allow - t.deny
    decreases |rows|
  {
    hide CountIf;
    if rows == [] {
      CountNext(0, i => InBucket(rows, b, key, i));
      CountNext(0, i => Allowed(rows, b, key, i));
      CountNext(0, i => Denied(rows, b, key, i));
    } else {
      var n := |rows| - 1;
      var rest := rows[..n];
      TallyCounts(rest, b, key);
      OfIff(b, rows[n].ingestedAt, key);
      CountRest(n, i => InBucket(rows, b, key, i), i => InBucket(rest, b, key, i));
      CountRest(n, i => Allowed(rows, b, key, i), i => Allowed(rest, b, key, i));
      CountRest(n, i => Denied(rows, b, key, i), i => Denied(rest, b, key, i));
      hide Bucket.Of, Bucket.Size;
    }
  }

  /** The sums of a bucket, and how many of its rows went into them. */
  lemma {:induction false} TallySums(rows: seq<Row>, b: Bucket, key: int)
    ensures var t := TallyOf(rows, b, key);
            && t.outboxCount == CountIf(|rows|, i => HasOutbox(rows, b, key, i))
            && t.dlqCount == CountIf(|rows|, i => HasDlq(rows, b, key, i))
            && t.outboxSum == SumOver(|rows|, i => OutboxOf(rows, b, key, i))
            && t.dlqSum == SumOver(|rows|, i => DlqOf(rows, b, key, i))
    decreases |rows|
  {
    hide CountIf;
    if rows == [] {
      CountNext(0, i => HasOutbox(rows, b, key, i));
      CountNext(0, i => HasDlq(rows, b, key, i));
    } else {
      var n := |rows| - 1;
      var rest := rows[..n];
      TallySums(rest, b, key);
      OfIff(b, rows[n].ingestedAt, key);
      CountRest(n, i => HasOutbox(rows, b, key, i), i => HasOutbox(rest, b, key, i));
      CountRest(n, i => HasDlq(rows, b, key, i), i => HasDlq(rest, b, key, i));
      SumRest(n, i => OutboxOf(rows, b, key, i), i => OutboxOf(rest, b, key, i));
      SumRest(n, i => DlqOf(rows, b, key, i), i => DlqOf(rest, b, key, i));
      hide Bucket.Of, Bucket.Size, SumOver;
    }
  }

  // ---------------------------------------------------------------- every row lands in one bucket

  function Sum(rows: seq<Row>, start: int, b: Bucket, n: nat): Tally
  {
    if n == 0 then NOTHING else Sum(rows, start, b, n - 1).Plus(TallyOf(rows, b, b.Of(start) + n - 1))
  }

  lemma PlusSwaps(x: Tally, y: Tally, z: Tally)
    ensures x.Plus(y).Plus(z) == x.Plus(z).Plus(y)
    ensures x.Plus(y.Plus(z)) == x.Plus(y).Plus(z)
  {
  }

  lemma {:induction false} SumNext(rows: seq<Row>, start: int, b: Bucket, n: nat, i: nat)
    requires rows != []
    requires b.Of(rows[|rows| - 1].ingestedAt) == b.Of(start) + i
    ensures var rest := rows[..|rows| - 1];
            Sum(rows, start, b, n) == if i < n then Sum(rest, start, b, n).Plus(One(rows[|rows| - 1]))
              else Sum(rest, start, b, n)
    decreases n
  {
    hide One, Tally.Plus;
    if n > 0 {
      var rest, last := rows[..|rows| - 1], rows[|rows| - 1];
      PlusSwaps(Sum(rest, start, b, n - 1), TallyOf(rest, b, b.Of(start) + n - 1), One(last));
      SumNext(rows, start, b, n - 1, i);
    }
  }

  lemma {:induction false} SumOfNothing(start: int, b: Bucket, n: nat)
    ensures Sum([], start, b, n) == NOTHING
  {
    if n > 0 {
      SumOfNothing(start, b, n - 1);
    }
  }

  /** Conservation: over the buckets of the interval, every count and every sum adds up to that of the rows. */
  lemma {:induction false} BucketsConserve(rows: seq<Row>, start: int, end: int, b: Bucket)
    requires forall i :: 0 <= i < |rows| ==> start <= rows[i].ingestedAt <= end
    ensures Sum(rows, start, b, Buckets(start, end, b)) == TallyAll(rows)
    decreases |rows|
  {
    if rows == [] {
      SumOfNothing(start, b, Buckets(start, end, b));
    } else {
      var n := |rows| - 1;
      BucketsConserve(rows[..n], start, end, b);
      OfGrows(b, start, rows[n].ingestedAt);
      OfGrows(b, rows[n].ingestedAt, end);
      SumNext(rows, start, b, Buckets(start, end, b), b.Of(rows[n].ingestedAt) - b.Of(start));
    }
  }

  /** Each point's outcomes add up to its events, and the whole series to the number of rows. */
  lemma {:induction false} OutcomesAddUp(rows: seq<Row>, b: Bucket, key: int)
    ensures var t := TallyOf(rows, b, key); t.allow + t.deny + t.error == t.events
    ensures var t := TallyAll(rows); t.allow + t.deny + t.error == t.events == |rows|
    decreases |rows|
  {
    if rows != [] {
      OutcomesAddUp(rows[..|rows| - 1], b, key);
    }
  }

  // ---------------------------------------------------------------- the endpoint

  /** The rows the query returns: those of the interval, oldest first. */
  ghost predicate Selected(rows: seq<Row>, start: int, end: int) {
    && (forall i :: 0 <= i < |rows| ==> start <= rows[i].ingestedAt <= end)
    && (forall i, j :: 0 <= i <= j < |rows| ==> rows[i].ingestedAt <= rows[j].ingestedAt)
  }

  datatype SeriesPoint = SeriesPoint(bucketStart: int, events: nat, allow: nat, deny: nat, error: nat,
    outboxAvg: Option<real>, dlqAvg: Option<real>)

  function Point(key: int, t: Tally, round: real -> real): SeriesPoint {
    SeriesPoint(key, t.events, t.allow, t.deny, t.error,
                if t.outboxCount > 0 then Some(round(t.outboxSum as real / t.outboxCount as real)) else None,
                if t.dlqCount > 0 then Some(round(t.dlqSum as real / t.dlqCount as real)) else None)
  }

  /** The point shows the tally under the names of its fields; an average only where there is something to
      average. */
  ghost predicate Shows(p: SeriesPoint, bucketStart: int, t: Tally, round: real -> real) {
    && p.bucketStart == bucketStart
    && p.events == t.events && p.allow == t.allow && p.deny == t.deny && p.error == t.error
    && (p.outboxAvg.Some? <==> t.outboxCount > 0) && (p.dlqAvg.Some? <==> t.dlqCount > 0)
    && (t.outboxCount > 0 ==> p.outboxAvg.value == round(t.outboxSum as real / t.outboxCount as real))
    && (t.dlqCount > 0 ==> p.dlqAvg.value == round(t.dlqSum as real / t.dlqCount as real))
  }

  datatype Breakdown = Breakdown(allow: nat, deny: nat, error: nat)

  function BreakdownOf(t: Tally): Breakdown { Breakdown(t.allow, t.deny, t.error) }

  method Count(breakdown: Breakdown, row: Row, ghost counted: Tally) returns (more: Breakdown)
    requires breakdown == BreakdownOf(counted)
    ensures more == BreakdownOf(counted.Plus(One(row)))
  {
    match Classify(row.outcome) {
      case Allow => more := breakdown.(allow := breakdown.allow + 1);
      case Deny => more := breakdown.(deny := breakdown.deny + 1);
      case Error => more := breakdown.(error := breakdown.error + 1);
    }
  }

  predicate EndsAllowed(rows: seq<Row>, i: int) { 0 <= i < |rows| && rows[i].outcome == "allow" }
  predicate EndsDenied(rows: seq<Row>, i: int) { 0 <= i < |rows| && rows[i].outcome == "deny" }

  lemma {:induction false} AllCounts(rows: seq<Row>)
    ensures TallyAll(rows).allow == CountIf(|rows|, i => EndsAllowed(rows, i))
    ensures TallyAll(rows).deny == CountIf(|rows|, i => EndsDenied(rows, i))
    decreases |rows|
  {
    hide CountIf;
    if rows == [] {
      CountNext(0, i => EndsAllowed(rows, i));
      CountNext(0, i => EndsDenied(rows, i));
    } else {
      var n := |rows| - 1;
      var rest := rows[..n];
      AllCounts(rest);
      forall i | 0 <= i < n
        ensures EndsAllowed(rows, i) == EndsAllowed(rest, i) && EndsDenied(rows, i) == EndsDenied(rest, i)
      {
        assert rows[i] == rest[i];
      }
      CountRest(n, i => EndsAllowed(rows, i), i => EndsAllowed(rest, i));
      CountRest(n, i => EndsDenied(rows, i), i => EndsDenied(rest, i));
    }
  }

  lemma BreakdownCounts(rows: seq<Row>)
    ensures TallyAll(rows).allow == |set i | 0 <= i < |rows| && rows[i].outcome == "allow"|
    ensures TallyAll(rows).deny == |set i | 0 <= i < |rows| && rows[i].outcome == "deny"|
  {
    AllCounts(rows);
    CountIs(|rows|, i => EndsAllowed(rows, i), set i | 0 <= i < |rows| && rows[i].outcome == "allow");
    CountIs(|rows|, i => EndsDenied(rows, i), set i | 0 <= i < |rows| && rows[i].outcome == "deny");
  }

  lemma TallyNext(rows: seq<Row>, i: nat, b: Bucket)
    requires i < |rows|
    ensures forall key :: TallyOf(rows[..i + 1], b, key) ==
                          var before := TallyOf(rows[..i], b, key);
                          if b.Of(rows[i].ingestedAt) == key then before.Plus(One(rows[i])) else before
    ensures TallyAll(rows[..i + 1]) == TallyAll(rows[..i]).Plus(One(rows[i]))
  {
    assert rows[..i + 1][..i] == rows[..i];
  }

  lemma TallyOfNone(b: Bucket)
    ensures forall key :: TallyOf([], b, key) == NOTHING
    ensures TallyAll([]) == NOTHING
  {
  }

  /** The points are the contiguous buckets from the start's to the end's, each with the tally of its rows;
      the branch that inserts a late bucket is never taken. */
  method GetEventsSeries(rows: seq<Row>, start: int, end: int, round: real -> real)
    returns (points: seq<SeriesPoint>, breakdown: Breakdown, total: nat)
    requires Selected(rows, start, end)
    ensures var b := Choose(start, end);
            && |points| == Buckets(start, end, b)
            && forall i :: 0 <= i < |points| ==>
                 Shows(points[i], (b.Of(start) + i) * b.Size(), TallyOf(rows, b, b.Of(start) + i), round)
    ensures breakdown == BreakdownOf(TallyAll(rows))
    ensures breakdown.allow == |set i | 0 <= i < |rows| && rows[i].outcome == "allow"|
    ensures breakdown.deny == |set i | 0 <= i < |rows| && rows[i].outcome == "deny"|
    ensures total == |rows| == breakdown.allow + breakdown.deny + breakdown.error
  {
    hide TallyOf, TallyAll, One, Tally.Plus;
    var b := Choose(start, end);
    var first, last := b.Of(start), b.Of(end);
    var buckets: map<int, Tally> := map[];
    var cursor := first;
    while cursor <= last
      invariant first <= cursor && (cursor <= last + 1 || cursor == first)
      invariant forall k :: k in buckets <==> first <= k < cursor
      invariant forall k :: k in buckets ==> buckets[k] == NOTHING
      decreases last - cursor
    {
      buckets := buckets[cursor := NOTHING];
      cursor := cursor + 1;
    }
    breakdown := Breakdown(0, 0, 0);
    TallyOfNone(b);
    assert rows[..0] == [];
    for i := 0 to |rows|
      invariant forall k :: k in buckets <==> first <= k < cursor
      invariant forall k :: k in buckets ==> buckets[k] == TallyOf(rows[..i], b, k)
      invariant breakdown == BreakdownOf(TallyAll(rows[..i]))
    {
      var row := rows[i];
      var key := b.Of(row.ingestedAt);
      OfGrows(b, start, row.ingestedAt);
      OfGrows(b, row.ingestedAt, end);
      if key !in buckets {
        buckets := buckets[key := NOTHING];
      }
      TallyNext(rows, i, b);
      buckets := buckets[key := buckets[key].Plus(One(row))];
      breakdown := Count(breakdown, row, TallyAll(rows[..i]));
    }
    assert rows[..|rows|] == rows;
    points := [];
    for k := first to cursor
      invariant |points| == k - first
      invariant forall i :: 0 <= i < k - first ==>
                          points[i] == Point((first + i) * b.Size(), TallyOf(rows, b, first + i), round)
    {
      points := points + [Point(k * b.Size(), buckets[k], round)];
    }
    total := |rows|;
    OutcomesAddUp(rows, b, 0);
    BreakdownCounts(rows);
  }
}
