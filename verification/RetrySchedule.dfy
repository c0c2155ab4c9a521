/** How long a row keeps retrying, and why retrying ends. */
module RetrySchedule {
  import opened Collections
  import opened Outbox

  /** A waiting row still has attempts left; a dead-lettered one has used them all. */
  ghost predicate WithinBudget<P>(retry: Retry, row: Row<P>) {
    && (row.status == Pending ==> row.attempts < retry.maxAttempts)
    && (row.status == Dlq ==> row.attempts == retry.maxAttempts)
  }

  /** The shortest that failure number `failures` can put off the next attempt, the tenth of a second aside. */
  function Shortest(retry: Retry, failures: nat): real
    requires failures >= 1
  {
    retry.Unit() * Pow2(failures - 1) as real
  }

  /** The longest that failure number `failures` can put off the next attempt. */
  function Longest(retry: Retry, failures: nat): real
    requires failures >= 1
  {
    var most := retry.Most() * Pow2(failures - 1) as real;
    if most > 0.1 then most else 0.1
  }

  /** All of the first `failures` backoffs at their longest. */
  function LongestOfAll(retry: Retry, failures: nat): real {
    if failures == 0 then 0.0 else LongestOfAll(retry, failures - 1) + Longest(retry, failures)
  }

  /** All of them at their shortest. */
  function ShortestOfAll(retry: Retry, failures: nat): real {
    retry.Unit() * (Pow2(failures) - 1) as real
  }

  /** After k failures, the first at time `first` and the others `waited` seconds late in all, the next
      attempt is due when all k backoffs have passed; dead-lettering waits for all backoffs but the last. */
  ghost predicate OnSchedule<P>(retry: Retry, row: Row<P>, first: real, waited: real) {
    && waited >= 0.0
    && (row.status == Pending && row.attempts >= 1 ==>
          && ShortestOfAll(retry, row.attempts) <= row.nextAttemptAt - first - waited
               <= LongestOfAll(retry, row.attempts)
          && row.lastErrorAt.Some?
          && 0.1 <= row.nextAttemptAt - row.lastErrorAt.value <= Longest(retry, row.attempts))
    && (row.status == Dlq && retry.maxAttempts >= 1 ==>
          && row.lastErrorAt.Some?
          && ShortestOfAll(retry, retry.maxAttempts - 1) <= row.lastErrorAt.value - first - waited
               <= LongestOfAll(retry, retry.maxAttempts - 1))
  }

  lemma ScaleMonotone(x: real, a: real, b: real)
    requires x >= 0.0 && a <= b
    ensures x * a <= x * b
  {
  }

  lemma DelayAtLeast(initial: real, jitter: real, u: real, p: real, unit: real)
    requires initial >= 0.0 && -jitter <= u && p >= 1.0 && unit == initial * (1.0 - jitter)
    ensures unit * p <= initial * p * (1.0 + u)
  {
    var base := initial * p;
    assert base >= 0.0;
    ScaleMonotone(base, 1.0 - jitter, 1.0 + u);
    assert base * (1.0 - jitter) == unit * p;
  }

  lemma DelayAtMost(initial: real, jitter: real, u: real, p: real, most: real)
    requires initial >= 0.0 && u <= jitter && p >= 1.0 && most == initial * (1.0 + jitter)
    ensures initial * p * (1.0 + u) <= most * p
  {
    var base := initial * p;
    assert base >= 0.0;
    ScaleMonotone(base, 1.0 + u, 1.0 + jitter);
    assert base * (1.0 + jitter) == most * p;
  }

  lemma BackoffAtLeast(retry: Retry, attempts: nat, u: real)
    requires retry.Sane() && -retry.jitter <= u <= retry.jitter && attempts >= 1
    ensures Backoff(retry, attempts, u) >= Shortest(retry, attempts)
    ensures Backoff(retry, attempts, u) >= 0.1
  {
    hide Backoff, Pow2;
    BackoffIs(retry, attempts - 1, u);
    DelayAtLeast(retry.initial, retry.jitter, u, Pow2(attempts - 1) as real, retry.Unit());
    hide Retry.Unit;
  }

  lemma BackoffAtMost(retry: Retry, attempts: nat, u: real)
    requires retry.Sane() && -retry.jitter <= u <= retry.jitter && attempts >= 1
    ensures Backoff(retry, attempts, u) <= Longest(retry, attempts)
  {
    hide Backoff, Pow2;
    BackoffIs(retry, attempts - 1, u);
    DelayAtMost(retry.initial, retry.jitter, u, Pow2(attempts - 1) as real, retry.Most());
    hide Retry.Most;
  }

  /** A sum of n backoffs of most * 2^i seconds, none below a tenth of a second, where `power` is 2^n: exactly
      most * (2^n - 1) if the first can exceed a tenth, and otherwise at most a tenth more for each. */
  ghost predicate AddsUp(most: real, sum: real, power: nat, n: nat) {
    && sum <= most * (power - 1) as real + 0.1 * n as real
    && (most >= 0.1 ==> sum == most * (power - 1) as real)
  }

  lemma NextAddsUp(most: real, sum: real, p: nat, n: nat, next: real)
    requires most >= 0.0 && p >= 1 && AddsUp(most, sum, p, n)
    requires next == if most * p as real > 0.1 then most * p as real else 0.1
    ensures AddsUp(most, sum + next, 2 * p, n + 1)
  {
    ScaleMonotone(most, 1.0, p as real);
    assert most * (p - 1) as real + most * p as real == most * (2 * p - 1) as real;
  }

  lemma NothingAddsUp(retry: Retry)
    requires retry.Sane()
    ensures retry.Most() >= 0.0 && AddsUp(retry.Most(), 0.0, 1, 0)
  {
  }

  lemma {:induction false} LongestAddUp(retry: Retry, failures: nat)
    requires retry.Sane()
    ensures AddsUp(retry.Most(), LongestOfAll(retry, failures), Pow2(failures), failures)
  {
    NothingAddsUp(retry);
    hide Retry.Most, AddsUp;
    if failures > 0 {
      LongestAddUp(retry, failures - 1);
      NextAddsUp(retry.Most(), LongestOfAll(retry, failures - 1), Pow2(failures - 1), failures - 1,
                 Longest(retry, failures));
    }
  }

  /** The next failure adds its own backoff to both totals. */
  lemma NextBackoff(retry: Retry, failures: nat, u: real)
    requires retry.Sane() && JitterDraw(retry, u)
    ensures var backoff := Backoff(retry, failures + 1, u);
            && ShortestOfAll(retry, failures + 1) - ShortestOfAll(retry, failures) <= backoff
            && LongestOfAll(retry, failures + 1) - LongestOfAll(retry, failures) >= backoff
            && 0.1 <= backoff <= Longest(retry, failures + 1)
    ensures ShortestOfAll(retry, 0) == LongestOfAll(retry, 0) == 0.0
  {
    BackoffAtLeast(retry, failures + 1, u);
    BackoffAtMost(retry, failures + 1, u);
    var unit, p := retry.Unit(), Pow2(failures);
    assert Pow2(failures + 1) == 2 * p;
    assert unit * (p - 1) as real + unit * p as real == unit * (2 * p - 1) as real;
    hide Backoff, Longest, Retry.Unit;
  }

  /** One more failure of a row that was due keeps the row within budget and on schedule. */
  lemma FailureKeepsSchedule<P>(retry: Retry, row: Row<P>, first: real, waited: real, now: real, u: real)
    requires retry.Sane() && JitterDraw(retry, u)
    requires row.status == Pending && row.nextAttemptAt <= now
    requires WithinBudget(retry, row) && (row.attempts > 0 ==> OnSchedule(retry, row, first, waited))
    ensures var first' := if row.attempts == 0 then now else first;
            var waited' := if row.attempts == 0 then 0.0 else waited + (now - row.nextAttemptAt);
            var failed := FailedRow(row, retry, now, u);
            WithinBudget(retry, failed) && OnSchedule(retry, failed, first', waited')
  {
    NextBackoff(retry, row.attempts, u);
    hide ShortestOfAll, LongestOfAll, Longest, Backoff;
  }

  // ---------------------------------------------------------------- the measure that failures use up

  function Weight<P>(t: Table<P>, id: nat, maxAttempts: nat): int {
    if id in t && t[id].status == Pending then maxAttempts - t[id].attempts else 0
  }

  /** Attempts left over all waiting rows with a key below `n`. */
  function AttemptsLeft<P>(t: Table<P>, n: nat, maxAttempts: nat): int {
    if n == 0 then 0 else AttemptsLeft(t, n - 1, maxAttempts) + Weight(t, n - 1, maxAttempts)
  }

  /** Each PENDING row counts for the maximum less the attempts it has used, and no other row for anything. */
  lemma {:induction false} AttemptsLeftIs<P>(t: Table<P>, n: nat, maxAttempts: nat)
    ensures AttemptsLeft(t, n, maxAttempts) ==
            SumOver(n, k => if k in t && t[k].status == Pending then maxAttempts - t[k].attempts else 0)
  {
    if n > 0 {
      AttemptsLeftIs(t, n - 1, maxAttempts);
    }
  }

  lemma {:induction false} AttemptsLeftUpdate<P>(t: Table<P>, id: nat, row: Row<P>, n: nat, maxAttempts: nat)
    requires id in t
    ensures AttemptsLeft(t[id := row], n, maxAttempts) - AttemptsLeft(t, n, maxAttempts)
         == if id < n then Weight(t[id := row], id, maxAttempts) - Weight(t, id, maxAttempts) else 0
  {
    if n > 0 {
      AttemptsLeftUpdate(t, id, row, n - 1, maxAttempts);
    }
  }

  lemma {:induction false} AttemptsLeftNonNegative<P>(t: Table<P>, n: nat, retry: Retry)
    requires forall id :: id in t ==> WithinBudget(retry, t[id])
    ensures AttemptsLeft(t, n, retry.maxAttempts) >= 0
  {
    if n > 0 {
      AttemptsLeftNonNegative(t, n - 1, retry);
    }
  }

  /** Marking a waiting row, either way, strictly uses up attempts. */
  lemma MarkUsesUpAttempts<P>(retry: Retry, t: Table<P>, n: nat, id: nat, now: real, u: real)
    requires id in t && id < n && t[id].status == Pending && WithinBudget(retry, t[id])
    ensures AttemptsLeft(t[id := SentRow(t[id], now)], n, retry.maxAttempts) < AttemptsLeft(t, n, retry.maxAttempts)
    ensures AttemptsLeft(t[id := FailedRow(t[id], retry, now, u)], n, retry.maxAttempts)
         < AttemptsLeft(t, n, retry.maxAttempts)
  {
    AttemptsLeftUpdate(t, id, SentRow(t[id], now), n, retry.maxAttempts);
    AttemptsLeftUpdate(t, id, FailedRow(t[id], retry, now, u), n, retry.maxAttempts);
  }
}
