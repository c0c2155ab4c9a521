/** The edge side of delivery: the outbox rows and the one exporter that works on them, step by step.
    A crash may come between any two row updates. The cloud enters only as the set of keys whose
    events it holds. */
module EdgeMachine {
  import opened Collections
  import opened Wrappers
  import opened Outbox
  import opened RetrySchedule

  /** Between passes; waiting for the answer to a request; or marking the rows that remain. */
  datatype Phase = Idle | Waiting(batch: seq<nat>) | Marking(rest: seq<nat>, ok: bool)

  /** When a row failed first since it last became PENDING with no attempts, and by how much in all the
      failures since then came after the attempt was due. */
  datatype Failures = Failures(first: real, waited: real)

  /** `enqueued` and `failures` are history: the payload ever enqueued under each key, and its failures. */
  datatype Edge<P> = Edge(
    now: real, rows: Table<P>, nextRow: nat, phase: Phase, enqueued: map<nat, P>, failures: map<nat, Failures>)

  datatype Step<P> =
    | Wait(until: real)
    | Enqueue(payload: P)
    | Send(batch: seq<nat>)
    | Answer(ok: bool)
    | NoteFailure(error: string)
    | MarkNext(draw: real)
    | Crash
    | ReplayOne(key: nat)
    | ReplayOldest(keys: seq<nat>, limit: nat)
    | PurgeSent(retentionDays: int)

  datatype Settings = Settings(retry: Retry, batchSize: nat)

  function Start<P>(now: real): Edge<P> {
    Edge(now, map[], 1, Idle, map[], map[])
  }

  ghost predicate Enabled<P>(c: Settings, e: Edge<P>, step: Step<P>) {
    match step
    case Wait(until) => e.now <= until
    case Enqueue(_) => true
    case Send(batch) => e.phase.Idle? && batch != [] && OldestFirst(e.rows, DueIds(e.rows, e.now), c.batchSize, batch)
    case Answer(_) => e.phase.Waiting?
    case NoteFailure(_) => e.phase.Marking? && !e.phase.ok && e.phase.rest != []
    case MarkNext(draw) => e.phase.Marking? && e.phase.rest != [] && JitterDraw(c.retry, draw)
    case Crash => true
    case ReplayOne(_) => true
    case ReplayOldest(keys, limit) => OldestFirst(e.rows, DlqIds(e.rows), limit, keys)
    case PurgeSent(_) => true
  }

  function FailuresAfter<P>(e: Edge<P>, key: nat): Failures
    requires key in e.rows
  {
    if e.rows[key].attempts == 0 || key !in e.failures then Failures(e.now, 0.0)
    else e.failures[key].(waited := e.failures[key].waited + (e.now - e.rows[key].nextAttemptAt))
  }

  function MarkHead<P>(c: Settings, e: Edge<P>, draw: real): Edge<P>
    requires e.phase.Marking? && e.phase.rest != []
  {
    var key, rest, ok := e.phase.rest[0], e.phase.rest[1..], e.phase.ok;
    var next := if rest == [] then Idle else Marking(rest, ok);
    if key !in e.rows then e.(phase := next)
    else
      var row := e.rows[key];
      if ok then e.(phase := next, rows := e.rows[key := SentRow(row, e.now)])
      else e.(phase := next, rows := e.rows[key := FailedRow(row, c.retry, e.now, draw)],
              failures := e.failures[key := FailuresAfter(e, key)])
  }

  function Apply<P>(c: Settings, e: Edge<P>, step: Step<P>): Edge<P>
    requires Enabled(c, e, step)
  {
    match step
    case Wait(until) => e.(now := until)
    case Enqueue(payload) =>
      e.(rows := e.rows[e.nextRow := FreshRow(payload, e.now)], nextRow := e.nextRow + 1,
         enqueued := e.enqueued[e.nextRow := payload])
    case Send(batch) => e.(phase := Waiting(batch))
    case Answer(ok) => e.(phase := Marking(e.phase.batch, ok))
    case NoteFailure(error) =>
      var key := e.phase.rest[0];
      if key in e.rows then e.(rows := e.rows[key := e.rows[key].(lastError := Some(error))]) else e
    case MarkNext(draw) => MarkHead(c, e, draw)
    case Crash => e.(phase := Idle)
    case ReplayOne(key) =>
      if key in e.rows && e.rows[key].status == Dlq then e.(rows := e.rows[key := ReplayedRow(e.rows[key], e.now)])
      else e
    case ReplayOldest(keys, _) => e.(rows := Replay(e.rows, Elements(keys), e.now))
    case PurgeSent(days) => e.(rows := Purge(e.rows, days, e.now))
  }

  // ---------------------------------------------------------------- the steps are the repository's methods

  /** Every step but the replay of several rows leaves the table as one call of the repository does, or alone. */
  method Perform<P(==)>(repo: OutboxRepository<P>, c: Settings, e: Edge<P>, step: Step<P>)
    requires repo.Valid() && repo.rows == e.rows && repo.nextId == e.nextRow
    requires Enabled(c, e, step) && !step.ReplayOldest?
    modifies repo
    ensures repo.rows == Apply(c, e, step).rows && repo.nextId == Apply(c, e, step).nextRow
  {
    hide Backoff;
    match step {
      case Enqueue(payload) => var _ := repo.AddEvent(payload, e.now);
      case NoteFailure(error) => repo.NoteError(e.phase.rest[0], error);
      case MarkNext(draw) =>
        if e.phase.ok {
          repo.MarkSent(e.phase.rest[0], e.now);
        } else {
          repo.MarkFailed(e.phase.rest[0], c.retry, e.now, draw);
        }
      case ReplayOne(key) => var _ := repo.ReplayDlqEvent(key, e.now);
      case PurgeSent(days) => var _ := repo.PurgeSentOlderThan(days, e.now);
      case _ =>
    }
  }

  /** So does the replay of several rows, whichever of the oldest ones the query picks. */
  method PerformReplay<P(==)>(repo: OutboxRepository<P>, c: Settings, e: Edge<P>, limit: nat)
    returns (ghost keys: seq<nat>)
    requires repo.Valid() && repo.rows == e.rows
    modifies repo`rows
    ensures Enabled(c, e, ReplayOldest(keys, limit)) && repo.rows == Apply(c, e, ReplayOldest(keys, limit)).rows
  {
    hide Replay, OldestFirst;
    var count := repo.ReplayDlqEvents(limit, e.now);
    keys :| OldestFirst(e.rows, DlqIds(e.rows), limit, keys) && count == |keys|
            && repo.rows == Replay(e.rows, Elements(keys), e.now);
  }

  // ---------------------------------------------------------------- invariant

  ghost predicate Queued<P>(e: Edge<P>, key: nat) {
    key in e.rows && (e.rows[key].status == Pending || e.rows[key].status == Dlq)
  }

  /** Everything ever enqueued is still queued or is held by the cloud; so a SENT row, or a row that
      was purged, is held by the cloud. */
  ghost predicate NoLoss<P>(e: Edge<P>, stored: set<nat>) {
    forall key :: key in e.enqueued ==> Queued(e, key) || key in stored
  }

  /** Keys are never reused, and a row keeps the payload it was enqueued with. */
  ghost predicate KeepsPayloads<P>(e: Edge<P>) {
    && (forall key :: key in e.rows ==> key in e.enqueued && e.rows[key].payload == e.enqueued[key])
    && (forall key :: key in e.enqueued ==> key < e.nextRow)
  }

  ghost predicate AllDue<P>(e: Edge<P>, keys: seq<nat>) {
    Distinct(keys) && forall key :: key in keys ==> Due(e.rows, key, e.now)
  }

  /** The rows being worked on are PENDING and due, and only stored events are marked SENT. */
  ghost predicate ExporterSound<P>(e: Edge<P>, stored: set<nat>) {
    match e.phase
    case Idle => true
    case Waiting(batch) => AllDue(e, batch)
    case Marking(rest, ok) => AllDue(e, rest) && (ok ==> forall key :: key in rest ==> key in stored)
  }

  ghost predicate Scheduled<P>(c: Settings, e: Edge<P>, key: nat) {
    key in e.rows && c.retry.Sane() ==>
      && WithinBudget(c.retry, e.rows[key])
      && (e.rows[key].status != Sent && e.rows[key].attempts >= 1 ==>
            key in e.failures
            && OnSchedule(c.retry, e.rows[key], e.failures[key].first, e.failures[key].waited))
  }

  ghost predicate EdgeInv<P>(c: Settings, e: Edge<P>, stored: set<nat>) {
    && KeepsPayloads(e)
    && NoLoss(e, stored)
    && ExporterSound(e, stored)
    && forall key :: Scheduled(c, e, key)
  }

  lemma StartInv<P>(c: Settings, now: real)
    ensures EdgeInv(c, Start<P>(now), {})
  {
  }

  lemma MoreStored<P>(c: Settings, e: Edge<P>, stored: set<nat>, more: set<nat>)
    requires EdgeInv(c, e, stored) && stored <= more
    ensures EdgeInv(c, e, more)
  {
  }

  // ---------------------------------------------------------------- steps

  lemma MarkedRowScheduled<P>(c: Settings, e: Edge<P>, draw: real)
    requires Enabled(c, e, MarkNext(draw))
    requires var key := e.phase.rest[0]; Due(e.rows, key, e.now) && Scheduled(c, e, key)
    ensures Scheduled(c, MarkHead(c, e, draw), e.phase.rest[0])
  {
    var key := e.phase.rest[0];
    if c.retry.Sane() && !e.phase.ok {
      var f := if e.rows[key].attempts == 0 then Failures(e.now, 0.0) else e.failures[key];
      FailureKeepsSchedule(c.retry, e.rows[key], f.first, f.waited, e.now, draw);
      hide OnSchedule, FailedRow;
    }
  }

  /** A mark touches one row, and turns it SENT only after an acknowledgement. */
  lemma MarkEffect<P>(c: Settings, e: Edge<P>, stored: set<nat>, draw: real)
    requires Enabled(c, e, MarkNext(draw)) && ExporterSound(e, stored)
    ensures var e', key := MarkHead(c, e, draw), e.phase.rest[0];
            && e'.enqueued == e.enqueued && e'.nextRow == e.nextRow
            && e'.rows.Keys == e.rows.Keys && ExporterSound(e', stored)
            && (forall k :: k in e.rows ==> e'.rows[k].payload == e.rows[k].payload)
            && (forall k :: k in e.rows && k != key ==> e'.rows[k] == e.rows[k])
            && (forall k :: k != key && k in e.failures ==> k in e'.failures && e'.failures[k] == e.failures[k])
            && (key in e.rows ==> Queued(e', key) || key in stored)
  {
    hide Backoff;
    var key, rest := e.phase.rest[0], e.phase.rest[1..];
    assert key in e.phase.rest;
    assert forall k :: k in rest ==> k in e.phase.rest && k != key;
  }

  lemma MarkKeepsInv<P>(c: Settings, e: Edge<P>, stored: set<nat>, draw: real)
    requires EdgeInv(c, e, stored) && Enabled(c, e, MarkNext(draw))
    ensures EdgeInv(c, MarkHead(c, e, draw), stored)
  {
    var key := e.phase.rest[0];
    var e' := MarkHead(c, e, draw);
    assert key in e.phase.rest;
    MarkedRowScheduled(c, e, draw);
    MarkEffect(c, e, stored, draw);
    hide MarkHead, ExporterSound, WithinBudget, OnSchedule;
    forall k | k != key
      ensures Scheduled(c, e', k)
    {
      assert Scheduled(c, e, k);
    }
    forall k | k in e'.enqueued
      ensures Queued(e', k) || k in stored
    {
      assert Queued(e, k) || k in stored;
    }
  }

  lemma EnqueueKeepsInv<P>(c: Settings, e: Edge<P>, stored: set<nat>, payload: P)
    requires EdgeInv(c, e, stored)
    ensures EdgeInv(c, Apply(c, e, Enqueue(payload)), stored)
  {
    var e' := Apply(c, e, Enqueue(payload));
    forall k
      ensures Scheduled(c, e', k)
    {
      assert Scheduled(c, e, k);
    }
    forall k | k in e'.enqueued
      ensures Queued(e', k) || k in stored
    {
      assert k in e.enqueued ==> Queued(e, k) || k in stored;
    }
  }

  /** What an update that leaves the exporter alone may do to a row: change its error text, replay it
      from the dead-letter queue, or delete it once SENT. */
  ghost predicate Maintains<P>(before: Table<P>, after: Table<P>, now: real) {
    && after.Keys <= before.Keys
    && (forall k :: k in before && k !in after ==> before[k].status == Sent)
    && (forall k :: k in after ==>
          || (exists error :: after[k] == before[k].(lastError := error))
          || (before[k].status == Dlq && after[k] == ReplayedRow(before[k], now)))
  }

  lemma MaintenanceKeepsInv<P>(c: Settings, e: Edge<P>, stored: set<nat>, rows: Table<P>)
    requires EdgeInv(c, e, stored) && Maintains(e.rows, rows, e.now)
    ensures EdgeInv(c, e.(rows := rows), stored)
  {
    var e' := e.(rows := rows);
    forall k
      ensures Scheduled(c, e', k)
    {
      assert Scheduled(c, e, k);
    }
    forall k | k in e'.enqueued
      ensures Queued(e', k) || k in stored
    {
      assert Queued(e, k) || k in stored;
    }
    forall k | Due(e.rows, k, e.now)
      ensures Due(e'.rows, k, e'.now)
    {
    }
  }

  lemma MaintenanceSteps<P>(c: Settings, e: Edge<P>, step: Step<P>)
    requires Enabled(c, e, step)
    requires step.NoteFailure? || step.ReplayOne? || step.ReplayOldest? || step.PurgeSent?
    ensures Maintains(e.rows, Apply(c, e, step).rows, e.now)
    ensures Apply(c, e, step) == e.(rows := Apply(c, e, step).rows)
  {
    var after := Apply(c, e, step).rows;
    forall k | k in after
      ensures (exists error :: after[k] == e.rows[k].(lastError := error))
           || (e.rows[k].status == Dlq && after[k] == ReplayedRow(e.rows[k], e.now))
    {
      assert after[k] == e.rows[k] ==> after[k] == e.rows[k].(lastError := e.rows[k].lastError);
      if step.NoteFailure? && k == e.phase.rest[0] {
        assert after[k] == e.rows[k].(lastError := Some(step.error));
      }
    }
  }

  /** Every step of the edge keeps the invariant, provided a positive answer means the batch is stored. */
  lemma EdgeStepKeepsInv<P>(c: Settings, e: Edge<P>, stored: set<nat>, step: Step<P>)
    requires EdgeInv(c, e, stored) && Enabled(c, e, step)
    requires step.Answer? && step.ok ==> forall key :: key in e.phase.batch ==> key in stored
    ensures EdgeInv(c, Apply(c, e, step), stored)
  {
    match step
    case Enqueue(payload) => EnqueueKeepsInv(c, e, stored, payload);
    case MarkNext(draw) => MarkKeepsInv(c, e, stored, draw);
    case Wait(_) => QuietStepKeepsInv(c, e, stored, step);
    case Send(_) => QuietStepKeepsInv(c, e, stored, step);
    case Answer(_) => QuietStepKeepsInv(c, e, stored, step);
    case Crash => QuietStepKeepsInv(c, e, stored, step);
    case _ =>
      MaintenanceSteps(c, e, step);
      MaintenanceKeepsInv(c, e, stored, Apply(c, e, step).rows);
  }

  lemma QuietStepKeepsInv<P>(c: Settings, e: Edge<P>, stored: set<nat>, step: Step<P>)
    requires EdgeInv(c, e, stored) && Enabled(c, e, step)
    requires step.Wait? || step.Send? || step.Answer? || step.Crash?
    requires step.Answer? && step.ok ==> forall key :: key in e.phase.batch ==> key in stored
    ensures EdgeInv(c, Apply(c, e, step), stored)
  {
    var e' := Apply(c, e, step);
    forall k
      ensures Scheduled(c, e', k) && (k in e'.enqueued ==> Queued(e', k) || k in stored)
    {
      assert Scheduled(c, e, k) && (k in e.enqueued ==> Queued(e, k) || k in stored);
    }
  }

  // ---------------------------------------------------------------- timing

  /** The row has used exactly the allowed attempts. Its last failure came after its first, apart from the time
      that attempts were late, no sooner than initial * (1 - jitter) * (2^(max-1) - 1) seconds; and no later
      than initial * (1 + jitter) * (2^(max-1) - 1), where the first backoff can be a tenth of a second or
      more, and otherwise at most a tenth more for each backoff. */
  ghost predicate DeadInTime<P>(retry: Retry, e: Edge<P>, key: nat)
    requires key in e.rows
  {
    && e.rows[key].attempts == retry.maxAttempts >= 1
    && key in e.failures && e.failures[key].waited >= 0.0 && e.rows[key].lastErrorAt.Some?
    && var took := e.rows[key].lastErrorAt.value - e.failures[key].first - e.failures[key].waited;
       var units := (Pow2(retry.maxAttempts - 1) - 1) as real;
       && retry.Unit() * units <= took <= retry.Most() * units + 0.1 * (retry.maxAttempts - 1) as real
       && (retry.Most() >= 0.1 ==> took <= retry.Most() * units)
  }

  lemma InvDeadInTime<P>(c: Settings, e: Edge<P>, stored: set<nat>, key: nat)
    requires c.retry.Sane() && EdgeInv(c, e, stored) && key in e.rows && e.rows[key].status == Dlq
    ensures DeadInTime(c.retry, e, key)
  {
    hide Pow2, LongestOfAll, Longest;
    assert Scheduled(c, e, key);
    hide EdgeInv, Retry.Unit, Retry.Most;
    LongestAddUp(c.retry, c.retry.maxAttempts - 1);
  }

  /** The row, which failed k times, is due again no sooner than 0.1 s and no later than the larger of 0.1 s and
      initial * (1 + jitter) * 2^(k-1) seconds after its last failure; and, counted from the first, no later
      than all k backoffs at their longest, apart from the time that attempts were late. */
  ghost predicate DueInTime<P>(retry: Retry, e: Edge<P>, key: nat)
    requires key in e.rows && e.rows[key].attempts >= 1
  {
    var k := e.rows[key].attempts;
    && k < retry.maxAttempts && e.rows[key].lastErrorAt.Some? && key in e.failures && e.failures[key].waited >= 0.0
    && var delay := e.rows[key].nextAttemptAt - e.rows[key].lastErrorAt.value;
       var since := e.rows[key].nextAttemptAt - e.failures[key].first - e.failures[key].waited;
       && 0.1 <= delay && (delay <= 0.1 || delay <= retry.Most() * Pow2(k - 1) as real)
       && since <= retry.Most() * (Pow2(k) - 1) as real + 0.1 * k as real
       && (retry.Most() >= 0.1 ==> since <= retry.Most() * (Pow2(k) - 1) as real)
  }

  lemma InvDueInTime<P>(c: Settings, e: Edge<P>, stored: set<nat>, key: nat)
    requires c.retry.Sane() && EdgeInv(c, e, stored)
    requires key in e.rows && e.rows[key].status == Pending && e.rows[key].attempts >= 1
    ensures DueInTime(c.retry, e, key)
  {
    hide Pow2, LongestOfAll;
    assert Scheduled(c, e, key);
    hide EdgeInv, Retry.Unit, Retry.Most;
    LongestAddUp(c.retry, e.rows[key].attempts);
  }

  // ---------------------------------------------------------------- draining

  lemma {:induction false} AttemptsLeftMonotone<P>(before: Table<P>, after: Table<P>, n: nat, maxAttempts: nat)
    requires forall k :: Weight(after, k, maxAttempts) <= Weight(before, k, maxAttempts)
    ensures AttemptsLeft(after, n, maxAttempts) <= AttemptsLeft(before, n, maxAttempts)
  {
    if n > 0 {
      AttemptsLeftMonotone(before, after, n - 1, maxAttempts);
    }
  }

  /** Without new rows or replays, no step adds attempts, and each row marked uses some up; so at most
      the initial number of attempts left can ever be made. */
  lemma StepsDrain<P>(c: Settings, e: Edge<P>, stored: set<nat>, step: Step<P>)
    requires c.retry.Sane() && EdgeInv(c, e, stored) && Enabled(c, e, step)
    requires !step.Enqueue? && !step.ReplayOne? && !step.ReplayOldest?
    ensures var before := AttemptsLeft(e.rows, e.nextRow, c.retry.maxAttempts);
            var after := AttemptsLeft(Apply(c, e, step).rows, e.nextRow, c.retry.maxAttempts);
            0 <= after <= before && (step.MarkNext? ==> after < before)
  {
    var e', max := Apply(c, e, step), c.retry.maxAttempts;
    if step.MarkNext? {
      var key := e.phase.rest[0];
      assert key in e.phase.rest && Due(e.rows, key, e.now) && Scheduled(c, e, key);
      MarkUsesUpAttempts(c.retry, e.rows, e.nextRow, key, e.now, step.draw);
      MarkKeepsInv(c, e, stored, step.draw);
    } else {
      AttemptsLeftMonotone(e.rows, e'.rows, e.nextRow, max);
      if step.NoteFailure? || step.PurgeSent? {
        MaintenanceSteps(c, e, step);
        MaintenanceKeepsInv(c, e, stored, e'.rows);
      }
    }
    forall k | k in e'.rows
      ensures WithinBudget(c.retry, e'.rows[k])
    {
      assert Scheduled(c, e', k) || (e'.rows == e.rows && Scheduled(c, e, k));
    }
    AttemptsLeftNonNegative(e'.rows, e.nextRow, c.retry);
  }

  lemma InvLeavesAttempts<P>(c: Settings, e: Edge<P>, stored: set<nat>)
    requires c.retry.Sane() && EdgeInv(c, e, stored)
    ensures AttemptsLeft(e.rows, e.nextRow, c.retry.maxAttempts) >= 0
  {
    forall k | k in e.rows
      ensures WithinBudget(c.retry, e.rows[k])
    {
      assert Scheduled(c, e, k);
    }
    AttemptsLeftNonNegative(e.rows, e.nextRow, c.retry);
  }

  /** A run of the edge alone from a state that satisfies the invariant. */
  ghost predicate DrainingRun<P>(c: Settings, stored: set<nat>, states: seq<Edge<P>>, steps: seq<Step<P>>) {
    && |states| == |steps| + 1
    && EdgeInv(c, states[0], stored)
    && forall i :: 0 <= i < |steps| ==>
         && Enabled(c, states[i], steps[i]) && states[i + 1] == Apply(c, states[i], steps[i])
         && !steps[i].Enqueue? && !steps[i].ReplayOne? && !steps[i].ReplayOldest?
         && (steps[i].Answer? && steps[i].ok ==> forall key :: key in states[i].phase.batch ==> key in stored)
  }

  function MarksIn<P>(steps: seq<Step<P>>): nat {
    if steps == [] then 0
    else MarksIn(steps[..|steps| - 1]) + (if steps[|steps| - 1].MarkNext? then 1 else 0)
  }

  lemma {:induction false} MarksCount<P>(steps: seq<Step<P>>)
    ensures MarksIn(steps) == |set i | 0 <= i < |steps| && steps[i].MarkNext?|
    decreases |steps|
  {
    if steps != [] {
      var n := |steps| - 1;
      MarksCount(steps[..n]);
      var before := set i | 0 <= i < n && steps[..n][i].MarkNext?;
      var after := set i | 0 <= i < |steps| && steps[i].MarkNext?;
      if steps[n].MarkNext? {
        assert after == before + {n};
      } else {
        assert after == before;
      }
    }
  }

  /** However answers, timeouts and crashes fall, a run without new rows or replays marks rows at most
      as often as the attempts its first state had left. */
  lemma {:induction false} MarksAreBounded<P>(c: Settings, stored: set<nat>, states: seq<Edge<P>>, steps: seq<Step<P>>)
    requires c.retry.Sane() && DrainingRun(c, stored, states, steps)
    ensures EdgeInv(c, states[|steps|], stored) && states[|steps|].nextRow == states[0].nextRow
    ensures MarksIn(steps) + AttemptsLeft(states[|steps|].rows, states[0].nextRow, c.retry.maxAttempts)
         <= AttemptsLeft(states[0].rows, states[0].nextRow, c.retry.maxAttempts)
    ensures 0 <= AttemptsLeft(states[|steps|].rows, states[0].nextRow, c.retry.maxAttempts)
    decreases |steps|
  {
    InvLeavesAttempts(c, states[0], stored);
    hide EdgeInv;
    if steps == [] {
    } else {
      var n := |steps| - 1;
      MarksAreBounded(c, stored, states[..n + 1], steps[..n]);
      StepsDrain(c, states[n], stored, steps[n]);
      EdgeStepKeepsInv(c, states[n], stored, steps[n]);
    }
  }
}
