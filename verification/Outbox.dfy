/** The durable telemetry outbox: rows that are PENDING, SENT or in the dead-letter queue.
    The table is a map from the AUTOINCREMENT primary key to the row; times are seconds. */
module Outbox {
  import opened Collections
  import opened Wrappers

  datatype Status = Pending | Sent | Dlq

  datatype Row<P> = Row(
    createdAt: real,
    payload: P,
    attempts: nat,
    nextAttemptAt: real,
    status: Status,
    lastError: Option<string>,
    lastErrorAt: Option<real>,
    lastAttemptAt: Option<real>,
    lastSuccessAt: Option<real>)

  type Table<P> = map<nat, Row<P>>

  /** The exporter's retry settings. */
  datatype Retry = Retry(maxAttempts: nat, initial: real, jitter: real) {
    ghost predicate Sane() {
      maxAttempts >= 1 && initial >= 0.0 && jitter >= 0.0
    }

    /** The least factor by which jitter can shrink a backoff, times the first backoff. */
    function Unit(): (unit: real)
      ensures unit == initial - jitter * initial
    {
      initial * (1.0 - jitter)
    }

    /** The greatest factor by which jitter can stretch it, times the first backoff. */
    function Most(): (most: real)
      ensures most == initial + jitter * initial
    {
      initial * (1.0 + jitter)
    }
  }

  const SECONDS_PER_DAY := 86400.0

  // ---------------------------------------------------------------- single-row updates

  function FreshRow<P>(payload: P, now: real): Row<P> {
    Row(now, payload, 0, now, Pending, None, None, None, None)
  }

  function SentRow<P>(row: Row<P>, now: real): Row<P> {
    row.(status := Sent, lastAttemptAt := Some(now), lastSuccessAt := Some(now), lastError := None, lastErrorAt := None)
  }

  function Pow2(n: nat): (p: nat)
    ensures p >= 1
  {
    if n == 0 then 1 else 2 * Pow2(n - 1)
  }

  /** The powers of two: the sums of exponents become products, starting from 2 itself. */
  lemma {:induction false} PowersOfTwo(a: nat, b: nat)
    ensures Pow2(1) == 2 && Pow2(a + b) == Pow2(a) * Pow2(b)
  {
    if a > 0 {
      PowersOfTwo(a - 1, b);
    }
  }

  /** Delay before retry number `attempts`, given the random draw `u` in [-jitter, jitter]. */
  function Backoff(retry: Retry, attempts: nat, u: real): real
    requires attempts >= 1
  {
    var base := retry.initial * Pow2(attempts - 1) as real;
    var scaled := base * (1.0 + u);
    if scaled > 0.1 then scaled else 0.1
  }

  lemma BackoffIs(retry: Retry, failures: nat, u: real)
    ensures var delay := retry.initial * Pow2(failures) as real * (1.0 + u);
            Backoff(retry, failures + 1, u) == if delay > 0.1 then delay else 0.1
  {
    hide Pow2;
  }

  predicate JitterDraw(retry: Retry, u: real) {
    if retry.jitter > 0.0 then -retry.jitter <= u <= retry.jitter else u == 0.0
  }

  function FailedRow<P>(row: Row<P>, retry: Retry, now: real, u: real): Row<P> {
    var attempts := row.attempts + 1;
    if attempts >= retry.maxAttempts then
      row.(status := Dlq, attempts := attempts, lastErrorAt := Some(now), lastAttemptAt := Some(now))
    else
      row.(attempts := attempts, nextAttemptAt := now + Backoff(retry, attempts, u),
           lastErrorAt := Some(now), lastAttemptAt := Some(now))
  }

  function ReplayedRow<P>(row: Row<P>, now: real): Row<P> {
    row.(status := Pending, attempts := 0, nextAttemptAt := now, lastError := None, lastErrorAt := None)
  }

  // ---------------------------------------------------------------- queries

  predicate Due<P>(t: Table<P>, id: nat, now: real) {
    id in t && t[id].status == Pending && t[id].nextAttemptAt <= now
  }

  function DueIds<P>(t: Table<P>, now: real): set<nat> {
    set id | id in t && Due(t, id, now)
  }

  function DlqIds<P>(t: Table<P>): set<nat> {
    set id | id in t && t[id].status == Dlq
  }

  /** `ORDER BY created_at ASC LIMIT limit` over the eligible rows; ties may come in any order. */
  ghost predicate OldestFirst<P>(t: Table<P>, eligible: set<nat>, limit: nat, ids: seq<nat>)
    requires eligible <= t.Keys
  {
    && Distinct(ids)
    && |ids| <= limit
    && (forall id :: id in ids ==> id in eligible)
    && (forall i, j :: 0 <= i < j < |ids| && ids[i] in t && ids[j] in t ==> t[ids[i]].createdAt <= t[ids[j]].createdAt)
    && (forall id :: id in eligible && id !in ids ==>
          |ids| == limit && forall i :: 0 <= i < |ids| && ids[i] in t ==> t[ids[i]].createdAt <= t[id].createdAt)
  }

  predicate IsOldest<P>(t: Table<P>, eligible: set<nat>, id: nat)
    requires eligible <= t.Keys
  {
    id in eligible && forall other :: other in eligible ==> t[id].createdAt <= t[other].createdAt
  }

  lemma OldestExists<P>(t: Table<P>, eligible: set<nat>) returns (id: nat)
    requires eligible <= t.Keys && eligible != {}
    ensures IsOldest(t, eligible, id)
    decreases eligible
  {
    id :| id in eligible;
    var rest := eligible - {id};
    assert forall other :: other in eligible ==> other == id || other in rest;
    if rest != {} {
      var y := OldestExists(t, rest);
      if t[y].createdAt < t[id].createdAt {
        id := y;
      }
    }
  }

  /** The chosen rows are oldest first, and no newer than the rest. */
  ghost predicate Before<P>(t: Table<P>, ids: seq<nat>, rest: set<nat>)
    requires rest <= t.Keys && forall id :: id in ids ==> id in t
  {
    && (forall i, j :: 0 <= i < j < |ids| ==> t[ids[i]].createdAt <= t[ids[j]].createdAt)
    && (forall i, id :: 0 <= i < |ids| && id in rest ==> t[ids[i]].createdAt <= t[id].createdAt)
  }

  lemma NextOldest<P>(t: Table<P>, ids: seq<nat>, rest: set<nat>, pick: nat)
    requires rest <= t.Keys && (forall id :: id in ids ==> id in t) && Before(t, ids, rest)
    requires IsOldest(t, rest, pick)
    ensures Before(t, ids + [pick], rest - {pick})
  {
    forall i, id | 0 <= i < |ids + [pick]| && id in rest - {pick}
      ensures t[(ids + [pick])[i]].createdAt <= t[id].createdAt
    {
      assert id in rest;
    }
  }

  predicate Purgeable<P>(row: Row<P>, cutoff: real) {
    row.status == Sent && (if row.lastSuccessAt.Some? then row.lastSuccessAt.value else row.createdAt) < cutoff
  }

  function Purge<P>(t: Table<P>, retentionDays: int, now: real): Table<P> {
    if retentionDays <= 0 then t
    else map id | id in t && !Purgeable(t[id], now - retentionDays as real * SECONDS_PER_DAY) :: t[id]
  }

  function Replay<P>(t: Table<P>, ids: set<nat>, now: real): Table<P> {
    map id | id in t :: if id in ids then ReplayedRow(t[id], now) else t[id]
  }

  lemma ReplayMoves<P>(t: Table<P>, ids: seq<nat>, now: real)
    requires forall id :: id in ids ==> id in DlqIds(t)
    ensures var after := Replay(t, Elements(ids), now);
            && after.Keys == t.Keys && DlqIds(after) == DlqIds(t) - Elements(ids)
            && (forall id :: id in after ==> after[id].createdAt == t[id].createdAt)
            && (forall id :: id in after && after[id] != t[id] ==>
                  t[id].status == Dlq && after[id] == ReplayedRow(t[id], now))
  {
  }

  /** Replaying the oldest dead-lettered rows up to the limit. */
  lemma ReplayEffect<P>(t: Table<P>, ids: seq<nat>, limit: nat, now: real)
    requires OldestFirst(t, DlqIds(t), limit, ids)
    ensures var after := Replay(t, Elements(ids), now);
            && after.Keys == t.Keys && DlqIds(after) <= DlqIds(t)
            && |DlqIds(t) - DlqIds(after)| == |ids| <= limit
            && (forall id :: id in after && after[id] != t[id] ==>
                  t[id].status == Dlq && after[id] == ReplayedRow(t[id], now))
            && (forall id, moved :: id in DlqIds(after) && moved in DlqIds(t) && moved !in DlqIds(after) ==>
                  |ids| == limit && after[moved].createdAt <= after[id].createdAt)
  {
    var after := Replay(t, Elements(ids), now);
    ReplayMoves(t, ids, now);
    SetSizeIffDistinct(ids);
    hide Replay, ReplayedRow;
    assert DlqIds(t) - DlqIds(after) == Elements(ids);
    forall id, moved | id in DlqIds(after) && moved in DlqIds(t) && moved !in DlqIds(after)
      ensures |ids| == limit && after[moved].createdAt <= after[id].createdAt
    {
      OlderThanRest(t, DlqIds(t), limit, ids, moved, id);
    }
  }

  lemma OlderThanRest<P>(t: Table<P>, eligible: set<nat>, limit: nat, ids: seq<nat>, chosen: nat, other: nat)
    requires eligible <= t.Keys && OldestFirst(t, eligible, limit, ids)
    requires chosen in ids && other in eligible && other !in ids
    ensures |ids| == limit && t[chosen].createdAt <= t[other].createdAt
  {
  }

  // ---------------------------------------------------------------- the repository

  class OutboxRepository<P(==)> {
    var rows: Table<P>
    var nextId: nat

    ghost predicate Valid()
      reads this
    {
      forall id :: id in rows ==> id < nextId
    }

    constructor ()
      ensures Valid() && rows == map[]
    {
      rows := map[];
      nextId := 1;
    }

    /** Inserts a row that is immediately due, under a key never used before. */
    method AddEvent(payload: P, now: real) returns (id: nat)
      requires Valid()
      modifies this
      ensures Valid() && id == old(nextId) && nextId == id + 1
      ensures id !in old(rows) && rows.Keys == old(rows.Keys) + {id}
      ensures forall other :: other in old(rows) ==> rows[other] == old(rows)[other]
      ensures rows[id].payload == payload && rows[id].status == Pending && rows[id].attempts == 0
      ensures rows[id].createdAt == rows[id].nextAttemptAt == now
      ensures rows[id].lastError == None && rows[id].lastErrorAt == None
      ensures rows[id].lastAttemptAt == None && rows[id].lastSuccessAt == None
      ensures Due(rows, id, now) && rows == old(rows)[id := FreshRow(payload, now)]
    {
      id := nextId;
      rows := rows[id := FreshRow(payload, now)];
      nextId := nextId + 1;
    }

    /** `ORDER BY created_at ASC LIMIT`: picks the oldest remaining row until the limit is reached. */
    method SelectOldest(eligible: set<nat>, limit: nat) returns (ids: seq<nat>)
      requires eligible <= rows.Keys
      ensures OldestFirst(rows, eligible, limit, ids)
      ensures |ids| == if |eligible| < limit then |eligible| else limit
    {
      ids := [];
      var rest := eligible;
      while |ids| < limit && rest != {}
        invariant rest <= eligible && |ids| <= limit && Distinct(ids)
        invariant forall id :: id in ids ==> id in eligible && id !in rest
        invariant forall id :: id in eligible && id !in ids ==> id in rest
        invariant Before(rows, ids, rest) && |ids| + |rest| == |eligible|
        decreases rest
      {
        ghost var oldest := OldestExists(rows, rest);
        var pick :| pick in rest && IsOldest(rows, rest, pick);
        NextOldest(rows, ids, rest, pick);
        hide IsOldest;
        ids := ids + [pick];
        rest := rest - {pick};
      }
    }

    /** Every row handed out is PENDING with its next attempt due; a due row left out is no older than any
        of them, and is left out only for the limit. */
    method GetPendingEvents(now: real, limit: nat) returns (ids: seq<nat>)
      ensures OldestFirst(rows, DueIds(rows, now), limit, ids)
      ensures ids == [] && limit > 0 ==> forall id :: !Due(rows, id, now)
      ensures |ids| <= limit && forall i, j :: 0 <= i < j < |ids| ==> ids[i] != ids[j]
      ensures forall id :: id in ids ==> id in rows && rows[id].status == Pending && rows[id].nextAttemptAt <= now
      ensures forall i, j :: 0 <= i < j < |ids| ==> rows[ids[i]].createdAt <= rows[ids[j]].createdAt
      ensures forall id :: id in rows && rows[id].status == Pending && rows[id].nextAttemptAt <= now && id !in ids ==>
                |ids| == limit && forall k :: k in ids ==> rows[k].createdAt <= rows[id].createdAt
    {
      ids := SelectOldest(DueIds(rows, now), limit);
      assert forall id :: Due(rows, id, now) ==> id in DueIds(rows, now);
    }

    /** The row becomes SENT at this moment, free of errors; payload, age and attempts stay. */
    method MarkSent(id: nat, now: real)
      modifies this`rows
      ensures rows.Keys == old(rows.Keys)
      ensures forall other :: other in rows && other != id ==> rows[other] == old(rows)[other]
      ensures id in rows ==>
                var was, row := old(rows)[id], rows[id];
                && row.status == Sent && row.lastAttemptAt == Some(now) && row.lastSuccessAt == Some(now)
                && row.lastError == None && row.lastErrorAt == None
                && row.payload == was.payload && row.createdAt == was.createdAt
                && row.attempts == was.attempts && row.nextAttemptAt == was.nextAttemptAt
      ensures id in rows ==> rows[id] == SentRow(old(rows)[id], now)
    {
      if id in rows {
        rows := rows[id := SentRow(rows[id], now)];
      }
    }

    /** First commit of a failure: only the error text changes. */
    method NoteError(id: nat, error: string)
      modifies this`rows
      ensures rows.Keys == old(rows.Keys)
      ensures forall other :: other in rows && other != id ==> rows[other] == old(rows)[other]
      ensures id in rows ==> rows[id] == old(rows)[id].(lastError := Some(error))
    {
      if id in rows {
        rows := rows[id := rows[id].(lastError := Some(error))];
      }
    }

    /** Second commit of a failure: another attempt is counted. Below the maximum the row is due again after
        the first backoff, doubled for each failure before and scaled by the jitter, but no sooner than in
        0.1 s; at the maximum it is moved to the dead-letter queue. */
    method MarkFailed(id: nat, retry: Retry, now: real, u: real)
      modifies this`rows
      ensures rows.Keys == old(rows.Keys)
      ensures forall other :: other in rows && other != id ==> rows[other] == old(rows)[other]
      ensures id in rows ==>
                var was, row := old(rows)[id], rows[id];
                && row.attempts == was.attempts + 1
                && row.lastErrorAt == Some(now) && row.lastAttemptAt == Some(now)
                && row.payload == was.payload && row.createdAt == was.createdAt
                && row.lastError == was.lastError && row.lastSuccessAt == was.lastSuccessAt
      ensures id in rows && old(rows)[id].attempts + 1 >= retry.maxAttempts ==>
                rows[id].status == Dlq && rows[id].nextAttemptAt == old(rows)[id].nextAttemptAt
      ensures id in rows && old(rows)[id].attempts + 1 < retry.maxAttempts ==>
                var delay := retry.initial * Pow2(old(rows)[id].attempts) as real * (1.0 + u);
                && rows[id].status == old(rows)[id].status
                && rows[id].nextAttemptAt - now == if delay > 0.1 then delay else 0.1
      ensures id in rows ==> rows[id] == FailedRow(old(rows)[id], retry, now, u)
    {
      if id !in rows {
        return;
      }
      BackoffIs(retry, rows[id].attempts, u);
      hide Backoff, Pow2;
      var row := rows[id];
      var attempts := row.attempts + 1;
      if attempts >= retry.maxAttempts {
        row := row.(status := Dlq, attempts := attempts);
      } else {
        row := row.(attempts := attempts, nextAttemptAt := now + Backoff(retry, attempts, u));
      }
      rows := rows[id := row.(lastErrorAt := Some(now), lastAttemptAt := Some(now))];
    }

    method MarkFailedWithError(id: nat, error: string, retry: Retry, now: real, u: real)
      modifies this`rows
      ensures rows.Keys == old(rows.Keys)
      ensures forall other :: other in rows && other != id ==> rows[other] == old(rows)[other]
      ensures id in rows ==> rows[id] == FailedRow(old(rows)[id].(lastError := Some(error)), retry, now, u)
    {
      NoteError(id, error);
      MarkFailed(id, retry, now, u);
    }

    /** Moves one dead-lettered row back to PENDING; any other row is refused and untouched. */
    method ReplayDlqEvent(id: nat, now: real) returns (replayed: bool)
      modifies this`rows
      ensures replayed <==> id in old(rows) && old(rows)[id].status == Dlq
      ensures rows == if replayed then old(rows)[id := ReplayedRow(old(rows)[id], now)] else old(rows)
      ensures replayed ==>
                var was, row := old(rows)[id], rows[id];
                && row.status == Pending && row.attempts == 0 && row.nextAttemptAt == now
                && row.lastError == None && row.lastErrorAt == None
                && row.payload == was.payload && row.createdAt == was.createdAt
                && row.lastAttemptAt == was.lastAttemptAt && row.lastSuccessAt == was.lastSuccessAt
    {
      replayed := id in rows && rows[id].status == Dlq;
      if replayed {
        rows := rows[id := ReplayedRow(rows[id], now)];
      }
    }

    /** Up to the limit, the oldest dead-lettered rows start again; all other rows stay as they are. */
    method ReplayDlqEvents(limit: nat, now: real) returns (count: nat)
      modifies this`rows
      ensures rows.Keys == old(rows.Keys)
      ensures forall id :: id in rows && rows[id] != old(rows)[id] ==>
                var was, row := old(rows)[id], rows[id];
                && was.status == Dlq && row.status == Pending && row.attempts == 0 && row.nextAttemptAt == now
                && row.lastError == None && row.lastErrorAt == None
                && row.payload == was.payload && row.createdAt == was.createdAt
                && row.lastAttemptAt == was.lastAttemptAt && row.lastSuccessAt == was.lastSuccessAt
      ensures count <= limit && DlqIds(rows) <= DlqIds(old(rows))
      ensures count == |DlqIds(old(rows)) - DlqIds(rows)|
      ensures forall id, moved :: id in DlqIds(rows) && moved in DlqIds(old(rows)) && moved !in DlqIds(rows) ==>
                count == limit && rows[moved].createdAt <= rows[id].createdAt
      ensures exists ids :: OldestFirst(old(rows), DlqIds(old(rows)), limit, ids) && count == |ids|
                         && rows == Replay(old(rows), Elements(ids), now)
    {
      var ids := SelectOldest(DlqIds(rows), limit);
      ReplayEffect(rows, ids, limit, now);
      ghost var before := rows;
      hide Replay, DlqIds, OldestFirst, ReplayedRow;
      rows := Replay(rows, Elements(ids), now);
      count := |ids|;
      assert OldestFirst(before, DlqIds(before), limit, ids);
    }

    /** Deletes SENT rows past retention and nothing else. */
    method PurgeSentOlderThan(retentionDays: int, now: real) returns (deleted: nat)
      modifies this`rows
      ensures rows.Keys <= old(rows.Keys)
      ensures forall id :: id in rows ==> rows[id] == old(rows)[id]
      ensures forall id :: id in old(rows) ==>
                var was := old(rows)[id];
                var finished := if was.lastSuccessAt.Some? then was.lastSuccessAt.value else was.createdAt;
                (id !in rows <==>
                  retentionDays > 0 && was.status == Sent && now - finished > retentionDays as real * 86400.0)
      ensures deleted == |old(rows)| - |rows|
    {
      var kept := Purge(rows, retentionDays, now);
      assert kept.Keys <= rows.Keys;
      SubsetSize(kept.Keys, rows.Keys);
      deleted := |rows| - |kept|;
      rows := kept;
    }
  }
}
