/** The exporter's methods over the outbox: enqueue, build a batch, send it, mark every row. */
module ExporterService {
  import opened Collections
  import opened Wrappers
  import opened Telemetry
  import opened Outbox
  import opened CloudIngest
  import opened Exporter

  /** One clock reading and one jitter draw for each row marked. */
  datatype Tick = Tick(now: real, draw: real)

  function FailedAt(row: Row<JsonObject>, error: string, retry: Retry, tick: Tick): Row<JsonObject> {
    FailedRow(row.(lastError := Some(error)), retry, tick.now, tick.draw)
  }

  class TelemetryExporter {
    const outbox: OutboxRepository<JsonObject>
    const signer: Signer
    const retry: Retry
    const batchSize: nat
    var lastError: Option<string>

    constructor (signer: Signer, retry: Retry, batchSize: nat)
      ensures this.signer == signer && this.retry == retry && this.batchSize == batchSize
      ensures fresh(outbox) && outbox.Valid() && outbox.rows == map[]
    {
      this.signer, this.retry, this.batchSize := signer, retry, batchSize;
      lastError := None;
      outbox := new OutboxRepository();
    }

    /** Signs the event under the exporter's identity and stores it, due at once. */
    method AddEvent(e: TelemetryEvent, now: real) returns (id: nat)
      requires outbox.Valid()
      modifies outbox
      ensures outbox.Valid() && id !in old(outbox.rows)
      ensures outbox.rows == old(outbox.rows)[id := FreshRow(EnqueuedPayload(signer, e), now)]
    {
      var owned := e;
      if e.deviceId != signer.deviceId {
        owned := e.(deviceId := signer.deviceId);
      }
      id := outbox.AddEvent(ToDict(SignEvent(signer, owned)), now);
    }

    method BuildIngestBatch(ids: seq<nat>, batchId: string, timestamp: int) returns (batch: Option<WireBatch>)
      requires forall id :: id in ids ==> id in outbox.rows
      modifies this
      ensures batch == BuildBatch(signer, Payloads(outbox.rows, ids), batchId, timestamp)
      ensures batch.Some? <==> forall id :: id in ids ==> Usable(signer, outbox.rows[id].payload)
      ensures batch.Some? ==>
                && batch.value.batchId == batchId && batch.value.deviceId == signer.deviceId
                && batch.value.timestamp == timestamp && batch.value.publicKey == signer.publicKey
                && batch.value.batchSignature
                     == signer.sign(BatchSignable(batchId, signer.deviceId, timestamp, batch.value.events))
                && |batch.value.events| == |ids|
                && forall k :: 0 <= k < |ids| ==>
                     Some(batch.value.events[k]) == Extract(outbox.rows[ids[k]].payload)
      ensures batch.Some? ==> lastError == old(lastError)
      ensures batch.None? ==> lastError.Some?
    {
      ghost var payloads := Payloads(outbox.rows, ids);
      var bodies: seq<JsonObject> := [];
      for i := 0 to |ids|
        invariant |bodies| == i && lastError == old(lastError)
        invariant forall k :: 0 <= k < i ==> Usable(signer, payloads[k]) && bodies[k] == Extract(payloads[k]).value
      {
        var body := Extract(outbox.rows[ids[i]].payload);
        if body.None? {
          lastError := Some("Invalid outbox payload");
          assert payloads[i] in payloads;
          return None;
        }
        if Get(body.value, KDeviceId) != Str(signer.deviceId) {
          lastError := Some("event.device_id mismatch");
          assert payloads[i] in payloads;
          return None;
        }
        bodies := bodies + [body.value];
      }
      assert bodies == Bodies(payloads);
      batch := Some(SignedBatch(signer, bodies, batchId, timestamp));
    }

    /** Marks every row of an acknowledged batch SENT, one commit at a time. */
    method MarkAllSent(ids: seq<nat>, ticks: seq<Tick>)
      requires Distinct(ids) && |ticks| == |ids| && forall id :: id in ids ==> id in outbox.rows
      modifies outbox`rows
      ensures outbox.rows.Keys == old(outbox.rows.Keys)
      ensures forall k :: 0 <= k < |ids| ==> outbox.rows[ids[k]] == SentRow(old(outbox.rows)[ids[k]], ticks[k].now)
      ensures forall id :: id in outbox.rows && id !in ids ==> outbox.rows[id] == old(outbox.rows)[id]
    {
      for i := 0 to |ids|
        invariant outbox.rows.Keys == old(outbox.rows.Keys)
        invariant forall k :: 0 <= k < i ==> outbox.rows[ids[k]] == SentRow(old(outbox.rows)[ids[k]], ticks[k].now)
        invariant forall k :: i <= k < |ids| ==> outbox.rows[ids[k]] == old(outbox.rows)[ids[k]]
        invariant forall id :: id in outbox.rows && id !in ids ==> outbox.rows[id] == old(outbox.rows)[id]
      {
        outbox.MarkSent(ids[i], ticks[i].now);
      }
    }

    /** Counts a failed attempt on every row, one commit at a time. */
    method MarkAllFailed(ids: seq<nat>, error: string, ticks: seq<Tick>)
      requires Distinct(ids) && |ticks| == |ids| && forall id :: id in ids ==> id in outbox.rows
      modifies outbox`rows
      ensures outbox.rows.Keys == old(outbox.rows.Keys)
      ensures forall k :: 0 <= k < |ids| ==>
                        outbox.rows[ids[k]] == FailedAt(old(outbox.rows)[ids[k]], error, retry, ticks[k])
      ensures forall id :: id in outbox.rows && id !in ids ==> outbox.rows[id] == old(outbox.rows)[id]
    {
      for i := 0 to |ids|
        invariant outbox.rows.Keys == old(outbox.rows.Keys)
        invariant forall k :: 0 <= k < i ==>
                            outbox.rows[ids[k]] == FailedAt(old(outbox.rows)[ids[k]], error, retry, ticks[k])
        invariant forall k :: i <= k < |ids| ==> outbox.rows[ids[k]] == old(outbox.rows)[ids[k]]
        invariant forall id :: id in outbox.rows && id !in ids ==> outbox.rows[id] == old(outbox.rows)[id]
      {
        outbox.MarkFailedWithError(ids[i], error, retry, ticks[i].now, ticks[i].draw);
      }
    }

    /** Sends one batch. `answer` is what the POST brought back: a reply, or None for an exception.
        The rows all become SENT if the answer acknowledges the batch; otherwise each of them has
        one more failed attempt, and no row outside the batch changes. */
    method ExportBatch(ids: seq<nat>, batchId: string, timestamp: int, answer: Option<Reply>, ticks: seq<Tick>)
      returns (success: bool)
      requires Distinct(ids) && |ticks| == |ids| && forall id :: id in ids ==> id in outbox.rows
      modifies this, outbox`rows
      ensures outbox.rows.Keys == old(outbox.rows.Keys)
      ensures forall id :: id in outbox.rows && id !in ids ==> outbox.rows[id] == old(outbox.rows)[id]
      ensures success <==> ids == [] || (BuildBatch(signer, Payloads(old(outbox.rows), ids), batchId, timestamp).Some?
                                         && answer.Some? && answer.value.Accepted?
                                         && answer.value.ingested + answer.value.duplicated == |ids|)
      ensures success ==> forall k :: 0 <= k < |ids| ==>
                            outbox.rows[ids[k]] == SentRow(old(outbox.rows)[ids[k]], ticks[k].now)
      ensures !success ==> lastError.Some?
      ensures !success ==>
                forall k :: 0 <= k < |ids| ==>
                  outbox.rows[ids[k]] == FailedAt(old(outbox.rows)[ids[k]], lastError.value, retry, ticks[k])
    {
      if ids == [] {
        return true;
      }
      var batch := BuildIngestBatch(ids, batchId, timestamp);
      if batch.None? {
        MarkAllFailed(ids, lastError.value, ticks);
        return false;
      }
      success := answer.Some? && Acknowledges(|batch.value.events|, answer.value);
      if success {
        lastError := None;
        MarkAllSent(ids, ticks);
      } else {
        lastError := Some(if answer.None? then "exception"
                          else if answer.value.Rejected? then "status" else "events_ingested_mismatch");
        MarkAllFailed(ids, lastError.value, ticks);
      }
    }

    /** One pass of the exporter: a partial batch waits unless forced; what is sent was due. */
    method ExportPending(force: bool, now: real, batchId: string, timestamp: int,
                         answer: Option<Reply>, ticks: seq<Tick>)
      returns (success: bool, sent: seq<nat>)
      requires |ticks| == batchSize
      modifies this, outbox`rows
      ensures Distinct(sent) && |sent| <= batchSize && forall id :: id in sent ==> Due(old(outbox.rows), id, now)
      ensures outbox.rows.Keys == old(outbox.rows.Keys)
      ensures forall id :: id in outbox.rows && id !in sent ==> outbox.rows[id] == old(outbox.rows)[id]
      ensures sent == [] <==> batchSize == 0 || |DueIds(old(outbox.rows), now)| == 0
                              || (!force && |DueIds(old(outbox.rows), now)| < batchSize)
      ensures sent != [] && success ==>
                answer.Some? && answer.value.Accepted? && answer.value.ingested + answer.value.duplicated == |sent|
      ensures success ==> forall id :: id in sent ==> id in outbox.rows && outbox.rows[id].status == Status.Sent
      ensures !success ==>
                forall id :: id in sent ==>
                  id in outbox.rows && outbox.rows[id].attempts == old(outbox.rows)[id].attempts + 1
    {
      var pending := outbox.GetPendingEvents(now, batchSize);
      SelectionSize(outbox.rows, DueIds(outbox.rows, now), batchSize, pending);
      if |pending| == 0 || (|pending| < batchSize && !force) {
        return true, [];
      }
      success := ExportBatch(pending, batchId, timestamp, answer, ticks[..|pending|]);
      sent := pending;
    }
  }

  function Payloads(t: Table<JsonObject>, ids: seq<nat>): (payloads: seq<JsonObject>)
    requires forall id :: id in ids ==> id in t
    ensures |payloads| == |ids|
    ensures forall i :: 0 <= i < |ids| ==> payloads[i] == t[ids[i]].payload
  {
    seq(|ids|, i requires 0 <= i < |ids| => t[ids[i]].payload)
  }

  /** A LIMIT query returns all eligible rows or exactly `limit` of them. */
  lemma SelectionSize<P>(t: Table<P>, eligible: set<nat>, limit: nat, ids: seq<nat>)
    requires eligible <= t.Keys && OldestFirst(t, eligible, limit, ids)
    ensures |ids| == if |eligible| <= limit then |eligible| else limit
  {
    SetSizeIffDistinct(ids);
    assert Elements(ids) <= eligible;
    SubsetSize(Elements(ids), eligible);
    if |ids| < limit {
      assert Elements(ids) == eligible;
    }
  }
}
