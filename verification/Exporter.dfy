/** The edge exporter: signing and enqueueing, building a batch from outbox rows,
    judging the cloud's answer, and marking each row. */
module Exporter {
  import opened Collections
  import opened Wrappers
  import opened Telemetry
  import opened CloudIngest
  import IngestService

  /** The device identity: its id, its public key, and signing with the private key. */
  datatype Signer = Signer(deviceId: string, publicKey: string, sign: JsonObject -> string)

  /** The law of the signature scheme (section 5.1 of RFC 8032): what was signed verifies. */
  ghost predicate Correct(signer: Signer, verify: Verifier) {
    forall m :: verify(signer.publicKey, m, signer.sign(m))
  }

  function SignEvent(signer: Signer, e: TelemetryEvent): TelemetryEvent {
    e.(signature := Some(signer.sign(EventSignable(ToDict(e)))))
  }

  /** The record as it leaves the edge: owned by this device, and signed. */
  function SignedRecord(signer: Signer, e: TelemetryEvent): (r: TelemetryEvent)
    ensures r.deviceId == signer.deviceId && r.signature.Some?
    ensures r.(deviceId := e.deviceId, signature := e.signature) == e
  {
    SignEvent(signer, e.(deviceId := signer.deviceId))
  }

  /** The payload enqueued for an event, after forcing the exporter's own device id. */
  function EnqueuedPayload(signer: Signer, e: TelemetryEvent): JsonObject {
    ToDict(SignedRecord(signer, e))
  }

  /** Rows hold an event object directly or, for legacy rows, under the key "event". */
  function Extract(payload: JsonObject): Option<JsonObject> {
    var o := if KEvent in payload && payload[KEvent].Obj? then payload[KEvent].fields else payload;
    if KEventId in o && KSignature in o then Some(o) else None
  }

  predicate Usable(signer: Signer, payload: JsonObject) {
    var o := Extract(payload);
    o.Some? && Get(o.value, KDeviceId) == Str(signer.deviceId)
  }

  /** A row is usable exactly if the event object it holds, directly or under "event", has an id and a signature
      and names this device. */
  lemma UsableIff(signer: Signer, payload: JsonObject)
    ensures var wrapped := KEvent in payload && payload[KEvent].Obj?;
            var o := if wrapped then payload[KEvent].fields else payload;
            && (Usable(signer, payload) <==>
                  KEventId in o && KSignature in o && KDeviceId in o && o[KDeviceId] == Str(signer.deviceId))
            && (Usable(signer, payload) ==> Extract(payload) == Some(o))
  {
  }

  function Bodies(payloads: seq<JsonObject>): (bodies: seq<JsonObject>)
    requires forall p :: p in payloads ==> Extract(p).Some?
    ensures |bodies| == |payloads|
    ensures forall i :: 0 <= i < |bodies| ==> bodies[i] == Extract(payloads[i]).value
  {
    seq(|payloads|, i requires 0 <= i < |payloads| => Extract(payloads[i]).value)
  }

  function SignedBatch(signer: Signer, events: seq<JsonObject>, batchId: string, timestamp: int): (w: WireBatch)
    ensures w.batchId == batchId && w.deviceId == signer.deviceId && w.timestamp == timestamp
    ensures w.publicKey == signer.publicKey && w.events == events
  {
    WireBatch(batchId, signer.deviceId, timestamp, signer.publicKey,
              signer.sign(BatchSignable(batchId, signer.deviceId, timestamp, events)), events)
  }

  /** The batch for a list of rows, or None as soon as one row is unusable. */
  function BuildBatch(signer: Signer, payloads: seq<JsonObject>, batchId: string, timestamp: int): Option<WireBatch> {
    if forall p :: p in payloads ==> Usable(signer, p)
    then Some(SignedBatch(signer, Bodies(payloads), batchId, timestamp))
    else None
  }

  /** The acknowledgement rule: a 2xx whose counts cover the whole batch. */
  predicate Acknowledges(expected: nat, reply: Reply) {
    reply.Accepted? && reply.ingested + reply.duplicated == expected
  }

  // ---------------------------------------------------------------- honest batches

  lemma FieldIgnoresSignature(e: TelemetryEvent, sig: Option<string>, k: Key)
    requires k != KSignature
    ensures FieldValue(e.(signature := sig), k) == FieldValue(e, k)
  {
  }

  lemma SameApartFromSignature(a: JsonObject, b: JsonObject, f: Key -> Json, g: Key -> Json)
    requires forall k :: (k in a <==> f(k) != Null) && Get(a, k) == f(k)
    requires forall k :: (k in b <==> g(k) != Null) && Get(b, k) == g(k)
    requires forall k :: k != KSignature ==> f(k) == g(k)
    ensures EventSignable(a) == EventSignable(b)
  {
    forall k | k in EventSignable(a)
      ensures k in EventSignable(b) && EventSignable(a)[k] == EventSignable(b)[k]
    {
      assert Get(a, k) == Get(b, k);
    }
    forall k | k in EventSignable(b)
      ensures k in EventSignable(a)
    {
      assert Get(a, k) == Get(b, k);
    }
  }

  lemma SignableIgnoresSignature(e: TelemetryEvent, sig: Option<string>)
    ensures EventSignable(ToDict(e.(signature := sig))) == EventSignable(ToDict(e))
  {
    var e' := e.(signature := sig);
    DictDumps(e);
    DictDumps(e');
    forall k | k != KSignature
      ensures FieldValue(e', k) == FieldValue(e, k)
    {
      FieldIgnoresSignature(e, sig, k);
    }
    SameApartFromSignature(ToDict(e'), ToDict(e), k => FieldValue(e', k), k => FieldValue(e, k));
  }

  // ---------------------------------------------------------------- what a signature covers

  lemma RequiredFromValues(a: TelemetryEvent, b: TelemetryEvent)
    requires FieldValue(a, KEventId) == FieldValue(b, KEventId)
    requires FieldValue(a, KDeviceId) == FieldValue(b, KDeviceId)
    requires FieldValue(a, KTimestamp) == FieldValue(b, KTimestamp)
    requires FieldValue(a, KEventType) == FieldValue(b, KEventType)
    requires FieldValue(a, KOutcome) == FieldValue(b, KOutcome)
    requires FieldValue(a, KReasonCodes) == FieldValue(b, KReasonCodes)
    ensures a.eventId == b.eventId
    ensures a.deviceId == b.deviceId
    ensures a.timestamp == b.timestamp
    ensures a.eventType == b.eventType
    ensures a.outcome == b.outcome
    ensures a.reasonCodes == b.reasonCodes
  {
    CodesRead(a.reasonCodes, b.reasonCodes);
    hide Codes;
  }

  lemma NumbersFromValues(a: TelemetryEvent, b: TelemetryEvent)
    requires FieldValue(a, KLivenessPassed) == FieldValue(b, KLivenessPassed)
    requires FieldValue(a, KSimilarityScore) == FieldValue(b, KSimilarityScore)
    requires FieldValue(a, KRiskScore) == FieldValue(b, KRiskScore)
    requires FieldValue(a, KSessionDuration) == FieldValue(b, KSessionDuration)
    requires FieldValue(a, KOutboxPendingCount) == FieldValue(b, KOutboxPendingCount)
    requires FieldValue(a, KDlqCount) == FieldValue(b, KDlqCount)
    ensures a.livenessPassed == b.livenessPassed
    ensures a.similarityScore == b.similarityScore
    ensures a.riskScore == b.riskScore
    ensures a.sessionDurationSeconds == b.sessionDurationSeconds
    ensures a.outboxPendingCount == b.outboxPendingCount
    ensures a.dlqCount == b.dlqCount
  {
  }

  lemma TextsFromValues(a: TelemetryEvent, b: TelemetryEvent)
    requires FieldValue(a, KSessionId) == FieldValue(b, KSessionId)
    requires FieldValue(a, KRequestId) == FieldValue(b, KRequestId)
    requires FieldValue(a, KLastErrorSummary) == FieldValue(b, KLastErrorSummary)
    requires FieldValue(a, KAuditEventHash) == FieldValue(b, KAuditEventHash)
    ensures a.sessionId == b.sessionId
    ensures a.requestId == b.requestId
    ensures a.lastErrorSummary == b.lastErrorSummary
    ensures a.auditEventHash == b.auditEventHash
  {
  }

  lemma SignatureFromValue(a: TelemetryEvent, b: TelemetryEvent)
    requires FieldValue(a, KSignature) == FieldValue(b, KSignature)
    ensures a.signature == b.signature
  {
  }

  /** The fields of a record can be told from its JSON values; all of them but the signature from those under
      the other keys. */
  lemma FieldsFromValues(a: TelemetryEvent, b: TelemetryEvent)
    requires forall k :: k != KSignature ==> FieldValue(a, k) == FieldValue(b, k)
    ensures a.(signature := None) == b.(signature := None)
    ensures FieldValue(a, KSignature) == FieldValue(b, KSignature) ==> a == b
  {
    hide FieldValue;
    RequiredFromValues(a, b);
    NumbersFromValues(a, b);
    TextsFromValues(a, b);
    if FieldValue(a, KSignature) == FieldValue(b, KSignature) {
      SignatureFromValue(a, b);
    }
  }

  lemma CodesRead(a: seq<string>, b: seq<string>)
    ensures Codes(a) == Codes(b) ==> a == b
  {
    if Codes(a) == Codes(b) {
      assert |Codes(a).items| == |a| && |Codes(b).items| == |b|;
      forall i | 0 <= i < |a|
        ensures a[i] == b[i]
      {
        assert Codes(a).items[i] == Str(a[i]) && Codes(b).items[i] == Str(b[i]);
      }
    }
  }

  /** An event signature covers every field of the record except the signature, and nothing else. */
  lemma EventSignatureCovers(a: TelemetryEvent, b: TelemetryEvent)
    ensures EventSignable(ToDict(a)) == EventSignable(ToDict(b)) <==> a.(signature := None) == b.(signature := None)
  {
    DictDumps(a);
    DictDumps(b);
    SignableIgnoresSignature(a, None);
    SignableIgnoresSignature(b, None);
    hide ToDict, FieldValue;
    if EventSignable(ToDict(a)) == EventSignable(ToDict(b)) {
      forall k | k != KSignature
        ensures FieldValue(a, k) == FieldValue(b, k)
      {
        assert Get(EventSignable(ToDict(a)), k) == Get(ToDict(a), k);
        assert Get(EventSignable(ToDict(b)), k) == Get(ToDict(b), k);
      }
      FieldsFromValues(a, b);
    }
  }

  lemma DictDetermines(a: TelemetryEvent, b: TelemetryEvent)
    ensures ToDict(a) == ToDict(b) ==> a == b
  {
    DictDumps(a);
    DictDumps(b);
    hide ToDict, FieldValue;
    if ToDict(a) == ToDict(b) {
      forall k
        ensures FieldValue(a, k) == FieldValue(b, k)
      {
        assert Get(ToDict(a), k) == FieldValue(a, k) && Get(ToDict(b), k) == FieldValue(b, k);
      }
      FieldsFromValues(a, b);
    }
  }

  /** A batch signature covers the batch id, the device id, the timestamp and the whole list of events. */
  lemma BatchSignatureCovers(id: string, device: string, time: int, events: seq<TelemetryEvent>,
                             id': string, device': string, time': int, events': seq<TelemetryEvent>)
    ensures BatchSignable(id, device, time, Dicts(events)) == BatchSignable(id', device', time', Dicts(events')) <==>
              id == id' && device == device' && time == time' && events == events'
  {
    var m, m' := BatchSignable(id, device, time, Dicts(events)), BatchSignable(id', device', time', Dicts(events'));
    if m == m' {
      assert m[KBatchId] == m'[KBatchId] && m[KDeviceId] == m'[KDeviceId];
      assert m[KTimestamp] == m'[KTimestamp] && m[KEvents] == m'[KEvents];
      var items, items' := Objects(Dicts(events)), Objects(Dicts(events'));
      assert items == items' && |items| == |events| && |items'| == |events'|;
      forall i | 0 <= i < |events|
        ensures events[i] == events'[i]
      {
        assert items[i] == Obj(ToDict(events[i])) && items'[i] == Obj(ToDict(events'[i]));
        DictDetermines(events[i], events'[i]);
      }
    }
  }

  /** The signature scheme at its ideal: under this key exactly the messages that were signed verify, each
      with the signature made for it. */
  ghost predicate OnlySigned(verify: Verifier, publicKey: string, signed: map<string, JsonObject>) {
    forall m, signature :: verify(publicKey, m, signature) <==> signature in signed && signed[signature] == m
  }

  /** A request that passes the checks carries the very batch and the very events that were signed: whatever
      batch the batch signature was made for, and whatever record an event signature was made for. */
  lemma AuthenticIsAsSigned(verify: Verifier, req: IngestRequest, signed: map<string, JsonObject>)
    requires OnlySigned(verify, req.publicKey, signed) && Authentic(verify, req)
    ensures req.batchSignature in signed
    ensures forall id, device, time, events ::
              signed[req.batchSignature] == BatchSignable(id, device, time, Dicts(events)) ==>
                req.batchId == id && req.deviceId == device && req.timestamp == time && req.events == events
    ensures forall e :: e in req.events ==> e.signature.Some? && e.signature.value in signed
    ensures forall e, a :: e in req.events && signed[e.signature.value] == EventSignable(ToDict(a)) ==>
                             e == a.(signature := e.signature)
  {
    hide ToDict, EventSignable, BatchSignable, Dicts;
    forall id, device, time, events | signed[req.batchSignature] == BatchSignable(id, device, time, Dicts(events))
      ensures req.batchId == id && req.deviceId == device && req.timestamp == time && req.events == events
    {
      BatchSignatureCovers(req.batchId, req.deviceId, req.timestamp, req.events, id, device, time, events);
    }
    forall e, a | e in req.events && signed[e.signature.value] == EventSignable(ToDict(a))
      ensures e == a.(signature := e.signature)
    {
      assert EventVerified(verify, req.publicKey, e);
      EventSignatureCovers(e, a);
    }
  }

  /** So an event altered in any field after it was signed makes the endpoint refuse the request, and
      nothing is stored. */
  lemma AlteredEventIsRefused(verify: Verifier, storable: IngestService.Storable, db: Database, req: IngestRequest,
                              ctx: RequestId, now: real, signed: map<string, JsonObject>,
                              e: TelemetryEvent, a: TelemetryEvent)
    requires OnlySigned(verify, req.publicKey, signed)
    requires e in req.events && e.signature.Some? && e.signature.value in signed
    requires signed[e.signature.value] == EventSignable(ToDict(a)) && e.(signature := None) != a.(signature := None)
    ensures var (after, reply) := IngestService.Serve(verify, storable, db, req, ctx, now);
            after == db && (reply == Rejected(401) || reply == Rejected(422))
  {
    EventSignatureCovers(e, a);
    assert !EventVerified(verify, req.publicKey, e);
    hide ToDict, EventSignable, EventVerified, BatchVerified;
  }

  /** The same for a batch whose id, device, time or list of events is not what its signature was made for. */
  lemma AlteredBatchIsRefused(verify: Verifier, storable: IngestService.Storable, db: Database, req: IngestRequest,
                              ctx: RequestId, now: real, signed: map<string, JsonObject>,
                              id: string, device: string, time: int, events: seq<TelemetryEvent>)
    requires OnlySigned(verify, req.publicKey, signed) && req.batchSignature in signed
    requires signed[req.batchSignature] == BatchSignable(id, device, time, Dicts(events))
    requires req.batchId != id || req.deviceId != device || req.timestamp != time || req.events != events
    ensures var (after, reply) := IngestService.Serve(verify, storable, db, req, ctx, now);
            after == db && (reply == Rejected(401) || reply == Rejected(422))
  {
    BatchSignatureCovers(req.batchId, req.deviceId, req.timestamp, req.events, id, device, time, events);
    assert !BatchVerified(verify, req);
    hide BatchSignable, Dicts, EventVerified, BatchVerified;
  }

  predicate Known(e: TelemetryEvent) {
    && e.eventType in {"auth_started", "auth_finished", "enroll_started", "enroll_finished"}
    && e.outcome in {"allow", "deny", "error"}
  }

  lemma DumpIsExtractable(o: JsonObject, e: TelemetryEvent)
    requires Dumps(o, e) && e.signature.Some?
    ensures Extract(o) == Some(o) && Get(o, KDeviceId) == Str(e.deviceId)
  {
    assert FieldValue(e, KEvent) == Null;
    assert FieldValue(e, KEventId) == Str(e.eventId);
    assert FieldValue(e, KSignature) == Str(e.signature.value);
  }

  lemma DumpParsesOnlyIfKnown(m: Coercion, o: JsonObject, e: TelemetryEvent)
    requires Dumps(o, e) && Parses(m, o)
    ensures Known(e)
  {
    assert Get(o, KEventType) == Str(e.eventType);
    assert Get(o, KOutcome) == Str(e.outcome);
  }

  lemma PayloadIsUsable(signer: Signer, e: TelemetryEvent)
    ensures var p := EnqueuedPayload(signer, e); Usable(signer, p) && Extract(p) == Some(p)
  {
    var signed := SignedRecord(signer, e);
    DictDumps(signed);
    DumpIsExtractable(ToDict(signed), signed);
    hide ToDict, Extract, Dumps;
  }

  /** An enqueued payload is usable; the cloud's model takes it exactly when its type and outcome are
      known ones, and then parses it back to the record that was signed. */
  lemma EnqueuedIsUsable(m: Coercion, signer: Signer, e: TelemetryEvent)
    ensures var p := EnqueuedPayload(signer, e);
            && Usable(signer, p) && Extract(p) == Some(p)
            && (Parses(m, p) <==> Known(e))
            && (Known(e) ==> Parse(m, p) == SignedRecord(signer, e))
  {
    var signed := SignedRecord(signer, e);
    DictDumps(signed);
    DumpIsExtractable(ToDict(signed), signed);
    if Known(e) {
      DictParsesBack(m, signed);
    } else if Parses(m, ToDict(signed)) {
      DumpParsesOnlyIfKnown(m, ToDict(signed), signed);
    }
  }

  lemma SignedRecordVerifies(signer: Signer, verify: Verifier, e: TelemetryEvent)
    requires Correct(signer, verify)
    ensures EventVerified(verify, signer.publicKey, SignedRecord(signer, e))
  {
    SignableIgnoresSignature(e.(deviceId := signer.deviceId), SignedRecord(signer, e).signature);
  }

  function Enqueued(signer: Signer, es: seq<TelemetryEvent>): (payloads: seq<JsonObject>)
    ensures |payloads| == |es|
    ensures forall i :: 0 <= i < |es| ==> payloads[i] == EnqueuedPayload(signer, es[i])
  {
    seq(|es|, i requires 0 <= i < |es| => EnqueuedPayload(signer, es[i]))
  }

  /** A batch built from honestly enqueued rows reaches the cloud as one that the request model takes
      (if all types and outcomes are known), whose parsed events are the very records signed on the
      edge, and which passes the device-id check and both signature checks. */
  lemma HonestBatchIsAuthentic(m: Coercion, signer: Signer, verify: Verifier, es: seq<TelemetryEvent>, batchId: string,
                               timestamp: int)
    requires Correct(signer, verify)
    requires forall e :: e in es ==> Known(e)
    ensures var batch := BuildBatch(signer, Enqueued(signer, es), batchId, timestamp);
            && batch.Some? && Receive(m, batch.value).Some?
            && var req := Receive(m, batch.value).value;
            && Authentic(verify, req) && req.deviceId == signer.deviceId && req.publicKey == signer.publicKey
            && EventIds(req.events) == EventIds(es)
  {
    var payloads := Enqueued(signer, es);
    forall i | 0 <= i < |es|
      ensures Usable(signer, payloads[i]) && Extract(payloads[i]) == Some(payloads[i]) && Parses(m, payloads[i])
      ensures Parse(m, payloads[i]) == SignedRecord(signer, es[i])
      ensures EventVerified(verify, signer.publicKey, Parse(m, payloads[i]))
      ensures ToDict(Parse(m, payloads[i])) == payloads[i]
    {
      assert es[i] in es;
      EnqueuedIsUsable(m, signer, es[i]);
      SignedRecordVerifies(signer, verify, es[i]);
    }
    var batch := SignedBatch(signer, payloads, batchId, timestamp);
    assert Bodies(payloads) == payloads;
    var req := Receive(m, batch).value;
    assert Dicts(req.events) == payloads;
  }

  /** Served alone, an accepted batch is always acknowledged: its counts cover it. */
  lemma AcceptedIsAcknowledged(verify: Verifier, storable: IngestService.Storable, db: Database, req: IngestRequest,
                               ctx: RequestId, now: real)
    ensures var reply := IngestService.Serve(verify, storable, db, req, ctx, now).1;
            Acknowledges(|req.events|, reply) <==> reply.Accepted?
  {
    IngestService.ServedAloneIff(verify, storable, db, req, ctx, now);
    if IngestService.Serve(verify, storable, db, req, ctx, now).1.Accepted? {
      FreshAndExistingCount(req.events, Elements(EventIds(req.events)) * StoredIds(db));
    }
  }

  /** An honest batch sent while nobody interferes is accepted and acknowledged exactly when its device is
      unregistered or registered with this key, its event ids are distinct, and its new rows fit the table. */
  lemma HonestBatchAcknowledgedIff(m: Coercion, signer: Signer, verify: Verifier, storable: IngestService.Storable,
                                   es: seq<TelemetryEvent>, batchId: string, timestamp: int,
                                   db: Database, ctx: RequestId, now: real, req: IngestRequest)
    requires Correct(signer, verify)
    requires forall e :: e in es ==> Known(e)
    requires var batch := BuildBatch(signer, Enqueued(signer, es), batchId, timestamp);
             batch.Some? && Receive(m, batch.value) == Some(req)
    ensures Acknowledges(|es|, IngestService.Serve(verify, storable, db, req, ctx, now).1) <==>
              && (signer.deviceId in db.devices ==> db.devices[signer.deviceId].publicKey == signer.publicKey)
              && Distinct(EventIds(es))
              && forall e :: e in req.events && e.eventId !in StoredIds(db) ==> storable(Persisted(e, ctx))
  {
    HonestBatchIsAuthentic(m, signer, verify, es, batchId, timestamp);
    assert |req.events| == |EventIds(req.events)| == |es|;
    IngestService.ServedAloneIff(verify, storable, db, req, ctx, now);
    AcceptedIsAcknowledged(verify, storable, db, req, ctx, now);
    hide IngestService.Serve, BuildBatch, Receive;
  }

  lemma EnqueuedBatch(signer: Signer, es: seq<TelemetryEvent>, batchId: string, timestamp: int)
    ensures BuildBatch(signer, Enqueued(signer, es), batchId, timestamp)
         == Some(SignedBatch(signer, Enqueued(signer, es), batchId, timestamp))
  {
    var payloads := Enqueued(signer, es);
    hide Usable, Extract, EnqueuedPayload, SignedBatch;
    forall i | 0 <= i < |es|
      ensures Usable(signer, payloads[i]) && Extract(payloads[i]) == Some(payloads[i])
    {
      PayloadIsUsable(signer, es[i]);
    }
    assert Bodies(payloads) == payloads;
  }

  /** One event of an unknown type or outcome makes the cloud refuse the whole batch. */
  lemma UnknownEventPoisonsBatch(m: Coercion, signer: Signer, es: seq<TelemetryEvent>, batchId: string, timestamp: int)
    ensures Receive(m, SignedBatch(signer, Enqueued(signer, es), batchId, timestamp)).Some? <==>
              forall e :: e in es ==> Known(e)
  {
    var payloads := Enqueued(signer, es);
    hide Parses, Parse, Usable, Extract, EnqueuedPayload;
    forall i | 0 <= i < |es|
      ensures Parses(m, payloads[i]) <==> Known(es[i])
    {
      EnqueuedIsUsable(m, signer, es[i]);
    }
    if i :| 0 <= i < |es| && !Known(es[i]) {
      assert payloads[i] in payloads && es[i] in es;
    }
  }
}
