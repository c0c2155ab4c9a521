/** Telemetry events as they are signed on the edge, stored as JSON, batched, and parsed by the cloud.
    A JSON object is a map from keys to values, so equal objects have equal canonical bytes. */
module Telemetry {
  import opened Wrappers

  /** The JSON keys the two sides agree on; `KOther` is any further key. */
  datatype Key =
    | KEventId | KDeviceId | KTimestamp | KEventType | KOutcome | KReasonCodes | KLivenessPassed
    | KSimilarityScore | KRiskScore | KSessionDuration | KSessionId | KRequestId | KOutboxPendingCount
    | KDlqCount | KLastErrorSummary | KAuditEventHash | KSignature
    | KEvent | KBatchId | KEvents | KOther(name: string)

  datatype Json =
    | Null | Bool(b: bool) | Int(n: int) | Float(r: real) | Str(s: string)
    | Arr(items: seq<Json>) | Obj(fields: map<Key, Json>)

  type JsonObject = map<Key, Json>

  /** The event record; both the edge dataclass and the cloud request model have these fields. */
  datatype TelemetryEvent = TelemetryEvent(
    eventId: string, deviceId: string, timestamp: int, eventType: string, outcome: string, reasonCodes: seq<string>,
    livenessPassed: Option<bool>, similarityScore: Option<real>, riskScore: Option<real>,
    sessionDurationSeconds: Option<int>, sessionId: Option<string>, requestId: Option<string>,
    outboxPendingCount: Option<int>, dlqCount: Option<int>, lastErrorSummary: Option<string>,
    auditEventHash: Option<string>, signature: Option<string>)

  const EVENT_TYPES: set<string> := {"auth_started", "auth_finished", "enroll_started", "enroll_finished"}
  const OUTCOMES: set<string> := {"allow", "deny", "error"}

  /** The declared fields of an event. */
  predicate IsEventKey(k: Key) {
    !k.KEvent? && !k.KBatchId? && !k.KEvents? && !k.KOther?
  }

  const EVENT_KEYS: set<Key> := {
    KEventId, KDeviceId, KTimestamp, KEventType, KOutcome, KReasonCodes, KLivenessPassed, KSimilarityScore,
    KRiskScore, KSessionDuration, KSessionId, KRequestId, KOutboxPendingCount, KDlqCount, KLastErrorSummary,
    KAuditEventHash, KSignature }

  // ---------------------------------------------------------------- record to JSON

  function StrOrNull(v: Option<string>): Json { if v.Some? then Str(v.value) else Null }
  function IntOrNull(v: Option<int>): Json { if v.Some? then Int(v.value) else Null }
  function FloatOrNull(v: Option<real>): Json { if v.Some? then Float(v.value) else Null }
  function BoolOrNull(v: Option<bool>): Json { if v.Some? then Bool(v.value) else Null }

  function Codes(codes: seq<string>): Json {
    Arr(seq(|codes|, i requires 0 <= i < |codes| => Str(codes[i])))
  }

  /** The value a record holds under an event key; Null where the field is None. */
  function FieldValue(e: TelemetryEvent, k: Key): Json {
    match k
    case KEventId => Str(e.eventId)
    case KDeviceId => Str(e.deviceId)
    case KTimestamp => Int(e.timestamp)
    case KEventType => Str(e.eventType)
    case KOutcome => Str(e.outcome)
    case KReasonCodes => Codes(e.reasonCodes)
    case KLivenessPassed => BoolOrNull(e.livenessPassed)
    case KSimilarityScore => FloatOrNull(e.similarityScore)
    case KRiskScore => FloatOrNull(e.riskScore)
    case KSessionDuration => IntOrNull(e.sessionDurationSeconds)
    case KSessionId => StrOrNull(e.sessionId)
    case KRequestId => StrOrNull(e.requestId)
    case KOutboxPendingCount => IntOrNull(e.outboxPendingCount)
    case KDlqCount => IntOrNull(e.dlqCount)
    case KLastErrorSummary => StrOrNull(e.lastErrorSummary)
    case KAuditEventHash => StrOrNull(e.auditEventHash)
    case KSignature => StrOrNull(e.signature)
    case _ => Null
  }

  /** The dictionary of a record, without its None fields. */
  function ToDict(e: TelemetryEvent): JsonObject {
    map k | k in EVENT_KEYS && FieldValue(e, k) != Null :: FieldValue(e, k)
  }

  /** What an event signature covers: everything but the signature itself. */
  function EventSignable(dict: JsonObject): JsonObject {
    dict - {KSignature}
  }

  function Objects(dicts: seq<JsonObject>): seq<Json> {
    seq(|dicts|, i requires 0 <= i < |dicts| => Obj(dicts[i]))
  }

  /** What a batch signature covers: the full events, signatures included. */
  function BatchSignable(batchId: string, deviceId: string, timestamp: int, events: seq<JsonObject>): JsonObject {
    map[KBatchId := Str(batchId), KDeviceId := Str(deviceId), KTimestamp := Int(timestamp),
        KEvents := Arr(Objects(events))]
  }

  // ---------------------------------------------------------------- JSON to record (cloud request model)

  /** How the request model reads numbers and flags: JSON values of other types that it converts, such as
      a timestamp given as text, are up to these functions; None is a refusal. */
  datatype Conversions = Conversions(
    toInt: Json -> Option<int>, toFloat: Json -> Option<real>, toBool: Json -> Option<bool>)

  /** A value that has the declared type already is taken as it is. */
  ghost predicate KeepsTyped(m: Conversions) {
    && (forall n :: m.toInt(Int(n)) == Some(n))
    && (forall r :: m.toFloat(Float(r)) == Some(r))
    && (forall b :: m.toBool(Bool(b)) == Some(b))
  }

  const STRICT := Conversions(
    (j: Json) => if j.Int? then Some(j.n) else None,
    (j: Json) => if j.Float? then Some(j.r) else None,
    (j: Json) => if j.Bool? then Some(j.b) else None)

  type Coercion = m: Conversions | KeepsTyped(m) witness STRICT

  predicate IsFlag(k: Key) { k.KLivenessPassed? }
  predicate IsScore(k: Key) { k.KSimilarityScore? || k.KRiskScore? }
  predicate IsCount(k: Key) { k.KTimestamp? || k.KSessionDuration? || k.KOutboxPendingCount? || k.KDlqCount? }

  /** Absent or null is None; otherwise the value must be one that the declared type takes. */
  predicate OptionalOk(m: Coercion, o: JsonObject, k: Key) {
    k !in o || o[k].Null? ||
    if IsFlag(k) then m.toBool(o[k]).Some?
    else if IsScore(k) then m.toFloat(o[k]).Some?
    else if IsCount(k) then m.toInt(o[k]).Some?
    else o[k].Str?
  }

  function Get(o: JsonObject, k: Key): Json {
    if k in o then o[k] else Null
  }

  function AsStr(j: Json): Option<string> { if j.Str? then Some(j.s) else None }
  function AsInt(m: Coercion, j: Json): Option<int> { if j.Null? then None else m.toInt(j) }
  function AsBool(m: Coercion, j: Json): Option<bool> { if j.Null? then None else m.toBool(j) }
  function AsFloat(m: Coercion, j: Json): Option<real> { if j.Null? then None else m.toFloat(j) }

  function AsTexts(j: Json): seq<string>
    requires StringArray(j)
  {
    seq(|j.items|, i requires 0 <= i < |j.items| => j.items[i].s)
  }

  predicate IsOptionalKey(k: Key) {
    IsEventKey(k) && !k.KEventId? && !k.KDeviceId? && !k.KTimestamp? && !k.KEventType? && !k.KOutcome?
    && !k.KReasonCodes? && !k.KSignature?
  }

  predicate StringArray(j: Json) {
    j.Arr? && forall i :: 0 <= i < |j.items| ==> j.items[i].Str?
  }

  predicate HasStr(o: JsonObject, k: Key) {
    k in o && o[k].Str?
  }

  /** Does the cloud request model accept this object? Extra keys are forbidden. */
  predicate Parses(m: Coercion, o: JsonObject) {
    && (forall k :: k in o ==> IsEventKey(k))
    && HasStr(o, KEventId) && HasStr(o, KDeviceId) && HasStr(o, KSignature)
    && KTimestamp in o && m.toInt(o[KTimestamp]).Some?
    && KReasonCodes in o && StringArray(o[KReasonCodes])
    && HasStr(o, KEventType) && o[KEventType].s in EVENT_TYPES
    && HasStr(o, KOutcome) && o[KOutcome].s in OUTCOMES
    && (forall k :: k in o && IsOptionalKey(k) ==> OptionalOk(m, o, k))
  }

  function Parse(m: Coercion, o: JsonObject): TelemetryEvent
    requires Parses(m, o)
  {
    TelemetryEvent(
      o[KEventId].s, o[KDeviceId].s, m.toInt(o[KTimestamp]).value, o[KEventType].s, o[KOutcome].s,
      AsTexts(o[KReasonCodes]),
      AsBool(m, Get(o, KLivenessPassed)), AsFloat(m, Get(o, KSimilarityScore)), AsFloat(m, Get(o, KRiskScore)),
      AsInt(m, Get(o, KSessionDuration)), AsStr(Get(o, KSessionId)), AsStr(Get(o, KRequestId)),
      AsInt(m, Get(o, KOutboxPendingCount)), AsInt(m, Get(o, KDlqCount)), AsStr(Get(o, KLastErrorSummary)),
      AsStr(Get(o, KAuditEventHash)), Some(o[KSignature].s))
  }

  /** The record the cloud's model can hold: a signed event of a known type and outcome. */
  predicate Admissible(e: TelemetryEvent) {
    e.signature.Some? && e.eventType in EVENT_TYPES && e.outcome in OUTCOMES
  }

  /** Objects that survive a parse and a dump: no explicit nulls, and numbers and flags of the declared type. */
  predicate Faithful(o: JsonObject) {
    forall k :: k in o ==> o[k] != Null && Typed(k, o[k])
  }

  predicate Typed(k: Key, j: Json) {
    (IsFlag(k) ==> j.Bool?) && (IsScore(k) ==> j.Float?) && (IsCount(k) ==> j.Int?)
  }

  /** `o` holds exactly the fields of `e` that are not None. */
  ghost predicate Dumps(o: JsonObject, e: TelemetryEvent) {
    && (forall k :: k in o <==> FieldValue(e, k) != Null)
    && (forall k :: Get(o, k) == FieldValue(e, k))
  }

  lemma EventKeys(k: Key)
    ensures k in EVENT_KEYS <==> IsEventKey(k)
  {
  }

  lemma NoOtherField(e: TelemetryEvent, k: Key)
    requires !IsEventKey(k)
    ensures FieldValue(e, k) == Null
  {
  }

  lemma DictDumps(e: TelemetryEvent)
    ensures Dumps(ToDict(e), e)
  {
    forall k
      ensures k in EVENT_KEYS || FieldValue(e, k) == Null
    {
      EventKeys(k);
      if !IsEventKey(k) { NoOtherField(e, k); }
    }
  }

  lemma RequiredFieldsRead(o: JsonObject, e: TelemetryEvent)
    requires Dumps(o, e) && Admissible(e)
    ensures HasStr(o, KEventId) && HasStr(o, KDeviceId) && HasStr(o, KSignature)
              && HasStr(o, KEventType) && HasStr(o, KOutcome)
    ensures Get(o, KEventId) == Str(e.eventId) && Get(o, KDeviceId) == Str(e.deviceId)
              && Get(o, KTimestamp) == Int(e.timestamp)
    ensures Get(o, KEventType) == Str(e.eventType) && Get(o, KOutcome) == Str(e.outcome)
    ensures StringArray(Get(o, KReasonCodes)) && AsTexts(Get(o, KReasonCodes)) == e.reasonCodes
    ensures Some(Get(o, KSignature).s) == e.signature
  {
    assert Get(o, KReasonCodes) == Codes(e.reasonCodes);
  }

  lemma NumericFieldsRead(m: Coercion, o: JsonObject, e: TelemetryEvent)
    requires Dumps(o, e)
    ensures AsFloat(m, Get(o, KSimilarityScore)) == e.similarityScore && AsFloat(m, Get(o, KRiskScore)) == e.riskScore
    ensures AsInt(m, Get(o, KSessionDuration)) == e.sessionDurationSeconds && AsInt(m, Get(o, KDlqCount)) == e.dlqCount
    ensures AsInt(m, Get(o, KOutboxPendingCount)) == e.outboxPendingCount
  {
  }

  lemma TextFieldsRead(m: Coercion, o: JsonObject, e: TelemetryEvent)
    requires Dumps(o, e)
    ensures AsBool(m, Get(o, KLivenessPassed)) == e.livenessPassed
    ensures AsStr(Get(o, KSessionId)) == e.sessionId && AsStr(Get(o, KRequestId)) == e.requestId
    ensures AsStr(Get(o, KLastErrorSummary)) == e.lastErrorSummary && AsStr(Get(o, KAuditEventHash)) == e.auditEventHash
  {
  }

  lemma OptionalFieldsTyped(m: Coercion, o: JsonObject, e: TelemetryEvent, k: Key)
    requires Dumps(o, e) && k in o
    ensures IsEventKey(k) && (IsOptionalKey(k) ==> OptionalOk(m, o, k))
  {
    assert Get(o, k) == FieldValue(e, k);
  }

  lemma DumpParsesBack(m: Coercion, o: JsonObject, e: TelemetryEvent)
    requires Dumps(o, e) && Admissible(e)
    ensures Parses(m, o) && Parse(m, o) == e
  {
    RequiredFieldsRead(o, e);
    forall k | k in o
      ensures IsEventKey(k) && (IsOptionalKey(k) ==> OptionalOk(m, o, k))
    {
      OptionalFieldsTyped(m, o, e, k);
    }
    NumericFieldsRead(m, o, e);
    TextFieldsRead(m, o, e);
  }

  /** The object of a record, key by key: every field under its own name, an optional one only if it is there. */
  lemma DictInFull(e: TelemetryEvent)
    ensures var o := ToDict(e);
            && Get(o, KEventId) == Str(e.eventId) && Get(o, KDeviceId) == Str(e.deviceId)
            && Get(o, KTimestamp) == Int(e.timestamp)
            && Get(o, KEventType) == Str(e.eventType) && Get(o, KOutcome) == Str(e.outcome)
            && Get(o, KLivenessPassed) == (if e.livenessPassed.Some? then Bool(e.livenessPassed.value) else Null)
            && Get(o, KSimilarityScore) == (if e.similarityScore.Some? then Float(e.similarityScore.value) else Null)
            && Get(o, KRiskScore) == (if e.riskScore.Some? then Float(e.riskScore.value) else Null)
            && Get(o, KSessionDuration) ==
                 (if e.sessionDurationSeconds.Some? then Int(e.sessionDurationSeconds.value) else Null)
            && Get(o, KOutboxPendingCount) ==
                 (if e.outboxPendingCount.Some? then Int(e.outboxPendingCount.value) else Null)
            && Get(o, KDlqCount) == (if e.dlqCount.Some? then Int(e.dlqCount.value) else Null)
            && Get(o, KSessionId) == (if e.sessionId.Some? then Str(e.sessionId.value) else Null)
            && Get(o, KRequestId) == (if e.requestId.Some? then Str(e.requestId.value) else Null)
            && Get(o, KLastErrorSummary) == (if e.lastErrorSummary.Some? then Str(e.lastErrorSummary.value) else Null)
            && Get(o, KAuditEventHash) == (if e.auditEventHash.Some? then Str(e.auditEventHash.value) else Null)
            && Get(o, KSignature) == (if e.signature.Some? then Str(e.signature.value) else Null)
            && StringArray(Get(o, KReasonCodes)) && AsTexts(Get(o, KReasonCodes)) == e.reasonCodes
            && forall k :: k in o ==> IsEventKey(k) && o[k] != Null
  {
    DictDumps(e);
    forall k | k in ToDict(e)
      ensures IsEventKey(k)
    {
      EventKeys(k);
    }
    NumbersDumped(ToDict(e), e);
    RequiredDumped(ToDict(e), e);
    TextsDumped(ToDict(e), e);
    hide ToDict, Dumps, FieldValue;
  }

  lemma NumbersDumped(o: JsonObject, e: TelemetryEvent)
    requires Dumps(o, e)
    ensures Get(o, KTimestamp) == Int(e.timestamp)
    ensures Get(o, KLivenessPassed) == if e.livenessPassed.Some? then Bool(e.livenessPassed.value) else Null
    ensures Get(o, KSimilarityScore) == if e.similarityScore.Some? then Float(e.similarityScore.value) else Null
    ensures Get(o, KRiskScore) == if e.riskScore.Some? then Float(e.riskScore.value) else Null
    ensures Get(o, KSessionDuration) ==
            if e.sessionDurationSeconds.Some? then Int(e.sessionDurationSeconds.value) else Null
    ensures Get(o, KOutboxPendingCount) == if e.outboxPendingCount.Some? then Int(e.outboxPendingCount.value) else Null
    ensures Get(o, KDlqCount) == if e.dlqCount.Some? then Int(e.dlqCount.value) else Null
    ensures forall k :: k in o ==> o[k] != Null
  {
  }

  lemma RequiredDumped(o: JsonObject, e: TelemetryEvent)
    requires Dumps(o, e)
    ensures Get(o, KEventId) == Str(e.eventId) && Get(o, KDeviceId) == Str(e.deviceId)
    ensures Get(o, KEventType) == Str(e.eventType) && Get(o, KOutcome) == Str(e.outcome)
    ensures StringArray(Get(o, KReasonCodes)) && AsTexts(Get(o, KReasonCodes)) == e.reasonCodes
  {
    assert Get(o, KReasonCodes) == Codes(e.reasonCodes);
  }

  lemma TextsDumped(o: JsonObject, e: TelemetryEvent)
    requires Dumps(o, e)
    ensures Get(o, KSessionId) == if e.sessionId.Some? then Str(e.sessionId.value) else Null
    ensures Get(o, KRequestId) == if e.requestId.Some? then Str(e.requestId.value) else Null
    ensures Get(o, KLastErrorSummary) == if e.lastErrorSummary.Some? then Str(e.lastErrorSummary.value) else Null
    ensures Get(o, KAuditEventHash) == if e.auditEventHash.Some? then Str(e.auditEventHash.value) else Null
    ensures Get(o, KSignature) == if e.signature.Some? then Str(e.signature.value) else Null
  {
  }

  /** Every signed event of a known type and outcome survives the trip to the cloud unchanged. */
  lemma DictParsesBack(m: Coercion, e: TelemetryEvent)
    requires Admissible(e)
    ensures Parses(m, ToDict(e)) && Parse(m, ToDict(e)) == e
  {
    DictDumps(e);
    DumpParsesBack(m, ToDict(e), e);
  }

  /** The cloud's view of one received value: converted to the declared type. */
  function Coerced(m: Coercion, k: Key, j: Json): Json {
    if j.Null? then Null
    else if IsFlag(k) then BoolOrNull(m.toBool(j))
    else if IsScore(k) then FloatOrNull(m.toFloat(j))
    else if IsCount(k) then IntOrNull(m.toInt(j))
    else j
  }

  lemma CoercedIffTyped(m: Coercion, k: Key, j: Json)
    ensures Coerced(m, k, Null) == Null
    ensures j != Null ==> (Coerced(m, k, j) == j <==> Typed(k, j))
  {
  }

  lemma ParsedField(m: Coercion, o: JsonObject, k: Key)
    requires Parses(m, o)
    ensures k in o ==> IsEventKey(k) && (IsOptionalKey(k) ==> OptionalOk(m, o, k))
    ensures HasStr(o, KEventId) && HasStr(o, KDeviceId) && HasStr(o, KSignature)
    ensures HasStr(o, KEventType) && HasStr(o, KOutcome)
    ensures KTimestamp in o && m.toInt(o[KTimestamp]).Some? && KReasonCodes in o && StringArray(o[KReasonCodes])
  {
  }

  lemma ReparsedNumber(m: Coercion, o: JsonObject, k: Key)
    requires Parses(m, o) && Get(o, KTimestamp) != Null && (IsFlag(k) || IsScore(k) || IsCount(k))
    ensures FieldValue(Parse(m, o), k) == Coerced(m, k, Get(o, k))
  {
    ParsedField(m, o, k);
    hide Parses, AsTexts, Codes;
  }

  lemma ReparsedText(m: Coercion, o: JsonObject, k: Key)
    requires Parses(m, o) && !IsFlag(k) && !IsScore(k) && !IsCount(k)
    ensures FieldValue(Parse(m, o), k) == Get(o, k)
  {
    ParsedField(m, o, k);
    hide Parses, AsInt, AsFloat, AsBool;
    if k.KReasonCodes? {
      assert Codes(Parse(m, o).reasonCodes).items == o[k].items;
    }
  }

  lemma ReparsedField(m: Coercion, o: JsonObject, k: Key)
    requires Parses(m, o) && Get(o, KTimestamp) != Null
    ensures FieldValue(Parse(m, o), k) == Coerced(m, k, Get(o, k))
  {
    hide Parses, Parse, FieldValue, Get;
    if IsFlag(k) || IsScore(k) || IsCount(k) {
      ReparsedNumber(m, o, k);
    } else {
      ReparsedText(m, o, k);
    }
  }

  lemma RestoredIffFaithful(m: Coercion, o: JsonObject, dumped: JsonObject, value: Key -> Json)
    requires forall k :: k in dumped <==> value(k) != Null
    requires forall k :: Get(dumped, k) == value(k)
    requires forall k :: value(k) == Coerced(m, k, Get(o, k))
    ensures dumped == o <==> Faithful(o)
  {
    hide Coerced, Typed;
    forall k, j
      ensures Coerced(m, k, Null) == Null && (j != Null ==> (Coerced(m, k, j) == j <==> Typed(k, j)))
    {
      CoercedIffTyped(m, k, j);
    }
    if Faithful(o) {
      forall k
        ensures (k in dumped <==> k in o) && Get(dumped, k) == Get(o, k)
      {
        assert value(k) == Get(o, k);
      }
      assert forall k :: k in o ==> dumped[k] == Get(dumped, k) && o[k] == Get(o, k);
      assert dumped == o;
    } else {
      var k :| k in o && !(o[k] != Null && Typed(k, o[k]));
      assert Get(dumped, k) == Coerced(m, k, o[k]);
    }
  }

  /** The cloud re-serialises what it parsed. It gets back the received object, and so the signed
      bytes, exactly when the object carried no null and no value that had to be converted. */
  lemma ReserialisedIffFaithful(m: Coercion, o: JsonObject)
    requires Parses(m, o)
    ensures ToDict(Parse(m, o)) == o <==> Faithful(o)
  {
    var e := Parse(m, o);
    DictDumps(e);
    if Get(o, KTimestamp) == Null {
      TimestampIsNeverNull(m, o);
    } else {
      forall k
        ensures FieldValue(e, k) == Coerced(m, k, Get(o, k))
      {
        ReparsedField(m, o, k);
      }
      RestoredIffFaithful(m, o, ToDict(e), k => FieldValue(e, k));
    }
  }

  /** A null timestamp, should the conversions take it, does not come back as a null. */
  lemma TimestampIsNeverNull(m: Coercion, o: JsonObject)
    requires Parses(m, o) && Get(o, KTimestamp) == Null
    ensures ToDict(Parse(m, o)) != o && !Faithful(o)
  {
    DictDumps(Parse(m, o));
    assert Get(ToDict(Parse(m, o)), KTimestamp) == FieldValue(Parse(m, o), KTimestamp);
  }

  /** Any admissible event posted with an explicit null is accepted, and then checked over other bytes
      than were signed. */
  lemma NullIsNotRestored(m: Coercion, e: TelemetryEvent)
    requires Admissible(e)
    ensures var o := ToDict(e)[KSessionId := Null]; Parses(m, o) && ToDict(Parse(m, o)) != o
  {
    DictDumps(e);
    DumpParsesBack(m, ToDict(e), e);
    var o := ToDict(e)[KSessionId := Null];
    hide ToDict;
    assert forall k :: k in o ==> k == KSessionId || (k in ToDict(e) && o[k] == ToDict(e)[k]);
    assert Parses(m, o);
    ReserialisedIffFaithful(m, o);
    assert KSessionId in o && o[KSessionId] == Null;
  }
}
