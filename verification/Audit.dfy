/** The hash-chained audit log: what a row stands for, what the chain guarantees, and for how long. */
module Audit {
  import opened Wrappers
  import opened Envelope
  import Telemetry

  type Key = Telemetry.Key

  // ---------------------------------------------------------------- values and payloads

  /** A double by its eight bytes; the log does no arithmetic on scores. */
  type Float64 = b: Bytes | |b| == 8 witness seq(8, _ => 0 as byte)

  /** A Python value as events, table columns and parsed JSON hold it; `Member` is a string enum member. */
  datatype Value =
    | Null | Truth(b: bool) | Whole(i: int) | Real(r: Float64) | Text(s: string) | Member(name: string)
    | Items(items: seq<Value>) | Fields(fields: map<Key, Value>)

  /** The payload a row is hashed over, in normal form. */
  datatype Payload = Payload(
    eventId: string, timestamp: int, eventType: string, outcome: string, reasonCodes: seq<string>,
    similarity: Option<Float64>, risk: Option<Float64>, liveness: Option<bool>,
    sessionId: Option<string>, requestId: Option<string>)

  /** The values a payload is built from. */
  datatype Raw = Raw(
    eventId: Value, timestamp: Value, eventType: Value, outcome: Value, reasonCodes: Value,
    similarity: Value, risk: Value, liveness: Value, sessionId: Value, requestId: Value)

  /** What the log relies on. Conversions to int and float raise on some values; `chain` is the SHA-256
      link of a previous hash and the event's bytes. */
  datatype World = World(
    str: Value -> string, toInt: Value -> Option<int>, toFloat: Value -> Option<Float64>, toBool: Value -> bool,
    dumps: Payload -> Bytes, dumpsCodes: seq<string> -> Bytes, loads: Bytes -> Option<Value>,
    chain: (string, Bytes) -> string, cipher: Cipher)

  function Zeros(n: nat): (s: string)
    ensures |s| == n && forall i :: 0 <= i < n ==> s[i] == '0'
  {
    if n == 0 then "" else "0" + Zeros(n - 1)
  }

  const GENESIS := Zeros(64)

  ghost predicate PlainConversions(w: World) {
    && (forall s :: w.str(Text(s)) == s)
    && (forall i :: w.toInt(Whole(i)) == Some(i))
    && (forall r :: w.toFloat(Real(r)) == Some(r))
    && (forall b :: w.toBool(Truth(b)) == b)
    && (forall i :: w.toBool(Whole(i)) == (i != 0))
  }

  ghost predicate JsonRoundTrips(w: World) {
    && (forall p :: w.loads(w.dumps(p)) == Some(Fields(AsDict(p))))
    && (forall codes :: w.loads(w.dumpsCodes(codes)) == Some(Items(Texts(codes))))
    && (forall codes :: w.dumpsCodes(codes) != [])
  }

  /** The chain hash is taken to be injective in both arguments and never the genesis value. */
  ghost predicate StrongChain(w: World) {
    && (forall h, h', data, data' :: w.chain(h, data) == w.chain(h', data') ==> h == h' && data == data')
    && (forall h, data :: w.chain(h, data) != GENESIS)
  }

  ghost predicate Sane(w: World) {
    PlainConversions(w) && JsonRoundTrips(w) && Lawful(w.cipher)
  }

  // ---------------------------------------------------------------- the normaliser

  function Texts(codes: seq<string>): (items: seq<Value>)
    ensures |items| == |codes| && forall i :: 0 <= i < |codes| ==> items[i] == Text(codes[i])
  {
    seq(|codes|, i requires 0 <= i < |codes| => Text(codes[i]))
  }

  function StrOpt(w: World, v: Value): Option<string> {
    if v == Null then None else Some(w.str(v))
  }

  function StrAll(w: World, items: seq<Value>): (codes: seq<string>)
    ensures |codes| == |items| && forall i :: 0 <= i < |items| ==> codes[i] == w.str(items[i])
  {
    seq(|items|, i requires 0 <= i < |items| => w.str(items[i]))
  }

  function BuildHashPayload(w: World, raw: Raw): Option<Payload> {
    var codes := if raw.reasonCodes.Items? then raw.reasonCodes.items else [];
    var timestamp, similarity, risk := w.toInt(raw.timestamp), w.toFloat(raw.similarity), w.toFloat(raw.risk);
    if timestamp.None? || (raw.similarity != Null && similarity.None?) || (raw.risk != Null && risk.None?) then None
    else
      Some(Payload(
             w.str(raw.eventId), timestamp.value, w.str(raw.eventType), w.str(raw.outcome),
             StrAll(w, codes),
             if raw.similarity == Null then None else similarity,
             if raw.risk == Null then None else risk,
             if raw.liveness == Null then None else Some(w.toBool(raw.liveness)),
             StrOpt(w, raw.sessionId), StrOpt(w, raw.requestId)))
  }

  ghost predicate TextOf(w: World, v: Value, text: Option<string>) {
    if v == Null then text == None else text == Some(w.str(v))
  }

  ghost predicate FloatOf(w: World, v: Value, number: Option<Float64>) {
    if v == Null then number == None else number.Some? && w.toFloat(v) == number
  }

  ghost predicate TruthOf(w: World, v: Value, flag: Option<bool>) {
    if v == Null then flag == None else flag == Some(w.toBool(v))
  }

  /** The texts of a list's items, in order; anything but a list counts as an empty one. */
  ghost predicate CodesOf(w: World, v: Value, codes: seq<string>) {
    if v.Items? then |codes| == |v.items| && forall i :: 0 <= i < |codes| ==> codes[i] == w.str(v.items[i])
    else codes == []
  }

  /** The payload holds each of the values under its own name, converted to the type of the field; what is
      null is None, and nothing else is. */
  ghost predicate IsNormal(w: World, raw: Raw, p: Payload) {
    && p.eventId == w.str(raw.eventId) && w.toInt(raw.timestamp) == Some(p.timestamp)
    && p.eventType == w.str(raw.eventType) && p.outcome == w.str(raw.outcome)
    && CodesOf(w, raw.reasonCodes, p.reasonCodes)
    && FloatOf(w, raw.similarity, p.similarity) && FloatOf(w, raw.risk, p.risk)
    && TruthOf(w, raw.liveness, p.liveness)
    && TextOf(w, raw.sessionId, p.sessionId) && TextOf(w, raw.requestId, p.requestId)
  }

  lemma NormalIff(w: World, raw: Raw, p: Payload)
    ensures BuildHashPayload(w, raw) == Some(p) <==> IsNormal(w, raw, p)
  {
    var codes := if raw.reasonCodes.Items? then raw.reasonCodes.items else [];
    assert CodesOf(w, raw.reasonCodes, p.reasonCodes) <==> p.reasonCodes == StrAll(w, codes);
    hide CodesOf, StrAll;
  }

  function TextOrNull(v: Option<string>): Value { if v.Some? then Text(v.value) else Null }
  function RealOrNull(v: Option<Float64>): Value { if v.Some? then Real(v.value) else Null }
  function TruthOrNull(v: Option<bool>): Value { if v.Some? then Truth(v.value) else Null }

  /** The JSON object of a payload; the request id appears only when there is one. */
  function AsDict(p: Payload): map<Key, Value> {
    map[Telemetry.KEventId := Text(p.eventId), Telemetry.KTimestamp := Whole(p.timestamp),
        Telemetry.KEventType := Text(p.eventType),
        Telemetry.KOutcome := Text(p.outcome), Telemetry.KReasonCodes := Items(Texts(p.reasonCodes)),
        Telemetry.KSimilarityScore := RealOrNull(p.similarity), Telemetry.KRiskScore := RealOrNull(p.risk),
        Telemetry.KLivenessPassed := TruthOrNull(p.liveness), Telemetry.KSessionId := TextOrNull(p.sessionId)]
    + if p.requestId.Some? then map[Telemetry.KRequestId := Text(p.requestId.value)] else map[]
  }

  // ---------------------------------------------------------------- rows

  /** A table row. An encrypted row leaves the five detail columns null; a legacy row has no blob. */
  datatype Row = Row(
    eventId: string, timestamp: int, eventType: string, outcome: string, reasonCodes: Option<Bytes>,
    similarity: Value, risk: Value, liveness: Value, sessionId: Value, requestId: Value,
    prevHash: Option<string>, hash: string, encrypted: Option<Bytes>)

  function Get(d: map<Key, Value>, k: Key, otherwise: Value): Value {
    if k in d then d[k] else otherwise
  }

  function RawOfDict(d: map<Key, Value>, row: Row): Raw {
    Raw(Get(d, Telemetry.KEventId, Text(row.eventId)), Get(d, Telemetry.KTimestamp, Whole(row.timestamp)),
        Get(d, Telemetry.KEventType, Text(row.eventType)), Get(d, Telemetry.KOutcome, Text(row.outcome)),
        Get(d, Telemetry.KReasonCodes, Items([])), Get(d, Telemetry.KSimilarityScore, Null),
        Get(d, Telemetry.KRiskScore, Null),
        Get(d, Telemetry.KLivenessPassed, Null), Get(d, Telemetry.KSessionId, Null), Get(d, Telemetry.KRequestId, Null))
  }

  /** The codes column of a legacy row; missing, empty or unreadable text counts as no codes. */
  function LegacyCodes(w: World, column: Option<Bytes>): Value {
    if column.None? || column.value == [] then Items([])
    else
      var v := w.loads(column.value);
      if v.None? then Items([]) else v.value
  }

  function RawOfColumns(w: World, row: Row): Raw {
    Raw(Text(row.eventId), Whole(row.timestamp), Text(row.eventType), Text(row.outcome),
        LegacyCodes(w, row.reasonCodes),
        row.similarity, row.risk, row.liveness, row.sessionId, row.requestId)
  }

  /** The payload a row stands for; None is an exception while reading it. */
  function PayloadOf(w: World, key: Bytes, row: Row): Option<Payload> {
    if row.encrypted.None? then BuildHashPayload(w, RawOfColumns(w, row))
    else
      var plain := Unwrap(w.cipher, AuditBlob, key, row.eventId, row.encrypted.value);
      if plain.None? then None
      else
        var parsed := w.loads(plain.value);
        if parsed.None? || !parsed.value.Fields? then None
        else
          var p := BuildHashPayload(w, RawOfDict(parsed.value.fields, row));
          if p.None? || p.value.eventId != row.eventId || p.value.eventType != row.eventType
             || p.value.outcome != row.outcome
          then None else p
  }

  /** How a row reads, for every row. A plaintext row reads as its columns, with no codes where their text is
      missing, empty or no JSON. An encrypted row reads as the object in its blob, with the row's id, time, type
      and outcome for the first four fields where the object has none, and reads at all only if its id, type
      and outcome are then the row's. */
  lemma RowReadsIff(w: World, key: Bytes, row: Row, p: Payload)
    ensures row.encrypted.None? ==>
              (PayloadOf(w, key, row) == Some(p) <==>
                 IsNormal(w, Raw(eventId := Text(row.eventId), timestamp := Whole(row.timestamp),
                                 eventType := Text(row.eventType), outcome := Text(row.outcome),
                                 reasonCodes := LegacyCodes(w, row.reasonCodes),
                                 similarity := row.similarity, risk := row.risk, liveness := row.liveness,
                                 sessionId := row.sessionId, requestId := row.requestId), p))
    ensures row.encrypted.Some? ==>
              var plain := Unwrap(w.cipher, AuditBlob, key, row.eventId, row.encrypted.value);
              (PayloadOf(w, key, row) == Some(p) <==>
                 && plain.Some? && w.loads(plain.value).Some? && w.loads(plain.value).value.Fields?
                 && ReadsAs(w, w.loads(plain.value).value.fields, row, p)
                 && p.eventId == row.eventId && p.eventType == row.eventType && p.outcome == row.outcome)
  {
    NormalIff(w, RawOfColumns(w, row), p);
    if row.encrypted.Some? {
      var plain := Unwrap(w.cipher, AuditBlob, key, row.eventId, row.encrypted.value);
      if plain.Some? && w.loads(plain.value).Some? && w.loads(plain.value).value.Fields? {
        NormalIff(w, RawOfDict(w.loads(plain.value).value.fields, row), p);
      }
    }
    hide IsNormal, BuildHashPayload, Unwrap, LegacyCodes;
  }

  /** The payload holds each field of the object under its own name. */
  ghost predicate ReadsAs(w: World, d: map<Key, Value>, row: Row, p: Payload) {
    IsNormal(
      w,
      Raw(eventId := if Telemetry.KEventId in d then d[Telemetry.KEventId] else Text(row.eventId),
          timestamp := if Telemetry.KTimestamp in d then d[Telemetry.KTimestamp] else Whole(row.timestamp),
          eventType := if Telemetry.KEventType in d then d[Telemetry.KEventType] else Text(row.eventType),
          outcome := if Telemetry.KOutcome in d then d[Telemetry.KOutcome] else Text(row.outcome),
          reasonCodes := if Telemetry.KReasonCodes in d then d[Telemetry.KReasonCodes] else Items([]),
          similarity := if Telemetry.KSimilarityScore in d then d[Telemetry.KSimilarityScore] else Null,
          risk := if Telemetry.KRiskScore in d then d[Telemetry.KRiskScore] else Null,
          liveness := if Telemetry.KLivenessPassed in d then d[Telemetry.KLivenessPassed] else Null,
          sessionId := if Telemetry.KSessionId in d then d[Telemetry.KSessionId] else Null,
          requestId := if Telemetry.KRequestId in d then d[Telemetry.KRequestId] else Null),
      p)
  }

  /** Normalising is stable: what was written, parsed and normalised again is the same payload. */
  lemma NormaliserIsStable(w: World, p: Payload, row: Row)
    requires PlainConversions(w)
    ensures BuildHashPayload(w, RawOfDict(AsDict(p), row)) == Some(p)
  {
    DictReads(p, row);
    assert StrAll(w, Texts(p.reasonCodes)) == p.reasonCodes;
    hide AsDict, RawOfDict;
  }

  lemma DictReads(p: Payload, row: Row)
    ensures RawOfDict(AsDict(p), row) ==
            Raw(Text(p.eventId), Whole(p.timestamp), Text(p.eventType), Text(p.outcome), Items(Texts(p.reasonCodes)),
                RealOrNull(p.similarity), RealOrNull(p.risk), TruthOrNull(p.liveness),
                TextOrNull(p.sessionId), TextOrNull(p.requestId))
  {
    hide Texts;
  }

  lemma DumpsInjective(w: World, p: Payload, q: Payload)
    requires PlainConversions(w) && JsonRoundTrips(w) && w.dumps(p) == w.dumps(q)
    ensures p == q
  {
    assert w.loads(w.dumps(p)) == Some(Fields(AsDict(p))) && w.loads(w.dumps(q)) == Some(Fields(AsDict(q)));
    var row := Row("", 0, "", "", None, Null, Null, Null, Null, Null, None, "", None);
    NormaliserIsStable(w, p, row);
    NormaliserIsStable(w, q, row);
    hide AsDict, BuildHashPayload, RawOfDict;
  }

  // ---------------------------------------------------------------- the chain

  function HeadBefore(rows: seq<Row>, i: nat): string
    requires i <= |rows|
  {
    if i == 0 then GENESIS else rows[i - 1].hash
  }

  function Head(rows: seq<Row>): string { HeadBefore(rows, |rows|) }

  /** Row `i` is readable and linked to the one before. */
  predicate Linked(w: World, key: Bytes, rows: seq<Row>, i: nat)
    requires i < |rows|
  {
    var p := PayloadOf(w, key, rows[i]);
    && rows[i].prevHash == Some(HeadBefore(rows, i))
    && p.Some? && rows[i].hash == w.chain(HeadBefore(rows, i), w.dumps(p.value))
  }

  predicate Verifies(w: World, key: Bytes, rows: seq<Row>) {
    forall i :: 0 <= i < |rows| ==> Linked(w, key, rows, i)
  }

  /** What a reader gets for a row; a payload of None is an exception. */
  datatype Record = Record(payload: Option<Payload>, prevHash: Option<string>, hash: string)

  function RecordOf(w: World, key: Bytes, row: Row): Record {
    Record(PayloadOf(w, key, row), row.prevHash, row.hash)
  }

  function Records(w: World, key: Bytes, rows: seq<Row>): (rs: seq<Record>)
    ensures |rs| == |rows| && forall i :: 0 <= i < |rows| ==> rs[i] == RecordOf(w, key, rows[i])
  {
    seq(|rows|, i requires 0 <= i < |rows| => RecordOf(w, key, rows[i]))
  }

  /** A row whose payload reads back, linked to the head, keeps the log verifying. */
  lemma AppendVerifies(w: World, key: Bytes, rows: seq<Row>, row: Row)
    requires Verifies(w, key, rows)
    requires row.prevHash == Some(Head(rows)) && PayloadOf(w, key, row).Some?
    requires row.hash == w.chain(Head(rows), w.dumps(PayloadOf(w, key, row).value))
    ensures Verifies(w, key, rows + [row])
  {
    hide PayloadOf;
    forall i | 0 <= i < |rows|
      ensures Linked(w, key, rows + [row], i)
    {
      assert Linked(w, key, rows, i);
    }
  }

  /** Truncation: every prefix of a verifying log verifies, so only the head tells how long it was. */
  lemma PrefixVerifies(w: World, key: Bytes, rows: seq<Row>, n: nat)
    requires Verifies(w, key, rows) && n <= |rows|
    ensures Verifies(w, key, rows[..n])
  {
    hide PayloadOf;
    forall i | 0 <= i < n
      ensures Linked(w, key, rows[..n], i)
    {
      assert Linked(w, key, rows, i);
    }
  }

  // ---------------------------------------------------------------- writing

  /** An event as handed to the log; its codes may be text or enum members. */
  datatype AuditEvent = AuditEvent(
    eventId: string, timestamp: int, eventType: string, outcome: string, reasonCodes: Value,
    similarity: Value, risk: Value, liveness: Value, sessionId: Value, requestId: Value)

  /** An empty id or a zero timestamp is filled in. */
  function Stamped(e: AuditEvent, newId: string, now: int): AuditEvent {
    e.(eventId := if e.eventId == "" then newId else e.eventId,
        timestamp := if e.timestamp == 0 then now else e.timestamp)
  }

  function RawOfEvent(e: AuditEvent): Raw {
    Raw(Text(e.eventId), Whole(e.timestamp), Text(e.eventType), Text(e.outcome), e.reasonCodes,
        e.similarity, e.risk, e.liveness, e.sessionId, e.requestId)
  }

  function EncryptedRow(w: World, key: Bytes, e: AuditEvent, p: Payload, draw: Draw, head: string): Row {
    Row(e.eventId, e.timestamp, e.eventType, e.outcome, None, Null, Null, Null, Null, Null,
        Some(head), w.chain(head, w.dumps(p)), Some(Wrap(w.cipher, AuditBlob, key, e.eventId, draw, w.dumps(p))))
  }

  function Ids(rows: seq<Row>): set<string> {
    set row | row in rows :: row.eventId
  }

  /** The log after writing a stamped event; None if a value does not convert or the id is taken. */
  function Write(w: World, key: Bytes, rows: seq<Row>, e: AuditEvent, draw: Draw): Option<seq<Row>> {
    var p := BuildHashPayload(w, RawOfEvent(e));
    if p.None? || e.eventId in Ids(rows) then None
    else Some(rows + [EncryptedRow(w, key, e, p.value, draw, Head(rows))])
  }

  /** The payload reports the event: its id, time, type and outcome; the texts of its codes, if it has a list of
      them; and similarity, risk, liveness, session and request each from the value of that name, None exactly
      for a null. */
  ghost predicate Reports(w: World, e: AuditEvent, p: Payload) {
    && p.eventId == e.eventId && p.timestamp == e.timestamp
    && p.eventType == e.eventType && p.outcome == e.outcome
    && CodesOf(w, e.reasonCodes, p.reasonCodes)
    && FloatOf(w, e.similarity, p.similarity) && FloatOf(w, e.risk, p.risk)
    && TruthOf(w, e.liveness, p.liveness)
    && TextOf(w, e.sessionId, p.sessionId) && TextOf(w, e.requestId, p.requestId)
  }

  /** What a write records for an event reports it; and a write fails exactly if the id is taken, or a score
      that is not null does not convert. */
  lemma WriteReports(w: World, key: Bytes, rows: seq<Row>, e: AuditEvent, draw: Draw)
    requires Sane(w)
    ensures var written := Write(w, key, rows, e, draw);
            && (written.None? <==>
                  || (exists row :: row in rows && row.eventId == e.eventId)
                  || (e.similarity != Null && w.toFloat(e.similarity).None?)
                  || (e.risk != Null && w.toFloat(e.risk).None?))
            && (written.Some? ==>
                  && |written.value| == |rows| + 1 && written.value[..|rows|] == rows
                  && PayloadOf(w, key, written.value[|rows|]).Some?
                  && Reports(w, e, PayloadOf(w, key, written.value[|rows|]).value)
                  && written.value[|rows|].hash
                       == w.chain(Head(rows), w.dumps(PayloadOf(w, key, written.value[|rows|]).value)))
  {
    var p := BuildHashPayload(w, RawOfEvent(e));
    if p.Some? {
      NormalIff(w, RawOfEvent(e), p.value);
      EncryptedRowReads(w, key, e, p.value, draw, Head(rows));
    }
    hide PayloadOf, CodesOf, StrAll, Wrap;
  }

  lemma EncryptedRowReads(w: World, key: Bytes, e: AuditEvent, p: Payload, draw: Draw, head: string)
    requires Sane(w) && BuildHashPayload(w, RawOfEvent(e)) == Some(p)
    ensures PayloadOf(w, key, EncryptedRow(w, key, e, p, draw, head)) == Some(p)
  {
    UnwrapWrap(w.cipher, AuditBlob, key, e.eventId, draw, w.dumps(p));
    NormaliserIsStable(w, p, EncryptedRow(w, key, e, p, draw, head));
    assert p.eventId == e.eventId && p.eventType == e.eventType && p.outcome == e.outcome;
    hide Wrap, Unwrap, AsDict, RawOfDict, BuildHashPayload;
  }

  /** Writing keeps a verifying log verifying, and appends exactly the event's normal form. */
  lemma WriteKeepsVerifying(w: World, key: Bytes, rows: seq<Row>, e: AuditEvent, draw: Draw)
    requires Sane(w) && Verifies(w, key, rows) && Write(w, key, rows, e, draw).Some?
    ensures var rows' := Write(w, key, rows, e, draw).value;
            && Verifies(w, key, rows')
            && |rows'| == |rows| + 1
            && Records(w, key, rows') == Records(w, key, rows) + [RecordOf(w, key, rows'[|rows|])]
            && RecordOf(w, key, rows'[|rows|]).payload == BuildHashPayload(w, RawOfEvent(e))
  {
    var p := BuildHashPayload(w, RawOfEvent(e)).value;
    var row := EncryptedRow(w, key, e, p, draw, Head(rows));
    EncryptedRowReads(w, key, e, p, draw, Head(rows));
    hide PayloadOf, BuildHashPayload, Wrap;
    AppendVerifies(w, key, rows, row);
  }

  /** A row of the format without encryption, hashed in the same way. */
  function LegacyRow(w: World, p: Payload, head: string): Row {
    Row(p.eventId, p.timestamp, p.eventType, p.outcome, Some(w.dumpsCodes(p.reasonCodes)),
        RealOrNull(p.similarity), RealOrNull(p.risk),
        if p.liveness.Some? then Whole(if p.liveness.value then 1 else 0) else Null,
        TextOrNull(p.sessionId), TextOrNull(p.requestId), Some(head), w.chain(head, w.dumps(p)), None)
  }

  lemma LegacyRowReads(w: World, key: Bytes, p: Payload, head: string)
    requires Sane(w)
    ensures PayloadOf(w, key, LegacyRow(w, p, head)) == Some(p)
  {
    var got := BuildHashPayload(w, RawOfColumns(w, LegacyRow(w, p, head)));
    assert LegacyCodes(w, Some(w.dumpsCodes(p.reasonCodes))) == Items(Texts(p.reasonCodes));
    assert got.Some? && got.value.reasonCodes == p.reasonCodes;
  }

  /** A log entry: a new event, or a row left from before payloads were encrypted. */
  datatype Entry = Event(event: AuditEvent, draw: Draw) | Legacy(payload: Payload)

  function Append(w: World, key: Bytes, rows: seq<Row>, entry: Entry): seq<Row> {
    match entry
    case Event(event, draw) =>
      var written := Write(w, key, rows, event, draw);
      if written.Some? then written.value else rows
    case Legacy(p) => rows + [LegacyRow(w, p, Head(rows))]
  }

  function Log(w: World, key: Bytes, entries: seq<Entry>): seq<Row> {
    if entries == [] then [] else Append(w, key, Log(w, key, entries[..|entries| - 1]), entries[|entries| - 1])
  }

  /** Every log written under one master key verifies under it, legacy rows included. */
  lemma {:induction false} EveryLogVerifies(w: World, key: Bytes, entries: seq<Entry>)
    requires Sane(w)
    ensures Verifies(w, key, Log(w, key, entries))
  {
    hide Write, LegacyRow, PayloadOf;
    if entries != [] {
      var n := |entries| - 1;
      var rows := Log(w, key, entries[..n]);
      EveryLogVerifies(w, key, entries[..n]);
      match entries[n] {
        case Event(event, draw) =>
          if Write(w, key, rows, event, draw).Some? {
            WriteKeepsVerifying(w, key, rows, event, draw);
          }
        case Legacy(p) =>
          LegacyRowReads(w, key, p, Head(rows));
          LegacyRowLinks(w, p, Head(rows));
          AppendVerifies(w, key, rows, LegacyRow(w, p, Head(rows)));
      }
    }
  }

  lemma LegacyRowLinks(w: World, p: Payload, head: string)
    ensures LegacyRow(w, p, head).hash == w.chain(head, w.dumps(p)) && LegacyRow(w, p, head).prevHash == Some(head)
  {
  }

  // ---------------------------------------------------------------- tamper evidence

  /** Tamper evidence. Two logs that verify and end in the same hash hold the same records, payloads and
      hashes, in the same order and number, even if they are read under different keys. */
  lemma {:induction false} SameHeadSameRecords(w: World, key: Bytes, rows: seq<Row>, key': Bytes, rows': seq<Row>)
    requires PlainConversions(w) && JsonRoundTrips(w) && StrongChain(w)
    requires Verifies(w, key, rows) && Verifies(w, key', rows') && Head(rows) == Head(rows')
    ensures Records(w, key, rows) == Records(w, key', rows')
    decreases |rows|
  {
    hide PayloadOf, PlainConversions, JsonRoundTrips;
    var n, n' := |rows| - 1, |rows'| - 1;
    if rows != [] {
      assert Linked(w, key, rows, n);
    }
    if rows' != [] {
      assert Linked(w, key', rows', n');
    }
    if rows != [] && rows' != [] {
      DumpsInjective(w, PayloadOf(w, key, rows[n]).value, PayloadOf(w, key', rows'[n']).value);
      PrefixVerifies(w, key, rows, n);
      PrefixVerifies(w, key', rows', n');
      SameHeadSameRecords(w, key, rows[..n], key', rows'[..n']);
      assert rows == rows[..n] + [rows[n]] && rows' == rows'[..n'] + [rows'[n']];
      assert Records(w, key, rows) == Records(w, key, rows[..n]) + [RecordOf(w, key, rows[n])];
      assert Records(w, key', rows') == Records(w, key', rows'[..n']) + [RecordOf(w, key', rows'[n'])];
    }
  }

  // ---------------------------------------------------------------- key rotation

  /** Rotating the master key does not rewrap audit payloads: a verifying log still verifies under
      another key exactly when none of its rows is encrypted. */
  lemma VerifiesAfterRotationIff(w: World, key: Bytes, rows: seq<Row>, newKey: Bytes)
    requires Lawful(w.cipher) && Binding(w.cipher) && Verifies(w, key, rows) && newKey != key
    ensures Verifies(w, newKey, rows) <==> forall i :: 0 <= i < |rows| ==> rows[i].encrypted.None?
  {
    hide BuildHashPayload;
    forall i | 0 <= i < |rows|
      ensures rows[i].encrypted.None? ==> Linked(w, newKey, rows, i)
      ensures rows[i].encrypted.Some? ==> !Linked(w, newKey, rows, i)
    {
      assert Linked(w, key, rows, i);
      if rows[i].encrypted.Some? {
        EncryptedNeedsItsKey(w, key, rows[i], newKey);
      }
    }
  }

  lemma EncryptedNeedsItsKey(w: World, key: Bytes, row: Row, newKey: Bytes)
    requires Lawful(w.cipher) && Binding(w.cipher) && newKey != key
    requires row.encrypted.Some? && PayloadOf(w, key, row).Some?
    ensures PayloadOf(w, newKey, row).None?
  {
    hide BuildHashPayload, Wrap, Unwrap, RawOfDict;
    var blob := row.encrypted.value;
    var plain := Unwrap(w.cipher, AuditBlob, key, row.eventId, blob).value;
    UnwrapIffWrapped(w.cipher, AuditBlob, key, row.eventId, blob, plain);
    var draw :| blob == Wrap(w.cipher, AuditBlob, key, row.eventId, draw, plain);
    WrapBindsKeyAndRow(w.cipher, AuditBlob, key, row.eventId, draw, plain, newKey, row.eventId);
  }

  /** The failing side is reached by the smallest log: one event, then another key. */
  lemma RotationLosesTheLog(w: World, key: Bytes, e: AuditEvent, draw: Draw, newKey: Bytes)
    requires Sane(w) && Binding(w.cipher) && newKey != key && Write(w, key, [], e, draw).Some?
    ensures var rows := Write(w, key, [], e, draw).value; Verifies(w, key, rows) && !Verifies(w, newKey, rows)
  {
    WriteKeepsVerifying(w, key, [], e, draw);
    VerifiesAfterRotationIff(w, key, Write(w, key, [], e, draw).value, newKey);
    hide Verifies, PayloadOf, BuildHashPayload, Wrap;
  }

  /** The log with the key in use; `keys` is history: the key each row was encrypted under, if any. */
  datatype History = History(rows: seq<Row>, key: Bytes, keys: seq<Option<Bytes>>) {
    function KeyFor(i: nat): Bytes
      requires i < |keys|
    {
      if keys[i].Some? then keys[i].value else key
    }
  }

  datatype Act = Put(entry: Entry) | Rotate(newKey: Bytes)

  function Next(w: World, h: History, act: Act): History {
    match act
    case Rotate(newKey) => h.(key := newKey)
    case Put(entry) =>
      var rows := Append(w, h.key, h.rows, entry);
      if |rows| == |h.rows| then h
      else History(rows, h.key, h.keys + [if entry.Event? then Some(h.key) else None])
  }

  function After(w: World, key: Bytes, acts: seq<Act>): History {
    if acts == [] then History([], key, []) else Next(w, After(w, key, acts[..|acts| - 1]), acts[|acts| - 1])
  }

  /** Every row is linked and reads back under the key it was written under. */
  ghost predicate WellWritten(w: World, h: History) {
    && |h.keys| == |h.rows|
    && forall i :: 0 <= i < |h.rows| ==>
         (h.rows[i].encrypted.Some? <==> h.keys[i].Some?) && Linked(w, h.KeyFor(i), h.rows, i)
  }

  lemma AppendLinks(w: World, key: Bytes, rows: seq<Row>, entry: Entry)
    requires Sane(w) && |Append(w, key, rows, entry)| != |rows|
    ensures var rows' := Append(w, key, rows, entry);
            && |rows'| == |rows| + 1 && rows'[..|rows|] == rows
            && Linked(w, key, rows', |rows|) && (rows'[|rows|].encrypted.Some? <==> entry.Event?)
  {
    match entry {
      case Event(event, _) =>
        EncryptedRowReads(w, key, event, BuildHashPayload(w, RawOfEvent(event)).value, entry.draw, Head(rows));
      case Legacy(p) =>
        LegacyRowReads(w, key, p, Head(rows));
    }
    hide PayloadOf, BuildHashPayload, Wrap;
  }

  lemma StaysLinked(w: World, key: Bytes, rows: seq<Row>, rows': seq<Row>, i: nat)
    requires i < |rows| <= |rows'| && rows'[..|rows|] == rows
    ensures Linked(w, key, rows', i) == Linked(w, key, rows, i)
  {
    hide PayloadOf;
    assert rows'[i] == rows[i] && (i > 0 ==> rows'[i - 1] == rows[i - 1]);
  }

  lemma RotateIsWellWritten(w: World, h: History, newKey: Bytes)
    requires WellWritten(w, h)
    ensures WellWritten(w, h.(key := newKey))
  {
    hide Linked;
    forall i | 0 <= i < |h.rows|
      ensures Linked(w, h.(key := newKey).KeyFor(i), h.rows, i)
    {
      assert Linked(w, h.KeyFor(i), h.rows, i);
      if h.keys[i].None? {
        PlaintextNeedsNoKey(w, h.rows, i, h.key, newKey);
      }
    }
  }

  lemma ExtendedIsWellWritten(w: World, h: History, rows: seq<Row>, k: Option<Bytes>)
    requires WellWritten(w, h) && |rows| == |h.rows| + 1 && rows[..|h.rows|] == h.rows
    requires Linked(w, h.key, rows, |h.rows|) && (k == None || k == Some(h.key))
    requires rows[|h.rows|].encrypted.Some? <==> k.Some?
    ensures WellWritten(w, History(rows, h.key, h.keys + [k]))
  {
    hide Linked;
    var h' := History(rows, h.key, h.keys + [k]);
    forall i | 0 <= i < |rows|
      ensures (rows[i].encrypted.Some? <==> h'.keys[i].Some?) && Linked(w, h'.KeyFor(i), rows, i)
    {
      if i < |h.rows| {
        assert rows[..|h.rows|][i] == h.rows[i] && h'.keys[i] == h.keys[i];
        assert Linked(w, h.KeyFor(i), h.rows, i);
        StaysLinked(w, h.KeyFor(i), h.rows, rows, i);
      }
    }
  }

  lemma PutIsWellWritten(w: World, h: History, entry: Entry)
    requires Sane(w) && WellWritten(w, h)
    ensures WellWritten(w, Next(w, h, Put(entry)))
  {
    hide Append, Sane, Linked, WellWritten;
    var rows := Append(w, h.key, h.rows, entry);
    if |rows| != |h.rows| {
      AppendLinks(w, h.key, h.rows, entry);
      ExtendedIsWellWritten(w, h, rows, if entry.Event? then Some(h.key) else None);
    }
  }

  lemma PlaintextNeedsNoKey(w: World, rows: seq<Row>, i: nat, key: Bytes, other: Bytes)
    requires i < |rows| && rows[i].encrypted.None?
    ensures Linked(w, key, rows, i) == Linked(w, other, rows, i)
  {
  }

  lemma {:induction false} EveryRunIsWellWritten(w: World, key: Bytes, acts: seq<Act>)
    requires Sane(w)
    ensures WellWritten(w, After(w, key, acts))
  {
    hide Append, Sane, WellWritten;
    if acts != [] {
      EveryRunIsWellWritten(w, key, acts[..|acts| - 1]);
      var h, act := After(w, key, acts[..|acts| - 1]), acts[|acts| - 1];
      match act {
        case Rotate(newKey) => RotateIsWellWritten(w, h, newKey);
        case Put(entry) => PutIsWellWritten(w, h, entry);
      }
    } else {
      NothingWritten(w, key);
    }
  }

  lemma NothingWritten(w: World, key: Bytes)
    ensures WellWritten(w, History([], key, []))
  {
  }

  lemma WellWrittenVerifiesIff(w: World, h: History)
    requires Lawful(w.cipher) && Binding(w.cipher) && WellWritten(w, h)
    ensures Verifies(w, h.key, h.rows) <==>
              forall i :: 0 <= i < |h.keys| ==> h.keys[i] == None || h.keys[i] == Some(h.key)
  {
    hide PayloadOf, Lawful, Binding;
    forall i | 0 <= i < |h.rows|
      ensures Linked(w, h.key, h.rows, i) <==> h.keys[i] == None || h.keys[i] == Some(h.key)
    {
      assert Linked(w, h.KeyFor(i), h.rows, i);
      if h.KeyFor(i) != h.key {
        EncryptedNeedsItsKey(w, h.KeyFor(i), h.rows[i], h.key);
      }
    }
    hide Linked;
  }

  /** After any run of writes and rotations, the log verifies under the key in use exactly when every
      encrypted row was written under it. */
  lemma RunVerifiesIff(w: World, key: Bytes, acts: seq<Act>)
    requires Sane(w) && Binding(w.cipher)
    ensures var h := After(w, key, acts);
            Verifies(w, h.key, h.rows) <==>
              forall i :: 0 <= i < |h.keys| ==> h.keys[i] == None || h.keys[i] == Some(h.key)
  {
    EveryRunIsWellWritten(w, key, acts);
    WellWrittenVerifiesIff(w, After(w, key, acts));
  }
}
