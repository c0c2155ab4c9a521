/** The cloud ingest endpoint: screening a batch, registering its device, and one atomic commit.
    Requests may interleave between their reads and their commits; the unique constraints on
    `event_id` and `device_id` decide which commit wins. */
module CloudIngest {
  import opened Collections
  import opened Wrappers
  import opened Telemetry

  /** `verify(publicKey, payload, signature)`. */
  type Verifier = (string, JsonObject, string) -> bool

  datatype IngestRequest = IngestRequest(
    batchId: string, deviceId: string, timestamp: int, publicKey: string, batchSignature: string,
    events: seq<TelemetryEvent>)

  /** A batch as posted: its events are still JSON objects. */
  datatype WireBatch = WireBatch(
    batchId: string, deviceId: string, timestamp: int, publicKey: string, batchSignature: string,
    events: seq<JsonObject>)

  function ParseAll(m: Coercion, events: seq<JsonObject>): (parsed: seq<TelemetryEvent>)
    requires forall o :: o in events ==> Parses(m, o)
    ensures |parsed| == |events| && forall i :: 0 <= i < |events| ==> parsed[i] == Parse(m, events[i])
  {
    seq(|events|, i requires 0 <= i < |events| => Parse(m, events[i]))
  }

  /** The request model accepts the whole batch or, with 422, none of it. */
  function Receive(m: Coercion, w: WireBatch): (req: Option<IngestRequest>)
    ensures req.Some? <==> forall o :: o in w.events ==> Parses(m, o)
    ensures req.Some? ==>
              && req.value.batchId == w.batchId && req.value.deviceId == w.deviceId
              && req.value.timestamp == w.timestamp && req.value.publicKey == w.publicKey
              && req.value.batchSignature == w.batchSignature && |req.value.events| == |w.events|
    ensures req.Some? ==> forall i :: 0 <= i < |w.events| ==> req.value.events[i] == Parse(m, w.events[i])
  {
    if forall o :: o in w.events ==> Parses(m, o) then
      Some(IngestRequest(w.batchId, w.deviceId, w.timestamp, w.publicKey, w.batchSignature, ParseAll(m, w.events)))
    else None
  }

  datatype Device = Device(publicKey: string, registeredAt: real, lastSeen: real)

  /** The id the middleware sets for every request to the cloud. */
  type RequestId = id: string | id != "" witness "-"

  /** Does the event name the request it came from? */
  predicate Named(e: TelemetryEvent) {
    e.requestId.Some? && e.requestId.value != ""
  }

  /** The row written for an event: its one request-id column falls back to the id of the cloud's request. */
  function Persisted(e: TelemetryEvent, ctx: RequestId): (row: TelemetryEvent)
    ensures Named(row) && (row == e <==> Named(e))
  {
    if Named(e) then e else e.(requestId := Some(ctx))
  }

  datatype Database = Database(devices: map<string, Device>, events: seq<TelemetryEvent>)

  datatype Reply = Accepted(ingested: nat, duplicated: nat, received: nat, registered: bool) | Rejected(status: int)

  // ---------------------------------------------------------------- pure checks

  function EventIds(events: seq<TelemetryEvent>): (ids: seq<string>)
    ensures |ids| == |events|
    ensures forall i :: 0 <= i < |ids| ==> ids[i] == events[i].eventId
  {
    seq(|events|, i requires 0 <= i < |events| => events[i].eventId)
  }

  function Dicts(events: seq<TelemetryEvent>): (dicts: seq<JsonObject>)
    ensures |dicts| == |events|
    ensures forall i :: 0 <= i < |dicts| ==> dicts[i] == ToDict(events[i])
  {
    seq(|events|, i requires 0 <= i < |events| => ToDict(events[i]))
  }

  predicate EventVerified(verify: Verifier, publicKey: string, e: TelemetryEvent) {
    e.signature.Some? && verify(publicKey, EventSignable(ToDict(e)), e.signature.value)
  }

  predicate BatchVerified(verify: Verifier, req: IngestRequest) {
    var payload := BatchSignable(req.batchId, req.deviceId, req.timestamp, Dicts(req.events));
    verify(req.publicKey, payload, req.batchSignature)
  }

  /** Every event names the batch's device, and the batch and all events carry valid signatures. */
  predicate Authentic(verify: Verifier, req: IngestRequest) {
    && (forall e :: e in req.events ==> e.deviceId == req.deviceId)
    && BatchVerified(verify, req)
    && (forall e :: e in req.events ==> EventVerified(verify, req.publicKey, e))
  }

  /** The rows a batch would insert: its events that were not already present, in order. */
  function Fresh(events: seq<TelemetryEvent>, existing: set<string>): (added: seq<TelemetryEvent>)
    ensures forall e :: e in added <==> e in events && e.eventId !in existing
    ensures |added| <= |events|
  {
    if events == [] then []
    else
      var rest := Fresh(events[..|events| - 1], existing);
      var last := events[|events| - 1];
      if last.eventId in existing then rest else rest + [last]
  }

  lemma {:induction false} FreshDistinct(events: seq<TelemetryEvent>, existing: set<string>)
    requires Distinct(EventIds(events))
    ensures Distinct(EventIds(Fresh(events, existing)))
  {
    if events != [] {
      var front, last := events[..|events| - 1], events[|events| - 1];
      assert EventIds(front) == EventIds(events)[..|events| - 1];
      FreshDistinct(front, existing);
      var added := Fresh(front, existing);
      if last.eventId !in existing {
        forall i | 0 <= i < |added|
          ensures EventIds(added)[i] != last.eventId
        {
          assert added[i] in added;
          var j :| 0 <= j < |front| && front[j] == added[i];
          assert EventIds(events)[j] != EventIds(events)[|events| - 1];
        }
        assert EventIds(added + [last]) == EventIds(added) + [last.eventId];
      }
    }
  }

  /** With distinct ids, every event is either added or one of the existing ones. */
  lemma {:induction false} FreshAndExistingCount(events: seq<TelemetryEvent>, existing: set<string>)
    requires Distinct(EventIds(events))
    requires existing <= Elements(EventIds(events))
    ensures |Fresh(events, existing)| + |existing| == |events|
  {
    if events == [] {
      assert Elements(EventIds(events)) == {};
    } else {
      var front, last := events[..|events| - 1], events[|events| - 1].eventId;
      var ids := EventIds(events);
      assert EventIds(front) == ids[..|ids| - 1] && ids == EventIds(front) + [last];
      assert Elements(ids) == Elements(EventIds(front)) + {last};
      assert forall i :: 0 <= i < |front| ==> EventIds(front)[i] != last;
      FreshAndExistingCount(front, existing - {last});
      SameFresh(front, existing, last);
    }
  }

  lemma {:induction false} SameFresh(events: seq<TelemetryEvent>, existing: set<string>, id: string)
    requires id !in EventIds(events)
    ensures Fresh(events, existing) == Fresh(events, existing - {id})
  {
    if events != [] {
      var front := events[..|events| - 1];
      assert EventIds(events)[|events| - 1] != id;
      assert EventIds(front) == EventIds(events)[..|events| - 1];
      SameFresh(front, existing, id);
    }
  }

  // ---------------------------------------------------------------- one request, phase by phase

  /** Where a request stands: not yet looked at, device row read, existing ids read, answered. */
  datatype Phase =
    | Arrived(req: IngestRequest)
    | DeviceRead(req: IngestRequest, known: bool)
    | IdsRead(req: IngestRequest, known: bool, existing: set<string>)
    | Answered(req: IngestRequest, reply: Reply)

  function StoredIds(db: Database): set<string> {
    set i | 0 <= i < |db.events| :: db.events[i].eventId
  }

  /** Screening, then the device lookup, the key comparison and the duplicate-id check. */
  function ReadDevice(verify: Verifier, db: Database, req: IngestRequest): (p: Phase)
    ensures p.req == req
    ensures p.Answered? ==> p.reply.Rejected?
  {
    if exists e :: e in req.events && e.deviceId != req.deviceId then Answered(req, Rejected(422))
    else if !Authentic(verify, req) then Answered(req, Rejected(401))
    else if req.deviceId in db.devices && db.devices[req.deviceId].publicKey != req.publicKey
    then Answered(req, Rejected(401))
    else if |Elements(EventIds(req.events))| != |req.events| then Answered(req, Rejected(409))
    else DeviceRead(req, req.deviceId in db.devices)
  }

  function ReadIds(db: Database, req: IngestRequest, known: bool): Phase {
    IdsRead(req, known, Elements(EventIds(req.events)) * StoredIds(db))
  }

  /** Would the commit violate the primary key of `devices` or the unique `event_id`? */
  predicate Conflicts(db: Database, req: IngestRequest, known: bool, existing: set<string>) {
    || (!known && req.deviceId in db.devices)
    || (exists e :: e in Fresh(req.events, existing) && e.eventId in StoredIds(db))
  }

  function Rows(added: seq<TelemetryEvent>, ctx: RequestId): (rows: seq<TelemetryEvent>)
    ensures |rows| == |added|
    ensures forall i :: 0 <= i < |rows| ==> rows[i] == Persisted(added[i], ctx)
  {
    seq(|added|, i requires 0 <= i < |added| => Persisted(added[i], ctx))
  }

  function SeenDevices(db: Database, req: IngestRequest, known: bool, now: real): map<string, Device> {
    if !known then db.devices[req.deviceId := Device(req.publicKey, now, now)]
    else if req.deviceId in db.devices then db.devices[req.deviceId := db.devices[req.deviceId].(lastSeen := now)]
    else db.devices
  }

  /** The commit: all of the transaction's writes, or none of them. */
  function CommitDb(db: Database, req: IngestRequest, known: bool, existing: set<string>,
                    ctx: RequestId, now: real): Database {
    if Conflicts(db, req, known, existing) then db
    else Database(SeenDevices(db, req, known, now), db.events + Rows(Fresh(req.events, existing), ctx))
  }

  function CommitReply(db: Database, req: IngestRequest, known: bool, existing: set<string>): Reply {
    if Conflicts(db, req, known, existing) then Rejected(500)
    else Accepted(|Fresh(req.events, existing)|, |existing|, |req.events|, !known)
  }

  // ---------------------------------------------------------------- interleaved requests

  datatype System = System(db: Database, requests: map<nat, Phase>)

  datatype Step =
    | Arrive(id: nat, req: IngestRequest)
    | LookUpDevice(id: nat)
    | LookUpIds(id: nat)
    | Commit(id: nat, ctx: RequestId, now: real)
    | Fail(id: nat)
    | Lose(id: nat)

  predicate Enabled(s: System, step: Step) {
    match step
    case Arrive(id, _) => id !in s.requests
    case LookUpDevice(id) => id in s.requests && s.requests[id].Arrived?
    case LookUpIds(id) => id in s.requests && s.requests[id].DeviceRead?
    case Commit(id, _, _) => id in s.requests && s.requests[id].IdsRead?
    case Fail(id) => id in s.requests && !s.requests[id].Answered?
    case Lose(id) => id in s.requests
  }

  function Apply(verify: Verifier, s: System, step: Step): System
    requires Enabled(s, step)
  {
    match step
    case Arrive(id, req) => s.(requests := s.requests[id := Arrived(req)])
    case LookUpDevice(id) =>
      s.(requests := s.requests[id := ReadDevice(verify, s.db, s.requests[id].req)])
    case LookUpIds(id) =>
      var p := s.requests[id];
      s.(requests := s.requests[id := ReadIds(s.db, p.req, p.known)])
    case Commit(id, ctx, now) =>
      var p := s.requests[id];
      System(CommitDb(s.db, p.req, p.known, p.existing, ctx, now),
             s.requests[id := Answered(p.req, CommitReply(s.db, p.req, p.known, p.existing))])
    case Fail(id) =>
      s.(requests := s.requests[id := Answered(s.requests[id].req, Rejected(500))])
    case Lose(id) => s.(requests := s.requests - {id})
  }

  // ---------------------------------------------------------------- invariant

  /** The row stands for an event that verified as received: this very one, or, where that one named no
      request, the one without the request id that the cloud filled in. */
  ghost predicate VerifiedAsReceived(verify: Verifier, publicKey: string, row: TelemetryEvent) {
    exists id :: (id == row.requestId || id == None || id == Some("")) && VerifiesWithId(verify, publicKey, row, id)
  }

  predicate VerifiesWithId(verify: Verifier, publicKey: string, row: TelemetryEvent, id: Option<string>) {
    EventVerified(verify, publicKey, row.(requestId := id))
  }

  /** No event id twice, and every stored event verified, as received, under the key of its registered device. */
  ghost predicate StoreSound(verify: Verifier, db: Database) {
    && (forall i, j :: 0 <= i < j < |db.events| ==> db.events[i].eventId != db.events[j].eventId)
    && (forall i :: 0 <= i < |db.events| ==> Attributed(verify, db.devices, db.events[i]))
  }

  ghost predicate Attributed(verify: Verifier, devices: map<string, Device>, row: TelemetryEvent) {
    row.deviceId in devices && Named(row) && VerifiedAsReceived(verify, devices[row.deviceId].publicKey, row)
  }

  ghost predicate Screened(verify: Verifier, db: Database, req: IngestRequest, known: bool) {
    && Authentic(verify, req)
    && Distinct(EventIds(req.events))
    && (known ==> req.deviceId in db.devices && db.devices[req.deviceId].publicKey == req.publicKey)
  }

  /** What a 202 means: the counts add up and every event of the batch is in the store. */
  ghost predicate Honoured(db: Database, req: IngestRequest, reply: Reply) {
    reply.Accepted? ==>
      && reply.ingested + reply.duplicated == reply.received == |req.events|
      && (forall e :: e in req.events ==> e.eventId in StoredIds(db))
  }

  ghost predicate PhaseSound(verify: Verifier, db: Database, p: Phase) {
    match p
    case Arrived(_) => true
    case DeviceRead(req, known) => Screened(verify, db, req, known)
    case IdsRead(req, known, existing) =>
      Screened(verify, db, req, known) && existing <= Elements(EventIds(req.events)) * StoredIds(db)
    case Answered(req, reply) => Honoured(db, req, reply)
  }

  ghost predicate Inv(verify: Verifier, s: System) {
    && StoreSound(verify, s.db)
    && (forall id :: id in s.requests ==> PhaseSound(verify, s.db, s.requests[id]))
  }

  /** Registered devices keep their key, and stored events stay where they are. */
  ghost predicate Grows(before: Database, after: Database) {
    && (forall d :: d in before.devices ==>
          d in after.devices && after.devices[d].publicKey == before.devices[d].publicKey)
    && before.events <= after.events
  }

  lemma GrowsKeepsIds(before: Database, after: Database)
    requires Grows(before, after)
    ensures StoredIds(before) <= StoredIds(after)
  {
    forall id | id in StoredIds(before)
      ensures id in StoredIds(after)
    {
      var i :| 0 <= i < |before.events| && before.events[i].eventId == id;
      assert after.events[i] == before.events[i];
    }
  }

  lemma GrowsKeepsPhases(verify: Verifier, before: Database, after: Database, p: Phase)
    requires Grows(before, after) && PhaseSound(verify, before, p)
    ensures PhaseSound(verify, after, p)
  {
    GrowsKeepsIds(before, after);
  }

  lemma AppendKeepsIdsUnique(db: Database, added: seq<TelemetryEvent>, rows: seq<TelemetryEvent>, ctx: RequestId)
    requires forall i, j :: 0 <= i < j < |db.events| ==> db.events[i].eventId != db.events[j].eventId
    requires rows == Rows(added, ctx)
    requires Distinct(EventIds(added)) && forall e :: e in added ==> e.eventId !in StoredIds(db)
    ensures var all := db.events + rows;
            forall i, j :: 0 <= i < j < |all| ==> all[i].eventId != all[j].eventId
  {
    var all, n := db.events + rows, |db.events|;
    forall i, j | 0 <= i < j < |all|
      ensures all[i].eventId != all[j].eventId
    {
      if n <= j {
        assert added[j - n] in added;
        if n <= i {
          assert EventIds(added)[i - n] != EventIds(added)[j - n];
        }
      }
    }
  }

  lemma AppendHonours(req: IngestRequest, existing: set<string>, before: Database, after: Database,
                      rows: seq<TelemetryEvent>, ctx: RequestId)
    requires existing <= StoredIds(before) && after.events == before.events + rows
    requires var added := Fresh(req.events, existing);
             rows == Rows(added, ctx)
    ensures forall e :: e in req.events ==> e.eventId in StoredIds(after)
  {
    var added := Fresh(req.events, existing);
    hide Fresh;
    forall e | e in req.events
      ensures e.eventId in StoredIds(after)
    {
      if e.eventId in existing {
        var i :| 0 <= i < |before.events| && before.events[i].eventId == e.eventId;
        assert after.events[i] == before.events[i];
      } else {
        var k :| 0 <= k < |added| && added[k] == e;
        assert after.events[|before.events| + k] == rows[k];
      }
    }
  }

  lemma PersistedVerifies(verify: Verifier, publicKey: string, e: TelemetryEvent, ctx: RequestId)
    requires EventVerified(verify, publicKey, e)
    ensures VerifiedAsReceived(verify, publicKey, Persisted(e, ctx))
  {
    assert Persisted(e, ctx).(requestId := e.requestId) == e;
    assert VerifiesWithId(verify, publicKey, Persisted(e, ctx), e.requestId);
  }

  lemma StillAttributed(verify: Verifier, before: Database, after: Database, row: TelemetryEvent)
    requires Grows(before, after) && Attributed(verify, before.devices, row)
    ensures Attributed(verify, after.devices, row)
  {
  }

  lemma AppendAttributes(verify: Verifier, req: IngestRequest, before: Database, devices: map<string, Device>,
                         added: seq<TelemetryEvent>, rows: seq<TelemetryEvent>, ctx: RequestId)
    requires StoreSound(verify, before) && Grows(before, Database(devices, before.events + rows))
    requires forall e :: e in added ==> EventVerified(verify, req.publicKey, e) && e.deviceId == req.deviceId
    requires req.deviceId in devices && devices[req.deviceId].publicKey == req.publicKey
    requires rows == Rows(added, ctx)
    ensures forall i :: 0 <= i < |before.events + rows| ==> Attributed(verify, devices, (before.events + rows)[i])
  {
    hide VerifiedAsReceived, EventVerified, Grows;
    forall i | 0 <= i < |before.events + rows|
      ensures Attributed(verify, devices, (before.events + rows)[i])
    {
      if i < |before.events| {
        hide Attributed;
        StillAttributed(verify, before, Database(devices, before.events + rows), before.events[i]);
      } else {
        var e := added[i - |before.events|];
        assert e in added;
        PersistedVerifies(verify, req.publicKey, e, ctx);
      }
    }
  }

  lemma CommitSound(verify: Verifier, db: Database, req: IngestRequest, known: bool, existing: set<string>,
                    ctx: RequestId, now: real)
    requires StoreSound(verify, db) && PhaseSound(verify, db, IdsRead(req, known, existing))
    ensures var after := CommitDb(db, req, known, existing, ctx, now);
            && Grows(db, after)
            && StoreSound(verify, after)
            && Honoured(after, req, CommitReply(db, req, known, existing))
  {
    if !Conflicts(db, req, known, existing) {
      var after := CommitDb(db, req, known, existing, ctx, now);
      var added := Fresh(req.events, existing);
      var rows := Rows(added, ctx);
      assert Grows(db, after);
      FreshDistinct(req.events, existing);
      AppendKeepsIdsUnique(db, added, rows, ctx);
      AppendAttributes(verify, req, db, after.devices, added, rows, ctx);
      FreshAndExistingCount(req.events, existing);
      AppendHonours(req, existing, db, after, rows, ctx);
    }
  }

  /** Any interleaving of any requests, honest or not, keeps the store sound. */
  lemma StepKeepsInv(verify: Verifier, s: System, step: Step)
    requires Inv(verify, s) && Enabled(s, step)
    ensures Inv(verify, Apply(verify, s, step)) && Grows(s.db, Apply(verify, s, step).db)
  {
    var s' := Apply(verify, s, step);
    match step
    case Commit(id, ctx, now) =>
      var p := s.requests[id];
      CommitSound(verify, s.db, p.req, p.known, p.existing, ctx, now);
      forall other | other in s'.requests && other != id
        ensures PhaseSound(verify, s'.db, s'.requests[other])
      {
        GrowsKeepsPhases(verify, s.db, s'.db, s.requests[other]);
      }
    case LookUpDevice(id) =>
      SetSizeIffDistinct(EventIds(s.requests[id].req.events));
    case _ =>
  }

  /** A committed batch added all of its fresh events or nothing at all. */
  lemma AllOrNothing(verify: Verifier, s: System, id: nat, ctx: RequestId, now: real)
    requires Inv(verify, s) && Enabled(s, Commit(id, ctx, now))
    ensures var s' := Apply(verify, s, Commit(id, ctx, now));
            var req := s.requests[id].req;
            if s'.requests[id].reply.Accepted?
            then (forall e :: e in req.events ==> e.eventId in StoredIds(s'.db))
                 && |s'.db.events| == |s.db.events| + s'.requests[id].reply.ingested
                 && (forall i :: |s.db.events| <= i < |s'.db.events| ==>
                       && s'.db.events[i].eventId !in StoredIds(s.db)
                       && IsRowOf(s'.db.events[i], req, ctx))
            else s'.db == s.db && s'.requests[id].reply == Rejected(500)
  {
    var p := s.requests[id];
    CommitSound(verify, s.db, p.req, p.known, p.existing, ctx, now);
    hide Inv, Conflicts, StoreSound, SeenDevices;
    AppendedRows(s.db, p.req, p.known, p.existing, ctx, now);
    hide CommitDb;
  }

  /** The row was written for an event of the batch. */
  ghost predicate IsRowOf(row: TelemetryEvent, req: IngestRequest, ctx: RequestId) {
    exists e :: e in req.events && row == Persisted(e, ctx)
  }

  lemma AppendedRows(db: Database, req: IngestRequest, known: bool, existing: set<string>, ctx: RequestId, now: real)
    ensures var after, reply := CommitDb(db, req, known, existing, ctx, now), CommitReply(db, req, known, existing);
            if reply.Accepted?
            then |after.events| == |db.events| + reply.ingested
                 && (forall i :: |db.events| <= i < |after.events| ==>
                       IsRowOf(after.events[i], req, ctx))
                 && (forall i :: |db.events| <= i < |after.events| ==> after.events[i].eventId !in StoredIds(db))
            else after == db
  {
    var added := Fresh(req.events, existing);
    assert forall e :: e in added && !Conflicts(db, req, known, existing) ==> e.eventId !in StoredIds(db);
    hide Fresh, Conflicts, SeenDevices, StoredIds;
    var after := CommitDb(db, req, known, existing, ctx, now);
    if after != db {
      forall i | |db.events| <= i < |after.events|
        ensures IsRowOf(after.events[i], req, ctx)
        ensures after.events[i].eventId !in StoredIds(db)
      {
        var e := added[i - |db.events|];
        assert e in added && after.events[i] == Persisted(e, ctx);
      }
    }
  }

  ghost predicate Run(verify: Verifier, states: seq<System>, steps: seq<Step>) {
    && |states| == |steps| + 1
    && states[0] == System(Database(map[], []), map[])
    && forall i :: 0 <= i < |steps| ==>
         Enabled(states[i], steps[i]) && states[i + 1] == Apply(verify, states[i], steps[i])
  }

  /** In every run, from the first state on: the store is sound, every 202 ever given is honoured
      in the state that still holds it, and no device changes its key between any two moments. */
  lemma {:induction false} StoreSoundInEveryRun(verify: Verifier, states: seq<System>, steps: seq<Step>, i: nat, j: nat)
    requires Run(verify, states, steps) && i <= j < |states|
    ensures Inv(verify, states[j]) && Grows(states[i].db, states[j].db)
    decreases j
  {
    if j > 0 {
      StoreSoundInEveryRun(verify, states, steps, if i < j then i else j - 1, j - 1);
      StepKeepsInv(verify, states[j - 1], steps[j - 1]);
    }
  }
}
