/** The ingest endpoint as it runs: the checks, loops and the commit of one request,
    proved equal to the phases that the interleaved model composes. */
module IngestService {
  import opened Collections
  import opened Wrappers
  import opened Telemetry
  import opened CloudIngest

  /** Does the table take a row? Its columns refuse, say, an integer out of their range. */
  type Storable = TelemetryEvent -> bool

  predicate AllStorable(storable: Storable, rows: seq<TelemetryEvent>) {
    forall i :: 0 <= i < |rows| ==> storable(rows[i])
  }

  /** All phases of one request with nothing in between. A row that the table refuses rolls everything back. */
  function Serve(verify: Verifier, storable: Storable, db: Database, req: IngestRequest, ctx: RequestId, now: real)
    : (Database, Reply)
  {
    var first := ReadDevice(verify, db, req);
    if first.Answered? then (db, first.reply)
    else
      var read := ReadIds(db, req, first.known);
      if !AllStorable(storable, Rows(Fresh(req.events, read.existing), ctx)) then (db, Rejected(500))
      else
        (CommitDb(db, req, read.known, read.existing, ctx, now), CommitReply(db, req, read.known, read.existing))
  }

  /** Is the batch well-formed, authentic, signed by the key its device registered, and free of duplicate ids? */
  predicate Acceptable(verify: Verifier, db: Database, req: IngestRequest) {
    && Authentic(verify, req)
    && (req.deviceId in db.devices ==> db.devices[req.deviceId].publicKey == req.publicKey)
    && |Elements(EventIds(req.events))| == |req.events|
  }

  lemma NeverConflictsAlone(db: Database, req: IngestRequest)
    ensures var existing := Elements(EventIds(req.events)) * StoredIds(db);
            !Conflicts(db, req, req.deviceId in db.devices, existing)
  {
    var existing := Elements(EventIds(req.events)) * StoredIds(db);
    hide Fresh;
    forall e | e in Fresh(req.events, existing)
      ensures e.eventId !in StoredIds(db)
    {
      var i :| 0 <= i < |req.events| && req.events[i] == e;
      assert EventIds(req.events)[i] == e.eventId;
    }
  }

  lemma StorableIff(storable: Storable, db: Database, req: IngestRequest, ctx: RequestId)
    ensures var existing := Elements(EventIds(req.events)) * StoredIds(db);
            AllStorable(storable, Rows(Fresh(req.events, existing), ctx)) <==>
              forall e :: e in req.events && e.eventId !in StoredIds(db) ==> storable(Persisted(e, ctx))
  {
    var existing := Elements(EventIds(req.events)) * StoredIds(db);
    var added := Fresh(req.events, existing);
    hide Fresh, Persisted;
    assert forall i :: 0 <= i < |req.events| ==> EventIds(req.events)[i] == req.events[i].eventId;
    assert forall e :: e in added <==> e in req.events && e.eventId !in StoredIds(db);
    if AllStorable(storable, Rows(added, ctx)) {
      forall e | e in added
        ensures storable(Persisted(e, ctx))
      {
        var k :| 0 <= k < |added| && added[k] == e;
        assert Rows(added, ctx)[k] == Persisted(e, ctx);
      }
    } else {
      var k :| 0 <= k < |added| && !storable(Rows(added, ctx)[k]);
      assert added[k] in added;
    }
  }

  /** Alone, a request is accepted exactly when it is well-formed, authentic, signed by the key its device
      registered, free of duplicate ids, and all its new rows fit the table; 500 is left for rows that do
      not fit, as there is never a conflict at commit. */
  lemma ServedAloneIff(verify: Verifier, storable: Storable, db: Database, req: IngestRequest,
                       ctx: RequestId, now: real)
    ensures var reply := Serve(verify, storable, db, req, ctx, now).1;
            var acceptable := && Authentic(verify, req)
                              && (req.deviceId in db.devices ==> db.devices[req.deviceId].publicKey == req.publicKey)
                              && Distinct(EventIds(req.events));
            var fits := forall e :: e in req.events && e.eventId !in StoredIds(db) ==> storable(Persisted(e, ctx));
            && (reply.Accepted? <==> acceptable && fits)
            && (reply == Rejected(500) <==> acceptable && !fits)
  {
    SetSizeIffDistinct(EventIds(req.events));
    StorableIff(storable, db, req, ctx);
    NeverConflictsAlone(db, req);
    AcceptableIsNotRefused(verify, db, req);
    hide Authentic, Fresh, Conflicts, AllStorable, Persisted, ReadDevice;
  }

  predicate IsNew(events: seq<TelemetryEvent>, existing: set<string>, i: int) {
    0 <= i < |events| && events[i].eventId !in existing
  }

  lemma {:induction false} FreshCounts(events: seq<TelemetryEvent>, existing: set<string>)
    ensures |Fresh(events, existing)| == CountIf(|events|, i => IsNew(events, existing, i))
    decreases |events|
  {
    hide CountIf;
    if events == [] {
      CountNext(0, i => IsNew(events, existing, i));
    } else {
      var n := |events| - 1;
      var rest := events[..n];
      FreshCounts(rest, existing);
      forall i | 0 <= i < n
        ensures IsNew(events, existing, i) == IsNew(rest, existing, i)
      {
        assert events[i] == rest[i];
      }
      CountSame(n, i => IsNew(events, existing, i), i => IsNew(rest, existing, i));
      CountNext(n, i => IsNew(events, existing, i));
    }
  }

  /** Why a request alone is refused, in this order: an event of another device, 422; a signature that does not
      verify, or a key other than the one registered, 401; two events with one id, 409. A refusal changes
      nothing. */
  lemma RefusedAloneIff(verify: Verifier, storable: Storable, db: Database, req: IngestRequest,
                        ctx: RequestId, now: real)
    ensures var (after, reply) := Serve(verify, storable, db, req, ctx, now);
            var foreign := exists e :: e in req.events && e.deviceId != req.deviceId;
            var signed := BatchVerified(verify, req)
                          && forall e :: e in req.events ==> EventVerified(verify, req.publicKey, e);
            var ownKey := req.deviceId in db.devices ==> db.devices[req.deviceId].publicKey == req.publicKey;
            && (reply == Rejected(422) <==> foreign)
            && (reply == Rejected(401) <==> !foreign && !(signed && ownKey))
            && (reply == Rejected(409) <==> !foreign && signed && ownKey && !Distinct(EventIds(req.events)))
            && (reply.Rejected? ==> after == db)
  {
    SetSizeIffDistinct(EventIds(req.events));
    NeverConflictsAlone(db, req);
    hide BatchVerified, EventVerified, Fresh, Conflicts, AllStorable, SeenDevices, EventIds, StoredIds;
  }

  lemma AcceptableIsNotRefused(verify: Verifier, db: Database, req: IngestRequest)
    ensures var first := ReadDevice(verify, db, req);
            if Acceptable(verify, db, req) then first == DeviceRead(req, req.deviceId in db.devices)
            else first.Answered? && first.reply.Rejected? && first.reply != Rejected(500)
  {
    hide BatchVerified, EventVerified;
  }

  ghost predicate Holds(db: Database, e: TelemetryEvent) {
    exists i :: 0 <= i < |db.events| && db.events[i] == e
  }

  /** An accepted request appends the rows of its fresh events, and nothing else, to the stored ones. */
  lemma AcceptedAppendsFresh(verify: Verifier, storable: Storable, db: Database, req: IngestRequest,
                             ctx: RequestId, now: real)
    requires Serve(verify, storable, db, req, ctx, now).1.Accepted?
    ensures var after := Serve(verify, storable, db, req, ctx, now).0;
            var added := Fresh(req.events, Elements(EventIds(req.events)) * StoredIds(db));
            && |after.events| == |db.events| + |added|
            && (forall i :: 0 <= i < |db.events| ==> after.events[i] == db.events[i])
            && (forall k :: 0 <= k < |added| ==> after.events[|db.events| + k] == Persisted(added[k], ctx))
            && Distinct(EventIds(req.events))
  {
    hide *;
    ServedAccepts(verify, storable, db, req, ctx, now);
    SetSizeIffDistinct(EventIds(req.events));
    CommitAppends(db, req, req.deviceId in db.devices, Elements(EventIds(req.events)) * StoredIds(db), ctx, now);
  }

  lemma CommitAppends(db: Database, req: IngestRequest, known: bool, existing: set<string>, ctx: RequestId, now: real)
    requires !Conflicts(db, req, known, existing)
    ensures var after, added := CommitDb(db, req, known, existing, ctx, now), Fresh(req.events, existing);
            && |after.events| == |db.events| + |added|
            && (forall i :: 0 <= i < |db.events| ==> after.events[i] == db.events[i])
            && (forall k :: 0 <= k < |added| ==> after.events[|db.events| + k] == Persisted(added[k], ctx))
  {
    hide Fresh, Conflicts, SeenDevices, Persisted;
  }

  lemma ServedAccepts(verify: Verifier, storable: Storable, db: Database, req: IngestRequest, ctx: RequestId, now: real)
    requires Serve(verify, storable, db, req, ctx, now).1.Accepted?
    ensures var existing := Elements(EventIds(req.events)) * StoredIds(db);
            && !Conflicts(db, req, req.deviceId in db.devices, existing)
            && Serve(verify, storable, db, req, ctx, now) ==
               (CommitDb(db, req, req.deviceId in db.devices, existing, ctx, now),
                CommitReply(db, req, req.deviceId in db.devices, existing))
            && (req.deviceId in db.devices ==> db.devices[req.deviceId].publicKey == req.publicKey)
            && |Elements(EventIds(req.events))| == |req.events|
  {
    AcceptableIsNotRefused(verify, db, req);
    hide ReadDevice, Authentic, Fresh, AllStorable, SeenDevices, StoredIds;
  }

  lemma CommitRegisters(db: Database, req: IngestRequest, existing: set<string>, ctx: RequestId, now: real)
    requires !Conflicts(db, req, req.deviceId in db.devices, existing)
    ensures var known := req.deviceId in db.devices;
            var devices := CommitDb(db, req, known, existing, ctx, now).devices;
            && CommitReply(db, req, known, existing) ==
                 Accepted(|Fresh(req.events, existing)|, |existing|, |req.events|, !known)
            && req.deviceId in devices && devices == db.devices[req.deviceId := devices[req.deviceId]]
            && devices[req.deviceId].publicKey == (if known then db.devices[req.deviceId].publicKey else req.publicKey)
            && devices[req.deviceId].lastSeen == now
            && devices[req.deviceId].registeredAt == if known then db.devices[req.deviceId].registeredAt else now
  {
    hide Fresh, Conflicts;
  }

  lemma NewAlone(db: Database, req: IngestRequest)
    requires Distinct(EventIds(req.events))
    ensures var existing := Elements(EventIds(req.events)) * StoredIds(db);
            && |Fresh(req.events, existing)|
                 == |set i | 0 <= i < |req.events| && req.events[i].eventId !in StoredIds(db)|
            && |Fresh(req.events, existing)| + |existing| == |req.events|
  {
    var existing := Elements(EventIds(req.events)) * StoredIds(db);
    FreshCounts(req.events, existing);
    FreshAndExistingCount(req.events, existing);
    hide Fresh, StoredIds;
    forall i | 0 <= i < |req.events|
      ensures IsNew(req.events, existing, i) <==> req.events[i].eventId !in StoredIds(db)
    {
      assert EventIds(req.events)[i] in Elements(EventIds(req.events));
    }
    CountIs(|req.events|, i => IsNew(req.events, existing, i),
            set i | 0 <= i < |req.events| && req.events[i].eventId !in StoredIds(db));
  }

  /** What an accepted request alone reports and does to the devices: how many of its events were new and how
      many were not, and whether its device was; a new device is registered under the key of the request, and a
      known one keeps all but the time it was last seen. */
  lemma AcceptedAlone(verify: Verifier, storable: Storable, db: Database, req: IngestRequest,
                      ctx: RequestId, now: real)
    requires Serve(verify, storable, db, req, ctx, now).1.Accepted?
    ensures var (after, reply) := Serve(verify, storable, db, req, ctx, now);
            && reply.ingested == |set i | 0 <= i < |req.events| && req.events[i].eventId !in StoredIds(db)|
            && reply.ingested == |after.events| - |db.events|
            && reply.duplicated == |req.events| - reply.ingested && reply.received == |req.events|
            && (reply.registered <==> req.deviceId !in db.devices)
            && after.devices == db.devices[req.deviceId := after.devices[req.deviceId]]
            && after.devices[req.deviceId].publicKey == req.publicKey
            && after.devices[req.deviceId].lastSeen == now
            && after.devices[req.deviceId].registeredAt ==
                 if req.deviceId in db.devices then db.devices[req.deviceId].registeredAt else now
  {
    hide *;
    ServedAccepts(verify, storable, db, req, ctx, now);
    AcceptedAppendsFresh(verify, storable, db, req, ctx, now);
    CommitRegisters(db, req, Elements(EventIds(req.events)) * StoredIds(db), ctx, now);
    NewAlone(db, req);
  }

  /** Duplicates are recognised by id alone, and a missing request id is filled in. So after a 202, an event
      of the batch is stored as sent exactly when its id was new and it named its request, or the row
      already under that id is this very event. */
  lemma AcceptedContentIff(verify: Verifier, storable: Storable, db: Database, req: IngestRequest,
                             ctx: RequestId, now: real,
                           e: TelemetryEvent)
    requires Serve(verify, storable, db, req, ctx, now).1.Accepted? && e in req.events
    ensures Holds(Serve(verify, storable, db, req, ctx, now).0, e) <==>
              (e.eventId !in StoredIds(db) && Named(e)) || Holds(db, e)
  {
    AcceptedAppendsFresh(verify, storable, db, req, ctx, now);
    hide Serve;
    var after := Serve(verify, storable, db, req, ctx, now).0;
    AppendedContentIff(db, after, req, ctx, e);
  }

  lemma AppendedContentIff(db: Database, after: Database, req: IngestRequest, ctx: RequestId, e: TelemetryEvent)
    requires e in req.events && Distinct(EventIds(req.events))
    requires var added := Fresh(req.events, Elements(EventIds(req.events)) * StoredIds(db));
             && |after.events| == |db.events| + |added|
             && (forall i :: 0 <= i < |db.events| ==> after.events[i] == db.events[i])
             && (forall k :: 0 <= k < |added| ==> after.events[|db.events| + k] == Persisted(added[k], ctx))
    ensures Holds(after, e) <==> (e.eventId !in StoredIds(db) && Named(e)) || Holds(db, e)
  {
    var added := Fresh(req.events, Elements(EventIds(req.events)) * StoredIds(db));
    hide Fresh;
    var at :| 0 <= at < |req.events| && req.events[at] == e;
    assert EventIds(req.events)[at] == e.eventId;
    if e.eventId !in StoredIds(db) && Named(e) {
      var k :| 0 <= k < |added| && added[k] == e;
      assert after.events[|db.events| + k] == e;
    }
    if i :| 0 <= i < |after.events| && after.events[i] == e {
      if i < |db.events| {
        assert db.events[i] == e;
      } else {
        var sent := added[i - |db.events|];
        assert sent in added;
        var j :| 0 <= j < |req.events| && req.events[j] == sent;
        assert EventIds(req.events)[j] == sent.eventId == e.eventId;
        assert j == at;
      }
    }
    if i :| 0 <= i < |db.events| && db.events[i] == e {
      assert after.events[i] == e;
    }
  }

  /** One device, registered and sending one event that every check passes. */
  function Single(e: TelemetryEvent): IngestRequest {
    IngestRequest("batch", e.deviceId, 0, "key", "signature", [e])
  }

  /** Both ways of not being stored as sent happen: another event already has the id, or the event names no
      request. */
  lemma ContentCanChange(stored: TelemetryEvent, e: TelemetryEvent, ctx: RequestId, now: real)
    requires e.signature.Some? && stored != e
    requires stored.eventId == e.eventId || !Named(e)
    ensures var verify: Verifier, storable: Storable := (_, _, _) => true, _ => true;
            var db := Database(map[e.deviceId := Device("key", 0.0, 0.0)], [stored]);
            && Serve(verify, storable, db, Single(e), ctx, now).1.Accepted?
            && !Holds(Serve(verify, storable, db, Single(e), ctx, now).0, e)
  {
    var verify: Verifier, storable: Storable := (_, _, _) => true, _ => true;
    var db := Database(map[e.deviceId := Device("key", 0.0, 0.0)], [stored]);
    assert Authentic(verify, Single(e));
    ServedAloneIff(verify, storable, db, Single(e), ctx, now);
    AcceptedContentIff(verify, storable, db, Single(e), ctx, now, e);
    assert db.events[0].eventId in StoredIds(db);
  }

  lemma RowsNext(events: seq<TelemetryEvent>, i: nat, existing: set<string>, ctx: RequestId)
    requires i < |events|
    ensures Rows(Fresh(events[..i + 1], existing), ctx) ==
            Rows(Fresh(events[..i], existing), ctx)
            + if events[i].eventId in existing then [] else [Persisted(events[i], ctx)]
  {
    hide Persisted;
    assert events[..i + 1][..i] == events[..i];
    assert events[..i + 1][i] == events[i];
  }

  lemma RowsOfNone(events: seq<TelemetryEvent>, existing: set<string>, ctx: RequestId)
    ensures Rows(Fresh(events[..0], existing), ctx) == []
  {
  }

  lemma PersistedIs(e: TelemetryEvent, ctx: RequestId)
    ensures Persisted(e, ctx) ==
            e.(requestId := Some(if e.requestId.Some? && e.requestId.value != "" then e.requestId.value else ctx))
  {
  }

  class IngestEndpoint {
    var db: Database

    constructor ()
      ensures db == Database(map[], [])
    {
      db := Database(map[], []);
    }

    /** Stops at the first event that fails the check. */
    method CheckEach(events: seq<TelemetryEvent>, ok: TelemetryEvent -> bool) returns (all: bool)
      ensures all <==> forall e :: e in events ==> ok(e)
    {
      for i := 0 to |events|
        invariant forall k :: 0 <= k < i ==> ok(events[k])
      {
        if !ok(events[i]) {
          assert events[i] in events;
          return false;
        }
      }
      return true;
    }

    /** Nothing is read or written before every device id and every signature has been checked. */
    method Screen(verify: Verifier, req: IngestRequest) returns (refusal: Option<int>)
      ensures refusal == Some(422) <==> exists e :: e in req.events && e.deviceId != req.deviceId
      ensures refusal == None <==> Authentic(verify, req)
      ensures refusal == None || refusal == Some(422) || refusal == Some(401)
    {
      var sameDevice := CheckEach(req.events, (e: TelemetryEvent) => e.deviceId == req.deviceId);
      if !sameDevice {
        return Some(422);
      }
      if !BatchVerified(verify, req) {
        return Some(401);
      }
      var signed := CheckEach(req.events, (e: TelemetryEvent) => EventVerified(verify, req.publicKey, e));
      refusal := if signed then None else Some(401);
    }

    method BuildRows(req: IngestRequest, existing: set<string>, ctx: RequestId) returns (rows: seq<TelemetryEvent>)
      ensures rows == Rows(Fresh(req.events, existing), ctx)
    {
      RowsOfNone(req.events, existing, ctx);
      hide Fresh, Rows, Persisted, Named;
      rows := [];
      for i := 0 to |req.events|
        invariant rows == Rows(Fresh(req.events[..i], existing), ctx)
      {
        RowsNext(req.events, i, existing, ctx);
        var e := req.events[i];
        PersistedIs(e, ctx);
        if e.eventId !in existing {
          var persisted := if e.requestId.Some? && e.requestId.value != "" then e.requestId.value else ctx;
          rows := rows + [e.(requestId := Some(persisted))];
        }
      }
      assert req.events[..|req.events|] == req.events;
    }

    method IngestEvents(verify: Verifier, storable: Storable, req: IngestRequest, ctx: RequestId, now: real)
      returns (reply: Reply)
      modifies this
      ensures (db, reply) == Serve(verify, storable, old(db), req, ctx, now)
      ensures reply.Rejected? ==> db == old(db)
    {
      hide BatchVerified, EventVerified, Fresh, Conflicts, SeenDevices, StoredIds;
      var refusal := Screen(verify, req);
      if refusal.Some? {
        return Rejected(refusal.value);
      }
      var known := req.deviceId in db.devices;
      if known && db.devices[req.deviceId].publicKey != req.publicKey {
        return Rejected(401);
      }
      if |Elements(EventIds(req.events))| != |req.events| {
        return Rejected(409);
      }
      var existing := Elements(EventIds(req.events)) * StoredIds(db);
      var rows := BuildRows(req, existing, ctx);
      var fits := CheckEach(rows, storable);
      if !fits {
        return Rejected(500);
      }
      NeverConflictsAlone(db, req);
      reply := Accepted(|rows|, |existing|, |req.events|, !known);
      db := Database(SeenDevices(db, req, known, now), db.events + rows);
    }
  }
}
