/** The audit repository as an object over its table. */
module AuditService {
  import opened Wrappers
  import opened Envelope
  import opened Audit

  /** The rows `LIMIT limit` leaves of the newest; a negative limit means all. */
  function Kept(rows: seq<Row>, limit: int): (kept: seq<Row>)
    ensures |kept| == (if 0 <= limit < |rows| then limit else |rows|) && kept == rows[|rows| - |kept|..]
  {
    if 0 <= limit < |rows| then rows[|rows| - limit..] else rows
  }

  /** End to end: reading any number of events after a write returns, last, a record that reports the event
      just written, chained to the one before. */
  lemma WrittenIsReadLast(w: World, key: Bytes, rows: seq<Row>, e: AuditEvent, draw: Draw, limit: int)
    requires Sane(w) && Write(w, key, rows, e, draw).Some? && limit != 0
    ensures var kept := Kept(Write(w, key, rows, e, draw).value, limit);
            && kept != []
            && var last := Records(w, key, kept)[|kept| - 1];
               && last.payload.Some? && Reports(w, e, last.payload.value)
               && last.prevHash == Some(Head(rows))
               && last.hash == w.chain(Head(rows), w.dumps(last.payload.value))
  {
    WriteReports(w, key, rows, e, draw);
    hide Reports, PayloadOf, Wrap, BuildHashPayload, Sane;
  }

  /** The newest rows have been read, newest first. */
  ghost predicate ReadBack(w: World, key: Bytes, rows: seq<Row>, read: seq<Record>) {
    && |read| <= |rows|
    && forall k :: 0 <= k < |read| ==>
         read[k] == RecordOf(w, key, rows[|rows| - 1 - k]) && read[k].payload.Some?
  }

  lemma NothingRead(w: World, key: Bytes, rows: seq<Row>)
    ensures ReadBack(w, key, rows, [])
  {
  }

  lemma ReadNext(w: World, key: Bytes, rows: seq<Row>, read: seq<Record>)
    requires ReadBack(w, key, rows, read) && |read| < |rows|
    ensures var record := RecordOf(w, key, rows[|rows| - 1 - |read|]);
            record.payload.Some? ==> ReadBack(w, key, rows, read + [record])
  {
    hide PayloadOf;
  }

  lemma ReadAll(w: World, key: Bytes, rows: seq<Row>, read: seq<Record>, chronological: seq<Record>)
    requires ReadBack(w, key, rows, read) && |chronological| == |read| == |rows|
    requires forall k :: 0 <= k < |rows| ==> chronological[k] == read[|rows| - 1 - k]
    ensures chronological == Records(w, key, rows)
    ensures forall row :: row in rows ==> PayloadOf(w, key, row).Some?
  {
    hide PayloadOf;
    var n := |rows|;
    forall k | 0 <= k < n
      ensures chronological[k] == RecordOf(w, key, rows[k]) && PayloadOf(w, key, rows[k]).Some?
    {
      assert read[n - 1 - k] == RecordOf(w, key, rows[n - 1 - (n - 1 - k)]);
    }
  }

  class AuditRepository {
    var rows: seq<Row>
    const masterKey: Bytes
    const world: World

    constructor (w: World, key: Bytes)
      ensures rows == [] && world == w && masterKey == key
    {
      rows, world, masterKey := [], w, key;
    }

    method GetLastHash() returns (hash: Option<string>)
      ensures hash == if rows == [] then None else Some(Head(rows))
    {
      hash := if rows == [] then None else Some(rows[|rows| - 1].hash);
    }

    /** Appends an event and returns its hash. On an exception (None) the table is unchanged. The row carries
        the event's id, time, type and outcome, leaves the detail columns empty, follows the last hash, and reads
        back as a payload that reports the event. */
    method WriteEvent(e: AuditEvent, newId: string, now: int, draw: Draw) returns (hash: Option<string>)
      modifies this`rows
      ensures var written := Write(world, masterKey, old(rows), Stamped(e, newId, now), draw);
              && rows == (if written.Some? then written.value else old(rows))
              && hash == (if written.Some? then Some(Head(rows)) else None)
      ensures hash.Some? ==>
                var n, row := |old(rows)|, rows[|rows| - 1];
                && |rows| == n + 1 && rows[..n] == old(rows)
                && row.eventId == (if e.eventId == "" then newId else e.eventId)
                && row.timestamp == (if e.timestamp == 0 then now else e.timestamp)
                && row.eventType == e.eventType && row.outcome == e.outcome
                && row.reasonCodes == None && row.encrypted.Some?
                && row.similarity == row.risk == row.liveness == row.sessionId == row.requestId == Null
                && row.prevHash == Some(if n == 0 then Zeros(64) else old(rows)[n - 1].hash) && hash == Some(row.hash)
      ensures Sane(world) && hash.Some? ==>
                var row := rows[|rows| - 1];
                var p := PayloadOf(world, masterKey, row);
                p.Some? && Reports(world, e.(eventId := row.eventId, timestamp := row.timestamp), p.value)
    {
      if Sane(world) {
        WriteReports(world, masterKey, rows, Stamped(e, newId, now), draw);
      }
      hide Wrap, BuildHashPayload, PayloadOf, Sane, Reports;
      var event := e;
      if event.eventId == "" {
        event := event.(eventId := newId);
      }
      if event.timestamp == 0 {
        event := event.(timestamp := now);
      }
      var last := GetLastHash();
      var prevHash := if last.None? then GENESIS else last.value;
      var payload := BuildHashPayload(world, RawOfEvent(event));
      if payload.None? {
        return None;
      }
      var data := world.dumps(payload.value);
      var linked := world.chain(prevHash, data);
      var blob := Wrap(world.cipher, AuditBlob, masterKey, event.eventId, draw, data);
      if event.eventId in Ids(rows) {
        return None;
      }
      rows := rows + [Row(event.eventId, event.timestamp, event.eventType, event.outcome,
                          None, Null, Null, Null, Null, Null,
                          Some(prevHash), linked, Some(blob))];
      hash := Some(linked);
    }

    /** Walks the chain from the genesis hash. */
    method VerifyChainIntegrity() returns (intact: bool)
      ensures intact == Verifies(world, masterKey, rows)
    {
      hide PayloadOf;
      var expected := GENESIS;
      for i := 0 to |rows|
        invariant expected == HeadBefore(rows, i)
        invariant forall k :: 0 <= k < i ==> Linked(world, masterKey, rows, k)
      {
        if rows[i].prevHash != Some(expected) {
          assert !Linked(world, masterKey, rows, i);
          return false;
        }
        var payload := PayloadOf(world, masterKey, rows[i]);
        if payload.None? || world.chain(expected, world.dumps(payload.value)) != rows[i].hash {
          assert !Linked(world, masterKey, rows, i);
          return false;
        }
        expected := rows[i].hash;
      }
      intact := true;
    }

    /** The newest `limit` events in chronological order; None if any of them cannot be read. */
    method GetEvents(limit: int) returns (events: Option<seq<Record>>)
      ensures var kept := Kept(rows, limit);
              if exists row :: row in kept && PayloadOf(world, masterKey, row).None? then events == None
              else events == Some(Records(world, masterKey, kept))
    {
      hide PayloadOf, ReadBack;
      var kept := Kept(rows, limit);
      var newestFirst: seq<Record> := [];
      assert ReadBack(world, masterKey, kept, newestFirst) by { NothingRead(world, masterKey, kept); }
      for i := 0 to |kept|
        invariant |newestFirst| == i && ReadBack(world, masterKey, kept, newestFirst)
      {
        var row := kept[|kept| - 1 - i];
        var payload := PayloadOf(world, masterKey, row);
        if payload.None? {
          assert row in kept;
          return None;
        }
        ReadNext(world, masterKey, kept, newestFirst);
        newestFirst := newestFirst + [Record(payload, row.prevHash, row.hash)];
      }
      var chronological := seq(|newestFirst|, i requires 0 <= i < |newestFirst| => newestFirst[|newestFirst| - 1 - i]);
      ReadAll(world, masterKey, kept, newestFirst, chronological);
      events := Some(chronological);
    }
  }
}
