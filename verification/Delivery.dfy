/** Delivery end to end: the edge, a network that may lose requests and responses, and the cloud
    serving interleaved requests from this device and from anybody else. */
module Delivery {
  import opened Telemetry
  import opened Outbox
  import opened CloudIngest
  import opened Exporter
  import opened ExporterService
  import Edge = EdgeMachine

  datatype Config = Config(signer: Signer, verify: Verifier, coercion: Coercion, edge: Edge.Settings)

  /** `request` is the id of the request the exporter waits for; `eventOf` is history: the event
      enqueued under each outbox key. */
  datatype State = State(
    edge: Edge.Edge<JsonObject>, cloud: System, request: nat, nextRequest: nat, eventOf: map<nat, TelemetryEvent>)

  datatype Step =
    | Enqueue(event: TelemetryEvent)
    | Send(batch: seq<nat>, batchId: string, timestamp: int)
    | CloudStep(cloudStep: CloudIngest.Step)
    | GetAnswer
    | GiveUp
    | EdgeStep(edgeStep: Edge.Step<JsonObject>)

  function Init(now: real): State {
    State(Edge.Start(now), System(Database(map[], []), map[]), 0, 0, map[])
  }

  function Payload(c: Config, e: TelemetryEvent): JsonObject {
    EnqueuedPayload(c.signer, e)
  }

  /** Steps that concern the edge only; enqueueing, sending and answers have steps of their own. */
  predicate Internal(step: Edge.Step<JsonObject>) {
    !step.Enqueue? && !step.Send? && !step.Answer?
  }

  predicate AnswerReady(s: State) {
    s.request in s.cloud.requests && s.cloud.requests[s.request].Answered?
  }

  ghost predicate Enabled(c: Config, s: State, step: Step) {
    match step
    case Enqueue(e) => forall key :: key in s.eventOf ==> s.eventOf[key].eventId != e.eventId
    case Send(batch, _, _) => Edge.Enabled(c.edge, s.edge, Edge.Send(batch))
    case CloudStep(cs) => CloudIngest.Enabled(s.cloud, cs) && (cs.Arrive? ==> cs.id >= s.nextRequest)
    case GetAnswer => s.edge.phase.Waiting? && AnswerReady(s)
    case GiveUp => s.edge.phase.Waiting?
    case EdgeStep(es) => Internal(es) && Edge.Enabled(c.edge, s.edge, es)
  }

  /** Posts the batch under a new request id. A batch that the request model refuses never reaches the
      handler, like one the network loses; one with an unusable row is not sent at all. */
  function Posted(c: Config, s: State, batch: seq<nat>, batchId: string, timestamp: int): System
    requires forall key :: key in batch ==> key in s.edge.rows
  {
    var wire := BuildBatch(c.signer, Payloads(s.edge.rows, batch), batchId, timestamp);
    if wire.None? then s.cloud
    else
      var received := Receive(c.coercion, wire.value);
      if received.None? then s.cloud
      else s.cloud.(requests := s.cloud.requests[s.nextRequest := Arrived(received.value)])
  }

  ghost function Apply(c: Config, s: State, step: Step): State
    requires Enabled(c, s, step)
  {
    match step
    case Enqueue(e) =>
      s.(edge := Edge.Apply(c.edge, s.edge, Edge.Enqueue(Payload(c, e))), eventOf := s.eventOf[s.edge.nextRow := e])
    case Send(batch, batchId, timestamp) =>
      s.(edge := Edge.Apply(c.edge, s.edge, Edge.Send(batch)), cloud := Posted(c, s, batch, batchId, timestamp),
         request := s.nextRequest, nextRequest := s.nextRequest + 1)
    case CloudStep(cs) =>
      s.(cloud := CloudIngest.Apply(c.verify, s.cloud, cs),
         nextRequest := if cs.Arrive? then cs.id + 1 else s.nextRequest)
    case GetAnswer =>
      s.(edge := Edge.Apply(c.edge, s.edge,
                            Edge.Answer(Acknowledges(|s.edge.phase.batch|, s.cloud.requests[s.request].reply))))
    case GiveUp => s.(edge := Edge.Apply(c.edge, s.edge, Edge.Answer(false)))
    case EdgeStep(es) => s.(edge := Edge.Apply(c.edge, s.edge, es))
  }

  // ---------------------------------------------------------------- invariant

  /** The keys whose events the cloud holds. */
  function StoredKeys(s: State): set<nat> {
    set key | key in s.eventOf && s.eventOf[key].eventId in StoredIds(s.cloud.db)
  }

  ghost predicate HistoryMatches(c: Config, s: State) {
    && s.eventOf.Keys == s.edge.enqueued.Keys
    && (forall key :: key in s.eventOf ==> s.edge.enqueued[key] == Payload(c, s.eventOf[key]))
    && (forall a, b :: a in s.eventOf && b in s.eventOf && a != b ==> s.eventOf[a].eventId != s.eventOf[b].eventId)
  }

  /** The request carries exactly the records of the batch, in order. */
  ghost predicate Carries(c: Config, s: State, req: IngestRequest, batch: seq<nat>) {
    && |req.events| == |batch|
    && forall i :: 0 <= i < |batch| ==>
         batch[i] in s.eventOf && req.events[i] == SignedRecord(c.signer, s.eventOf[batch[i]])
  }

  ghost predicate RequestMatches(c: Config, s: State) {
    && (forall id :: id in s.cloud.requests ==> id < s.nextRequest)
    && (s.edge.phase.Waiting? ==>
          && s.request < s.nextRequest
          && (s.request in s.cloud.requests ==> Carries(c, s, s.cloud.requests[s.request].req, s.edge.phase.batch)))
  }

  ghost predicate Inv(c: Config, s: State) {
    && CloudIngest.Inv(c.verify, s.cloud)
    && Edge.EdgeInv(c.edge, s.edge, StoredKeys(s))
    && HistoryMatches(c, s)
    && RequestMatches(c, s)
  }

  // ---------------------------------------------------------------- steps

  lemma EnqueueKeepsHistory(c: Config, s: State, e: TelemetryEvent)
    requires Edge.KeepsPayloads(s.edge) && HistoryMatches(c, s) && RequestMatches(c, s) && Enabled(c, s, Enqueue(e))
    ensures HistoryMatches(c, Apply(c, s, Enqueue(e))) && RequestMatches(c, Apply(c, s, Enqueue(e)))
    ensures StoredKeys(s) <= StoredKeys(Apply(c, s, Enqueue(e)))
  {
    hide EnqueuedPayload, SignedRecord, StoredIds;
    var s' := Apply(c, s, Enqueue(e));
    assert s.edge.nextRow !in s.eventOf;
    assert s'.eventOf.Keys == s.eventOf.Keys + {s.edge.nextRow};
  }

  lemma EnqueueKeepsInv(c: Config, s: State, e: TelemetryEvent)
    requires Inv(c, s) && Enabled(c, s, Enqueue(e))
    ensures Inv(c, Apply(c, s, Enqueue(e)))
  {
    assert Edge.KeepsPayloads(s.edge);
    hide EnqueuedPayload, CloudIngest.Inv, Edge.EdgeInv, HistoryMatches, RequestMatches, StoredKeys;
    var s' := Apply(c, s, Enqueue(e));
    EnqueueKeepsHistory(c, s, e);
    Edge.EdgeStepKeepsInv(c.edge, s.edge, StoredKeys(s), Edge.Enqueue(Payload(c, e)));
    Edge.MoreStored(c.edge, s'.edge, StoredKeys(s), StoredKeys(s'));
  }

  lemma BatchCarriesRecords(c: Config, s: State, batch: seq<nat>, batchId: string, timestamp: int)
    requires HistoryMatches(c, s) && Edge.KeepsPayloads(s.edge)
    requires forall key :: key in batch ==> key in s.edge.rows
    ensures var wire := BuildBatch(c.signer, Payloads(s.edge.rows, batch), batchId, timestamp);
            && wire.Some?
            && (Receive(c.coercion, wire.value).Some? ==> Carries(c, s, Receive(c.coercion, wire.value).value, batch))
  {
    hide EnqueuedPayload, Parses, Parse, SignedRecord;
    assert forall i :: 0 <= i < |batch| ==> batch[i] in s.eventOf;
    var es := seq(|batch|, i requires 0 <= i < |batch| => s.eventOf[batch[i]]);
    var payloads := Payloads(s.edge.rows, batch);
    assert payloads == Enqueued(c.signer, es);
    EnqueuedBatch(c.signer, es, batchId, timestamp);
    var wire := SignedBatch(c.signer, payloads, batchId, timestamp);
    if Receive(c.coercion, wire).Some? {
      forall i | 0 <= i < |batch|
        ensures Receive(c.coercion, wire).value.events[i] == SignedRecord(c.signer, es[i])
      {
        assert payloads[i] in wire.events;
        EnqueuedIsUsable(c.coercion, c.signer, es[i]);
      }
    }
  }

  lemma PostKeepsCloudInv(c: Config, s: State, batch: seq<nat>, batchId: string, timestamp: int)
    requires CloudIngest.Inv(c.verify, s.cloud) && (forall id :: id in s.cloud.requests ==> id < s.nextRequest)
    requires forall key :: key in batch ==> key in s.edge.rows
    ensures CloudIngest.Inv(c.verify, Posted(c, s, batch, batchId, timestamp))
    ensures Posted(c, s, batch, batchId, timestamp).db == s.cloud.db
  {
    hide StoreSound, BuildBatch, Receive;
  }

  lemma SendKeepsRequest(c: Config, s: State, batch: seq<nat>, batchId: string, timestamp: int, s': State)
    requires HistoryMatches(c, s) && RequestMatches(c, s) && Edge.KeepsPayloads(s.edge)
    requires forall key :: key in batch ==> key in s.edge.rows
    requires s'.edge.phase == Edge.Waiting(batch) && s'.cloud == Posted(c, s, batch, batchId, timestamp)
    requires s'.request == s.nextRequest && s'.nextRequest == s.nextRequest + 1 && s'.eventOf == s.eventOf
    ensures RequestMatches(c, s')
  {
    hide EnqueuedPayload, Payload, SignedRecord, BuildBatch, Receive, HistoryMatches;
    BatchCarriesRecords(c, s, batch, batchId, timestamp);
  }

  lemma SendableRows(c: Config, s: State, batch: seq<nat>)
    requires Inv(c, s) && Edge.Enabled(c.edge, s.edge, Edge.Send(batch))
    ensures Edge.KeepsPayloads(s.edge) && forall key :: key in batch ==> key in s.edge.rows
    ensures forall id :: id in s.cloud.requests ==> id < s.nextRequest
  {
    hide CloudIngest.Inv, HistoryMatches;
  }

  lemma SendKeepsInv(c: Config, s: State, batch: seq<nat>, batchId: string, timestamp: int)
    requires Inv(c, s) && Enabled(c, s, Send(batch, batchId, timestamp))
    ensures Inv(c, Apply(c, s, Send(batch, batchId, timestamp)))
  {
    hide CloudIngest.Inv, Edge.EdgeInv, Posted, Payload, RequestMatches, OldestFirst;
    SendableRows(c, s, batch);
    var s' := Apply(c, s, Send(batch, batchId, timestamp));
    PostKeepsCloudInv(c, s, batch, batchId, timestamp);
    SendKeepsRequest(c, s, batch, batchId, timestamp, s');
    Edge.EdgeStepKeepsInv(c.edge, s.edge, StoredKeys(s), Edge.Send(batch));
    assert StoredKeys(s') == StoredKeys(s);
  }

  lemma CloudKeepsRequests(verify: Verifier, s: System, step: CloudIngest.Step, id: nat)
    requires CloudIngest.Enabled(s, step)
    requires id in s.requests && id in CloudIngest.Apply(verify, s, step).requests
    ensures CloudIngest.Apply(verify, s, step).requests[id].req == s.requests[id].req
  {
  }

  lemma CloudStepKeepsInv(c: Config, s: State, step: CloudIngest.Step)
    requires Inv(c, s) && Enabled(c, s, CloudStep(step))
    ensures Inv(c, Apply(c, s, CloudStep(step)))
  {
    var s' := Apply(c, s, CloudStep(step));
    StepKeepsInv(c.verify, s.cloud, step);
    GrowsKeepsIds(s.cloud.db, s'.cloud.db);
    assert StoredKeys(s) <= StoredKeys(s');
    Edge.MoreStored(c.edge, s.edge, StoredKeys(s), StoredKeys(s'));
    if s.edge.phase.Waiting? && s.request in s'.cloud.requests {
      CloudKeepsRequests(c.verify, s.cloud, step, s.request);
    }
  }

  /** A positive acknowledgement means that every event of the batch is in the cloud. */
  lemma AcknowledgedIsHonoured(c: Config, s: State)
    requires Inv(c, s) && Enabled(c, s, GetAnswer)
    ensures var p := s.cloud.requests[s.request];
            Honoured(s.cloud.db, p.req, p.reply) && Carries(c, s, p.req, s.edge.phase.batch)
  {
    hide Edge.EdgeInv, HistoryMatches, StoreSound, Carries, Honoured, StoredIds;
    assert PhaseSound(c.verify, s.cloud.db, s.cloud.requests[s.request]);
  }

  lemma AcknowledgedIsStored(c: Config, s: State)
    requires Inv(c, s) && Enabled(c, s, GetAnswer)
    requires Acknowledges(|s.edge.phase.batch|, s.cloud.requests[s.request].reply)
    ensures forall key :: key in s.edge.phase.batch ==> key in StoredKeys(s)
  {
    hide Inv, StoredIds;
    var p := s.cloud.requests[s.request];
    AcknowledgedIsHonoured(c, s);
    forall key | key in s.edge.phase.batch
      ensures key in StoredKeys(s)
    {
      var i :| 0 <= i < |s.edge.phase.batch| && s.edge.phase.batch[i] == key;
      assert p.req.events[i] in p.req.events;
    }
  }

  lemma EdgeOnlyKeepsInv(c: Config, s: State, edge: Edge.Edge<JsonObject>)
    requires Inv(c, s) && Edge.EdgeInv(c.edge, edge, StoredKeys(s)) && edge.enqueued == s.edge.enqueued
    requires edge.phase.Waiting? ==> edge.phase == s.edge.phase
    ensures Inv(c, s.(edge := edge))
  {
    hide CloudIngest.Inv, Edge.EdgeInv, EnqueuedPayload, SignedRecord;
    assert StoredKeys(s.(edge := edge)) == StoredKeys(s);
  }

  lemma AnswerKeepsInv(c: Config, s: State)
    requires Inv(c, s) && Enabled(c, s, GetAnswer)
    ensures Inv(c, Apply(c, s, GetAnswer))
  {
    hide CloudIngest.Inv, Edge.EdgeInv, HistoryMatches, RequestMatches, StoredKeys;
    var ok := Acknowledges(|s.edge.phase.batch|, s.cloud.requests[s.request].reply);
    if ok {
      AcknowledgedIsStored(c, s);
    }
    Edge.EdgeStepKeepsInv(c.edge, s.edge, StoredKeys(s), Edge.Answer(ok));
    EdgeOnlyKeepsInv(c, s, Edge.Apply(c.edge, s.edge, Edge.Answer(ok)));
  }

  lemma StepKeepsDelivery(c: Config, s: State, step: Step)
    requires Inv(c, s) && Enabled(c, s, step)
    ensures Inv(c, Apply(c, s, step))
  {
    hide CloudIngest.Inv, Edge.EdgeInv, HistoryMatches, RequestMatches, StoredKeys, EnqueuedPayload, Posted;
    match step
    case Enqueue(e) => EnqueueKeepsInv(c, s, e);
    case Send(batch, batchId, timestamp) => SendKeepsInv(c, s, batch, batchId, timestamp);
    case CloudStep(cs) => CloudStepKeepsInv(c, s, cs);
    case GetAnswer => AnswerKeepsInv(c, s);
    case GiveUp =>
      Edge.EdgeStepKeepsInv(c.edge, s.edge, StoredKeys(s), Edge.Answer(false));
      EdgeOnlyKeepsInv(c, s, Edge.Apply(c.edge, s.edge, Edge.Answer(false)));
    case EdgeStep(es) =>
      Edge.EdgeStepKeepsInv(c.edge, s.edge, StoredKeys(s), es);
      EdgeOnlyKeepsInv(c, s, Edge.Apply(c.edge, s.edge, es));
  }

  // ---------------------------------------------------------------- every run

  ghost predicate Run(c: Config, states: seq<State>, steps: seq<Step>) {
    && |states| == |steps| + 1
    && (exists now :: states[0] == Init(now))
    && forall i :: 0 <= i < |steps| ==>
         Enabled(c, states[i], steps[i]) && states[i + 1] == Apply(c, states[i], steps[i])
  }

  lemma InitInv(c: Config, now: real)
    ensures Inv(c, Init(now))
  {
    Edge.StartInv<JsonObject>(c.edge, now);
    assert StoredKeys(Init(now)) == {};
  }

  lemma {:induction false} InvInEveryRun(c: Config, states: seq<State>, steps: seq<Step>, i: nat)
    requires Run(c, states, steps) && i < |states|
    ensures Inv(c, states[i])
  {
    if i == 0 {
      var now :| states[0] == Init(now);
      InitInv(c, now);
    } else {
      InvInEveryRun(c, states, steps, i - 1);
      StepKeepsDelivery(c, states[i - 1], steps[i - 1]);
    }
  }

  /** The position of an event id in the cloud's table, if any. */
  ghost predicate HeldAt(s: State, id: string, i: nat) {
    i < |s.cloud.db.events| && s.cloud.db.events[i].eventId == id
  }

  ghost predicate Safe(s: State, key: nat)
    requires key in s.eventOf
  {
    var id := s.eventOf[key].eventId;
    && (Edge.Queued(s.edge, key) || exists at :: HeldAt(s, id, at))
    && (key !in s.edge.rows || s.edge.rows[key].status == Sent ==> exists at :: HeldAt(s, id, at))
    && (forall a, b :: HeldAt(s, id, a) && HeldAt(s, id, b) ==> a == b)
  }

  lemma InvIsSafe(c: Config, s: State, key: nat)
    requires Inv(c, s) && key in s.eventOf
    ensures Safe(s, key)
  {
    hide RequestMatches, EventVerified, Payload, PhaseSound;
    assert Edge.NoLoss(s.edge, StoredKeys(s)) && StoreSound(c.verify, s.cloud.db);
    if key in StoredKeys(s) {
      var at :| 0 <= at < |s.cloud.db.events| && s.cloud.db.events[at].eventId == s.eventOf[key].eventId;
      assert HeldAt(s, s.eventOf[key].eventId, at);
    } else {
      assert Edge.Queued(s.edge, key);
    }
  }

  /** Delivery without loss, at most once. In every state of every run, an event ever enqueued is in
      the cloud or still PENDING or dead-lettered in the outbox; if its row is SENT or has been purged,
      it is in the cloud; and no event id is in the cloud twice. */
  lemma NothingLostNothingTwice(c: Config, states: seq<State>, steps: seq<Step>, i: nat, key: nat)
    requires Run(c, states, steps) && i < |states| && key in states[i].eventOf
    ensures var s, id := states[i], states[i].eventOf[key].eventId;
            && (Edge.Queued(s.edge, key) || exists at :: HeldAt(s, id, at))
            && (key !in s.edge.rows || s.edge.rows[key].status == Sent ==> exists at :: HeldAt(s, id, at))
            && (forall a, b :: HeldAt(s, id, a) && HeldAt(s, id, b) ==> a == b)
  {
    hide Run, Inv;
    InvInEveryRun(c, states, steps, i);
    InvIsSafe(c, states[i], key);
  }

  lemma InvOfEdge(c: Config, s: State)
    requires Inv(c, s)
    ensures Edge.EdgeInv(c.edge, s.edge, StoredKeys(s))
  {
  }

  /** A row is dead-lettered with exactly the allowed number of attempts; and, after its first failure and
      apart from the time that attempts came after they were due, no sooner than all of its backoffs at
      their shortest and no later than all of them at their longest. */
  lemma DeadLetterInTime(c: Config, states: seq<State>, steps: seq<Step>, i: nat, key: nat)
    requires c.edge.retry.Sane() && Run(c, states, steps) && i < |states|
    requires key in states[i].edge.rows && states[i].edge.rows[key].status == Dlq
    ensures Edge.DeadInTime(c.edge.retry, states[i].edge, key)
  {
    hide Run, Inv, Edge.EdgeInv, Edge.DeadInTime;
    InvInEveryRun(c, states, steps, i);
    InvOfEdge(c, states[i]);
    Edge.InvDeadInTime(c.edge, states[i].edge, StoredKeys(states[i]), key);
  }

  /** A row that has failed is due again between 0.1 s and the longest backoff after its last failure; and,
      counted from the first, no later than all backoffs at their longest, apart from the time that attempts
      came late. */
  lemma RetryInTime(c: Config, states: seq<State>, steps: seq<Step>, i: nat, key: nat)
    requires c.edge.retry.Sane() && Run(c, states, steps) && i < |states|
    requires key in states[i].edge.rows && states[i].edge.rows[key].status == Pending
    requires states[i].edge.rows[key].attempts >= 1
    ensures Edge.DueInTime(c.edge.retry, states[i].edge, key)
  {
    hide Run, Inv, Edge.EdgeInv, Edge.DueInTime;
    InvInEveryRun(c, states, steps, i);
    InvOfEdge(c, states[i]);
    Edge.InvDueInTime(c.edge, states[i].edge, StoredKeys(states[i]), key);
  }

  // ---------------------------------------------------------------- what is delivered

  /** Event ids that are this device's alone: it enqueues only those, and whoever else sends one of them,
      such as the network repeating a request, sends a record that the device has signed. */
  ghost predicate Private(c: Config, s: State, mine: set<string>, step: Step) {
    && (step.Enqueue? ==> step.event.eventId in mine)
    && (step.CloudStep? && step.cloudStep.Arrive? ==>
          forall e :: e in step.cloudStep.req.events ==> Ours(c, s, mine, e))
  }

  ghost predicate Ours(c: Config, s: State, mine: set<string>, e: TelemetryEvent) {
    e.eventId in mine ==> exists key :: key in s.eventOf && e == SignedRecord(c.signer, s.eventOf[key])
  }

  /** The row holds the event, save that a missing request id has been filled in. */
  predicate RowOf(row: TelemetryEvent, e: TelemetryEvent) {
    row.(requestId := e.requestId) == e && (row == e <==> Named(e))
  }

  ghost predicate RowOfSome(row: TelemetryEvent, events: seq<TelemetryEvent>) {
    exists e :: e in events && RowOf(row, e)
  }

  ghost predicate OurRow(c: Config, s: State, mine: set<string>, row: TelemetryEvent) {
    row.eventId in mine ==> exists key :: key in s.eventOf && RowOf(row, SignedRecord(c.signer, s.eventOf[key]))
  }

  ghost predicate OursOnly(c: Config, s: State, mine: set<string>) {
    && (forall key :: key in s.eventOf ==> s.eventOf[key].eventId in mine)
    && (forall i :: 0 <= i < |s.cloud.db.events| ==> OurRow(c, s, mine, s.cloud.db.events[i]))
    && (forall id :: id in s.cloud.requests ==>
          forall e :: e in s.cloud.requests[id].req.events ==> Ours(c, s, mine, e))
  }

  lemma CloudAddsOnlyRequested(verify: Verifier, s: System, step: CloudIngest.Step)
    requires CloudIngest.Enabled(s, step)
    ensures var s' := CloudIngest.Apply(verify, s, step);
            && (forall i :: 0 <= i < |s'.db.events| ==>
                  || (i < |s.db.events| && s'.db.events[i] == s.db.events[i])
                  || (step.id in s.requests && RowOfSome(s'.db.events[i], s.requests[step.id].req.events)))
            && (forall id :: id in s'.requests ==>
                  || (id in s.requests && s'.requests[id].req == s.requests[id].req)
                  || (step.Arrive? && s'.requests[id].req == step.req))
  {
    hide Authentic, RowOfSome;
    if step.Commit? {
      var p := s.requests[step.id];
      CommitAddsRows(s.db, p.req, p.known, p.existing, step.ctx, step.now);
      hide CommitDb;
    }
  }

  lemma CommitAddsRows(db: Database, req: IngestRequest, known: bool, existing: set<string>, ctx: RequestId, now: real)
    ensures var after := CommitDb(db, req, known, existing, ctx, now);
            forall i :: 0 <= i < |after.events| ==>
              || (i < |db.events| && after.events[i] == db.events[i])
              || RowOfSome(after.events[i], req.events)
  {
    hide Conflicts, SeenDevices;
    var after, added := CommitDb(db, req, known, existing, ctx, now), Fresh(req.events, existing);
    hide Fresh;
    assert after.events == db.events || after.events == db.events + Rows(added, ctx);
    hide CommitDb;
    forall i | 0 <= i < |after.events|
      ensures (i < |db.events| && after.events[i] == db.events[i]) || RowOfSome(after.events[i], req.events)
    {
      if i >= |db.events| {
        var e := added[i - |db.events|];
        assert e in added && after.events[i] == Persisted(e, ctx) && RowOf(Persisted(e, ctx), e);
      }
    }
  }

  lemma OursPersists(c: Config, s: State, s': State, mine: set<string>, e: TelemetryEvent)
    requires Ours(c, s, mine, e)
    requires forall key :: key in s.eventOf ==> key in s'.eventOf && s'.eventOf[key] == s.eventOf[key]
    ensures Ours(c, s', mine, e)
  {
  }

  lemma OurRowPersists(c: Config, s: State, s': State, mine: set<string>, row: TelemetryEvent)
    requires OurRow(c, s, mine, row)
    requires forall key :: key in s.eventOf ==> key in s'.eventOf && s'.eventOf[key] == s.eventOf[key]
    ensures OurRow(c, s', mine, row)
  {
  }

  lemma CarriedIsOurs(c: Config, s: State, s': State, mine: set<string>, req: IngestRequest, batch: seq<nat>,
                      e: TelemetryEvent)
    requires Carries(c, s, req, batch) && e in req.events && s'.eventOf == s.eventOf
    ensures Ours(c, s', mine, e)
  {
    hide SignedRecord;
    var i :| 0 <= i < |req.events| && req.events[i] == e;
    assert batch[i] in s.eventOf;
  }

  lemma SendIsOurs(c: Config, s: State, mine: set<string>, batch: seq<nat>, batchId: string, timestamp: int)
    requires Inv(c, s) && OursOnly(c, s, mine) && Enabled(c, s, Send(batch, batchId, timestamp))
    ensures OursOnly(c, Apply(c, s, Send(batch, batchId, timestamp)), mine)
  {
    hide CloudIngest.Inv, BuildBatch, Receive, SignedRecord, Payload, OldestFirst;
    SendableRows(c, s, batch);
    BatchCarriesRecords(c, s, batch, batchId, timestamp);
    hide Edge.Apply, Carries, Ours, OurRow;
    var s' := Apply(c, s, Send(batch, batchId, timestamp));
    forall id, e | id in s'.cloud.requests && e in s'.cloud.requests[id].req.events
      ensures Ours(c, s', mine, e)
    {
      if id in s.cloud.requests && s'.cloud.requests[id] == s.cloud.requests[id] {
        OursPersists(c, s, s', mine, e);
      } else {
        CarriedIsOurs(c, s, s', mine, s'.cloud.requests[id].req, batch, e);
      }
    }
    forall i | 0 <= i < |s'.cloud.db.events|
      ensures OurRow(c, s', mine, s'.cloud.db.events[i])
    {
      OurRowPersists(c, s, s', mine, s.cloud.db.events[i]);
    }
  }

  lemma CloudStepIsOurs(c: Config, s: State, mine: set<string>, step: CloudIngest.Step)
    requires OursOnly(c, s, mine) && Enabled(c, s, CloudStep(step)) && Private(c, s, mine, CloudStep(step))
    ensures OursOnly(c, Apply(c, s, CloudStep(step)), mine)
  {
    CloudAddsOnlyRequested(c.verify, s.cloud, step);
    hide CloudIngest.Apply, SignedRecord;
    var s' := Apply(c, s, CloudStep(step));
    forall id, e | id in s'.cloud.requests && e in s'.cloud.requests[id].req.events
      ensures Ours(c, s', mine, e)
    {
      if id in s.cloud.requests && s'.cloud.requests[id].req == s.cloud.requests[id].req {
        assert Ours(c, s, mine, e);
      }
    }
    forall i | 0 <= i < |s'.cloud.db.events|
      ensures OurRow(c, s', mine, s'.cloud.db.events[i])
    {
      var row := s'.cloud.db.events[i];
      if i < |s.cloud.db.events| && s'.cloud.db.events[i] == s.cloud.db.events[i] {
        assert OurRow(c, s, mine, s.cloud.db.events[i]);
      } else {
        assert RowOfSome(row, s.cloud.requests[step.id].req.events);
        var e :| e in s.cloud.requests[step.id].req.events && RowOf(row, e);
        assert Ours(c, s, mine, e) && row.eventId == e.eventId;
      }
    }
  }

  lemma NextRowIsNew(c: Config, s: State)
    requires Inv(c, s)
    ensures s.edge.nextRow !in s.eventOf
  {
    hide CloudIngest.Inv, RequestMatches, Payload;
    assert Edge.KeepsPayloads(s.edge);
  }

  lemma OwnIds(c: Config, s: State, mine: set<string>)
    requires OursOnly(c, s, mine)
    ensures forall key :: key in s.eventOf ==> s.eventOf[key].eventId in mine
  {
  }

  lemma EnqueueIsOurs(c: Config, s: State, mine: set<string>, e: TelemetryEvent)
    requires Inv(c, s) && OursOnly(c, s, mine) && Enabled(c, s, Enqueue(e)) && e.eventId in mine
    ensures OursOnly(c, Apply(c, s, Enqueue(e)), mine)
  {
    hide Inv, OursOnly, Edge.Apply, Payload, SignedRecord;
    NextRowIsNew(c, s);
    assert forall key :: key in s.eventOf ==> s.eventOf[key].eventId in mine by { OwnIds(c, s, mine); }
    SameCloudIsOurs(c, s, Apply(c, s, Enqueue(e)), mine);
  }

  lemma SameCloudIsOurs(c: Config, s: State, s': State, mine: set<string>)
    requires OursOnly(c, s, mine) && s'.cloud == s.cloud
    requires forall key :: key in s.eventOf ==> key in s'.eventOf && s'.eventOf[key] == s.eventOf[key]
    requires forall key :: key in s'.eventOf ==> s'.eventOf[key].eventId in mine
    ensures OursOnly(c, s', mine)
  {
    hide SignedRecord;
    forall e | Ours(c, s, mine, e)
      ensures Ours(c, s', mine, e)
    {
      OursPersists(c, s, s', mine, e);
    }
    forall row | OurRow(c, s, mine, row)
      ensures OurRow(c, s', mine, row)
    {
      OurRowPersists(c, s, s', mine, row);
    }
    forall i | 0 <= i < |s'.cloud.db.events|
      ensures OurRow(c, s', mine, s'.cloud.db.events[i])
    {
      assert OurRow(c, s, mine, s.cloud.db.events[i]);
    }
  }

  lemma EdgeStepIsOurs(c: Config, s: State, mine: set<string>, step: Step)
    requires OursOnly(c, s, mine) && Enabled(c, s, step)
    requires step.GetAnswer? || step.GiveUp? || step.EdgeStep?
    ensures OursOnly(c, Apply(c, s, step), mine)
  {
    hide Edge.Apply, OursOnly, OldestFirst, SignedRecord;
    var s' := Apply(c, s, step);
    assert s'.cloud == s.cloud && s'.eventOf == s.eventOf;
    OursDependsOn(c, s, s', mine);
  }

  lemma OursDependsOn(c: Config, s: State, s': State, mine: set<string>)
    requires OursOnly(c, s, mine) && s'.cloud == s.cloud && s'.eventOf == s.eventOf
    ensures OursOnly(c, s', mine)
  {
    SameCloudIsOurs(c, s, s', mine);
  }

  lemma {:induction false} OursOnlyInEveryRun(c: Config, states: seq<State>, steps: seq<Step>, mine: set<string>,
                                             i: nat)
    requires Run(c, states, steps) && i < |states|
    requires forall k :: 0 <= k < |steps| ==> Private(c, states[k], mine, steps[k])
    ensures OursOnly(c, states[i], mine)
  {
    if i > 0 {
      OursOnlyInEveryRun(c, states, steps, mine, i - 1);
      InvInEveryRun(c, states, steps, i - 1);
      var s, step := states[i - 1], steps[i - 1];
      assert Private(c, s, mine, step);
      hide Inv, OursOnly, Apply, Enabled;
      match step
      case Send(batch, batchId, timestamp) => SendIsOurs(c, s, mine, batch, batchId, timestamp);
      case CloudStep(cs) => CloudStepIsOurs(c, s, mine, cs);
      case Enqueue(e) => EnqueueIsOurs(c, s, mine, e);
      case _ => EdgeStepIsOurs(c, s, mine, step);
    }
  }

  lemma HeldIsOurs(c: Config, s: State, mine: set<string>, key: nat, at: nat)
    requires HistoryMatches(c, s) && OursOnly(c, s, mine) && key in s.eventOf && HeldAt(s, s.eventOf[key].eventId, at)
    ensures RowOf(s.cloud.db.events[at], SignedRecord(c.signer, s.eventOf[key]))
  {
    hide Payload;
    var row := s.cloud.db.events[at];
    assert OurRow(c, s, mine, row) && row.eventId in mine;
    var key' :| key' in s.eventOf && RowOf(row, SignedRecord(c.signer, s.eventOf[key']));
    assert s.eventOf[key'].eventId == row.eventId;
  }

  /** Row `at` of the cloud is the record signed for the event, exactly if the event named its request, and
      otherwise apart from the request id: owned by this device, signed, and in all other fields the event. */
  ghost predicate StoredAs(c: Config, s: State, key: nat, at: nat)
    requires key in s.eventOf
  {
    var rows, e := s.cloud.db.events, s.eventOf[key];
    && at < |rows|
    && rows[at].deviceId == c.signer.deviceId && rows[at].signature.Some?
    && rows[at].(deviceId := e.deviceId, signature := e.signature, requestId := e.requestId) == e
    && rows[at].(requestId := e.requestId) == SignedRecord(c.signer, e)
    && (rows[at] == SignedRecord(c.signer, e) <==> Named(e))
  }

  lemma HeldIsStoredAs(c: Config, s: State, mine: set<string>, key: nat, at: nat)
    requires HistoryMatches(c, s) && OursOnly(c, s, mine) && key in s.eventOf && HeldAt(s, s.eventOf[key].eventId, at)
    ensures StoredAs(c, s, key, at)
  {
    HeldIsOurs(c, s, mine, key, at);
    RowOfSigned(c.signer, s.cloud.db.events[at], s.eventOf[key]);
    hide SignedRecord, HistoryMatches, OursOnly, RowOf, Named;
  }

  /** When event ids are this device's alone, what the cloud holds for a SENT or purged row is the record
      the device signed for it, apart from a request id filled in where the event had none: it is exactly
      that record if and only if the event named its request. */
  lemma DeliveredIntact(c: Config, states: seq<State>, steps: seq<Step>, mine: set<string>, i: nat, key: nat)
    requires Run(c, states, steps) && i < |states| && key in states[i].eventOf
    requires forall k :: 0 <= k < |steps| ==> Private(c, states[k], mine, steps[k])
    requires key !in states[i].edge.rows || states[i].edge.rows[key].status == Sent
    ensures exists at :: StoredAs(c, states[i], key, at)
  {
    hide Run, OursOnly, StoredAs;
    var s := states[i];
    NothingLostNothingTwice(c, states, steps, i, key);
    OursOnlyInEveryRun(c, states, steps, mine, i);
    InvInEveryRun(c, states, steps, i);
    var at :| HeldAt(s, s.eventOf[key].eventId, at);
    assert HistoryMatches(c, s);
    hide Inv, HistoryMatches, HeldAt, Edge.Queued;
    HeldIsStoredAs(c, s, mine, key, at);
  }

  lemma RowOfSigned(signer: Signer, row: TelemetryEvent, e: TelemetryEvent)
    requires RowOf(row, SignedRecord(signer, e))
    ensures var signed := SignedRecord(signer, e);
            row.(requestId := e.requestId) == signed && (row == signed <==> Named(e))
  {
    hide ToDict;
  }
}
