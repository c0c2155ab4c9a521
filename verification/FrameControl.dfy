/** The per-session frame-rate gate with its eviction of idle sessions. A handler contains no await, so a
    request acquires and releases with no other request in between. */
module FrameControl {
  import opened Wrappers

  datatype State = State(lastProcessedAt: real, inFlight: nat, lastSeenAt: real)
  type Sessions = map<string, State>

  const FRESH := State(0.0, 0, 0.0)

  /** `NotAsked` is a request refused before the gate, for an expired or finished session. */
  datatype Verdict = Admitted | BackedUp | RateCapped | NotAsked

  /** `ttl` None is a controller that never evicts. */
  datatype Limits = Limits(interval: real, ttl: Option<int>)

  function Expired(ttl: Option<int>, s: State, now: real): bool {
    ttl.Some? && now - s.lastSeenAt > ttl.value as real
  }

  function Cleaned(l: Limits, m: Sessions, now: real): Sessions {
    map id | id in m && !Expired(l.ttl, m[id], now) :: m[id]
  }

  function Acquire(l: Limits, m: Sessions, id: string, now: real): (Sessions, Verdict) {
    var kept := Cleaned(l, m, now);
    var s := (if id in kept then kept[id] else FRESH).(lastSeenAt := now);
    if s.inFlight > 0 then (kept[id := s], BackedUp)
    else if now - s.lastProcessedAt < l.interval then (kept[id := s], RateCapped)
    else (kept[id := s.(inFlight := 1)], Admitted)
  }

  function Release(m: Sessions, id: string, now: real, processed: bool): Sessions {
    if id !in m then m
    else
      var s := m[id];
      m[id := State(if processed then now else s.lastProcessedAt, if s.inFlight > 0 then s.inFlight - 1 else 0, now)]
  }

  // ---------------------------------------------------------------- runs

  /** A frame request; `gated` says whether it gets to the gate, `processed` whether, once admitted, it
      reaches the end of the handler. */
  datatype Request = Request(id: string, start: real, end: real, gated: bool, processed: bool)

  /** The release comes last even when the acquire refused or was never made. */
  function Serve(l: Limits, m: Sessions, r: Request): (Sessions, Verdict) {
    var (acquired, verdict) := if r.gated then Acquire(l, m, r.id, r.start) else (m, NotAsked);
    (Release(acquired, r.id, r.end, r.processed && verdict == Admitted), verdict)
  }

  function After(l: Limits, reqs: seq<Request>): Sessions {
    if reqs == [] then map[] else Serve(l, After(l, reqs[..|reqs| - 1]), reqs[|reqs| - 1]).0
  }

  function VerdictAt(l: Limits, reqs: seq<Request>, i: nat): Verdict
    requires i < |reqs|
  {
    Serve(l, After(l, reqs[..i]), reqs[i]).1
  }

  /** Requests one at a time on a non-negative clock. */
  ghost predicate OneAtATime(reqs: seq<Request>) {
    && (forall i :: 0 <= i < |reqs| ==> 0.0 <= reqs[i].start <= reqs[i].end)
    && (forall i, j :: 0 <= i < j < |reqs| ==> reqs[i].end <= reqs[j].start)
  }

  /** Limits as the constructor makes them. */
  predicate Normal(l: Limits) {
    0.0 < l.interval <= 1.0 && (l.ttl.Some? ==> l.ttl.value >= 30)
  }

  // ---------------------------------------------------------------- verdicts follow from the history alone

  /** When the session's last processed frame ended, if frames are admitted by the interval alone. */
  function LastEnd(interval: real, reqs: seq<Request>, id: string): real {
    if reqs == [] then 0.0
    else
      var n := |reqs| - 1;
      if reqs[n].id == id && reqs[n].gated && reqs[n].processed
         && reqs[n].start - LastEnd(interval, reqs[..n], id) >= interval then reqs[n].end
      else LastEnd(interval, reqs[..n], id)
  }

  /** Nothing in flight. What a session remembers is its history; where an eviction lost it, the session's
      last frame is long past. */
  ghost predicate Remembers(l: Limits, m: Sessions, reqs: seq<Request>, id: string) {
    Keeps(m, id, LastEnd(l.interval, reqs, id), if reqs == [] then 0.0 else reqs[|reqs| - 1].end)
  }

  ghost predicate Keeps(m: Sessions, id: string, last: real, now: real) {
    && 0.0 <= last <= now
    && (id in m ==>
          && m[id].inFlight == 0 && last <= m[id].lastSeenAt <= now
          && (m[id].lastProcessedAt == last || (m[id].lastProcessedAt == 0.0 && last + 30.0 < m[id].lastSeenAt)))
    && (id !in m ==> last == 0.0 || last + 30.0 < now)
  }

  function ByHistory(l: Limits, reqs: seq<Request>, r: Request): Verdict {
    if !r.gated then NotAsked
    else if r.start - LastEnd(l.interval, reqs, r.id) < l.interval then RateCapped else Admitted
  }

  lemma ServeDecides(l: Limits, m: Sessions, r: Request, last: real, now: real)
    requires Normal(l) && now <= r.start <= r.end && Keeps(m, r.id, last, now)
    ensures Serve(l, m, r).1 ==
              if !r.gated then NotAsked else if r.start - last < l.interval then RateCapped else Admitted
    ensures Keeps(Serve(l, m, r).0, r.id,
                  if r.gated && r.processed && r.start - last >= l.interval then r.end else last, r.end)
  {
  }

  lemma ServeSparesOthers(l: Limits, m: Sessions, r: Request, id: string, last: real, now: real)
    requires Normal(l) && now <= r.start <= r.end && Keeps(m, id, last, now) && id != r.id
    ensures Keeps(Serve(l, m, r).0, id, last, r.end)
  {
  }

  lemma ServeRemembers(l: Limits, m: Sessions, reqs: seq<Request>, r: Request, id: string)
    requires Normal(l) && OneAtATime(reqs + [r])
    requires Remembers(l, m, reqs, id) && Remembers(l, m, reqs, r.id)
    ensures Serve(l, m, r).1 == ByHistory(l, reqs, r)
    ensures Remembers(l, Serve(l, m, r).0, reqs + [r], id)
  {
    hide Serve, Keeps;
    var more := reqs + [r];
    assert more[..|reqs|] == reqs && more[|reqs|] == r;
    assert reqs != [] ==> more[|reqs| - 1] == reqs[|reqs| - 1];
    var now := if reqs == [] then 0.0 else reqs[|reqs| - 1].end;
    ServeDecides(l, m, r, LastEnd(l.interval, reqs, r.id), now);
    if id != r.id {
      ServeSparesOthers(l, m, r, id, LastEnd(l.interval, reqs, id), now);
    }
  }

  lemma {:induction false} AlwaysRemembers(l: Limits, reqs: seq<Request>, id: string)
    requires Normal(l) && OneAtATime(reqs)
    ensures Remembers(l, After(l, reqs), reqs, id)
  {
    hide Serve, Remembers, LastEnd;
    if reqs == [] {
      NothingYet(l, id);
    } else {
      var n := |reqs| - 1;
      assert reqs[..n] + [reqs[n]] == reqs;
      AlwaysRemembers(l, reqs[..n], id);
      AlwaysRemembers(l, reqs[..n], reqs[n].id);
      ServeRemembers(l, After(l, reqs[..n]), reqs[..n], reqs[n], id);
    }
  }

  lemma NothingYet(l: Limits, id: string)
    ensures Remembers(l, map[], [], id)
  {
  }

  /** Whatever it evicts, the controller admits a frame exactly when the session's last processed frame
      ended at least the minimum interval before. */
  lemma VerdictsFollowHistory(l: Limits, reqs: seq<Request>, i: nat)
    requires Normal(l) && OneAtATime(reqs) && i < |reqs|
    ensures VerdictAt(l, reqs, i) == ByHistory(l, reqs[..i], reqs[i])
  {
    hide Serve, Remembers, ByHistory;
    assert reqs[..i] + [reqs[i]] == reqs[..i + 1];
    AlwaysRemembers(l, reqs[..i], reqs[i].id);
    ServeRemembers(l, After(l, reqs[..i]), reqs[..i], reqs[i], reqs[i].id);
  }

  /** Eviction never changes a verdict, compared with a controller that never evicts. */
  lemma EvictionIsInvisible(l: Limits, reqs: seq<Request>, i: nat)
    requires Normal(l) && OneAtATime(reqs) && i < |reqs|
    ensures VerdictAt(l, reqs, i) == VerdictAt(l.(ttl := None), reqs, i)
  {
    hide Serve;
    VerdictsFollowHistory(l, reqs, i);
    VerdictsFollowHistory(l.(ttl := None), reqs, i);
  }

  // ---------------------------------------------------------------- the rate bound

  predicate Processed(l: Limits, reqs: seq<Request>, id: string, i: nat)
    requires i < |reqs|
  {
    reqs[i].id == id && reqs[i].processed && VerdictAt(l, reqs, i) == Admitted
  }

  /** Frames of the session processed by requests i to j - 1. */
  function ProcessedBetween(l: Limits, reqs: seq<Request>, id: string, i: nat, j: nat): nat
    requires i <= j <= |reqs|
    decreases j
  {
    if i == j then 0
    else ProcessedBetween(l, reqs, id, i, j - 1) + (if Processed(l, reqs, id, j - 1) then 1 else 0)
  }

  lemma {:induction false} ProcessedCount(l: Limits, reqs: seq<Request>, id: string, i: nat, j: nat)
    requires i <= j <= |reqs|
    ensures ProcessedBetween(l, reqs, id, i, j) == |set k | i <= k < j && Processed(l, reqs, id, k)|
    decreases j
  {
    hide Processed;
    if i < j {
      ProcessedCount(l, reqs, id, i, j - 1);
      var before := set k | i <= k < j - 1 && Processed(l, reqs, id, k);
      var after := set k | i <= k < j && Processed(l, reqs, id, k);
      if Processed(l, reqs, id, j - 1) {
        assert after == before + {j - 1};
      } else {
        assert after == before;
      }
    }
  }

  /** n - 1 minimum intervals fit between n processed frames. */
  function Spacing(interval: real, n: nat): real {
    if n == 0 then 0.0 else (n - 1) as real * interval
  }

  lemma SpacingGrows(interval: real, n: nat)
    requires interval > 0.0
    ensures Spacing(interval, n) >= 0.0
    ensures n > 0 ==> Spacing(interval, n + 1) == Spacing(interval, n) + interval
    ensures Spacing(interval, 1) == 0.0
  {
  }

  lemma {:induction false} ProcessedAreSpaced(l: Limits, reqs: seq<Request>, id: string, i: nat, j: nat)
    requires Normal(l) && OneAtATime(reqs) && i < j <= |reqs|
    ensures var n := ProcessedBetween(l, reqs, id, i, j);
            n > 0 ==> reqs[i].start + Spacing(l.interval, n) <= LastEnd(l.interval, reqs[..j], id) <= reqs[j - 1].end
    decreases j
  {
    hide Serve, Spacing;
    var k := j - 1;
    VerdictsFollowHistory(l, reqs, k);
    assert reqs[..j][..k] == reqs[..k];
    SpacingGrows(l.interval, ProcessedBetween(l, reqs, id, i, k));
    if i < k {
      ProcessedAreSpaced(l, reqs, id, i, k);
    }
  }

  lemma SpacingBound(interval: real, fps: real, n: nat, length: real)
    requires interval * fps == 1.0 && fps > 0.0 && Spacing(interval, n) <= length && length >= 0.0
    ensures n as real <= 1.0 + length * fps
  {
    if n > 0 {
      assert Spacing(interval, n) * fps == (n - 1) as real * (interval * fps);
      assert Spacing(interval, n) * fps <= length * fps;
    } else {
      assert length * fps >= 0.0;
    }
  }

  /** In any window of requests, a session gets at most one frame more than the rate times its length. */
  lemma RateBound(l: Limits, fps: real, reqs: seq<Request>, id: string, i: nat, j: nat)
    requires Normal(l) && OneAtATime(reqs) && i < j <= |reqs| && fps > 0.0 && l.interval * fps == 1.0
    ensures |set k | i <= k < j && Processed(l, reqs, id, k)| as real <= 1.0 + (reqs[j - 1].end - reqs[i].start) * fps
  {
    hide Spacing, LastEnd, ProcessedBetween, Processed;
    ProcessedCount(l, reqs, id, i, j);
    var n := ProcessedBetween(l, reqs, id, i, j);
    ProcessedAreSpaced(l, reqs, id, i, j);
    NoSpacing(l.interval);
    assert reqs[i].start <= reqs[i].end <= reqs[j - 1].start || i == j - 1;
    SpacingBound(l.interval, fps, n, reqs[j - 1].end - reqs[i].start);
  }

  lemma NoSpacing(interval: real)
    ensures Spacing(interval, 0) == 0.0
  {
  }

  // ---------------------------------------------------------------- the object

  class FrameProcessingController {
    const maxFps: real
    const minInterval: real
    const stateTtlSeconds: int
    var sessions: Sessions
    var droppedRateTotal: nat
    var droppedBackpressureTotal: nat
    var processedTotal: nat

    function Settings(): Limits { Limits(minInterval, Some(stateTtlSeconds)) }

    constructor (fps: real, ttl: int)
      ensures sessions == map[] && Normal(Settings())
      ensures minInterval * maxFps == 1.0 && maxFps >= 1.0 && maxFps == (if fps >= 1.0 then fps else 1.0)
      ensures droppedRateTotal == droppedBackpressureTotal == processedTotal == 0
    {
      var capped := if fps >= 1.0 then fps else 1.0;
      InverseOf(capped);
      maxFps, minInterval := capped, 1.0 / capped;
      stateTtlSeconds := if ttl >= 30 then ttl else 30;
      sessions := map[];
      droppedRateTotal, droppedBackpressureTotal, processedTotal := 0, 0, 0;
    }

    method TryAcquire(id: string, now: real) returns (verdict: Verdict)
      modifies this
      ensures (sessions, verdict) == old(Acquire(Settings(), sessions, id, now))
      ensures var known := id in old(sessions) && now - old(sessions)[id].lastSeenAt <= stateTtlSeconds as real;
              var s := if known then old(sessions)[id] else State(0.0, 0, 0.0);
              && verdict == (if s.inFlight > 0 then BackedUp
                             else if now - s.lastProcessedAt < minInterval then RateCapped else Admitted)
              && id in sessions && sessions[id].lastSeenAt == now && sessions[id].lastProcessedAt == s.lastProcessedAt
              && sessions[id].inFlight == if verdict == Admitted then 1 else s.inFlight
      ensures forall other :: other != id ==>
                && (other in sessions <==> other in old(sessions)
                                           && now - old(sessions)[other].lastSeenAt <= stateTtlSeconds as real)
                && (other in sessions ==> sessions[other] == old(sessions)[other])
      ensures droppedRateTotal == old(droppedRateTotal) + if verdict == RateCapped then 1 else 0
      ensures droppedBackpressureTotal == old(droppedBackpressureTotal) + if verdict == BackedUp then 1 else 0
      ensures processedTotal == old(processedTotal)
    {
      CleanupLocked(now);
      var state := (if id in sessions then sessions[id] else FRESH).(lastSeenAt := now);
      sessions := sessions[id := state];
      if state.inFlight > 0 {
        droppedBackpressureTotal := droppedBackpressureTotal + 1;
        return BackedUp;
      }
      if now - state.lastProcessedAt < minInterval {
        droppedRateTotal := droppedRateTotal + 1;
        return RateCapped;
      }
      sessions := sessions[id := state.(inFlight := state.inFlight + 1)];
      assert sessions == Cleaned(Settings(), old(sessions), now)[id := sessions[id]];
      verdict := Admitted;
    }

    method ReleaseFrame(id: string, now: real, processed: bool)
      modifies this`sessions, `processedTotal
      ensures sessions == Release(old(sessions), id, now, processed)
      ensures sessions.Keys == old(sessions.Keys)
      ensures forall other :: other in sessions && other != id ==> sessions[other] == old(sessions)[other]
      ensures id in sessions ==>
                var was, s := old(sessions)[id], sessions[id];
                && s.lastSeenAt == now && s.lastProcessedAt == (if processed then now else was.lastProcessedAt)
                && s.inFlight == if was.inFlight > 0 then was.inFlight - 1 else 0
      ensures processedTotal == old(processedTotal) + if processed && id in old(sessions) then 1 else 0
    {
      if id !in sessions {
        return;
      }
      var state := sessions[id];
      state := state.(inFlight := if state.inFlight > 0 then state.inFlight - 1 else 0, lastSeenAt := now);
      if processed {
        state := state.(lastProcessedAt := now);
        processedTotal := processedTotal + 1;
      }
      sessions := sessions[id := state];
    }

    /** Collects the expired sessions, then removes them one by one. */
    method CleanupLocked(now: real)
      modifies this`sessions
      ensures sessions == Cleaned(Settings(), old(sessions), now)
      ensures forall id :: id in sessions <==>
                id in old(sessions) && now - old(sessions)[id].lastSeenAt <= stateTtlSeconds as real
      ensures forall id :: id in sessions ==> sessions[id] == old(sessions)[id]
    {
      var expired := set id | id in sessions && Expired(Some(stateTtlSeconds), sessions[id], now);
      var left := expired;
      while left != {}
        invariant left <= expired
        invariant sessions == map id | id in old(sessions) && (id !in expired || id in left) :: old(sessions)[id]
        decreases left
      {
        var id :| id in left;
        sessions := sessions - {id};
        left := left - {id};
      }
    }
  }

  lemma InverseOf(fps: real)
    requires fps >= 1.0
    ensures (1.0 / fps) * fps == 1.0 && 0.0 < 1.0 / fps <= 1.0
  {
    var inverse := 1.0 / fps;
    assert inverse * fps == 1.0;
    ProductBounds(inverse, fps);
  }

  lemma ProductBounds(x: real, fps: real)
    requires fps >= 1.0
    ensures x > 1.0 ==> x * fps > 1.0
    ensures x <= 0.0 ==> x * fps <= 0.0
  {
  }
}
