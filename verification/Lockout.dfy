/** Escalating lockout after failed authentications, kept across restarts.
    Times are seconds since the epoch. */
module Lockout {
  import opened Wrappers

  datatype Entry = Entry(failures: int, lockedUntil: real, updatedAt: real)
  type Tracker = map<string, Entry>

  /** Seconds of lockout imposed by the given number of failures. */
  function LockoutFor(failures: int): nat {
    if failures >= 40 then 300
    else if failures >= 20 then 120
    else if failures >= 10 then 60
    else if failures >= 5 then 30
    else 0
  }

  function Max(a: real, b: real): real { if a >= b then a else b }

  // ---------------------------------------------------------------- operations

  predicate Locked(s: Tracker, key: string, now: real) {
    key in s && s[key].lockedUntil > now
  }

  /** Looking at an expired lock clears it. */
  function Looked(s: Tracker, key: string, now: real): Tracker {
    if key in s && s[key].lockedUntil <= now && s[key].lockedUntil != 0.0
    then s[key := s[key].(lockedUntil := 0.0, updatedAt := now)]
    else s
  }

  function Failed(s: Tracker, key: string, now: real): Tracker {
    var entry := if key in s then s[key] else Entry(0, 0.0, now);
    var failures := entry.failures + 1;
    var until := if LockoutFor(failures) > 0 then now + LockoutFor(failures) as real else entry.lockedUntil;
    s[key := Entry(failures, until, now)]
  }

  function Cleared(s: Tracker, key: string): Tracker {
    s - {key}
  }

  predicate Kept(e: Entry, now: real) {
    e.failures > 0 || e.lockedUntil > now
  }

  /** What is written to, and read back from, the state file; both drop spent entries. */
  function Saved(s: Tracker, now: real): Tracker {
    map key | key in s && Kept(s[key], now) :: Written(s[key])
  }

  function Written(e: Entry): Entry {
    Entry(if e.failures >= 0 then e.failures else 0, Max(e.lockedUntil, 0.0), Max(e.updatedAt, 0.0))
  }

  function Loaded(file: Tracker, now: real): Tracker {
    Saved(file, now)
  }

  function Count(s: Tracker, key: string): int {
    if key in s then s[key].failures else 0
  }

  // ---------------------------------------------------------------- the object

  predicate Proper(s: Tracker) {
    forall key :: key in s ==> s[key].failures >= 1 && s[key].lockedUntil >= 0.0 && s[key].updatedAt >= 0.0
  }

  /** `file` is what the state file holds. A write that raises is logged and leaves the file as it was;
      `written` says whether the writes of a call succeed. */
  class LockoutTracker {
    var state: Tracker
    var file: Tracker

    /** Every kept entry counts a failure. */
    ghost predicate Valid()
      reads this
    {
      Proper(state) && Proper(file)
    }

    constructor ()
      ensures Valid() && state == map[] && file == map[]
    {
      state, file := map[], map[];
    }

    /** Writes the entries out one by one, leaving out the spent ones; the file then answers for every
        client as the memory does. */
    method Persist(now: real, written: bool)
      modifies this`file
      ensures !written ==> file == old(file)
      ensures written ==> file == Saved(state, now)
      ensures written ==>
                forall key :: key in file <==> key in state && (state[key].failures > 0 || state[key].lockedUntil > now)
      ensures written && Sensible(state) ==> Sensible(file) && Alike(file, state, now)
    {
      var clients: Tracker := map[];
      var left := state.Keys;
      while left != {}
        invariant left <= state.Keys
        invariant forall key :: key in clients <==> key in state && key !in left && Kept(state[key], now)
        invariant forall key :: key in clients ==> clients[key] == Written(state[key])
        decreases left
      {
        var key :| key in left;
        var e := state[key];
        left := left - {key};
        if e.failures <= 0 && e.lockedUntil <= now {
          continue;
        }
        var failures := if e.failures >= 0 then e.failures else 0;
        clients := clients[key := Entry(failures, Max(e.lockedUntil, 0.0), Max(e.updatedAt, 0.0))];
      }
      assert clients == Saved(state, now);
      if Sensible(state) {
        SavedIsAlike(state, now);
      }
      if written {
        file := clients;
      }
    }

    method IsLocked(key: string, now: real, written: bool) returns (locked: bool, remaining: real)
      requires Valid() && now >= 0.0
      modifies this
      ensures Valid() && state == Looked(old(state), key, now)
      ensures file == if written && state != old(state) then state else old(file)
      ensures locked <==> Locked(old(state), key, now)
      ensures locked <==> key in old(state) && old(state)[key].lockedUntil > now
      ensures state.Keys == old(state.Keys)
      ensures forall other :: other in state ==>
                && state[other].failures == old(state)[other].failures
                && state[other].lockedUntil ==
                     if other == key && !locked then 0.0 else old(state)[other].lockedUntil
      ensures remaining == if locked then old(state)[key].lockedUntil - now else 0.0
      ensures AnswerOf(old(state), Look(key), now).lock == if locked then Some(now + remaining) else None
    {
      hide Alike, Sensible;
      if key !in state {
        return false, 0.0;
      }
      var until := state[key].lockedUntil;
      if until > now {
        return true, until - now;
      }
      if until != 0.0 {
        state := state[key := state[key].(lockedUntil := 0.0, updatedAt := now)];
        assert state[key] != old(state)[key];
        ProperIsSavedWhole(state, now);
        hide Saved;
        Persist(now, written);
      }
      return false, 0.0;
    }

    method RecordFailure(key: string, now: real, written: bool) returns (locked: bool, seconds: nat)
      requires Valid() && now >= 0.0
      modifies this
      ensures Valid() && state == Failed(old(state), key, now)
      ensures file == if written then state else old(file)
      ensures seconds == LockoutFor(state[key].failures) && (locked <==> seconds > 0)
      ensures AnswerOf(old(state), Fail(key), now) == Answer(None, seconds, state[key].failures)
      ensures Count(state, key) == Count(old(state), key) + 1
      ensures key in state && forall other :: other != key ==>
                (other in state <==> other in old(state)) && (other in state ==> state[other] == old(state)[other])
      ensures var n := state[key].failures;
              && n == (if key in old(state) then old(state)[key].failures else 0) + 1
              && seconds == (if n >= 40 then 300 else if n >= 20 then 120 else if n >= 10 then 60
                             else if n >= 5 then 30 else 0)
              && (n >= 5 ==> state[key].lockedUntil == now + seconds as real)
              && (n < 5 ==> state[key].lockedUntil == if key in old(state) then old(state)[key].lockedUntil else 0.0)
      ensures locked ==> Locked(state, key, now)
    {
      hide Alike, Sensible, Saved;
      var e := if key in state then state[key] else Entry(0, 0.0, now);
      e := e.(failures := e.failures + 1, updatedAt := now);
      seconds := LockoutFor(e.failures);
      if seconds > 0 {
        e := e.(lockedUntil := now + seconds as real);
      }
      state := state[key := e];
      ProperIsSavedWhole(state, now);
      Persist(now, written);
      locked := seconds > 0;
    }

    method RecordSuccess(key: string, now: real, written: bool)
      requires Valid()
      modifies this
      ensures Valid() && state == Cleared(old(state), key)
      ensures key !in state && forall other :: other != key ==>
                (other in state <==> other in old(state)) && (other in state ==> state[other] == old(state)[other])
      ensures file == if written && key in old(state) then state else old(file)
    {
      hide Alike, Sensible, Saved;
      if key in state {
        state := state - {key};
        ProperIsSavedWhole(state, now);
        Persist(now, written);
      }
    }

    /** A restart: the new process starts from the file, or from nothing if it cannot read it. */
    method Restart(now: real, readable: bool)
      requires Valid()
      modifies this`state
      ensures Valid() && state == if readable then file else map[]
    {
      ProperIsSavedWhole(file, now);
      state := if readable then Loaded(file, now) else map[];
    }
  }

  lemma ProperIsSavedWhole(s: Tracker, now: real)
    requires Proper(s)
    ensures Saved(s, now) == s
  {
  }

  // ---------------------------------------------------------------- restarts cannot be observed

  /** The lock still in force at `now`, if any. */
  function Lock(s: Tracker, key: string, now: real): Option<real> {
    if Locked(s, key, now) then Some(s[key].lockedUntil) else None
  }

  /** Same failure count and same lock for every client, now and at any later time. */
  ghost predicate Alike(a: Tracker, b: Tracker, now: real) {
    forall key :: Count(a, key) == Count(b, key) && Lock(a, key, now) == Lock(b, key, now)
  }

  ghost predicate Sensible(s: Tracker) {
    forall key :: key in s ==> s[key].failures >= 0 && s[key].lockedUntil >= 0.0
  }

  datatype Op = Look(key: string) | Fail(key: string) | Succeed(key: string) | Restart

  /** What the caller sees: the lock found, or the lockout imposed; and the failure count. */
  datatype Answer = Answer(lock: Option<real>, seconds: nat, count: int)

  function Key(op: Op): string { if op.Restart? then "" else op.key }

  /** An operation, the clock when it happens and when it writes, and whether its access to the file works. */
  datatype Timed = Timed(op: Op, now: real, saved: real, works: bool)

  /** What a process has in memory, and what the file holds. */
  datatype Process = Process(memory: Tracker, file: Tracker)

  function Changed(s: Tracker, op: Op, now: real): Tracker {
    match op
    case Look(key) => Looked(s, key, now)
    case Fail(key) => Failed(s, key, now)
    case Succeed(key) => Cleared(s, key)
    case Restart => s
  }

  function Reloaded(file: Tracker, now: real, readable: bool): Tracker {
    if readable then Loaded(file, now) else map[]
  }

  /** Changes are written out; a restart reads the file. */
  function Next(p: Process, t: Timed): Process {
    if t.op.Restart? then p.(memory := Reloaded(p.file, t.now, t.works))
    else
      var memory := Changed(p.memory, t.op, t.now);
      Process(memory, if memory != p.memory && t.works then Saved(memory, t.saved) else p.file)
  }

  function AnswerOf(s: Tracker, op: Op, now: real): Answer {
    match op
    case Fail(key) => Answer(None, LockoutFor(Count(s, key) + 1), Count(s, key) + 1)
    case _ => Answer(Lock(s, Key(op), now), 0, Count(s, Key(op)))
  }

  function Answers(p: Process, ops: seq<Timed>): seq<Answer>
    decreases |ops|
  {
    if ops == [] then [] else [AnswerOf(p.memory, ops[0].op, ops[0].now)] + Answers(Next(p, ops[0]), ops[1..])
  }

  /** The answers of a tracker that ignores restarts. */
  function SteadyAnswers(s: Tracker, ops: seq<Timed>): seq<Answer>
    decreases |ops|
  {
    if ops == [] then []
    else [AnswerOf(s, ops[0].op, ops[0].now)] + SteadyAnswers(Changed(s, ops[0].op, ops[0].now), ops[1..])
  }

  ghost predicate InOrder(now: real, ops: seq<Timed>)
    decreases |ops|
  {
    ops != [] ==> now <= ops[0].now <= ops[0].saved && 0.0 <= ops[0].now && InOrder(ops[0].saved, ops[1..])
  }

  lemma AlikeLater(a: Tracker, b: Tracker, now: real, later: real)
    requires Alike(a, b, now) && now <= later
    ensures Alike(a, b, later)
  {
    forall key
      ensures Count(a, key) == Count(b, key) && Lock(a, key, later) == Lock(b, key, later)
    {
      assert Count(a, key) == Count(b, key) && Lock(a, key, now) == Lock(b, key, now);
    }
  }

  lemma FailStaysAlike(a: Tracker, b: Tracker, client: string, now: real)
    requires Alike(a, b, now) && now >= 0.0
    ensures Alike(Failed(a, client, now), Failed(b, client, now), now)
  {
    assert Count(a, client) == Count(b, client) && Lock(a, client, now) == Lock(b, client, now);
    forall key | key != client
      ensures Count(Failed(a, client, now), key) == Count(Failed(b, client, now), key)
      ensures Lock(Failed(a, client, now), key, now) == Lock(Failed(b, client, now), key, now)
    {
      assert Count(a, key) == Count(b, key) && Lock(a, key, now) == Lock(b, key, now);
    }
  }

  lemma LookStaysAlike(a: Tracker, b: Tracker, client: string, now: real)
    requires Alike(a, b, now) && now >= 0.0
    ensures Alike(Looked(a, client, now), Looked(b, client, now), now)
    ensures Alike(Cleared(a, client), Cleared(b, client), now)
  {
    forall key
      ensures Count(Looked(a, client, now), key) == Count(Looked(b, client, now), key)
      ensures Lock(Looked(a, client, now), key, now) == Lock(Looked(b, client, now), key, now)
      ensures Count(Cleared(a, client), key) == Count(Cleared(b, client), key)
      ensures Lock(Cleared(a, client), key, now) == Lock(Cleared(b, client), key, now)
    {
      assert Count(a, key) == Count(b, key) && Lock(a, key, now) == Lock(b, key, now);
    }
  }

  lemma SavedIsAlike(s: Tracker, now: real)
    requires Sensible(s)
    ensures Sensible(Saved(s, now)) && Alike(Saved(s, now), s, now)
  {
  }

  lemma ChangeStaysAlike(a: Tracker, b: Tracker, op: Op, now: real)
    requires Sensible(a) && Sensible(b) && Alike(a, b, now) && 0.0 <= now
    ensures Sensible(Changed(a, op, now)) && Sensible(Changed(b, op, now))
    ensures Alike(Changed(a, op, now), Changed(b, op, now), now)
    ensures AnswerOf(a, op, now) == AnswerOf(b, op, now)
  {
    assert Count(a, Key(op)) == Count(b, Key(op)) && Lock(a, Key(op), now) == Lock(b, Key(op), now);
    hide Alike;
    match op
    case Look(client) => LookStaysAlike(a, b, client, now);
    case Fail(client) => FailStaysAlike(a, b, client, now);
    case Succeed(client) => LookStaysAlike(a, b, client, now);
    case Restart =>
  }

  lemma AlikeSymmetric(a: Tracker, b: Tracker, now: real)
    requires Alike(a, b, now)
    ensures Alike(b, a, now)
  {
    forall key
      ensures Count(b, key) == Count(a, key) && Lock(b, key, now) == Lock(a, key, now)
    {
      assert Count(a, key) == Count(b, key) && Lock(a, key, now) == Lock(b, key, now);
    }
  }

  lemma AlikeTransitive(a: Tracker, b: Tracker, c: Tracker, now: real)
    requires Alike(a, b, now) && Alike(b, c, now)
    ensures Alike(a, c, now)
  {
    forall key
      ensures Count(a, key) == Count(c, key) && Lock(a, key, now) == Lock(c, key, now)
    {
      assert Count(a, key) == Count(b, key) && Lock(a, key, now) == Lock(b, key, now);
    }
  }

  /** The file answers as the memory does, and the memory as a tracker that never restarted. */
  ghost predicate Current(p: Process, b: Tracker, now: real) {
    && Sensible(p.memory) && Sensible(p.file) && Sensible(b)
    && Alike(p.memory, b, now) && Alike(p.file, p.memory, now)
  }

  lemma StepStaysCurrent(p: Process, b: Tracker, t: Timed, now: real)
    requires Current(p, b, now) && now <= t.now <= t.saved && 0.0 <= t.now && t.works
    ensures Current(Next(p, t), Changed(b, t.op, t.now), t.saved)
    ensures AnswerOf(p.memory, t.op, t.now) == AnswerOf(b, t.op, t.now)
  {
    AlikeLater(p.memory, b, now, t.now);
    AlikeLater(p.file, p.memory, now, t.now);
    ChangeStaysAlike(p.memory, b, t.op, t.now);
    hide Alike, Sensible;
    var p', b' := Next(p, t), Changed(b, t.op, t.now);
    if t.op.Restart? {
      SavedIsAlike(p.file, t.now);
      AlikeTransitive(p'.memory, p.file, p.memory, t.now);
      AlikeTransitive(p'.memory, p.memory, b, t.now);
      AlikeSymmetric(p'.memory, p.file, t.now);
      AlikeLater(p'.file, p'.memory, t.now, t.saved);
    } else if p'.memory != p.memory {
      SavedIsAlike(p'.memory, t.saved);
    } else {
      AlikeLater(p'.file, p'.memory, t.now, t.saved);
    }
    AlikeLater(p'.memory, b', t.now, t.saved);
  }

  /** As long as the file can be written and read, a process that restarts any number of times, at any
      moments, answers every query like one that never does, whatever sensible entries it started from. */
  lemma {:induction false} RestartsAreInvisible(p: Process, b: Tracker, ops: seq<Timed>, now: real)
    requires Current(p, b, now) && InOrder(now, ops) && forall i :: 0 <= i < |ops| ==> ops[i].works
    ensures Answers(p, ops) == SteadyAnswers(b, ops)
    decreases |ops|
  {
    hide Current, Next;
    if ops != [] {
      StepStaysCurrent(p, b, ops[0], now);
      assert forall i :: 0 <= i < |ops| - 1 ==> ops[1..][i] == ops[i + 1];
      RestartsAreInvisible(Next(p, ops[0]), Changed(b, ops[0].op, ops[0].now), ops[1..], ops[0].saved);
    }
  }

  lemma {:induction false} AlikeAnswersAlike(a: Tracker, b: Tracker, ops: seq<Timed>, now: real)
    requires Sensible(a) && Sensible(b) && Alike(a, b, now) && InOrder(now, ops)
    ensures SteadyAnswers(a, ops) == SteadyAnswers(b, ops)
    decreases |ops|
  {
    if ops != [] {
      var t := ops[0];
      AlikeLater(a, b, now, t.now);
      ChangeStaysAlike(a, b, t.op, t.now);
      AlikeLater(Changed(a, t.op, t.now), Changed(b, t.op, t.now), t.now, t.saved);
      hide Alike, Sensible, Changed, AnswerOf;
      AlikeAnswersAlike(Changed(a, t.op, t.now), Changed(b, t.op, t.now), ops[1..], t.saved);
    }
  }

  ghost predicate AgreeOn(a: Tracker, b: Tracker, now: real, ops: seq<Timed>) {
    InOrder(now, ops) ==> SteadyAnswers(a, ops) == SteadyAnswers(b, ops)
  }

  /** The same answers to everything that may be asked from now on. */
  ghost predicate SameAnswers(a: Tracker, b: Tracker, now: real) {
    forall ops :: AgreeOn(a, b, now, ops)
  }

  /** Two trackers give the same answers to everything asked from now on exactly when they agree now on
      the failure count and the running lock of every client. */
  lemma SameAnswersIff(a: Tracker, b: Tracker, now: real)
    requires Sensible(a) && Sensible(b) && now >= 0.0
    ensures SameAnswers(a, b, now) <==> Alike(a, b, now)
  {
    if Alike(a, b, now) {
      forall ops
        ensures AgreeOn(a, b, now, ops)
      {
        if InOrder(now, ops) {
          AlikeAnswersAlike(a, b, ops, now);
        }
      }
    } else {
      var key :| !(Count(a, key) == Count(b, key) && Lock(a, key, now) == Lock(b, key, now));
      var look := [Timed(Look(key), now, now, true)];
      assert InOrder(now, look[1..]) && InOrder(now, look);
      assert SteadyAnswers(a, look)[0] == AnswerOf(a, Look(key), now);
      assert SteadyAnswers(b, look)[0] == AnswerOf(b, Look(key), now);
      assert AnswerOf(a, Look(key), now) != AnswerOf(b, Look(key), now);
      assert !AgreeOn(a, b, now, look);
    }
  }

  /** When writes or reads may have failed, a restart goes unnoticed exactly if the file, where it can be
      read, agrees with the memory on every client; and otherwise if there is nothing to remember. */
  lemma RestartInvisibleIff(p: Process, now: real, readable: bool)
    requires Sensible(p.memory) && Sensible(p.file) && now >= 0.0
    ensures SameAnswers(Reloaded(p.file, now, readable), p.memory, now) <==>
            if readable then Alike(p.file, p.memory, now)
            else forall key :: Count(p.memory, key) == 0 && !Locked(p.memory, key, now)
  {
    var start := Reloaded(p.file, now, readable);
    SavedIsAlike(p.file, now);
    SameAnswersIff(start, p.memory, now);
    if readable {
      if Alike(start, p.memory, now) {
        AlikeSymmetric(start, p.file, now);
        AlikeTransitive(p.file, start, p.memory, now);
      } else if Alike(p.file, p.memory, now) {
        AlikeTransitive(start, p.file, p.memory, now);
      }
    } else {
      NothingIsAlike(p.memory, now);
    }
  }

  lemma NothingIsAlike(s: Tracker, now: real)
    ensures Alike(map[], s, now) <==> forall key :: Count(s, key) == 0 && !Locked(s, key, now)
  {
    if Alike(map[], s, now) {
      forall key
        ensures Count(s, key) == 0 && !Locked(s, key, now)
      {
        assert Count(map[], key) == Count(s, key) && Lock(map[], key, now) == Lock(s, key, now);
      }
    }
  }

  /** The failing side: a failure whose write raises is forgotten by the next restart. */
  lemma LostWriteIsForgotten(s: Tracker, client: string, now: real, saved: real, later: real)
    requires Sensible(s)
    ensures var p := Next(Process(s, s), Timed(Fail(client), now, saved, false));
            Count(Reloaded(p.file, later, true), client) == Count(p.memory, client) - 1
  {
    SavedIsAlike(s, later);
    assert Count(Saved(s, later), client) == Count(s, client);
  }

  // ---------------------------------------------------------------- the middleware

  predicate IsBearer(header: string) {
    |header| >= 7 && Lower(header[..7]) == "bearer "
  }

  function Lower(s: string): string {
    seq(|s|, i requires 0 <= i < |s| => if 'A' <= s[i] <= 'Z' then ((s[i] as int) + 32) as char else s[i])
  }

  /** The hexadecimal digest of a token, and whether the token check lets a header pass; both look at nothing else. */
  datatype Gate = Gate(digest: string -> string, accepts: string -> bool) {
    /** A SHA-256 digest has 64 hexadecimal digits. */
    ghost predicate FullDigests() {
      forall token :: |digest(token)| == 64
    }
  }

  /** A request's Authorization header (empty if there is none), its peer, and whether its bucket is empty. */
  datatype Request = Request(header: string, host: string, now: real, throttled: bool)

  /** The first sixteen digits of the digest of the token presented. */
  function Digits(g: Gate, header: string): string
    requires IsBearer(header)
  {
    var digest := g.digest(header[7..]);
    if |digest| >= 16 then digest[..16] else digest
  }

  /** A client is known by the token it presents, and by its address only if it presents none. */
  function ClientKey(g: Gate, r: Request): string {
    if IsBearer(r.header) then "tok:" + Digits(g, r.header) else "ip:" + r.host
  }

  /** The middleware's order: refuse while locked or throttled; otherwise check the token and record the
      outcome. Each request is one atomic step with one clock reading. */
  function Dispatch(g: Gate, s: Tracker, r: Request): Tracker {
    var key := ClientKey(g, r);
    var looked := Looked(s, key, r.now);
    if Locked(s, key, r.now) || r.throttled then looked
    else if g.accepts(r.header) then Cleared(looked, key)
    else Failed(looked, key, r.now)
  }

  /** What a request does to the entries. Locked or throttled, it counts for nobody; otherwise a token that
      passes the check clears the client's entry, and one that does not adds a failure to it, with a lock from
      the fifth on; no other client is touched. */
  lemma DispatchEffect(g: Gate, s: Tracker, r: Request, other: string)
    ensures var key, s' := ClientKey(g, r), Dispatch(g, s, r);
            var counts := !(key in s && s[key].lockedUntil > r.now) && !r.throttled;
            && (!counts ==> Count(s', key) == Count(s, key))
            && (counts && g.accepts(r.header) ==> key !in s')
            && (counts && !g.accepts(r.header) ==>
                  && key in s' && s'[key].failures == Count(s, key) + 1
                  && (s'[key].failures >= 5 ==> s'[key].lockedUntil >= r.now + 30.0))
            && (other != key ==> (other in s' <==> other in s) && (other in s ==> s'[other] == s[other]))
  {
    hide ClientKey;
  }

  function Served(g: Gate, requests: seq<Request>): Tracker {
    if requests == [] then map[] else Dispatch(g, Served(g, requests[..|requests| - 1]), requests[|requests| - 1])
  }

  /** Times of the failures recorded for a client since its last success. */
  function FailureTimes(g: Gate, requests: seq<Request>, key: string): seq<real> {
    if requests == [] then []
    else
      var rest, last := requests[..|requests| - 1], requests[|requests| - 1];
      var times := FailureTimes(g, rest, key);
      if ClientKey(g, last) != key || Locked(Served(g, rest), key, last.now) || last.throttled then times
      else if g.accepts(last.header) then []
      else times + [last.now]
  }

  ghost predicate ClockOrdered(requests: seq<Request>) {
    && (forall i :: 0 <= i < |requests| ==> requests[i].now >= 0.0)
    && forall i, j :: 0 <= i <= j < |requests| ==> requests[i].now <= requests[j].now
  }

  function Clock(requests: seq<Request>): real {
    if requests == [] then 0.0 else requests[|requests| - 1].now
  }

  ghost predicate Spaced(times: seq<real>) {
    forall i :: 0 <= i < |times| - 1 ==> times[i + 1] >= times[i] + LockoutFor(i + 1) as real
  }

  /** When the lock set by the last of the failures runs out. */
  function LockEnds(times: seq<real>): real {
    if times == [] then 0.0 else times[|times| - 1] + LockoutFor(|times|) as real
  }

  /** The entry of a client mirrors its failures; a lock that it no longer shows has run out. */
  ghost predicate Mirrors(s: Tracker, key: string, times: seq<real>, now: real) {
    && Count(s, key) == |times|
    && (times != [] ==> key in s && times[|times| - 1] <= now)
    && (key in s ==> s[key].lockedUntil >= 0.0 && times != [])
    && (key in s && |times| < 5 ==> s[key].lockedUntil == 0.0)
    && (key in s && |times| >= 5 ==>
          s[key].lockedUntil == LockEnds(times) || (s[key].lockedUntil == 0.0 && now >= LockEnds(times)))
  }

  lemma DispatchSparesOthers(g: Gate, s: Tracker, r: Request, key: string, times: seq<real>, now: real)
    requires Mirrors(s, key, times, now) && now <= r.now && ClientKey(g, r) != key
    ensures Mirrors(Dispatch(g, s, r), key, times, r.now)
  {
    hide ClientKey;
  }

  lemma DispatchMirrors(g: Gate, s: Tracker, r: Request, times: seq<real>, now: real)
    requires Mirrors(s, ClientKey(g, r), times, now) && 0.0 <= now <= r.now
    ensures var key := ClientKey(g, r);
            var times' := if Locked(s, key, r.now) || r.throttled then times
                          else if g.accepts(r.header) then [] else times + [r.now];
            Mirrors(Dispatch(g, s, r), key, times', r.now)
    ensures !Locked(s, ClientKey(g, r), r.now) ==> |times| < 5 || r.now >= LockEnds(times)
  {
    hide ClientKey;
  }

  /** The entry of every client mirrors its failures, which are apart by at least the lockouts they set. */
  lemma {:induction false} FailuresAreSpaced(g: Gate, requests: seq<Request>, key: string)
    requires ClockOrdered(requests)
    ensures Spaced(FailureTimes(g, requests, key))
    ensures Mirrors(Served(g, requests), key, FailureTimes(g, requests, key), Clock(requests))
    decreases |requests|
  {
    hide Dispatch, Mirrors, ClientKey, Locked;
    if requests == [] {
      NothingFailed(g, key);
    } else {
      var rest, last := requests[..|requests| - 1], requests[|requests| - 1];
      FailuresAreSpaced(g, rest, key);
      assert Clock(rest) <= last.now;
      if ClientKey(g, last) == key {
        DispatchMirrors(g, Served(g, rest), last, FailureTimes(g, rest, key), Clock(rest));
        MirrorsTimes(Served(g, rest), key, FailureTimes(g, rest, key), Clock(rest));
      } else {
        DispatchSparesOthers(g, Served(g, rest), last, key, FailureTimes(g, rest, key), Clock(rest));
      }
    }
  }

  lemma MirrorsTimes(s: Tracker, key: string, times: seq<real>, now: real)
    requires Mirrors(s, key, times, now)
    ensures times != [] ==> times[|times| - 1] <= now
  {
  }

  lemma NothingFailed(g: Gate, key: string)
    ensures Mirrors(Served(g, []), key, FailureTimes(g, [], key), 0.0)
  {
  }

  /** The lock, exactly: a client is locked if and only if it failed at least five times since its last
      success and the lockout for that number has not passed since the last of them. */
  lemma LockedIff(g: Gate, requests: seq<Request>, key: string, now: real)
    requires ClockOrdered(requests) && Clock(requests) <= now
    ensures var times := FailureTimes(g, requests, key);
            Locked(Served(g, requests), key, now) <==> |times| >= 5 && now < LockEnds(times)
  {
    FailuresAreSpaced(g, requests, key);
    ClockIsPositive(requests);
    hide Served, FailureTimes, Spaced;
  }

  lemma ClockIsPositive(requests: seq<Request>)
    requires ClockOrdered(requests)
    ensures Clock(requests) >= 0.0
  {
  }

  /** Total lockout imposed by failures `first`, ..., `end - 1`. */
  function TotalLockout(first: nat, end: nat): nat
    requires first <= end
    decreases end
  {
    if first == end then 0 else TotalLockout(first, end - 1) + LockoutFor(end - 1)
  }

  lemma {:induction false} SpacedSum(times: seq<real>, first: nat, end: nat)
    requires Spaced(times) && 1 <= first <= end <= |times|
    ensures times[end - 1] >= times[first - 1] + TotalLockout(first, end) as real
    decreases end
  {
    if first < end {
      SpacedSum(times, first, end - 1);
    }
  }

  lemma {:induction false} TotalFromFifth(n: nat)
    requires n >= 5
    ensures n <= 10 ==> TotalLockout(5, n) == 30 * (n - 5)
    ensures 10 <= n <= 20 ==> TotalLockout(5, n) == 150 + 60 * (n - 10)
    ensures 20 <= n <= 40 ==> TotalLockout(5, n) == 750 + 120 * (n - 20)
    ensures n >= 40 ==> TotalLockout(5, n) == 3150 + 300 * (n - 40)
  {
    if n > 5 {
      TotalFromFifth(n - 1);
    }
  }

  /** How slow it is to fail under one client key: in any history of requests, by any clients, the n-th
      failure of a key without a success comes at least 3150 + 300 * (n - 40) seconds after its fifth. */
  lemma FailingUnderOneKeyIsSlow(g: Gate, requests: seq<Request>, key: string, n: nat)
    requires ClockOrdered(requests) && 40 <= n <= |FailureTimes(g, requests, key)|
    ensures var times := FailureTimes(g, requests, key);
            times[n - 1] - times[4] >= (3150 + 300 * (n - 40)) as real
  {
    FailuresAreSpaced(g, requests, key);
    SpacedSum(FailureTimes(g, requests, key), 5, n);
    TotalFromFifth(n);
  }

  // ---------------------------------------------------------------- what one key stands for

  /** Requests made so far under a client key. */
  function Attempts(g: Gate, requests: seq<Request>, key: string): nat {
    if requests == [] then 0
    else
      Attempts(g, requests[..|requests| - 1], key) + if ClientKey(g, requests[|requests| - 1]) == key then 1 else 0
  }

  lemma {:induction false} AttemptsCount(g: Gate, requests: seq<Request>, key: string)
    ensures Attempts(g, requests, key) == |set i | 0 <= i < |requests| && ClientKey(g, requests[i]) == key|
    decreases |requests|
  {
    hide ClientKey;
    if requests != [] {
      var n := |requests| - 1;
      AttemptsCount(g, requests[..n], key);
      var before := set i | 0 <= i < n && ClientKey(g, requests[..n][i]) == key;
      var after := set i | 0 <= i < |requests| && ClientKey(g, requests[i]) == key;
      if ClientKey(g, requests[n]) == key {
        assert after == before + {n};
      } else {
        assert after == before;
      }
    }
  }

  lemma {:induction false} FailuresAreAttempts(g: Gate, requests: seq<Request>, key: string)
    ensures |FailureTimes(g, requests, key)| <= Attempts(g, requests, key)
    decreases |requests|
  {
    hide ClientKey, Locked;
    if requests != [] {
      FailuresAreAttempts(g, requests[..|requests| - 1], key);
    }
  }

  /** The bounds are per key only: whatever else is going on, a key used in fewer than five requests is
      never locked. */
  lemma FewAttemptsAreNeverLocked(g: Gate, requests: seq<Request>, key: string, now: real)
    requires ClockOrdered(requests) && Clock(requests) <= now
    requires |set i | 0 <= i < |requests| && ClientKey(g, requests[i]) == key| < 5
    ensures !Locked(Served(g, requests), key, now)
  {
    AttemptsCount(g, requests, key);
    FailuresAreAttempts(g, requests, key);
    LockedIff(g, requests, key, now);
  }

  lemma {:induction false} NoAttempts(g: Gate, requests: seq<Request>, key: string)
    requires forall i :: 0 <= i < |requests| ==> ClientKey(g, requests[i]) != key
    ensures Attempts(g, requests, key) == 0
  {
    hide ClientKey;
    if requests != [] {
      NoAttempts(g, requests[..|requests| - 1], key);
    }
  }

  /** A header presents a token exactly if it begins with "bearer " in letters of either case. */
  lemma BearerIff(h: string)
    ensures IsBearer(h) <==>
              && |h| >= 7
              && h[0] in {'b', 'B'} && h[1] in {'e', 'E'} && h[2] in {'a', 'A'}
              && h[3] in {'r', 'R'} && h[4] in {'e', 'E'} && h[5] in {'r', 'R'} && h[6] == ' '
  {
    if |h| >= 7 {
      var low := Lower(h[..7]);
      assert low == "bearer " <==>
               low[0] == 'b' && low[1] == 'e' && low[2] == 'a' && low[3] == 'r' && low[4] == 'e' && low[5] == 'r'
               && low[6] == ' ';
    }
  }

  /** Two requests share a key exactly when both present a token and the first sixteen digits of the two
      digests agree, or neither does and they come from the same host. */
  lemma SameClientIff(g: Gate, a: Request, b: Request)
    requires g.FullDigests()
    ensures ClientKey(g, a) == ClientKey(g, b) <==>
              if IsBearer(a.header) && IsBearer(b.header) then
                g.digest(a.header[7..])[..16] == g.digest(b.header[7..])[..16]
              else !IsBearer(a.header) && !IsBearer(b.header) && a.host == b.host
  {
    var p, q := ClientKey(g, a), ClientKey(g, b);
    if IsBearer(a.header) && IsBearer(b.header) {
      assert p[4..] == g.digest(a.header[7..])[..16] && q[4..] == g.digest(b.header[7..])[..16];
    } else if !IsBearer(a.header) && !IsBearer(b.header) {
      assert p[3..] == a.host && q[3..] == b.host;
    } else {
      assert p[0] != q[0];
    }
  }

  /** So each new token is a new client: a request whose token differs in those digits from every earlier
      one is never refused by a lock. */
  lemma NewTokensAreNeverLocked(g: Gate, requests: seq<Request>, i: nat)
    requires g.FullDigests() && ClockOrdered(requests) && i < |requests| && IsBearer(requests[i].header)
    requires forall k :: 0 <= k < i ==>
               IsBearer(requests[k].header) ==>
                 g.digest(requests[k].header[7..])[..16] != g.digest(requests[i].header[7..])[..16]
    ensures !Locked(Served(g, requests[..i]), ClientKey(g, requests[i]), requests[i].now)
  {
    var key := ClientKey(g, requests[i]);
    forall k | 0 <= k < i
      ensures ClientKey(g, requests[k]) != key
    {
      SameClientIff(g, requests[k], requests[i]);
    }
    hide ClientKey, IsBearer, Gate.FullDigests;
    NoAttempts(g, requests[..i], key);
    AttemptsCount(g, requests[..i], key);
    FewAttemptsAreNeverLocked(g, requests[..i], key, requests[i].now);
  }
}
