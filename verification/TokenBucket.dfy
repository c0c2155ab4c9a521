/** The lazily refilled token bucket, and the window bound it enforces. */
module TokenBucket {
  /** A call to `consume`: when, how many tokens were asked for, and whether they were granted. */
  datatype Call = Call(at: real, tokens: real, granted: bool) {
    function Spent(): real { if granted then tokens else 0.0 }
  }

  datatype Config = Config(capacity: real, rate: real, created: real)

  /** What the object keeps: the tokens left after the last call, and the time of that call. */
  datatype Bucket = Bucket(tokens: real, lastRefill: real)

  /** Tokens earned between two times. */
  function Earned(rate: real, from: real, to: real): real {
    (to - from) * rate
  }

  lemma EarnedIs(rate: real, from: real, to: real)
    ensures Earned(rate, from, to) == rate * (to - from)
  {
  }

  lemma InNumbers(sum: real, capacity: real, rate: real, from: real, to: real)
    requires sum <= capacity + Earned(rate, from, to)
    ensures sum <= capacity + rate * (to - from)
  {
  }

  lemma EarnedAdds(rate: real, from: real, mid: real, to: real)
    ensures Earned(rate, from, to) == Earned(rate, from, mid) + Earned(rate, mid, to)
    ensures Earned(rate, from, from) == 0.0
  {
  }

  lemma EarnedGrows(rate: real, from: real, to: real)
    requires rate >= 0.0 && from <= to
    ensures Earned(rate, from, to) >= 0.0
  {
  }

  function Refill(c: Config, b: Bucket, now: real): real {
    var filled := b.tokens + Earned(c.rate, b.lastRefill, now);
    if c.capacity <= filled then c.capacity else filled
  }

  function After(c: Config, calls: seq<Call>): Bucket {
    if calls == [] then Bucket(c.capacity, c.created)
    else
      var last := calls[|calls| - 1];
      Bucket(Refill(c, After(c, calls[..|calls| - 1]), last.at) - last.Spent(), last.at)
  }

  /** The tokens that a call at `now` finds in the bucket. */
  function Level(c: Config, calls: seq<Call>, now: real): real {
    Refill(c, After(c, calls), now)
  }

  /** Tokens granted by the calls from number `i` on. */
  function GrantedFrom(calls: seq<Call>, i: nat): real
    requires i <= |calls|
    decreases |calls|
  {
    if i == |calls| then 0.0
    else GrantedFrom(calls[..|calls| - 1], i) + calls[|calls| - 1].Spent()
  }

  /** Where the windows ending now may open: 0 is the creation of the bucket, i + 1 is call i. */
  function Opens(c: Config, calls: seq<Call>, w: nat): real
    requires w <= |calls|
  {
    if w == 0 then c.created else calls[w - 1].at
  }

  function FirstCall(w: nat): nat {
    if w == 0 then 0 else w - 1
  }

  /** How much the window may still grant: its capacity plus refill, less what it has granted. */
  function Slack(c: Config, calls: seq<Call>, w: nat, now: real): real
    requires w <= |calls|
  {
    c.capacity + Earned(c.rate, Opens(c, calls, w), now) - GrantedFrom(calls, FirstCall(w))
  }

  /** Calls come in the order of the clock, none before the bucket was created. */
  ghost predicate Ordered(c: Config, calls: seq<Call>, now: real) {
    && c.created <= now
    && (forall i :: 0 <= i < |calls| ==> c.created <= calls[i].at <= now)
    && (forall i, j :: 0 <= i <= j < |calls| ==> calls[i].at <= calls[j].at)
  }

  /** The least slack over every window ending now, the empty one included. */
  ghost predicate IsLeastSlack(c: Config, calls: seq<Call>, now: real, level: real) {
    && level <= c.capacity
    && (forall w :: 0 <= w <= |calls| ==> level <= Slack(c, calls, w, now))
    && (level == c.capacity || exists w :: 0 <= w <= |calls| && level == Slack(c, calls, w, now))
  }

  lemma SlackAfterCall(c: Config, calls: seq<Call>, w: nat, now: real)
    requires calls != [] && w <= |calls| - 1
    ensures var n := |calls| - 1;
            Slack(c, calls, w, now)
              == Slack(c, calls[..n], w, calls[n].at) - calls[n].Spent() + Earned(c.rate, calls[n].at, now)
  {
    var n := |calls| - 1;
    assert Opens(c, calls, w) == Opens(c, calls[..n], w);
    EarnedAdds(c.rate, Opens(c, calls, w), calls[n].at, now);
  }

  lemma SlackOfLastCall(c: Config, calls: seq<Call>, now: real)
    requires calls != []
    ensures var n := |calls| - 1;
            Slack(c, calls, |calls|, now) == c.capacity - calls[n].Spent() + Earned(c.rate, calls[n].at, now)
  {
    var n := |calls| - 1;
    assert GrantedFrom(calls, n) == GrantedFrom(calls[..n], n) + calls[n].Spent();
  }

  /** Closed form. After any sequence of calls, the level the next call finds is the least slack over
      all windows that end with it. */
  lemma {:induction false} LevelIsLeastSlack(c: Config, calls: seq<Call>, now: real)
    requires c.rate >= 0.0 && Ordered(c, calls, now)
    ensures IsLeastSlack(c, calls, now, Level(c, calls, now))
    decreases |calls|
  {
    hide Earned;
    if calls == [] {
      EarnedGrows(c.rate, c.created, now);
    } else {
      var n := |calls| - 1;
      var last, rest := calls[n], calls[..n];
      LevelIsLeastSlack(c, rest, last.at);
      var level, added := Level(c, rest, last.at), Earned(c.rate, last.at, now);
      EarnedGrows(c.rate, last.at, now);
      var grown := level - last.Spent() + added;
      assert Level(c, calls, now) == if c.capacity <= grown then c.capacity else grown;
      SlackOfLastCall(c, calls, now);
      forall w | 0 <= w <= n
        ensures Slack(c, calls, w, now) == Slack(c, rest, w, last.at) - last.Spent() + added
      {
        SlackAfterCall(c, calls, w, now);
      }
      if level != c.capacity {
        var w :| 0 <= w <= n && level == Slack(c, rest, w, last.at);
        assert grown == Slack(c, calls, w, now);
      } else {
        assert grown == Slack(c, calls, |calls|, now);
      }
    }
  }

  /** The bucket decided every call by the level it found. */
  ghost predicate Decided(c: Config, calls: seq<Call>) {
    forall i :: 0 <= i < |calls| ==> (calls[i].granted <==> Level(c, calls[..i], calls[i].at) >= calls[i].tokens)
  }

  /** The call fits the window that opens at `w` and ends now: capacity + rate * length. */
  ghost predicate FitsWindow(c: Config, calls: seq<Call>, w: nat, now: real, tokens: real)
    requires w <= |calls|
  {
    GrantedFrom(calls, FirstCall(w)) + tokens <= c.capacity + c.rate * (now - Opens(c, calls, w))
  }

  /** Granting `tokens` at `now` keeps every window ending now within its bound. */
  ghost predicate FitsEveryWindow(c: Config, calls: seq<Call>, now: real, tokens: real) {
    tokens <= c.capacity && forall w :: 0 <= w <= |calls| ==> FitsWindow(c, calls, w, now, tokens)
  }

  lemma FitsIffSlack(c: Config, calls: seq<Call>, w: nat, now: real, tokens: real)
    requires w <= |calls|
    ensures FitsWindow(c, calls, w, now, tokens) <==> tokens <= Slack(c, calls, w, now)
  {
    hide Opens, GrantedFrom;
    var opens := Opens(c, calls, w);
    EarnedIs(c.rate, opens, now);
  }

  /** The bucket is exact: it denies a call only when granting it would overfill some window. */
  lemma GrantIffFits(c: Config, calls: seq<Call>, now: real, tokens: real)
    requires c.rate >= 0.0 && Ordered(c, calls, now)
    ensures Level(c, calls, now) >= tokens <==> FitsEveryWindow(c, calls, now, tokens)
  {
    hide Slack, FitsWindow;
    LevelIsLeastSlack(c, calls, now);
    forall w | 0 <= w <= |calls|
      ensures FitsWindow(c, calls, w, now, tokens) <==> tokens <= Slack(c, calls, w, now)
    {
      FitsIffSlack(c, calls, w, now, tokens);
    }
  }

  /** Tokens granted by calls i to j - 1. */
  function GrantedBetween(calls: seq<Call>, i: nat, j: nat): real
    requires i <= j <= |calls|
  {
    GrantedFrom(calls[..j], i)
  }

  lemma {:induction false} EarnedBound(c: Config, calls: seq<Call>, i: nat, j: nat)
    requires c.rate >= 0.0 && c.capacity >= 0.0 && i <= j < |calls|
    requires Ordered(c, calls, calls[|calls| - 1].at) && Decided(c, calls)
    ensures GrantedBetween(calls, i, j + 1) <= c.capacity + Earned(c.rate, calls[i].at, calls[j].at)
    decreases j
  {
    hide Earned;
    var before := calls[..j];
    assert calls[..j + 1][..j] == before;
    assert GrantedBetween(calls, i, j + 1) == GrantedFrom(before, i) + calls[j].Spent();
    assert Ordered(c, before, calls[j].at);
    LevelIsLeastSlack(c, before, calls[j].at);
    if i < j {
      assert Opens(c, before, i + 1) == calls[i].at;
      assert Level(c, before, calls[j].at) <= Slack(c, before, i + 1, calls[j].at);
      if !calls[j].granted {
        EarnedBound(c, calls, i, j - 1);
        EarnedAdds(c.rate, calls[i].at, calls[j - 1].at, calls[j].at);
        EarnedGrows(c.rate, calls[j - 1].at, calls[j].at);
      }
    } else {
      EarnedAdds(c.rate, calls[i].at, calls[i].at, calls[i].at);
    }
  }

  /** In any run, the calls in any window from call i to call j were granted at most the capacity plus what
      the rate earns over the length of the window. */
  lemma WindowBound(c: Config, calls: seq<Call>, i: nat, j: nat)
    requires c.rate >= 0.0 && c.capacity >= 0.0 && i <= j < |calls|
    requires Ordered(c, calls, calls[|calls| - 1].at) && Decided(c, calls)
    ensures GrantedBetween(calls, i, j + 1) <= c.capacity + c.rate * (calls[j].at - calls[i].at)
  {
    hide *;
    EarnedBound(c, calls, i, j);
    InNumbers(GrantedBetween(calls, i, j + 1), c.capacity, c.rate, calls[i].at, calls[j].at);
  }

  /** Logging one more call that the level decided. */
  lemma AppendDecided(c: Config, calls: seq<Call>, call: Call)
    requires Decided(c, calls) && (call.granted <==> Level(c, calls, call.at) >= call.tokens)
    ensures Decided(c, calls + [call])
    ensures After(c, calls + [call]) == Bucket(Level(c, calls, call.at) - call.Spent(), call.at)
  {
    hide Earned;
    var more := calls + [call];
    assert more[..|calls|] == calls;
    forall i | 0 <= i < |more|
      ensures more[i].granted <==> Level(c, more[..i], more[i].at) >= more[i].tokens
    {
      if i < |calls| {
        assert more[..i] == calls[..i];
      }
    }
  }

  // ---------------------------------------------------------------- the object

  class TokenBucket {
    const capacity: real
    const rate: real
    const created: real
    var tokens: real
    var lastRefill: real
    ghost var calls: seq<Call>

    ghost function Settings(): Config { Config(capacity, rate, created) }

    ghost predicate Valid()
      reads this
    {
      && Bucket(tokens, lastRefill) == After(Settings(), calls)
      && Ordered(Settings(), calls, lastRefill)
      && Decided(Settings(), calls)
    }

    constructor (capacity: real, rate: real, now: real)
      ensures Valid() && calls == [] && Settings() == Config(capacity, rate, now) && lastRefill == now
    {
      this.capacity, this.rate, this.created := capacity, rate, now;
      tokens, lastRefill := capacity, now;
      calls := [];
    }

    /** Refills lazily, then grants the request if the level allows: exactly when no window ending
        now would grant more than its capacity plus refill. */
    method Consume(now: real, amount: real) returns (granted: bool)
      requires Valid() && lastRefill <= now && rate >= 0.0
      modifies this
      ensures Valid() && lastRefill == now
      ensures calls == old(calls) + [Call(now, amount, granted)]
      ensures granted <==> FitsEveryWindow(Settings(), old(calls), now, amount)
    {
      hide Earned, FitsEveryWindow, Decided, After;
      var filled := tokens + Earned(rate, lastRefill, now);
      tokens := if capacity <= filled then capacity else filled;
      lastRefill := now;
      GrantIffFits(Settings(), calls, now, amount);
      granted := tokens >= amount;
      AppendDecided(Settings(), calls, Call(now, amount, granted));
      if granted {
        tokens := tokens - amount;
      }
      calls := calls + [Call(now, amount, granted)];
    }
  }
}
