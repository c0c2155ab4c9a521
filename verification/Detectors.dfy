/** The streaming blink and head-turn detectors, against what they promise about the whole history of
    frames since their last reset. The eye-aspect ratio and the yaw angle of a frame are inputs; `None`
    is a frame without a face, or one whose measurement failed. */
module Detectors {
  import opened Wrappers

  type Measure = Option<real>

  // ---------------------------------------------------------------- blinks

  const EAR_THRESHOLD := 0.2
  const EAR_CONSEC_FRAMES := 2
  const BLINK_DEBOUNCE := 5

  predicate Shut(m: Measure) { m.Some? && m.value < EAR_THRESHOLD }
  predicate Open(m: Measure) { m.Some? && m.value >= EAR_THRESHOLD }

  /** Frame `n` shows open eyes right after two frames of shut ones. */
  predicate Reopens(h: seq<Measure>, n: nat)
    requires n < |h|
  {
    n >= 2 && Open(h[n]) && Shut(h[n - 1]) && Shut(h[n - 2])
  }

  /** The number of frames from the later of the reset and the last blink, up to frame `n`. */
  function Quiet(h: seq<Measure>, n: nat): (len: nat)
    requires n <= |h|
    ensures len <= n
  {
    if n == 0 || (Reopens(h, n - 1) && Quiet(h, n - 1) + 1 > BLINK_DEBOUNCE) then 0 else Quiet(h, n - 1) + 1
  }

  /** Is frame `n` a blink? The eyes reopen, at least six frames after the later of reset and last blink. */
  predicate IsBlink(h: seq<Measure>, n: nat)
    requires n < |h|
  {
    Reopens(h, n) && Quiet(h, n) + 1 > BLINK_DEBOUNCE
  }

  function Blinks(h: seq<Measure>, n: nat): nat
    requires n <= |h|
  {
    if n == 0 then 0 else Blinks(h, n - 1) + (if IsBlink(h, n - 1) then 1 else 0)
  }

  lemma {:induction false} BlinksCount(h: seq<Measure>, n: nat)
    requires n <= |h|
    ensures Blinks(h, n) == |set i | 0 <= i < n && IsBlink(h, i)|
  {
    if n > 0 {
      BlinksCount(h, n - 1);
      var before := set i | 0 <= i < n - 1 && IsBlink(h, i);
      assert (set i | 0 <= i < n && IsBlink(h, i)) == if IsBlink(h, n - 1) then before + {n - 1} else before;
    }
  }

  lemma {:induction false} QuietIffNoBlinks(h: seq<Measure>, n: nat, len: nat)
    requires len <= n <= |h|
    ensures Quiet(h, n) >= len <==> forall i :: n - len <= i < n ==> !IsBlink(h, i)
    decreases n
  {
    if len > 0 {
      QuietIffNoBlinks(h, n - 1, len - 1);
      assert IsBlink(h, n - 1) ==> Quiet(h, n) == 0;
    }
  }

  /** The same without counting, in figures: the eye-aspect ratio is at least 0.2 right after two frames below
      it, and neither the reset nor another blink is among the five frames before. */
  lemma BlinkIffReopensAndRested(h: seq<Measure>, n: nat)
    requires n < |h|
    ensures IsBlink(h, n) <==>
              && n >= 5 && (forall i :: n - 5 <= i < n ==> !IsBlink(h, i))
              && h[n].Some? && h[n].value >= 0.2
              && h[n - 1].Some? && h[n - 1].value < 0.2 && h[n - 2].Some? && h[n - 2].value < 0.2
  {
    if n >= BLINK_DEBOUNCE {
      QuietIffNoBlinks(h, n, BLINK_DEBOUNCE);
    }
  }

  /** What frame `n` is depends on no later frame. */
  lemma {:induction false} Causal(h: seq<Measure>, more: seq<Measure>, n: nat)
    requires n <= |h|
    ensures Quiet(h + more, n) == Quiet(h, n) && Blinks(h + more, n) == Blinks(h, n)
    ensures n < |h| ==> IsBlink(h + more, n) == IsBlink(h, n)
    decreases n
  {
    if n > 0 {
      Causal(h, more, n - 1);
    }
    assert forall k :: 0 <= k <= n && k < |h| ==> (h + more)[k] == h[k];
  }

  /** No fewer than six frames go by for each blink. */
  lemma {:induction false} SixFramesPerBlink(h: seq<Measure>, n: nat)
    requires n <= |h|
    ensures 6 * Blinks(h, n) + Quiet(h, n) <= n
    decreases n
  {
    if n > 0 {
      SixFramesPerBlink(h, n - 1);
    }
  }

  /** The last `len` frames, and not the one before, show shut eyes. */
  ghost predicate ShutFor(h: seq<Measure>, len: nat) {
    && len <= |h| && (forall k :: |h| - len <= k < |h| ==> Shut(h[k]))
    && (len < |h| ==> !Shut(h[|h| - len - 1]))
  }

  lemma NextShut(h: seq<Measure>, m: Measure, len: nat)
    requires ShutFor(h, len)
    ensures ShutFor(h + [m], if Shut(m) then len + 1 else 0)
  {
    assert forall k :: 0 <= k < |h| ==> (h + [m])[k] == h[k];
  }

  lemma NextReopens(h: seq<Measure>, m: Measure, shut: nat)
    requires ShutFor(h, shut)
    ensures Reopens(h + [m], |h|) == (Open(m) && shut >= EAR_CONSEC_FRAMES)
  {
    var n, g := |h|, h + [m];
    assert forall k :: 0 <= k < n ==> g[k] == h[k];
    if n >= 2 {
      assert shut < 2 ==> !Shut(h[n - 1]) || !Shut(h[n - 2]);
    }
  }

  class BlinkDetector {
    var eyesClosedCount: nat
    var blinkCount: nat
    var framesSinceBlink: nat
    var wasClosed: bool
    ghost var history: seq<Measure>

    ghost predicate Valid()
      reads this
    {
      && ShutFor(history, eyesClosedCount) && framesSinceBlink == Quiet(history, |history|)
      && wasClosed == (eyesClosedCount >= EAR_CONSEC_FRAMES)
      && blinkCount == Blinks(history, |history|)
    }

    constructor ()
      ensures Valid() && history == []
    {
      eyesClosedCount, blinkCount, framesSinceBlink, wasClosed := 0, 0, 0, false;
      history := [];
    }

    method Update(ear: Measure) returns (detected: bool)
      requires Valid()
      modifies this
      ensures Valid() && history == old(history) + [ear]
      ensures detected == IsBlink(history, |history| - 1)
      ensures blinkCount == old(blinkCount) + if detected then 1 else 0
      ensures blinkCount == |set i | 0 <= i < |history| && IsBlink(history, i)|
      ensures 6 * blinkCount <= |history|
    {
      NextShut(history, ear, eyesClosedCount);
      NextReopens(history, ear, eyesClosedCount);
      Causal(history, [ear], |history|);
      history := history + [ear];
      SixFramesPerBlink(history, |history|);
      BlinksCount(history, |history|);
      hide Reopens, ShutFor;
      detected := false;
      framesSinceBlink := framesSinceBlink + 1;
      if ear.None? {
        eyesClosedCount := 0;
        wasClosed := false;
        return;
      }
      if ear.value < EAR_THRESHOLD {
        eyesClosedCount := eyesClosedCount + 1;
      } else {
        eyesClosedCount := 0;
      }
      var isClosed := eyesClosedCount >= EAR_CONSEC_FRAMES;
      if wasClosed && !isClosed && framesSinceBlink > BLINK_DEBOUNCE {
        detected := true;
        blinkCount := blinkCount + 1;
        framesSinceBlink := 0;
      }
      wasClosed := isClosed;
    }

    method Reset()
      modifies this
      ensures Valid() && history == []
    {
      eyesClosedCount, blinkCount, framesSinceBlink, wasClosed := 0, 0, 0, false;
      history := [];
    }
  }

  // ---------------------------------------------------------------- head turns

  const YAW_TURN_THRESHOLD := 15.0
  const YAW_DEBOUNCE_FRAMES := 5

  datatype Direction = Left | Right | Neutral

  function Facing(yaw: real): (d: Direction)
    ensures d == Left <==> yaw < -15.0
    ensures d == Right <==> yaw > 15.0
  {
    if yaw < -YAW_TURN_THRESHOLD then Left else if yaw > YAW_TURN_THRESHOLD then Right else Neutral
  }

  predicate Faces(m: Measure, d: Direction) { m.Some? && Facing(m.value) == d }

  /** The `len` frames before frame `n` all face `d`. */
  predicate Holds(h: seq<Measure>, n: nat, len: nat, d: Direction)
    requires n <= |h|
  {
    len <= n && forall k :: n - len <= k < n ==> Faces(h[k], d)
  }

  /** Frame `n` ends a turn to `d`: a neutral face, right after seven frames turned to `d`. */
  predicate EndsTurn(h: seq<Measure>, n: nat, d: Direction)
    requires n < |h|
  {
    Faces(h[n], Neutral) && Holds(h, n, YAW_DEBOUNCE_FRAMES + 2, d)
  }

  /** In figures: a face within 15 degrees of straight ahead, right after seven frames beyond them on one side. */
  lemma EndsTurnIff(h: seq<Measure>, n: nat, d: Direction)
    requires n < |h| && d != Neutral
    ensures EndsTurn(h, n, d) <==>
              && h[n].Some? && -15.0 <= h[n].value <= 15.0 && n >= 7
              && forall k :: n - 7 <= k < n ==>
                   h[k].Some? && if d == Left then h[k].value < -15.0 else h[k].value > 15.0
  {
    if n >= 7 {
      assert forall k :: n - 7 <= k < n ==> (Faces(h[k], d) <==>
                                             h[k].Some? && if d == Left then h[k].value < -15.0 else h[k].value > 15.0);
    }
  }

  function Turns(h: seq<Measure>, n: nat, d: Direction): nat
    requires n <= |h|
  {
    if n == 0 then 0 else Turns(h, n - 1, d) + (if EndsTurn(h, n - 1, d) then 1 else 0)
  }

  lemma {:induction false} TurnsCount(h: seq<Measure>, n: nat, d: Direction)
    requires n <= |h|
    ensures Turns(h, n, d) == |set i | 0 <= i < n && EndsTurn(h, i, d)|
  {
    hide EndsTurn;
    if n > 0 {
      TurnsCount(h, n - 1, d);
      assert Turns(h, n, d) == Turns(h, n - 1, d) + if EndsTurn(h, n - 1, d) then 1 else 0;
      hide Turns;
      var before := set i | 0 <= i < n - 1 && EndsTurn(h, i, d);
      var after := set i | 0 <= i < n && EndsTurn(h, i, d);
      if EndsTurn(h, n - 1, d) {
        assert after == before + {n - 1};
      } else {
        assert after == before;
      }
    }
  }

  lemma {:induction false} TurnsLocal(h: seq<Measure>, more: seq<Measure>, n: nat, d: Direction)
    requires n <= |h|
    ensures Turns(h + more, n, d) == Turns(h, n, d)
    decreases n
  {
    if n > 0 {
      TurnsLocal(h, more, n - 1, d);
      assert forall k :: 0 <= k < n ==> (h + more)[k] == h[k];
    }
  }

  lemma {:induction false} NoTurnBetween(h: seq<Measure>, m: nat, n: nat, d: Direction)
    requires m <= n <= |h|
    requires forall i :: m <= i < n ==> !EndsTurn(h, i, d)
    ensures Turns(h, n, d) == Turns(h, m, d)
    decreases n
  {
    if m < n {
      NoTurnBetween(h, m, n - 1, d);
    }
  }

  /** A turn takes eight frames of its own. */
  lemma {:induction false} EightFramesPerTurn(h: seq<Measure>, n: nat)
    requires n <= |h|
    ensures 8 * (Turns(h, n, Left) + Turns(h, n, Right)) <= n
    decreases n
  {
    if n > 0 {
      if EndsTurn(h, n - 1, Left) || EndsTurn(h, n - 1, Right) {
        var d := if EndsTurn(h, n - 1, Left) then Left else Right;
        forall i, e | n - 8 <= i < n - 1 && e in {Left, Right}
          ensures !EndsTurn(h, i, e)
        {
          assert Faces(h[i], d);
        }
        NoTurnBetween(h, n - 8, n - 1, Left);
        NoTurnBetween(h, n - 8, n - 1, Right);
        assert Faces(h[n - 2], d);
        EightFramesPerTurn(h, n - 8);
      } else {
        EightFramesPerTurn(h, n - 1);
      }
    }
  }

  /** The last frames are a turn to `d`, `frames` of them after its first; or the last is no turned face. */
  ghost predicate TurningFor(h: seq<Measure>, d: Direction, frames: nat) {
    if d == Neutral then frames == 0 && (h != [] ==> !Faces(h[|h| - 1], Left) && !Faces(h[|h| - 1], Right))
    else
      && Holds(h, |h|, frames + 1, d)
      && (frames + 1 < |h| ==> !Faces(h[|h| - frames - 2], d))
  }

  lemma NextTurning(h: seq<Measure>, m: Measure, d: Direction, frames: nat)
    requires TurningFor(h, d, frames)
    ensures var facing := if m.Some? then Facing(m.value) else Neutral;
            TurningFor(h + [m], facing, if facing == d != Neutral then frames + 1 else 0)
  {
    assert forall k :: 0 <= k < |h| ==> (h + [m])[k] == h[k];
    if h != [] && d != Neutral {
      assert Faces(h[|h| - 1], d);
    }
  }

  lemma NextTurns(h: seq<Measure>, m: Measure, d: Direction, frames: nat, e: Direction)
    requires TurningFor(h, d, frames) && e != Neutral
    ensures var ends := Faces(m, Neutral) && d == e && frames > YAW_DEBOUNCE_FRAMES;
            && EndsTurn(h + [m], |h|, e) == ends
            && Turns(h + [m], |h| + 1, e) == Turns(h, |h|, e) + if ends then 1 else 0
  {
    var n, g := |h|, h + [m];
    assert forall k :: 0 <= k < n ==> g[k] == h[k];
    TurnsLocal(h, [m], n, e);
    assert d == e && frames + 1 < n ==> !Faces(g[n - frames - 2], e);
    assert EndsTurn(g, n, e) ==> Faces(g[n - 1], e);
  }

  class HeadPoseDetector {
    var turning: Direction
    var framesInTurn: nat
    var leftTurnCount: nat
    var rightTurnCount: nat
    ghost var history: seq<Measure>

    ghost predicate Valid()
      reads this
    {
      && TurningFor(history, turning, framesInTurn)
      && leftTurnCount == Turns(history, |history|, Left)
      && rightTurnCount == Turns(history, |history|, Right)
    }

    constructor ()
      ensures Valid() && history == []
    {
      turning, framesInTurn, leftTurnCount, rightTurnCount := Neutral, 0, 0, 0;
      history := [];
    }

    method Update(yaw: Measure) returns (detected: bool, direction: Direction)
      requires Valid()
      modifies this
      ensures Valid() && history == old(history) + [yaw]
      ensures detected == (EndsTurn(history, |history| - 1, Left) || EndsTurn(history, |history| - 1, Right))
      ensures direction == if yaw.Some? then Facing(yaw.value) else Neutral
      ensures leftTurnCount == |set i | 0 <= i < |history| && EndsTurn(history, i, Left)|
      ensures rightTurnCount == |set i | 0 <= i < |history| && EndsTurn(history, i, Right)|
      ensures leftTurnCount == Turns(history, |history|, Left) && rightTurnCount == Turns(history, |history|, Right)
      ensures 8 * (leftTurnCount + rightTurnCount) <= |history|
    {
      NextTurning(history, yaw, turning, framesInTurn);
      NextTurns(history, yaw, turning, framesInTurn, Left);
      NextTurns(history, yaw, turning, framesInTurn, Right);
      history := history + [yaw];
      EightFramesPerTurn(history, |history|);
      TurnsCount(history, |history|, Left);
      TurnsCount(history, |history|, Right);
      hide TurningFor, EndsTurn, Turns;
      detected, direction := false, Neutral;
      if yaw.None? {
        framesInTurn, turning := 0, Neutral;
        return;
      }
      direction := Facing(yaw.value);
      if direction == Neutral {
        if turning != Neutral {
          if framesInTurn > YAW_DEBOUNCE_FRAMES {
            detected := true;
            if turning == Left {
              leftTurnCount := leftTurnCount + 1;
            } else {
              rightTurnCount := rightTurnCount + 1;
            }
          }
        }
        turning, framesInTurn := Neutral, 0;
      } else if turning != direction {
        turning, framesInTurn := direction, 0;
      } else {
        framesInTurn := framesInTurn + 1;
      }
    }

    method Reset()
      modifies this
      ensures Valid() && history == []
    {
      turning, framesInTurn, leftTurnCount, rightTurnCount := Neutral, 0, 0, 0;
      history := [];
    }
  }

  /** What the evaluator asks of the detector for a turn challenge, on the frame just added. */
  predicate TurnCheck(h: seq<Measure>, wanted: Direction)
    requires h != []
  {
    var n := |h| - 1;
    && (EndsTurn(h, n, Left) || EndsTurn(h, n, Right))
    && wanted == (if h[n].Some? then Facing(h[n].value) else Neutral)
  }

  /** The detector reports a completed turn only on a neutral frame: the check holds exactly for no direction
      on a frame that ends a turn to either side, so asking for a direction is never satisfied. */
  lemma TurnCheckNeverPasses(h: seq<Measure>, wanted: Direction)
    requires h != []
    ensures TurnCheck(h, wanted) <==>
              wanted == Neutral && (EndsTurn(h, |h| - 1, Left) || EndsTurn(h, |h| - 1, Right))
  {
  }
}
