/** Sessions whose turn challenges are judged by the real head-pose detector. */
module AuthWithDetectors {
  import opened Wrappers
  import opened Auth
  import opened AuthRuns
  import Detectors

  predicate IsTurn(kind: ChallengeType) { kind != Blink }

  function Wanted(kind: ChallengeType): Detectors.Direction
    requires IsTurn(kind)
  {
    if kind == TurnLeft then Detectors.Left else Detectors.Right
  }

  /** The challenge a scored frame is shown to. */
  function Active(s: Session): Option<Challenge> {
    var (round, k) := if s.inStepUp then (s.stepUps, s.stepUpIndex) else (s.challenges, s.index);
    if k < |round| then Some(round[k]) else None
  }

  /** Every turn challenge shown a frame is answered by the evaluator's check on some detector history. */
  ghost predicate RealTurns(c: Config, s0: Session, reqs: seq<Request>) {
    forall i :: 0 <= i < |reqs| && ScoredAt(c, s0, reqs, i) ==>
      var active := Active(Before(c, s0, reqs, i));
      active.Some? && IsTurn(active.value.kind) ==>
        exists h :: h != [] && reqs[i].frame.scoring.satisfied == Detectors.TurnCheck(h, Wanted(active.value.kind))
  }

  /** Two or three different kinds cannot all be blinks. */
  lemma SomeTurn(cs: seq<Challenge>, now: real) returns (k: nat)
    requires Generated(cs, now)
    ensures k < |cs| && IsTurn(cs[k].kind)
  {
    k := if IsTurn(cs[0].kind) then 0 else 1;
    assert cs[0].kind != cs[1].kind;
  }

  lemma TurnsNeverPass(c: Config, s0: Session, reqs: seq<Request>, k: nat)
    requires Served(c, s0, reqs) && RealTurns(c, s0, reqs)
    requires k < |s0.challenges| && IsTurn(s0.challenges[k].kind)
    ensures !PrimaryPassed(c, s0, reqs, k)
  {
    hide After, Detectors.TurnCheck;
    forall h: seq<Detectors.Measure>, wanted | h != [] && wanted != Detectors.Neutral
      ensures !Detectors.TurnCheck(h, wanted)
    {
      Detectors.TurnCheckNeverPasses(h, wanted);
    }
    forall i | 0 <= i < |reqs|
      ensures !PassesPrimary(c, s0, reqs, i, k)
    {
      ServedPrefix(c, s0, reqs, i);
      SoundInEveryRun(c, s0, reqs[..i]);
      assert SameChallenge(Before(c, s0, reqs, i).challenges[k], s0.challenges[k]);
    }
  }

  lemma RealTurnsPrefix(c: Config, s0: Session, reqs: seq<Request>, n: nat)
    requires RealTurns(c, s0, reqs) && n <= |reqs|
    ensures RealTurns(c, s0, reqs[..n])
  {
    hide After, Scores, Detectors.TurnCheck;
    forall i | 0 <= i < n
      ensures Before(c, s0, reqs[..n], i) == Before(c, s0, reqs, i)
    {
      BeforeInPrefix(c, s0, reqs, n, i);
    }
  }

  lemma StepSetsDecision(c: Config, s: Session, r: Request)
    ensures !r.FinishRequest? ==> Step(c, s, r).decision == s.decision
    ensures r.FinishRequest? ==>
              var verdict := FinishStep(c, s, r.now, r.template, r.extra).1;
              Step(c, s, r).decision == if verdict.None? || verdict == Some(StepUp) then s.decision else verdict
  {
    hide MergeReasons, FinalReasons, Decide, JudgeFrame;
    if r.FrameRequest? && Scores(c, s, r.now, r.frame) {
      var seen := Shown(s, r.frame);
      JudgeLeavesCounts(seen, r.now, r.frame.scoring.satisfied);
    }
  }

  /** With the real detector no production session is ever allowed: the detector and the evaluator
      disagree on when a turn is over, and every session asks for a turn. */
  lemma {:induction false} NeverAllowedInProduction(c: Config, s0: Session, reqs: seq<Request>)
    requires Served(c, s0, reqs) && RealTurns(c, s0, reqs) && !c.relaxed
    ensures After(c, s0, reqs).decision != Some(Allow)
    ensures forall i :: 0 <= i < |reqs| && reqs[i].FinishRequest? ==> VerdictAt(c, s0, reqs, i) != Some(Allow)
  {
    hide Step, FinishStep, Sound, RealTurns, After;
    if reqs != [] {
      var n := |reqs| - 1;
      var past, s := reqs[..n], Before(c, s0, reqs, n);
      ServedPrefix(c, s0, reqs, n);
      RealTurnsPrefix(c, s0, reqs, n);
      NeverAllowedInProduction(c, s0, past);
      forall i | 0 <= i < n && reqs[i].FinishRequest?
        ensures VerdictAt(c, s0, reqs, i) == VerdictAt(c, s0, past, i)
      {
        BeforeInPrefix(c, s0, reqs, n, i);
      }
      if reqs[n].FinishRequest? && VerdictAt(c, s0, reqs, n) == Some(Allow) {
        if s.finished {
          NotAllowedOnceFinished(c, s0, reqs, n);
        } else {
          FirstAllowIsEarned(c, s0, reqs, n);
          var k := SomeTurn(s0.challenges, s0.createdAt);
          TurnsNeverPass(c, s0, past, k);
        }
        assert false;
      }
      StepSetsDecision(c, s, reqs[n]);
      AfterNext(c, s0, reqs, n);
      assert reqs[..n + 1] == reqs;
    } else {
      assert After(c, s0, reqs) == s0 by { EmptyRun(c, s0); }
    }
  }

  lemma EmptyRun(c: Config, s0: Session)
    ensures After(c, s0, []) == s0
  {
  }

  lemma NotAllowedOnceFinished(c: Config, s0: Session, reqs: seq<Request>, n: nat)
    requires Served(c, s0, reqs) && n < |reqs| && reqs[n].FinishRequest?
    requires Before(c, s0, reqs, n).finished && Before(c, s0, reqs, n).decision != Some(Allow)
    ensures VerdictAt(c, s0, reqs, n) != Some(Allow)
  {
    hide Step, FinishStep, After;
    ServedPrefix(c, s0, reqs, n);
    SoundInEveryRun(c, s0, reqs[..n]);
    FinishedStaysFinished(c, Before(c, s0, reqs, n), reqs[n]);
  }

  /** With the real detector no live session has passed its challenges. */
  lemma NeverLively(c: Config, s0: Session, reqs: seq<Request>)
    requires Served(c, s0, reqs) && RealTurns(c, s0, reqs)
    ensures !Lively(After(c, s0, reqs))
  {
    hide After, RealTurns, Sound;
    SoundInEveryRun(c, s0, reqs);
    var k := SomeTurn(s0.challenges, s0.createdAt);
    TurnsNeverPass(c, s0, reqs, k);
    PassedHasWitness(c, s0, reqs, k);
  }

  /** So, with the real detector, a live session is allowed exactly when dev relaxation lets it through. */
  lemma RealDetectorAllowsIff(c: Config, s0: Session, reqs: seq<Request>, i: nat)
    requires Served(c, s0, reqs) && RealTurns(c, s0, reqs)
    requires i < |reqs| && reqs[i].FinishRequest?
    requires var s := Before(c, s0, reqs, i); !s.finished && !s.Expired(reqs[i].now)
    ensures var s := Before(c, s0, reqs, i);
            VerdictAt(c, s0, reqs, i) == Some(Allow) <==>
              c.relaxed && FallbackEmbeddingUsed in s.quality && Matches(c, s, reqs[i].template) && s.risk < c.r2
  {
    hide After, RealTurns, Sound, FinishStep, Lively, Matches;
    ServedPrefix(c, s0, reqs, i);
    RealTurnsPrefix(c, s0, reqs, i);
    SoundInEveryRun(c, s0, reqs[..i]);
    NeverLively(c, s0, reqs[..i]);
    LiveVerdictIff(c, Before(c, s0, reqs, i), reqs[i].now, reqs[i].template, reqs[i].extra);
  }
}
