/** The session object and the two request handlers that update it in place. */
module AuthService {
  import opened Wrappers
  import opened Auth

  class AuthSession {
    var challenges: seq<Challenge>
    var currentChallengeIndex: nat
    const createdAt: real
    const lifetime: real
    var finished: bool
    var decision: Option<Verdict>
    var reasonCodes: seq<Reason>
    var livenessPassed: bool
    var frameCount: nat
    var latestEmbedding: Option<Embedding>
    var latestQualityReasons: seq<Reason>
    var riskScore: real
    var riskReasons: seq<Reason>
    var stepUpCount: nat
    var stepUpChallenges: seq<Challenge>
    var stepUpChallengeIndex: nat
    var inStepUp: bool

    function View(): Session
      reads this
    {
      Session(challenges, currentChallengeIndex, createdAt, lifetime, finished, decision, reasonCodes, livenessPassed,
              frameCount, latestEmbedding, latestQualityReasons, riskScore, riskReasons,
              stepUpCount, stepUpChallenges, stepUpChallengeIndex, inStepUp)
    }

    constructor (generated: seq<Challenge>, now: real, sessionTimeout: real)
      ensures View() == NewSession(generated, now, sessionTimeout)
      ensures challenges == generated && currentChallengeIndex == 0 && createdAt == now && lifetime == sessionTimeout
      ensures !finished && decision == None && reasonCodes == [] && !livenessPassed && frameCount == 0
      ensures latestEmbedding == None && latestQualityReasons == [] && riskScore == 0.0 && riskReasons == []
      ensures !inStepUp && stepUpCount == 0 && stepUpChallenges == [] && stepUpChallengeIndex == 0
    {
      challenges, currentChallengeIndex, createdAt, lifetime := generated, 0, now, sessionTimeout;
      finished, decision, reasonCodes, livenessPassed := false, None, [], false;
      frameCount, latestEmbedding, latestQualityReasons := 0, None, [];
      riskScore, riskReasons := 0.0, [];
      stepUpCount, stepUpChallenges, stepUpChallengeIndex, inStepUp := 0, [], 0, false;
    }

    method MoveToNextChallenge() returns (moved: bool)
      modifies this
      ensures moved == (old(currentChallengeIndex) < |challenges| - 1)
      ensures View() == old(View()).(index := old(currentChallengeIndex) + if moved then 1 else 0)
    {
      moved := currentChallengeIndex < |challenges| - 1;
      if moved {
        currentChallengeIndex := currentChallengeIndex + 1;
      }
    }

    method MoveToNextStepUpChallenge() returns (moved: bool)
      modifies this
      ensures moved == (old(stepUpChallengeIndex) < |stepUpChallenges| - 1)
      ensures View() == old(View()).(stepUpIndex := old(stepUpChallengeIndex) + if moved then 1 else 0)
    {
      moved := stepUpChallengeIndex < |stepUpChallenges| - 1;
      if moved {
        stepUpChallengeIndex := stepUpChallengeIndex + 1;
      }
    }

    method StartStepUp(extra: seq<Challenge>)
      modifies this
      ensures View() == old(View()).(stepUps := extra, stepUpIndex := 0,
                                     stepUpCount := old(stepUpCount) + 1, inStepUp := true)
    {
      stepUpChallenges, stepUpChallengeIndex := extra, 0;
      stepUpCount := stepUpCount + 1;
      inStepUp := true;
    }

    method ClearStepUp()
      modifies this
      ensures View() == old(View()).(stepUps := [], stepUpIndex := 0, inStepUp := false)
    {
      inStepUp := false;
      stepUpChallenges, stepUpChallengeIndex := [], 0;
    }
  }

  /** Appends the codes not there yet, one by one. */
  method AddMissing(known: seq<Reason>, more: seq<Reason>) returns (merged: seq<Reason>)
    ensures AppendsOnce(known, merged)
    ensures forall r :: r in merged <==> r in known || r in more
    ensures merged == MergeReasons(known, more)
  {
    MergedReasons(known, more);
    merged := known;
    for i := 0 to |more|
      invariant MergeReasons(merged, more[i..]) == MergeReasons(known, more)
    {
      if more[i] !in merged {
        merged := merged + [more[i]];
      }
      assert more[i..][1..] == more[i + 1..];
    }
  }

  method AllPassed(round: seq<Challenge>) returns (passed: bool)
    ensures passed == Passed(round)
  {
    passed := true;
    for i := 0 to |round|
      invariant passed == Passed(round[..i])
    {
      passed := passed && round[i].passed;
    }
    assert round[..|round|] == round;
  }

  method AllCompleted(round: seq<Challenge>) returns (completed: bool)
    ensures completed == Completed(round)
  {
    completed := true;
    for i := 0 to |round|
      invariant completed == Completed(round[..i])
    {
      completed := completed && round[i].completed;
    }
    assert round[..|round|] == round;
  }

  // ---------------------------------------------------------------- the liveness evaluator

  /** Shows a frame to the active challenge of one of the two rounds: past its timeout it is completed but not
      passed, whatever the frame shows; in time a satisfying frame completes and passes it, and any other
      leaves it as it was. `completed` asks the caller to move on. */
  method ProcessFrame(session: AuthSession, now: real, satisfied: bool, useStepUp: bool) returns (completed: bool)
    modifies session
    ensures var s := old(session.View());
            var (round, k) := if useStepUp then (s.stepUps, s.stepUpIndex) else (s.challenges, s.index);
            if k >= |round| then !completed && session.View() == s
            else
              var c, late := round[k], now - round[k].startedAt > round[k].timeout;
              var judged := if late then c.(completed := true, passed := false)
                            else if satisfied then c.(completed := true, passed := true) else c;
              var codes := if late then s.reasons + [ChallengeTimeout] else s.reasons;
              && completed == (late || satisfied)
              && session.View() == if useStepUp then s.(stepUps := round[k := judged], reasons := codes)
                                   else s.(challenges := round[k := judged], reasons := codes)
  {
    var round, k := session.challenges, session.currentChallengeIndex;
    if useStepUp {
      round, k := session.stepUpChallenges, session.stepUpChallengeIndex;
    }
    if k >= |round| {
      return false;
    }
    var current := round[k];
    if now - current.startedAt > current.timeout {
      current := current.(completed := true, passed := false);
      session.reasonCodes := session.reasonCodes + [ChallengeTimeout];
      completed := true;
    } else if satisfied {
      current := current.(completed := true, passed := true);
      completed := true;
    } else {
      completed := false;
    }
    if useStepUp {
      session.stepUpChallenges := session.stepUpChallenges[k := current];
    } else {
      session.challenges := session.challenges[k := current];
    }
  }

  method EvaluateSessionResult(session: AuthSession) returns (allPassed: bool)
    modifies session
    ensures session.View() == EvaluateResult(old(session.View()))
    ensures allPassed == (old(session.View().ChallengesDone()) && session.livenessPassed)
    ensures old(session.View().ChallengesDone()) ==>
              && (session.livenessPassed <==>
                    && (forall c :: c in session.challenges ==> c.passed)
                    && (session.inStepUp ==> forall c :: c in session.stepUpChallenges ==> c.passed))
              && session.reasonCodes ==
                   if LivenessFailed in old(session.reasonCodes) then old(session.reasonCodes)
                   else old(session.reasonCodes) + [if session.livenessPassed then LivenessPassed else LivenessFailed]
  {
    var primaryDone := AllCompleted(session.challenges);
    var stepUpsDone := AllCompleted(session.stepUpChallenges);
    if !primaryDone || (session.inStepUp && (session.stepUpChallenges == [] || !stepUpsDone)) {
      return false;
    }
    allPassed := AllPassed(session.challenges);
    if session.inStepUp {
      var stepUpsPassed := AllPassed(session.stepUpChallenges);
      allPassed := allPassed && stepUpsPassed;
    }
    session.livenessPassed := allPassed;
    if LivenessFailed !in session.reasonCodes {
      session.reasonCodes := session.reasonCodes + [if allPassed then LivenessPassed else LivenessFailed];
    }
  }

  /** The challenge part of a frame request. */
  method ShowFrame(session: AuthSession, now: real, satisfied: bool)
    modifies session
    ensures session.View() == JudgeFrame(old(session.View()), now, satisfied)
  {
    hide EvaluateResult;
    if session.inStepUp {
      var completed := ProcessFrame(session, now, satisfied, true);
      if completed {
        var moved := session.MoveToNextStepUpChallenge();
        if !moved {
          var _ := EvaluateSessionResult(session);
        }
      }
    } else {
      var completed := ProcessFrame(session, now, satisfied, false);
      if completed {
        var moved := session.MoveToNextChallenge();
        if !moved {
          var _ := EvaluateSessionResult(session);
        }
      }
    }
  }

  // ---------------------------------------------------------------- the two handlers

  method KeepCapture(session: AuthSession, capture: Capture)
    modifies session
    ensures session.View() == Capturing(old(session.View()), capture)
  {
    match capture {
      case EmbedderMissing =>
      case NotCaptured(reasons) => session.latestQualityReasons := reasons;
      case Captured(embedding, fallback) =>
        session.latestEmbedding := Some(embedding);
        session.latestQualityReasons := if fallback then [FallbackEmbeddingUsed] else [];
    }
  }

  method NoteRisk(session: AuthSession, risk: real, reasons: seq<Reason>)
    modifies session
    ensures session.View() == RaiseRisk(old(session.View()), risk, reasons)
  {
    hide MergeReasons;
    if risk > session.riskScore {
      session.riskScore := risk;
      session.riskReasons := AddMissing(session.riskReasons, reasons);
    }
  }

  /** A frame request, from the session lookup to the reply. */
  method AuthFrame(c: Config, session: AuthSession, now: real, frame: Frame) returns (reply: FrameReply)
    modifies session
    ensures (session.View(), reply) == FrameStep(c, old(session.View()), now, frame)
  {
    hide Capturing, RaiseRisk, JudgeFrame;
    if now - session.createdAt > session.lifetime {
      return SessionGone;
    }
    if session.finished {
      return SessionFinished;
    }
    if frame.Dropped? {
      return FrameDropped;
    }
    session.frameCount := session.frameCount + 1;
    if session.frameCount > c.maxFrames {
      session.finished := true;
      return FrameLimit;
    }
    match frame {
      case Dropped => reply := FrameDropped;
      case ModelMissing => reply := Unavailable;
      case NoFaces =>
        session.latestQualityReasons := [NoFace];
        reply := FrameProcessed;
      case ManyFaces =>
        session.latestQualityReasons := [MultipleFaces];
        reply := FrameProcessed;
      case OneFace(capture, scoring) =>
        KeepCapture(session, capture);
        if capture.EmbedderMissing? {
          return Unavailable;
        }
        match scoring {
          case ScoringFailed => return FrameError;
          case Scored(risk, reasons, satisfied) =>
            NoteRisk(session, risk, reasons);
            ShowFrame(session, now, satisfied);
            reply := FrameProcessed;
        }
    }
  }

  /** The policy's codes first, then each further code that applies, once. */
  method ReasonsToReport(session: AuthSession, d: Decision) returns (codes: seq<Reason>)
    ensures AppendsOnce(d.reasons, codes)
    ensures forall r :: r in codes <==>
              || r in d.reasons
              || (session.inStepUp && r == if d.verdict == Allow then StepUpCompleted else StepUpFailed)
              || (d.verdict == Deny && SimilarityBelowThreshold in d.reasons && r in session.latestQualityReasons)
              || (FallbackEmbeddingUsed in session.latestQualityReasons && r == FallbackEmbeddingUsed)
    ensures codes == FinalReasons(session.View(), d)
  {
    FinalReasonsAre(session.View(), d);
    hide MergeReasons, AppendsOnce;
    codes := d.reasons;
    if session.inStepUp {
      codes := AddMissing(codes, [if d.verdict == Allow then StepUpCompleted else StepUpFailed]);
    }
    if d.verdict == Deny && SimilarityBelowThreshold in codes {
      codes := AddMissing(codes, session.latestQualityReasons);
    }
    if FallbackEmbeddingUsed in session.latestQualityReasons {
      codes := AddMissing(codes, [FallbackEmbeddingUsed]);
    }
  }

  /** The enrolled template, or an exception while it is decrypted or compared. */
  datatype TemplateRead = Read(template: Option<Embedding>) | Failed

  datatype FinishReply = Gone | Answered(verdict: Verdict) | ServerError

  /** A finish request: an expired session, an exception, a step-up round, or the final decision. Where the
      audit entry cannot be written, the decision stands all the same but is not sent. */
  method FinishAuthentication(c: Config, session: AuthSession, now: real, read: TemplateRead,
                              extra: seq<Challenge>, auditWorks: bool)
    returns (reply: FinishReply)
    modifies session
    ensures old(session.View()).Expired(now) ==> reply == Gone && session.View() == old(session.View())
    ensures !old(session.View()).Expired(now) && read.Failed? ==>
              reply == ServerError && session.View() == old(session.View())
    ensures !old(session.View()).Expired(now) && read.Read? ==>
              var (after, verdict) := FinishStep(c, old(session.View()), now, read.template, extra);
              && session.View() == after && verdict.Some?
              && reply == (if verdict == Some(StepUp) || auditWorks then Answered(verdict.value) else ServerError)
              && if verdict == Some(StepUp) then
                   session.View() == old(session.View()).(stepUps := extra, stepUpIndex := 0, inStepUp := true,
                                                          stepUpCount := old(session.stepUpCount) + 1)
                 else
                   session.View() == old(session.View()).(finished := true, decision := verdict, inStepUp := false,
                                                          stepUps := [], stepUpIndex := 0,
                                                          reasons := session.reasonCodes,
                                                          livenessPassed := session.livenessPassed)
  {
    hide Decide, FinalReasons, AppendsOnce;
    if now - session.createdAt > session.lifetime {
      return Gone;
    }
    if read.Failed? {
      return ServerError;
    }
    var template := read.template;
    var d := Decide(c, session.View(), now, template);
    if d.verdict == StepUp {
      session.StartStepUp(extra);
      return Answered(StepUp);
    }
    var codes := ReasonsToReport(session, d);
    session.finished := true;
    session.ClearStepUp();
    session.decision := Some(d.verdict);
    session.reasonCodes := codes;
    session.livenessPassed := d.livenessPassed;
    if !auditWorks {
      return ServerError;
    }
    reply := Answered(d.verdict);
  }
}
