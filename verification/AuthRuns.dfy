/** What every run of requests on one session guarantees. */
module AuthRuns {
  import opened Wrappers
  import opened Auth

  /** A finish fails when the template cannot be read or compared; it then leaves the session alone. */
  datatype Request =
    | FrameRequest(now: real, frame: Frame)
    | FinishRequest(now: real, template: Option<Embedding>, extra: seq<Challenge>)
    | FailedFinish(now: real)

  function Step(c: Config, s: Session, r: Request): Session {
    match r
    case FrameRequest(now, frame) => FrameStep(c, s, now, frame).0
    case FinishRequest(now, template, extra) => FinishStep(c, s, now, template, extra).0
    case FailedFinish(_) => s
  }

  function After(c: Config, s0: Session, reqs: seq<Request>): Session {
    if reqs == [] then s0 else Step(c, After(c, s0, reqs[..|reqs| - 1]), reqs[|reqs| - 1])
  }

  /** The session as request `i` finds it. */
  function Before(c: Config, s0: Session, reqs: seq<Request>, i: nat): Session
    requires i <= |reqs|
  {
    After(c, s0, reqs[..i])
  }

  function VerdictAt(c: Config, s0: Session, reqs: seq<Request>, i: nat): Option<Verdict>
    requires i < |reqs| && reqs[i].FinishRequest?
  {
    FinishStep(c, Before(c, s0, reqs, i), reqs[i].now, reqs[i].template, reqs[i].extra).1
  }

  /** A session started on generated challenges, served in clock order, with generated step-up rounds. */
  ghost predicate Served(c: Config, s0: Session, reqs: seq<Request>) {
    && Generated(s0.challenges, s0.createdAt)
    && s0 == NewSession(s0.challenges, s0.createdAt, s0.lifetime)
    && (forall i :: 0 <= i < |reqs| ==> s0.createdAt <= reqs[i].now)
    && (forall i, j :: 0 <= i <= j < |reqs| ==> reqs[i].now <= reqs[j].now)
    && (forall i :: 0 <= i < |reqs| && reqs[i].FinishRequest? ==> Generated(reqs[i].extra, reqs[i].now))
  }

  lemma ServedPrefix(c: Config, s0: Session, reqs: seq<Request>, n: nat)
    requires Served(c, s0, reqs) && n <= |reqs|
    ensures Served(c, s0, reqs[..n])
  {
  }

  lemma AfterNext(c: Config, s0: Session, reqs: seq<Request>, i: nat)
    requires i < |reqs|
    ensures Before(c, s0, reqs, i + 1) == Step(c, Before(c, s0, reqs, i), reqs[i])
  {
    assert reqs[..i + 1][..i] == reqs[..i];
  }

  lemma BeforeInPrefix(c: Config, s0: Session, reqs: seq<Request>, n: nat, i: nat)
    requires i <= n <= |reqs|
    ensures Before(c, s0, reqs[..n], i) == Before(c, s0, reqs, i)
  {
    assert reqs[..n][..i] == reqs[..i];
  }

  // ---------------------------------------------------------------- the session invariant

  /** A round in progress: everything before the active challenge is completed, nothing after it touched. */
  ghost predicate InProgress(cs: seq<Challenge>, index: nat) {
    && index < |cs|
    && (forall k :: 0 <= k < index ==> cs[k].completed)
    && (forall k :: index < k < |cs| ==> cs[k].Untouched())
    && (forall k :: 0 <= k < |cs| && cs[k].passed ==> cs[k].completed)
  }

  /** Once the last challenge of a round completes, `livenessPassed` says whether all were passed; a
      step-up round is entered only with every primary challenge passed, and only once. */
  ghost predicate Sound(s: Session) {
    && InProgress(s.challenges, s.index)
    && s.risk >= 0.0
    && s.stepUpCount <= 1
    && (!s.finished ==>
          && s.decision == None
          && s.stepUpCount == (if s.inStepUp then 1 else 0)
          && (!s.inStepUp && Completed(s.challenges) ==> s.livenessPassed == Passed(s.challenges))
          && (s.inStepUp ==>
                && Completed(s.challenges) && Passed(s.challenges) && InProgress(s.stepUps, s.stepUpIndex)
                && (Completed(s.stepUps) ==> s.livenessPassed == Passed(s.stepUps))))
    && s.decision != Some(StepUp)
  }

  lemma JudgeKeepsRound(cs: seq<Challenge>, index: nat, now: real, satisfied: bool)
    requires InProgress(cs, index)
    ensures var cs' := cs[index := Judge(cs[index], now, satisfied)];
            && InProgress(cs', index)
            && (Completes(cs[index], now, satisfied) ==>
                  if index < |cs| - 1 then InProgress(cs', index + 1) && !Completed(cs') else Completed(cs'))
            && (!Completes(cs[index], now, satisfied) ==> cs' == cs)
  {
    var cs' := cs[index := Judge(cs[index], now, satisfied)];
    if index < |cs| - 1 {
      assert cs'[index + 1].Untouched();
    }
  }

  lemma JudgeFrameKeepsSound(s: Session, now: real, satisfied: bool)
    requires Sound(s) && !s.finished
    ensures Sound(JudgeFrame(s, now, satisfied)) && !JudgeFrame(s, now, satisfied).finished
  {
    if s.inStepUp {
      JudgeKeepsRound(s.stepUps, s.stepUpIndex, now, satisfied);
    } else {
      JudgeKeepsRound(s.challenges, s.index, now, satisfied);
    }
  }

  lemma FrameKeepsSound(c: Config, s: Session, now: real, f: Frame)
    requires Sound(s)
    ensures Sound(FrameStep(c, s, now, f).0)
  {
    hide JudgeFrame, MergeReasons;
    if Scores(c, s, now, f) {
      JudgeFrameKeepsSound(Shown(s, f), now, f.scoring.satisfied);
    }
  }

  lemma FinishKeepsSound(c: Config, s: Session, now: real, template: Option<Embedding>, extra: seq<Challenge>)
    requires Sound(s) && Generated(extra, now)
    ensures Sound(FinishStep(c, s, now, template, extra).0)
  {
  }

  /** The request leaves the identity of every primary challenge alone. */
  ghost predicate SameSession(a: Session, b: Session) {
    && a.createdAt == b.createdAt && a.lifetime == b.lifetime
    && |a.challenges| == |b.challenges|
    && forall k :: 0 <= k < |a.challenges| ==> SameChallenge(a.challenges[k], b.challenges[k])
  }

  lemma JudgeKeepsSession(s: Session, now: real, satisfied: bool)
    ensures SameSession(JudgeFrame(s, now, satisfied), s)
  {
    hide EvaluateResult, NoteTimeout;
  }

  lemma StepKeepsSession(c: Config, s: Session, r: Request)
    ensures SameSession(Step(c, s, r), s)
  {
    hide MergeReasons, Decide, FinalReasons, JudgeFrame;
    if r.FrameRequest? && Scores(c, s, r.now, r.frame) {
      JudgeKeepsSession(Shown(s, r.frame), r.now, r.frame.scoring.satisfied);
    }
  }

  lemma {:induction false} SoundInEveryRun(c: Config, s0: Session, reqs: seq<Request>)
    requires Served(c, s0, reqs)
    ensures Sound(After(c, s0, reqs)) && SameSession(After(c, s0, reqs), s0)
  {
    hide FrameStep, FinishStep;
    if reqs == [] {
      assert s0.challenges[0].Untouched();
    } else {
      var n := |reqs| - 1;
      ServedPrefix(c, s0, reqs, n);
      SoundInEveryRun(c, s0, reqs[..n]);
      StepKeepsSession(c, After(c, s0, reqs[..n]), reqs[n]);
      match reqs[n]
      case FrameRequest(now, frame) => FrameKeepsSound(c, After(c, s0, reqs[..n]), now, frame);
      case FinishRequest(now, template, extra) => FinishKeepsSound(c, After(c, s0, reqs[..n]), now, template, extra);
      case FailedFinish(_) =>
    }
  }

  predicate SameChallenge(a: Challenge, b: Challenge) {
    a.kind == b.kind && a.startedAt == b.startedAt && a.timeout == b.timeout
  }

  // ---------------------------------------------------------------- what a passed challenge means

  /** Request `i` is a frame whose face was scored and shown to the active challenge. */
  predicate ScoredAt(c: Config, s0: Session, reqs: seq<Request>, i: nat)
    requires i < |reqs|
  {
    reqs[i].FrameRequest? && Scores(c, Before(c, s0, reqs, i), reqs[i].now, reqs[i].frame)
  }

  /** Request `i` satisfied primary challenge `k`, while it was active and before its own timeout. */
  predicate PassesPrimary(c: Config, s0: Session, reqs: seq<Request>, i: nat, k: nat)
    requires i < |reqs|
  {
    var s := Before(c, s0, reqs, i);
    && ScoredAt(c, s0, reqs, i) && reqs[i].frame.scoring.satisfied
    && !s.inStepUp && s.index == k < |s.challenges| && !s.challenges[k].Expired(reqs[i].now)
  }

  /** Request `i` satisfied challenge `k` of the step-up round in the same way. */
  predicate PassesStepUp(c: Config, s0: Session, reqs: seq<Request>, i: nat, k: nat)
    requires i < |reqs|
  {
    var s := Before(c, s0, reqs, i);
    && ScoredAt(c, s0, reqs, i) && reqs[i].frame.scoring.satisfied
    && s.inStepUp && s.stepUpIndex == k < |s.stepUps| && !s.stepUps[k].Expired(reqs[i].now)
  }

  ghost predicate PrimaryPassed(c: Config, s0: Session, reqs: seq<Request>, k: nat) {
    exists i :: 0 <= i < |reqs| && PassesPrimary(c, s0, reqs, i, k)
  }

  ghost predicate StepUpPassed(c: Config, s0: Session, reqs: seq<Request>, k: nat) {
    exists i :: 0 <= i < |reqs| && PassesStepUp(c, s0, reqs, i, k)
  }

  lemma PassedGrows(c: Config, s0: Session, reqs: seq<Request>, n: nat, k: nat)
    requires n <= |reqs|
    ensures PrimaryPassed(c, s0, reqs[..n], k) ==> PrimaryPassed(c, s0, reqs, k)
    ensures StepUpPassed(c, s0, reqs[..n], k) ==> StepUpPassed(c, s0, reqs, k)
  {
    hide Scores, After;
    if i :| 0 <= i < n && PassesPrimary(c, s0, reqs[..n], i, k) {
      BeforeInPrefix(c, s0, reqs, n, i);
      assert PassesPrimary(c, s0, reqs, i, k);
    }
    if i :| 0 <= i < n && PassesStepUp(c, s0, reqs[..n], i, k) {
      BeforeInPrefix(c, s0, reqs, n, i);
      assert PassesStepUp(c, s0, reqs, i, k);
    }
  }

  lemma JudgePassesOnlyActive(s: Session, now: real, satisfied: bool, k: nat)
    ensures var s' := JudgeFrame(s, now, satisfied);
            && (k < |s.challenges| && s'.challenges[k].passed && !s.challenges[k].passed ==>
                  !s.inStepUp && s.index == k && satisfied && !s.challenges[k].Expired(now))
            && s'.inStepUp == s.inStepUp && |s'.stepUps| == |s.stepUps| && |s'.challenges| == |s.challenges|
            && (k < |s.stepUps| && s'.stepUps[k].passed && !s.stepUps[k].passed ==>
                  s.inStepUp && s.stepUpIndex == k && satisfied && !s.stepUps[k].Expired(now))
  {
    hide EvaluateResult, NoteTimeout;
  }

  /** A finish passes nothing: a step-up round it opens is untouched. */
  lemma FinishPassesNothing(c: Config, s: Session, now: real, template: Option<Embedding>, extra: seq<Challenge>,
                            k: nat)
    requires Generated(extra, now)
    ensures var s' := FinishStep(c, s, now, template, extra).0;
            && s'.challenges == s.challenges
            && (s'.inStepUp && k < |s'.stepUps| && s'.stepUps[k].passed ==> s.inStepUp && s'.stepUps == s.stepUps)
  {
    hide Decide, FinalReasons;
  }

  /** One request passes a challenge only by being a scored frame that satisfies the active one in time. */
  lemma StepPassesOnlyActive(c: Config, s: Session, r: Request, k: nat)
    requires Sound(s) && (r.FinishRequest? ==> Generated(r.extra, r.now))
    ensures var s' := Step(c, s, r);
            var frame := r.FrameRequest? && Scores(c, s, r.now, r.frame) && r.frame.scoring.satisfied;
            && |s'.challenges| == |s.challenges|
            && (k < |s.challenges| && s'.challenges[k].passed && !s.challenges[k].passed ==>
                  frame && !s.inStepUp && s.index == k && !s.challenges[k].Expired(r.now))
            && (s'.inStepUp && k < |s'.stepUps| && s'.stepUps[k].passed
                && !(s.inStepUp && k < |s.stepUps| && s.stepUps[k].passed) ==>
                  frame && s.inStepUp && s.stepUpIndex == k < |s.stepUps| && !s.stepUps[k].Expired(r.now))
  {
    hide MergeReasons, JudgeFrame, Sound;
    if r.FinishRequest? {
      FinishPassesNothing(c, s, r.now, r.template, r.extra, k);
      hide FinishStep;
    } else if r.FrameRequest? && Scores(c, s, r.now, r.frame) {
      var seen := Shown(s, r.frame);
      JudgePassesOnlyActive(seen, r.now, r.frame.scoring.satisfied, k);
    }
  }

  /** A challenge marked passed was satisfied by some earlier frame, while active and in time. */
  lemma {:induction false} PassedHasWitness(c: Config, s0: Session, reqs: seq<Request>, k: nat)
    requires Served(c, s0, reqs)
    ensures var s := After(c, s0, reqs);
            && (k < |s.challenges| && s.challenges[k].passed ==> PrimaryPassed(c, s0, reqs, k))
            && (s.inStepUp && k < |s.stepUps| && s.stepUps[k].passed ==> StepUpPassed(c, s0, reqs, k))
  {
    hide Step, Scores;
    if reqs != [] {
      var n := |reqs| - 1;
      var s, r := After(c, s0, reqs[..n]), reqs[n];
      ServedPrefix(c, s0, reqs, n);
      PassedHasWitness(c, s0, reqs[..n], k);
      SoundInEveryRun(c, s0, reqs[..n]);
      StepPassesOnlyActive(c, s, r, k);
      PassedGrows(c, s0, reqs, n, k);
      assert Before(c, s0, reqs, n) == s;
      var s' := After(c, s0, reqs);
      if k < |s'.challenges| && s'.challenges[k].passed && !s.challenges[k].passed {
        assert PassesPrimary(c, s0, reqs, n, k);
      }
      if s'.inStepUp && k < |s'.stepUps| && s'.stepUps[k].passed
         && !(s.inStepUp && k < |s.stepUps| && s.stepUps[k].passed) {
        assert PassesStepUp(c, s0, reqs, n, k);
      }
    }
  }

  // ---------------------------------------------------------------- risk

  lemma JudgeLeavesCounts(s: Session, now: real, satisfied: bool)
    ensures var s' := JudgeFrame(s, now, satisfied);
            && s'.frameCount == s.frameCount && s'.stepUpCount == s.stepUpCount && s'.risk == s.risk
            && s'.finished == s.finished && s'.decision == s.decision && s'.embedding == s.embedding
            && s'.riskReasons == s.riskReasons && s'.quality == s.quality && s'.inStepUp == s.inStepUp
  {
    hide EvaluateResult, NoteTimeout, Judge, Completes;
  }

  lemma StepRaisesRisk(c: Config, s: Session, r: Request)
    ensures Step(c, s, r).risk >= s.risk
    ensures r.FrameRequest? && Scores(c, s, r.now, r.frame) ==> Step(c, s, r).risk >= r.frame.scoring.risk
    ensures Step(c, s, r).risk != s.risk ==>
              r.FrameRequest? && Scores(c, s, r.now, r.frame) && Step(c, s, r).risk == r.frame.scoring.risk
  {
    hide MergeReasons, Decide, FinalReasons, JudgeFrame;
    if r.FrameRequest? && Scores(c, s, r.now, r.frame) {
      var seen := Shown(s, r.frame);
      JudgeLeavesCounts(seen, r.now, r.frame.scoring.satisfied);
    }
  }

  /** Session risk never decreases. */
  lemma {:induction false} RiskNeverFalls(c: Config, s0: Session, reqs: seq<Request>, i: nat)
    requires i <= |reqs|
    ensures Before(c, s0, reqs, i).risk <= After(c, s0, reqs).risk
  {
    hide Step;
    if i < |reqs| {
      var n := |reqs| - 1;
      RiskNeverFalls(c, s0, reqs[..n], i);
      BeforeInPrefix(c, s0, reqs, n, i);
      StepRaisesRisk(c, After(c, s0, reqs[..n]), reqs[n]);
    } else {
      assert reqs[..i] == reqs;
    }
  }

  /** It is at least the score of every scored frame ... */
  lemma EveryScoreCounts(c: Config, s0: Session, reqs: seq<Request>, j: nat)
    requires j < |reqs| && ScoredAt(c, s0, reqs, j)
    ensures reqs[j].frame.scoring.risk <= After(c, s0, reqs).risk
  {
    hide Step, Scores;
    AfterNext(c, s0, reqs, j);
    StepRaisesRisk(c, Before(c, s0, reqs, j), reqs[j]);
    RiskNeverFalls(c, s0, reqs, j + 1);
  }

  /** ... and no more than the largest of them. */
  lemma {:induction false} RiskIsSomeScore(c: Config, s0: Session, reqs: seq<Request>)
    requires s0.risk == 0.0
    ensures After(c, s0, reqs).risk == 0.0 ||
            exists j :: 0 <= j < |reqs| && ScoredAt(c, s0, reqs, j)
              && reqs[j].frame.scoring.risk == After(c, s0, reqs).risk
  {
    hide Step;
    if reqs != [] {
      var n := |reqs| - 1;
      var s := After(c, s0, reqs[..n]);
      RiskIsSomeScore(c, s0, reqs[..n]);
      StepRaisesRisk(c, s, reqs[n]);
      assert Before(c, s0, reqs, n) == s;
      if After(c, s0, reqs).risk != s.risk {
        assert ScoredAt(c, s0, reqs, n);
      } else if s.risk != 0.0 {
        var j :| 0 <= j < n && ScoredAt(c, s0, reqs[..n], j) && reqs[..n][j].frame.scoring.risk == s.risk;
        BeforeInPrefix(c, s0, reqs, n, j);
        assert ScoredAt(c, s0, reqs, j);
      }
    }
  }

  // ---------------------------------------------------------------- what an allow means

  /** A live finish that turns a session not yet finished into an allowed one, in any mode: the policy
      itself allowed it, or, in dev mode, dev relaxation did. Either way the face matched and the risk
      stayed below the upper threshold. */
  lemma AllowChecksFaceAndRisk(c: Config, s: Session, now: real, template: Option<Embedding>, extra: seq<Challenge>)
    requires !s.finished && FinishStep(c, s, now, template, extra).1 == Some(Allow)
    ensures template.Some? && s.embedding.Some? && c.similarity(s.embedding.value, template.value) >= c.threshold
    ensures s.risk < c.r2
    ensures !c.relaxed ==>
              && s.ChallengesDone() && s.livenessPassed
              && (s.risk < c.r1 || s.inStepUp)
  {
    hide FinalReasons, Spoofs;
  }

  /** Does the latest embedding match an enrolled template? */
  predicate Matches(c: Config, s: Session, template: Option<Embedding>) {
    template.Some? && s.embedding.Some? && c.similarity(s.embedding.value, template.value) >= c.threshold
  }

  /** Was every challenge asked for passed? */
  predicate Lively(s: Session) {
    Passed(s.challenges) && (s.inStepUp ==> Passed(s.stepUps))
  }

  lemma LivelyIffMarked(s: Session)
    requires Sound(s) && !s.finished
    ensures Lively(s) <==> s.ChallengesDone() && s.livenessPassed
  {
  }

  /** Where the round is not passed, does dev relaxation step in? */
  predicate Relaxes(c: Config, s: Session) {
    !Lively(s) && c.relaxed && FallbackEmbeddingUsed in s.quality
  }

  lemma LivelyDecides(c: Config, s: Session, now: real, template: Option<Embedding>)
    requires !s.finished && !s.Expired(now) && s.ChallengesDone() && s.livenessPassed
    ensures var verdict := Decide(c, s, now, template).verdict;
            var ready := Matches(c, s, template) && s.risk < c.r2;
            && (verdict == Allow <==> ready && (s.inStepUp || s.risk < c.r1))
            && (verdict == StepUp <==> ready && !s.inStepUp && s.risk >= c.r1 && s.stepUpCount < c.maxStepUps)
  {
    hide Spoofs, Session.ChallengesDone;
    var spoofs := Spoofs(s.riskReasons);
    assert ([RiskHigh] + spoofs)[0] == RiskHigh && ([MaxStepUpsReached] + spoofs)[0] == MaxStepUpsReached;
    assert RiskHigh in [RiskHigh] + spoofs && MaxStepUpsReached in [MaxStepUpsReached] + spoofs;
  }

  lemma OtherwiseDecides(c: Config, s: Session, now: real, template: Option<Embedding>)
    requires !s.finished && !s.Expired(now) && !(s.ChallengesDone() && s.livenessPassed)
    requires Relaxed(s).ChallengesDone()
    ensures var verdict := Decide(c, s, now, template).verdict;
            && (verdict == Allow <==>
                  Matches(c, s, template) && s.risk < c.r2 && c.relaxed && FallbackEmbeddingUsed in s.quality)
            && verdict != StepUp
  {
    hide Spoofs, Session.ChallengesDone, PassedAll;
  }

  lemma RelaxedIsDone(s: Session)
    requires Sound(s) && !s.finished
    ensures Relaxed(s).ChallengesDone()
  {
  }

  /** The verdict on a live session, in full and in every mode. It is allowed exactly when the face matches
      with a risk below R2 and either every challenge asked for was passed and, unless in a step-up round,
      the risk is below R1, or dev relaxation stands in for the challenges; a step-up is asked for, once,
      between R1 and R2; all the rest is denied. */
  lemma LiveVerdictIff(c: Config, s: Session, now: real, template: Option<Embedding>, extra: seq<Challenge>)
    requires Sound(s) && !s.finished && !s.Expired(now)
    ensures var verdict := FinishStep(c, s, now, template, extra).1;
            var ready := Matches(c, s, template) && s.risk < c.r2;
            && (verdict == Some(Allow) <==> ready && ((Lively(s) && (s.inStepUp || s.risk < c.r1)) || Relaxes(c, s)))
            && (verdict == Some(StepUp) <==> ready && Lively(s) && !s.inStepUp && s.risk >= c.r1 && c.maxStepUps > 0)
            && verdict.Some?
  {
    LivelyIffMarked(s);
    if s.ChallengesDone() && s.livenessPassed {
      LivelyDecides(c, s, now, template);
    } else {
      RelaxedIsDone(s);
      OtherwiseDecides(c, s, now, template);
    }
    hide Decide, FinalReasons, Lively, Session.ChallengesDone;
  }

  /** What a decision on a live session reports, in every mode: the first gate that it failed, with the spoof
      codes where the risk decided. A face that matches while dev relaxation may stand in for the challenges
      is past the challenge gate. */
  lemma DecisionIsExplained(c: Config, s: Session, now: real, template: Option<Embedding>)
    requires Sound(s) && !s.finished && !s.Expired(now)
    ensures var d, spoofs := Decide(c, s, now, template), Spoofs(s.riskReasons);
            && (d.verdict == Allow ==> d.reasons == [LivenessPassed] && d.livenessPassed)
            && (d.verdict == StepUp ==> d.reasons == [RiskStepUp] + spoofs && d.livenessPassed)
            && (d.verdict == Deny ==>
                  if template.None? then d.reasons == [NotEnrolled] && d.livenessPassed == s.livenessPassed
                  else if !Lively(s) && !(Relaxes(c, s) && Matches(c, s, template)) then
                    d.reasons == [LivenessFailed] && !d.livenessPassed
                  else if !Matches(c, s, template) then d.reasons == [SimilarityBelowThreshold] && d.livenessPassed
                  else if s.risk >= c.r2 then d.reasons == [RiskHigh] + spoofs && d.livenessPassed
                  else d.reasons == [MaxStepUpsReached] + spoofs && !d.livenessPassed)
  {
    LivelyIffMarked(s);
    RelaxedIsDone(s);
    hide Spoofs, Session.ChallengesDone, PassedAll, Lively, Sound;
    var spoofs := Spoofs(s.riskReasons);
    assert ([RiskHigh] + spoofs)[0] == RiskHigh && ([MaxStepUpsReached] + spoofs)[0] == MaxStepUpsReached;
    assert RiskHigh in [RiskHigh] + spoofs && MaxStepUpsReached in [MaxStepUpsReached] + spoofs;
  }

  /** What a final verdict leaves behind: the policy's codes first, and after them, each once, the outcome of a
      step-up round, the frame's codes where the face did not match, and that a fallback embedding was used. */
  lemma FinishReports(c: Config, s: Session, now: real, template: Option<Embedding>, extra: seq<Challenge>)
    requires !s.Expired(now) && Decide(c, s, now, template).verdict != StepUp
    ensures var d, s' := Decide(c, s, now, template), FinishStep(c, s, now, template, extra).0;
            && s'.livenessPassed == d.livenessPassed && s'.decision == Some(d.verdict)
            && AppendsOnce(d.reasons, s'.reasons)
            && forall r :: r in s'.reasons <==>
                 || r in d.reasons
                 || (s.inStepUp && r == if d.verdict == Allow then StepUpCompleted else StepUpFailed)
                 || (d.verdict == Deny && SimilarityBelowThreshold in d.reasons && r in s.quality)
                 || (FallbackEmbeddingUsed in s.quality && r == FallbackEmbeddingUsed)
  {
    FinalReasonsAre(s, Decide(c, s, now, template));
    hide Decide, FinalReasons, AppendsOnce;
  }

  /** No false allow. In production, when a finish request first allows a session, a template was
      enrolled and the latest embedding matched it; every primary challenge had been satisfied by a
      frame while active and before its own timeout; every scored frame's risk was below R2; and the
      largest risk was below R1, or a step-up round had been opened and every one of its challenges
      satisfied in the same way. */
  lemma FirstAllowIsEarned(c: Config, s0: Session, reqs: seq<Request>, i: nat)
    requires Served(c, s0, reqs) && !c.relaxed
    requires i < |reqs| && reqs[i].FinishRequest? && VerdictAt(c, s0, reqs, i) == Some(Allow)
    requires !Before(c, s0, reqs, i).finished
    ensures var s, past := Before(c, s0, reqs, i), reqs[..i];
            && reqs[i].template.Some? && s.embedding.Some?
            && c.similarity(s.embedding.value, reqs[i].template.value) >= c.threshold
            && (forall k :: 0 <= k < |s0.challenges| ==> PrimaryPassed(c, s0, past, k))
            && (forall j :: 0 <= j < i && ScoredAt(c, s0, reqs, j) ==> reqs[j].frame.scoring.risk < c.r2)
            && (|| (forall j :: 0 <= j < i && ScoredAt(c, s0, reqs, j) ==> reqs[j].frame.scoring.risk < c.r1)
                || (s.inStepUp && s.stepUps != [] && forall k :: 0 <= k < |s.stepUps| ==> StepUpPassed(c, s0, past, k)))
  {
    hide FinishStep, After;
    var s, past := Before(c, s0, reqs, i), reqs[..i];
    ServedPrefix(c, s0, reqs, i);
    SoundInEveryRun(c, s0, past);
    AllowChecksFaceAndRisk(c, s, reqs[i].now, reqs[i].template, reqs[i].extra);
    forall k | 0 <= k < |s0.challenges|
      ensures PrimaryPassed(c, s0, past, k)
    {
      PassedHasWitness(c, s0, past, k);
    }
    forall k | s.inStepUp && 0 <= k < |s.stepUps|
      ensures StepUpPassed(c, s0, past, k)
    {
      PassedHasWitness(c, s0, past, k);
    }
    forall j | 0 <= j < i && ScoredAt(c, s0, reqs, j)
      ensures reqs[j].frame.scoring.risk <= s.risk
    {
      BeforeInPrefix(c, s0, reqs, i, j);
      EveryScoreCounts(c, s0, past, j);
    }
  }

  /** In every mode, dev relaxation included, a first allow means a matching face and risks below R2. */
  lemma FirstAllowAlwaysMatches(c: Config, s0: Session, reqs: seq<Request>, i: nat)
    requires Served(c, s0, reqs)
    requires i < |reqs| && reqs[i].FinishRequest? && VerdictAt(c, s0, reqs, i) == Some(Allow)
    requires !Before(c, s0, reqs, i).finished
    ensures var s := Before(c, s0, reqs, i);
            && reqs[i].template.Some? && s.embedding.Some?
            && c.similarity(s.embedding.value, reqs[i].template.value) >= c.threshold
            && (forall j :: 0 <= j < i && ScoredAt(c, s0, reqs, j) ==> reqs[j].frame.scoring.risk < c.r2)
  {
    hide FinishStep, After;
    var s := Before(c, s0, reqs, i);
    AllowChecksFaceAndRisk(c, s, reqs[i].now, reqs[i].template, reqs[i].extra);
    forall j | 0 <= j < i && ScoredAt(c, s0, reqs, j)
      ensures reqs[j].frame.scoring.risk <= s.risk
    {
      BeforeInPrefix(c, s0, reqs, i, j);
      EveryScoreCounts(c, s0, reqs[..i], j);
    }
  }

  // ---------------------------------------------------------------- where the matched embedding comes from

  /** Request `i` is a frame that stores the embedding of its face; scoring comes after that, and may fail. */
  predicate CapturedAt(c: Config, s0: Session, reqs: seq<Request>, i: nat)
    requires i < |reqs|
  {
    reqs[i].FrameRequest? && Captures(c, Before(c, s0, reqs, i), reqs[i].now, reqs[i].frame)
  }

  predicate Captures(c: Config, s: Session, now: real, f: Frame) {
    && !s.Expired(now) && !s.finished && s.frameCount + 1 <= c.maxFrames
    && f.OneFace? && f.capture.Captured?
  }

  /** One request changes the embedding only by capturing one. */
  lemma StepCaptures(c: Config, s: Session, r: Request)
    ensures Step(c, s, r).embedding ==
            if r.FrameRequest? && Captures(c, s, r.now, r.frame) then Some(r.frame.capture.embedding) else s.embedding
  {
    hide MergeReasons, Decide, FinalReasons, JudgeFrame;
    if r.FrameRequest? && Scores(c, s, r.now, r.frame) {
      JudgeLeavesCounts(Shown(s, r.frame), r.now, r.frame.scoring.satisfied);
    }
  }

  /** Request `i` stored the embedding, and none since then did. */
  ghost predicate LastCapture(c: Config, s0: Session, reqs: seq<Request>, i: nat) {
    && i < |reqs| && CapturedAt(c, s0, reqs, i)
    && forall j :: i < j < |reqs| ==> !CapturedAt(c, s0, reqs, j)
  }

  lemma CapturedInPrefix(c: Config, s0: Session, reqs: seq<Request>, n: nat, i: nat)
    requires i < n <= |reqs|
    ensures CapturedAt(c, s0, reqs[..n], i) == CapturedAt(c, s0, reqs, i)
  {
    BeforeInPrefix(c, s0, reqs, n, i);
  }

  /** The embedding of a session is that of its last capturing frame. */
  lemma {:induction false} EmbeddingIsLastCapture(c: Config, s0: Session, reqs: seq<Request>) returns (i: nat)
    requires s0.embedding == None && After(c, s0, reqs).embedding.Some?
    ensures LastCapture(c, s0, reqs, i) && After(c, s0, reqs).embedding == Some(reqs[i].frame.capture.embedding)
    decreases |reqs|
  {
    hide Step;
    var n := |reqs| - 1;
    var past := reqs[..n];
    StepCaptures(c, After(c, s0, past), reqs[n]);
    assert Before(c, s0, reqs, n) == After(c, s0, past);
    if CapturedAt(c, s0, reqs, n) {
      i := n;
    } else {
      i := EmbeddingIsLastCapture(c, s0, past);
      CapturedInPrefix(c, s0, reqs, n, i);
      forall j | i < j < |reqs|
        ensures !CapturedAt(c, s0, reqs, j)
      {
        if j < n {
          CapturedInPrefix(c, s0, reqs, n, j);
        }
      }
    }
  }

  /** A capturing frame is scored exactly if its scoring did not fail; otherwise it leaves the risk alone. */
  lemma CaptureIsScoredIff(c: Config, s0: Session, reqs: seq<Request>, i: nat)
    requires i < |reqs| && CapturedAt(c, s0, reqs, i)
    ensures ScoredAt(c, s0, reqs, i) <==> reqs[i].frame.scoring.Scored?
    ensures reqs[i].frame.scoring.ScoringFailed? ==> Before(c, s0, reqs, i + 1).risk == Before(c, s0, reqs, i).risk
  {
    AfterNext(c, s0, reqs, i);
    StepRaisesRisk(c, Before(c, s0, reqs, i), reqs[i]);
    hide Step, After;
  }

  /** In every mode, the embedding that a first allow matched is that of the last capturing frame. That
      frame's own risk was below R2 if it was scored; if its scoring failed, it has none, and the embedding
      counts all the same. */
  lemma FirstAllowMatchesLastCapture(c: Config, s0: Session, reqs: seq<Request>, i: nat) returns (at: nat)
    requires Served(c, s0, reqs)
    requires i < |reqs| && reqs[i].FinishRequest? && VerdictAt(c, s0, reqs, i) == Some(Allow)
    requires !Before(c, s0, reqs, i).finished
    ensures LastCapture(c, s0, reqs[..i], at) && reqs[i].template.Some?
    ensures c.similarity(reqs[at].frame.capture.embedding, reqs[i].template.value) >= c.threshold
    ensures if reqs[at].frame.scoring.Scored? then reqs[at].frame.scoring.risk < c.r2
            else Before(c, s0, reqs, at + 1).risk == Before(c, s0, reqs, at).risk
  {
    FirstAllowAlwaysMatches(c, s0, reqs, i);
    at := EmbeddingIsLastCapture(c, s0, reqs[..i]);
    CapturedInPrefix(c, s0, reqs, i, at);
    CaptureIsScoredIff(c, s0, reqs, at);
    hide After, Scores;
  }

  /** A frame whose scoring fails does replace the embedding, whatever it shows. */
  lemma UnscoredFrameReplacesEmbedding(c: Config, s: Session, now: real, e: Embedding)
    requires !s.Expired(now) && !s.finished && s.frameCount < c.maxFrames
    ensures var s' := FrameStep(c, s, now, OneFace(Captured(e, false), ScoringFailed)).0;
            s'.embedding == Some(e) && s'.risk == s.risk && s'.livenessPassed == s.livenessPassed && !s'.finished
  {
  }

  // ---------------------------------------------------------------- what a frame does

  /** The reply to a frame request: refused for an expired or finished session, dropped, over the budget,
      without a model, failed in scoring, or processed. */
  lemma FrameReplyIs(c: Config, s: Session, now: real, f: Frame)
    ensures FrameStep(c, s, now, f).1 ==
              if now - s.createdAt > s.lifetime then SessionGone
              else if s.finished then SessionFinished
              else if f.Dropped? then FrameDropped
              else if s.frameCount >= c.maxFrames then FrameLimit
              else if f.ModelMissing? || (f.OneFace? && f.capture.EmbedderMissing?) then Unavailable
              else if f.OneFace? && f.scoring.ScoringFailed? then FrameError
              else FrameProcessed
  {
    hide Capturing, RaiseRisk, JudgeFrame;
  }

  /** A frame of a live session is counted unless it was dropped; beyond the budget it ends the session; and it
      leaves everything to do with the decision to the finish. */
  lemma FrameIsCounted(c: Config, s: Session, now: real, f: Frame)
    ensures var s', reply := FrameStep(c, s, now, f).0, FrameStep(c, s, now, f).1;
            && s'.frameCount == s.frameCount + (if reply in {SessionGone, SessionFinished, FrameDropped} then 0 else 1)
            && s'.finished == (s.finished || reply == FrameLimit)
            && s'.decision == s.decision && s'.stepUpCount == s.stepUpCount && s'.inStepUp == s.inStepUp
            && (!Scores(c, s, now, f) ==>
                  s'.challenges == s.challenges && s'.stepUps == s.stepUps && s'.livenessPassed == s.livenessPassed)
  {
    hide JudgeFrame, MergeReasons;
    if Scores(c, s, now, f) {
      JudgeLeavesCounts(Shown(s, f), now, f.scoring.satisfied);
    }
  }

  /** A scored frame with a risk above the session's becomes its risk, and adds the codes not there yet after
      those that are; no other frame touches either. */
  lemma FrameRaisesRisk(c: Config, s: Session, now: real, f: Frame)
    ensures var s' := FrameStep(c, s, now, f).0;
            if Scores(c, s, now, f) && f.scoring.risk > s.risk then
              && s'.risk == f.scoring.risk && AppendsOnce(s.riskReasons, s'.riskReasons)
              && forall r :: r in s'.riskReasons <==> r in s.riskReasons || r in f.scoring.reasons
            else s'.risk == s.risk && s'.riskReasons == s.riskReasons
  {
    hide JudgeFrame, MergeReasons, AppendsOnce;
    if Scores(c, s, now, f) {
      MergedReasons(s.riskReasons, f.scoring.reasons);
      JudgeLeavesCounts(Shown(s, f), now, f.scoring.satisfied);
    }
  }

  // ---------------------------------------------------------------- where the quality codes come from

  /** The frame replaces the quality codes: it shows no face, or several, or one that reached the embedder. */
  predicate Grades(c: Config, s: Session, now: real, f: Frame) {
    && !s.Expired(now) && !s.finished && s.frameCount + 1 <= c.maxFrames
    && (f.NoFaces? || f.ManyFaces? || (f.OneFace? && !f.capture.EmbedderMissing?))
  }

  /** A captured face has no codes, except for a fallback embedding; one not captured has those given. */
  predicate GradedAs(f: Frame, codes: seq<Reason>) {
    match f
    case NoFaces => codes == [NoFace]
    case ManyFaces => codes == [MultipleFaces]
    case OneFace(Captured(_, fallback), _) => codes == if fallback then [FallbackEmbeddingUsed] else []
    case OneFace(NotCaptured(reasons), _) => codes == reasons
    case _ => false
  }

  lemma StepGrades(c: Config, s: Session, r: Request)
    ensures var codes := Step(c, s, r).quality;
            if r.FrameRequest? && Grades(c, s, r.now, r.frame) then GradedAs(r.frame, codes) else codes == s.quality
  {
    hide MergeReasons, Decide, FinalReasons, JudgeFrame;
    if r.FrameRequest? && Scores(c, s, r.now, r.frame) {
      JudgeLeavesCounts(Shown(s, r.frame), r.now, r.frame.scoring.satisfied);
    }
  }

  predicate GradedAt(c: Config, s0: Session, reqs: seq<Request>, i: nat)
    requires i < |reqs|
  {
    reqs[i].FrameRequest? && Grades(c, Before(c, s0, reqs, i), reqs[i].now, reqs[i].frame)
  }

  ghost predicate LastGraded(c: Config, s0: Session, reqs: seq<Request>, i: nat) {
    && i < |reqs| && GradedAt(c, s0, reqs, i)
    && forall j :: i < j < |reqs| ==> !GradedAt(c, s0, reqs, j)
  }

  lemma GradedInPrefix(c: Config, s0: Session, reqs: seq<Request>, n: nat, i: nat)
    requires i < n <= |reqs|
    ensures GradedAt(c, s0, reqs[..n], i) == GradedAt(c, s0, reqs, i)
  {
    BeforeInPrefix(c, s0, reqs, n, i);
  }

  /** The quality codes, which dev relaxation and a denial for similarity read, are those of the last frame
      that replaced them, whatever it was. */
  lemma {:induction false} QualityIsLastGraded(c: Config, s0: Session, reqs: seq<Request>, k: nat) returns (i: nat)
    requires k < |reqs| && GradedAt(c, s0, reqs, k)
    ensures LastGraded(c, s0, reqs, i) && GradedAs(reqs[i].frame, After(c, s0, reqs).quality)
    decreases |reqs|
  {
    hide Step, GradedAs;
    var n := |reqs| - 1;
    var past := reqs[..n];
    StepGrades(c, After(c, s0, past), reqs[n]);
    assert Before(c, s0, reqs, n) == After(c, s0, past);
    if GradedAt(c, s0, reqs, n) {
      i := n;
    } else {
      GradedInPrefix(c, s0, reqs, n, k);
      i := QualityIsLastGraded(c, s0, past, k);
      GradedInPrefix(c, s0, reqs, n, i);
      forall j | i < j < |reqs|
        ensures !GradedAt(c, s0, reqs, j)
      {
        if j < n {
          GradedInPrefix(c, s0, reqs, n, j);
        }
      }
    }
  }

  // ---------------------------------------------------------------- finality

  lemma FinishedDecides(c: Config, s: Session, now: real, template: Option<Embedding>)
    requires s.finished && !s.Expired(now)
    ensures Decide(c, s, now, template).verdict == if s.decision == Some(Allow) then Allow else Deny
  {
    hide Similarity, Spoofs;
  }

  /** A finished session stays finished with the decision it has; a finish repeats it, as a denial
      where the frame budget ended the session before any decision. */
  lemma FinishedStaysFinished(c: Config, s: Session, r: Request)
    requires s.finished && s.decision != Some(StepUp)
    ensures var s' := Step(c, s, r);
            && s'.finished && s'.decision != Some(StepUp) && s'.stepUpCount == s.stepUpCount
            && (s.decision.Some? ==> s'.decision == s.decision)
            && (s.decision != Some(Allow) ==> s'.decision != Some(Allow))
    ensures r.FrameRequest? ==>
              Step(c, s, r) == s && FrameStep(c, s, r.now, r.frame).1 in {SessionGone, SessionFinished}
    ensures r.FinishRequest? ==>
              var verdict := FinishStep(c, s, r.now, r.template, r.extra).1;
              verdict == if s.Expired(r.now) then None
                         else if s.decision == Some(Allow) then Some(Allow) else Some(Deny)
  {
    hide FinalReasons, Decide;
    if r.FinishRequest? && !s.Expired(r.now) {
      FinishedDecides(c, s, r.now, r.template);
      assert s.decision.Some? ==> s.decision.value == Allow || s.decision.value == Deny;
    }
  }

  lemma FinalVerdictFinishes(c: Config, s: Session, r: Request)
    requires r.FinishRequest? && Sound(s)
    ensures var verdict := FinishStep(c, s, r.now, r.template, r.extra).1;
            && (verdict == Some(Allow) || verdict == Some(Deny) ==>
                  Step(c, s, r).finished && Step(c, s, r).decision == verdict)
            && (verdict == Some(StepUp) ==> !s.finished && !s.inStepUp && Step(c, s, r).inStepUp && s.stepUpCount == 0
                                            && Step(c, s, r).stepUpCount == 1)
  {
    hide FinalReasons, Spoofs, Similarity;
  }

  lemma {:induction false} FinishedFrom(c: Config, s0: Session, reqs: seq<Request>, i: nat, j: nat)
    requires i <= j <= |reqs|
    requires Before(c, s0, reqs, i).finished && Before(c, s0, reqs, i).decision != Some(StepUp)
    ensures var s, s' := Before(c, s0, reqs, i), Before(c, s0, reqs, j);
            && s'.finished && s'.decision != Some(StepUp)
            && (s.decision.Some? ==> s'.decision == s.decision)
    decreases j - i
  {
    hide Step, After;
    if i < j {
      FinishedFrom(c, s0, reqs, i, j - 1);
      AfterNext(c, s0, reqs, j - 1);
      FinishedStaysFinished(c, Before(c, s0, reqs, j - 1), reqs[j - 1]);
    }
  }

  /** Finality, in every mode. After a final decision, every later finish within the session's lifetime
      returns the same decision, and every frame is refused. */
  lemma DecisionIsFinal(c: Config, s0: Session, reqs: seq<Request>, i: nat, j: nat)
    requires Served(c, s0, reqs) && i < j < |reqs| && reqs[i].FinishRequest?
    requires VerdictAt(c, s0, reqs, i) == Some(Allow) || VerdictAt(c, s0, reqs, i) == Some(Deny)
    ensures reqs[j].FinishRequest? ==>
              VerdictAt(c, s0, reqs, j) == None || VerdictAt(c, s0, reqs, j) == VerdictAt(c, s0, reqs, i)
    ensures reqs[j].FinishRequest? && !s0.Expired(reqs[j].now) ==> VerdictAt(c, s0, reqs, j).Some?
    ensures reqs[j].FrameRequest? ==>
              FrameStep(c, Before(c, s0, reqs, j), reqs[j].now, reqs[j].frame).1 in {SessionGone, SessionFinished}
  {
    hide Step, After, FinishStep, FrameStep, Sound;
    ServedPrefix(c, s0, reqs, i);
    SoundInEveryRun(c, s0, reqs[..i]);
    FinalVerdictFinishes(c, Before(c, s0, reqs, i), reqs[i]);
    AfterNext(c, s0, reqs, i);
    FinishedFrom(c, s0, reqs, i + 1, j);
    FinishedStaysFinished(c, Before(c, s0, reqs, j), reqs[j]);
    ServedPrefix(c, s0, reqs, j);
    SoundInEveryRun(c, s0, reqs[..j]);
  }

  lemma StepCountsStepUps(c: Config, s: Session, r: Request)
    requires Sound(s)
    ensures Step(c, s, r).stepUpCount >= s.stepUpCount
  {
    hide MergeReasons, FinalReasons, Decide, JudgeFrame;
    if r.FrameRequest? && Scores(c, s, r.now, r.frame) {
      var seen := Shown(s, r.frame);
      JudgeLeavesCounts(seen, r.now, r.frame.scoring.satisfied);
    }
  }

  lemma {:induction false} StepUpsNeverForgotten(c: Config, s0: Session, reqs: seq<Request>, i: nat, j: nat)
    requires Served(c, s0, reqs) && i <= j <= |reqs|
    ensures Before(c, s0, reqs, i).stepUpCount <= Before(c, s0, reqs, j).stepUpCount
    decreases j - i
  {
    hide Step, After, Sound;
    if i < j {
      StepUpsNeverForgotten(c, s0, reqs, i, j - 1);
      ServedPrefix(c, s0, reqs, j - 1);
      SoundInEveryRun(c, s0, reqs[..j - 1]);
      AfterNext(c, s0, reqs, j - 1);
      StepCountsStepUps(c, Before(c, s0, reqs, j - 1), reqs[j - 1]);
    }
  }

  /** At most one step-up round is ever issued, whatever `maxStepUps` is. */
  lemma AtMostOneStepUp(c: Config, s0: Session, reqs: seq<Request>, i: nat, j: nat)
    requires Served(c, s0, reqs) && i < |reqs| && j < |reqs| && reqs[i].FinishRequest? && reqs[j].FinishRequest?
    requires VerdictAt(c, s0, reqs, i) == Some(StepUp) && VerdictAt(c, s0, reqs, j) == Some(StepUp)
    ensures i == j
  {
    hide Step, After, FinishStep, Sound;
    if i != j {
      var a, b := if i < j then i else j, if i < j then j else i;
      ServedPrefix(c, s0, reqs, a);
      SoundInEveryRun(c, s0, reqs[..a]);
      FinalVerdictFinishes(c, Before(c, s0, reqs, a), reqs[a]);
      AfterNext(c, s0, reqs, a);
      StepUpsNeverForgotten(c, s0, reqs, a + 1, b);
      ServedPrefix(c, s0, reqs, b);
      SoundInEveryRun(c, s0, reqs[..b]);
      FinalVerdictFinishes(c, Before(c, s0, reqs, b), reqs[b]);
    }
  }

  // ---------------------------------------------------------------- the frame budget

  /** Request `i` is a frame that went past the budget check. */
  predicate WithinBudget(c: Config, s0: Session, reqs: seq<Request>, i: nat)
    requires i < |reqs|
  {
    reqs[i].FrameRequest? &&
    FrameStep(c, Before(c, s0, reqs, i), reqs[i].now, reqs[i].frame).1 in {Unavailable, FrameError, FrameProcessed}
  }

  function BudgetUsed(c: Config, s0: Session, reqs: seq<Request>, n: nat): nat
    requires n <= |reqs|
  {
    if n == 0 then 0 else BudgetUsed(c, s0, reqs, n - 1) + (if WithinBudget(c, s0, reqs, n - 1) then 1 else 0)
  }

  lemma {:induction false} BudgetCounts(c: Config, s0: Session, reqs: seq<Request>, n: nat)
    requires n <= |reqs|
    ensures BudgetUsed(c, s0, reqs, n) == |set i | 0 <= i < n && WithinBudget(c, s0, reqs, i)|
  {
    hide WithinBudget;
    if n > 0 {
      BudgetCounts(c, s0, reqs, n - 1);
      var before := set i | 0 <= i < n - 1 && WithinBudget(c, s0, reqs, i);
      var after := set i | 0 <= i < n && WithinBudget(c, s0, reqs, i);
      if WithinBudget(c, s0, reqs, n - 1) {
        assert after == before + {n - 1};
      } else {
        assert after == before;
      }
    }
  }

  lemma StepCountsFrames(c: Config, s: Session, r: Request)
    ensures Step(c, s, r).frameCount >= s.frameCount
    ensures r.FrameRequest? && FrameStep(c, s, r.now, r.frame).1 in {Unavailable, FrameError, FrameProcessed} ==>
              Step(c, s, r).frameCount == s.frameCount + 1 <= c.maxFrames
  {
    hide MergeReasons, FinalReasons, Decide, JudgeFrame;
    if r.FrameRequest? && Scores(c, s, r.now, r.frame) {
      var seen := Shown(s, r.frame);
      JudgeLeavesCounts(seen, r.now, r.frame.scoring.satisfied);
    }
  }

  /** At most `maxFrames` frames of a session ever pass the budget. */
  lemma {:induction false} FrameBudgetHolds(c: Config, s0: Session, reqs: seq<Request>, n: nat)
    requires s0.frameCount == 0 && n <= |reqs|
    ensures BudgetUsed(c, s0, reqs, n) <= Before(c, s0, reqs, n).frameCount
    ensures BudgetUsed(c, s0, reqs, n) <= (if c.maxFrames >= 0 then c.maxFrames else 0)
    ensures BudgetUsed(c, s0, reqs, n) == |set i | 0 <= i < n && WithinBudget(c, s0, reqs, i)|
  {
    hide Step, After, FrameStep;
    BudgetCounts(c, s0, reqs, n);
    if n > 0 {
      FrameBudgetHolds(c, s0, reqs, n - 1);
      AfterNext(c, s0, reqs, n - 1);
      StepCountsFrames(c, Before(c, s0, reqs, n - 1), reqs[n - 1]);
    }
  }
}
