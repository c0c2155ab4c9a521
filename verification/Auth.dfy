/** One authentication session: challenges, accumulated risk, one possible step-up round, and the policy.
    A request is one atomic step with one clock reading. Whether a frame satisfies the active challenge
    is an input; the detectors have modules of their own. */
module Auth {
  import opened Wrappers

  datatype ChallengeType = Blink | TurnLeft | TurnRight

  datatype Challenge = Challenge(kind: ChallengeType, startedAt: real, timeout: real, completed: bool, passed: bool) {
    predicate Expired(now: real) { now - startedAt > timeout }
    predicate Untouched() { !completed && !passed }
  }

  predicate Completed(cs: seq<Challenge>) {
    forall k :: 0 <= k < |cs| ==> cs[k].completed
  }

  predicate Passed(cs: seq<Challenge>) {
    forall k :: 0 <= k < |cs| ==> cs[k].passed
  }

  datatype Reason =
    | Success | LivenessPassed | LivenessFailed | ChallengeTimeout | SessionExpired | NotEnrolled
    | SimilarityBelowThreshold | RiskHigh | RiskStepUp | MaxStepUpsReached | StepUpCompleted | StepUpFailed
    | NoFace | MultipleFaces | LowQuality | FallbackEmbeddingUsed
    | SpoofScreen | SpoofTemporal | SpoofBoundary | OtherReason(name: string)

  datatype Verdict = Allow | Deny | StepUp

  type Embedding = seq<real>

  /** Policy settings; `relaxed` is dev mode with fallback embeddings allowed. */
  datatype Config = Config(
    similarity: (Embedding, Embedding) -> real, threshold: real, r1: real, r2: real, maxStepUps: int,
    maxFrames: int, relaxed: bool)

  datatype Session = Session(
    challenges: seq<Challenge>, index: nat, createdAt: real, lifetime: real,
    finished: bool, decision: Option<Verdict>, reasons: seq<Reason>, livenessPassed: bool,
    frameCount: nat, embedding: Option<Embedding>, quality: seq<Reason>,
    risk: real, riskReasons: seq<Reason>,
    stepUpCount: nat, stepUps: seq<Challenge>, stepUpIndex: nat, inStepUp: bool) {

    predicate Expired(now: real) { now - createdAt > lifetime }

    /** Are all challenges required for a decision completed? */
    predicate ChallengesDone() {
      Completed(challenges) && (inStepUp ==> stepUps != [] && Completed(stepUps))
    }
  }

  /** What `generate_challenges` returns: two or three different challenges, started now. */
  ghost predicate Generated(cs: seq<Challenge>, now: real) {
    && 2 <= |cs| <= 3
    && (forall k :: 0 <= k < |cs| ==> cs[k].Untouched() && cs[k].startedAt == now)
    && (forall j, k :: 0 <= j < k < |cs| ==> cs[j].kind != cs[k].kind)
  }

  function NewSession(cs: seq<Challenge>, now: real, lifetime: real): Session {
    Session(cs, 0, now, lifetime, false, None, [], false, 0, None, [], 0.0, [], 0, [], 0, false)
  }

  // ---------------------------------------------------------------- liveness

  /** A frame seen by the active challenge: timeout comes first, even for a challenge already completed. */
  function Judge(c: Challenge, now: real, satisfied: bool): Challenge {
    if c.Expired(now) then c.(completed := true, passed := false)
    else if satisfied then c.(completed := true, passed := true)
    else c
  }

  predicate Completes(c: Challenge, now: real, satisfied: bool) {
    c.Expired(now) || satisfied
  }

  function EvaluateResult(s: Session): (s': Session)
    ensures s' == s.(livenessPassed := s'.livenessPassed, reasons := s'.reasons)
  {
    if !s.ChallengesDone() then s
    else
      var passed := Passed(s.challenges) && (s.inStepUp ==> Passed(s.stepUps));
      var mark := if passed then LivenessPassed else LivenessFailed;
      s.(livenessPassed := passed, reasons := if LivenessFailed in s.reasons then s.reasons else s.reasons + [mark])
  }

  function NoteTimeout(s: Session, c: Challenge, now: real): (s': Session)
    ensures s' == s.(reasons := s'.reasons)
  {
    if c.Expired(now) then s.(reasons := s.reasons + [ChallengeTimeout]) else s
  }

  /** Judges the active challenge, then moves on or, after the last one, evaluates the round. */
  function JudgeFrame(s: Session, now: real, satisfied: bool): Session {
    if s.inStepUp then
      if s.stepUpIndex >= |s.stepUps| then s
      else
        var c := s.stepUps[s.stepUpIndex];
        var s' := NoteTimeout(s, c, now).(stepUps := s.stepUps[s.stepUpIndex := Judge(c, now, satisfied)]);
        if !Completes(c, now, satisfied) then s'
        else if s.stepUpIndex < |s.stepUps| - 1 then s'.(stepUpIndex := s.stepUpIndex + 1)
        else EvaluateResult(s')
    else
      if s.index >= |s.challenges| then s
      else
        var c := s.challenges[s.index];
        var s' := NoteTimeout(s, c, now).(challenges := s.challenges[s.index := Judge(c, now, satisfied)]);
        if !Completes(c, now, satisfied) then s'
        else if s.index < |s.challenges| - 1 then s'.(index := s.index + 1)
        else EvaluateResult(s')
  }

  // ---------------------------------------------------------------- frames

  /** What the embedding stage of a frame with one face produced. */
  datatype Capture = Captured(embedding: Embedding, fallback: bool) | NotCaptured(reasons: seq<Reason>)
    | EmbedderMissing

  /** What risk scoring and the challenge detector made of it. */
  datatype Scoring = Scored(risk: real, reasons: seq<Reason>, satisfied: bool) | ScoringFailed

  datatype Frame =
    | Dropped
    | ModelMissing
    | NoFaces
    | ManyFaces
    | OneFace(capture: Capture, scoring: Scoring)

  datatype FrameReply = SessionGone | SessionFinished | FrameDropped | FrameLimit
    | Unavailable | FrameError | FrameProcessed

  function Capturing(s: Session, capture: Capture): Session {
    match capture
    case Captured(embedding, fallback) =>
      s.(embedding := Some(embedding), quality := if fallback then [FallbackEmbeddingUsed] else [])
    case NotCaptured(reasons) => s.(quality := reasons)
    case EmbedderMissing => s
  }

  function MergeReasons(known: seq<Reason>, more: seq<Reason>): seq<Reason>
    decreases |more|
  {
    if more == [] then known
    else MergeReasons(if more[0] in known then known else known + [more[0]], more[1..])
  }

  /** The longer list starts with the known codes and repeats nothing after them. */
  ghost predicate AppendsOnce(known: seq<Reason>, longer: seq<Reason>) {
    && known <= longer
    && forall i, j :: 0 <= i < j < |longer| && |known| <= j ==> longer[i] != longer[j]
  }

  /** Merging keeps the known codes first and adds each missing one once. */
  lemma {:induction false} MergedReasons(known: seq<Reason>, more: seq<Reason>)
    ensures AppendsOnce(known, MergeReasons(known, more))
    ensures forall r :: r in MergeReasons(known, more) <==> r in known || r in more
    decreases |more|
  {
    if more != [] {
      assert more == [more[0]] + more[1..];
      MergedReasons(if more[0] in known then known else known + [more[0]], more[1..]);
    }
  }

  lemma AppendsOnceTransitive(a: seq<Reason>, b: seq<Reason>, c: seq<Reason>)
    requires AppendsOnce(a, b) && AppendsOnce(b, c)
    ensures AppendsOnce(a, c)
  {
    assert forall k :: 0 <= k < |b| ==> c[k] == b[k];
  }

  /** Risk is the largest score of the session. */
  function RaiseRisk(s: Session, risk: real, reasons: seq<Reason>): Session {
    if risk > s.risk then s.(risk := risk, riskReasons := MergeReasons(s.riskReasons, reasons)) else s
  }

  /** The session that a scored frame is judged in: frame counted, capture kept, risk raised. */
  function Shown(s: Session, f: Frame): Session
    requires f.OneFace? && f.scoring.Scored?
  {
    RaiseRisk(Capturing(s.(frameCount := s.frameCount + 1), f.capture), f.scoring.risk, f.scoring.reasons)
  }

  /** Is this a frame whose face is scored and shown to the active challenge? */
  predicate Scores(c: Config, s: Session, now: real, f: Frame) {
    && !s.Expired(now) && !s.finished && s.frameCount + 1 <= c.maxFrames
    && f.OneFace? && !f.capture.EmbedderMissing? && f.scoring.Scored?
  }

  function FrameStep(c: Config, s: Session, now: real, f: Frame): (Session, FrameReply) {
    if s.Expired(now) then (s, SessionGone)
    else if s.finished then (s, SessionFinished)
    else if f.Dropped? then (s, FrameDropped)
    else
      var counted := s.(frameCount := s.frameCount + 1);
      if counted.frameCount > c.maxFrames then (counted.(finished := true), FrameLimit)
      else match f
        case ModelMissing => (counted, Unavailable)
        case NoFaces => (counted.(quality := [NoFace]), FrameProcessed)
        case ManyFaces => (counted.(quality := [MultipleFaces]), FrameProcessed)
        case OneFace(capture, scoring) =>
          var seen := Capturing(counted, capture);
          if capture.EmbedderMissing? then (seen, Unavailable)
          else if scoring.ScoringFailed? then (seen, FrameError)
          else (JudgeFrame(RaiseRisk(seen, scoring.risk, scoring.reasons), now, scoring.satisfied), FrameProcessed)
        case Dropped => (s, FrameDropped)
  }

  // ---------------------------------------------------------------- policy

  datatype Decision = Decision(verdict: Verdict, reasons: seq<Reason>, livenessPassed: bool)

  function Spoofs(reasons: seq<Reason>): seq<Reason> {
    if reasons == [] then []
    else (if reasons[0] in {SpoofScreen, SpoofTemporal, SpoofBoundary} then [reasons[0]] else []) + Spoofs(reasons[1..])
  }

  /** Exactly the three spoof codes are picked out, ... */
  lemma SpoofsOfOne(r: Reason)
    ensures Spoofs([r]) == if r == SpoofScreen || r == SpoofTemporal || r == SpoofBoundary then [r] else []
  {
    assert [r][1..] == [];
  }

  /** ... each as often as it occurs, and in the order given. */
  lemma {:induction false} SpoofsInOrder(a: seq<Reason>, b: seq<Reason>)
    ensures Spoofs(a + b) == Spoofs(a) + Spoofs(b)
    decreases |a|
  {
    if a == [] {
      assert a + b == b;
    } else {
      SpoofsInOrder(a[1..], b);
      assert (a + b)[0] == a[0] && (a + b)[1..] == a[1..] + b;
    }
  }

  /** The policy engine, gate by gate. */
  function Evaluate(c: Config, s: Session, now: real, enrolled: bool,
                    similarity: Option<real>, forceFinal: bool): Decision {
    var spoofs := Spoofs(s.riskReasons);
    if s.Expired(now) then Decision(Deny, [SessionExpired], false)
    else if s.finished then
      if s.decision == Some(Allow) then Decision(Allow, [Success], s.livenessPassed)
      else Decision(Deny, s.reasons, false)
    else if !enrolled then Decision(Deny, [NotEnrolled], s.livenessPassed)
    else if !s.ChallengesDone() then Decision(Deny, [LivenessFailed], false)
    else if !s.livenessPassed then Decision(Deny, [LivenessFailed], false)
    else if similarity.None? || similarity.value < c.threshold then
      Decision(Deny, [SimilarityBelowThreshold], s.livenessPassed)
    else if s.risk >= c.r2 then Decision(Deny, [RiskHigh] + spoofs, s.livenessPassed)
    else if !forceFinal && s.risk >= c.r1 then
      if s.stepUpCount < c.maxStepUps then Decision(StepUp, [RiskStepUp] + spoofs, s.livenessPassed)
      else Decision(Deny, [MaxStepUpsReached] + spoofs, false)
    else Decision(Allow, [LivenessPassed], true)
  }

  function Similarity(c: Config, s: Session, template: Option<Embedding>): Option<real> {
    if template.Some? && s.embedding.Some? then Some(c.similarity(s.embedding.value, template.value)) else None
  }

  predicate RelaxationApplies(c: Config, s: Session, template: Option<Embedding>, d: Decision) {
    && d.verdict == Deny && d.reasons != [] && (forall r :: r in d.reasons ==> r == LivenessFailed)
    && c.relaxed && template.Some?
    && Similarity(c, s, template).Some? && Similarity(c, s, template).value >= c.threshold
    && FallbackEmbeddingUsed in s.quality
  }

  function PassedAll(cs: seq<Challenge>): (passed: seq<Challenge>)
    ensures |passed| == |cs|
    ensures forall k :: 0 <= k < |cs| ==> passed[k] == cs[k].(completed := true, passed := true)
  {
    seq(|cs|, k requires 0 <= k < |cs| => cs[k].(completed := true, passed := true))
  }

  function Relaxed(s: Session): Session {
    s.(challenges := PassedAll(s.challenges), stepUps := PassedAll(s.stepUps), livenessPassed := true)
  }

  /** The decision of a finish request, dev relaxation included. */
  function Decide(c: Config, s: Session, now: real, template: Option<Embedding>): Decision {
    var similarity := Similarity(c, s, template);
    var d := Evaluate(c, s, now, template.Some?, similarity, s.inStepUp);
    if RelaxationApplies(c, s, template, d) then Evaluate(c, Relaxed(s), now, template.Some?, similarity, true) else d
  }

  function FinalReasons(s: Session, d: Decision): seq<Reason> {
    var marked :=
      if !s.inStepUp then d.reasons
      else MergeReasons(d.reasons, [if d.verdict == Allow then StepUpCompleted else StepUpFailed]);
    var explained :=
      if d.verdict == Deny && SimilarityBelowThreshold in marked then MergeReasons(marked, s.quality) else marked;
    if FallbackEmbeddingUsed in s.quality then MergeReasons(explained, [FallbackEmbeddingUsed]) else explained
  }

  /** What a final decision reports: the policy's codes first; the outcome of the step-up round, if there
      was one; the frame's quality codes, if the face did not match; and that a fallback embedding was
      used, if it was; nothing else, and nothing twice. */
  lemma FinalReasonsAre(s: Session, d: Decision)
    ensures AppendsOnce(d.reasons, FinalReasons(s, d))
    ensures forall r :: r in FinalReasons(s, d) <==>
              || r in d.reasons
              || (s.inStepUp && r == if d.verdict == Allow then StepUpCompleted else StepUpFailed)
              || (d.verdict == Deny && SimilarityBelowThreshold in d.reasons && r in s.quality)
              || (FallbackEmbeddingUsed in s.quality && r == FallbackEmbeddingUsed)
  {
    var mark := if d.verdict == Allow then StepUpCompleted else StepUpFailed;
    MergedReasons(d.reasons, [mark]);
    var marked := if s.inStepUp then MergeReasons(d.reasons, [mark]) else d.reasons;
    MergedReasons(marked, s.quality);
    var explained :=
      if d.verdict == Deny && SimilarityBelowThreshold in marked then MergeReasons(marked, s.quality) else marked;
    MergedReasons(explained, [FallbackEmbeddingUsed]);
    hide MergeReasons, AppendsOnce;
    NothingAppended(d.reasons);
    NothingAppended(marked);
    NothingAppended(explained);
    AppendsOnceTransitive(d.reasons, marked, explained);
    AppendsOnceTransitive(d.reasons, explained, FinalReasons(s, d));
  }

  lemma NothingAppended(codes: seq<Reason>)
    ensures AppendsOnce(codes, codes)
  {
  }

  /** A finish request. A step-up opens a round of the challenges `extra`; anything else is final. */
  function FinishStep(c: Config, s: Session, now: real, template: Option<Embedding>, extra: seq<Challenge>):
    (Session, Option<Verdict>) {
    if s.Expired(now) then (s, None)
    else
      var d := Decide(c, s, now, template);
      if d.verdict == StepUp then
        (s.(stepUps := extra, stepUpIndex := 0, stepUpCount := s.stepUpCount + 1, inStepUp := true), Some(StepUp))
      else
        (s.(finished := true, inStepUp := false, stepUps := [], stepUpIndex := 0, decision := Some(d.verdict),
            reasons := FinalReasons(s, d), livenessPassed := d.livenessPassed), Some(d.verdict))
  }
}
