/** What the frames shown to a round of challenges make of it, and so the verdict of a whole session in terms
    of its requests alone. */
module AuthRounds {
  import opened Wrappers
  import opened Auth
  import opened AuthRuns

  /** A scored frame as the active challenge sees it. */
  datatype Show = Show(now: real, satisfied: bool)

  datatype Round = Round(challenges: seq<Challenge>, active: nat)

  function ShowTo(r: Round, show: Show): Round {
    if r.active >= |r.challenges| then r
    else
      var c := r.challenges[r.active];
      Round(r.challenges[r.active := Judge(c, show.now, show.satisfied)],
            if Completes(c, show.now, show.satisfied) && r.active < |r.challenges| - 1 then r.active + 1 else r.active)
  }

  /** The round after all of the frames. */
  function Played(cs: seq<Challenge>, shows: seq<Show>): Round {
    if shows == [] then Round(cs, 0) else ShowTo(Played(cs, shows[..|shows| - 1]), shows[|shows| - 1])
  }

  /** The number of frames that satisfied the challenge they were shown to. */
  function Satisfied(shows: seq<Show>): (n: nat)
    ensures n <= |shows|
  {
    if shows == [] then 0
    else Satisfied(shows[..|shows| - 1]) + (if shows[|shows| - 1].satisfied then 1 else 0)
  }

  /** The challenge in turn after `met` of them: the last one once all are met. */
  function InTurn(cs: seq<Challenge>, met: nat): Challenge
    requires cs != []
  {
    if met < |cs| then cs[met] else cs[|cs| - 1]
  }

  /** Every frame came before the timeout of the challenge whose turn it was. */
  ghost predicate InTime(cs: seq<Challenge>, shows: seq<Show>)
    requires cs != []
  {
    forall j :: 0 <= j < |shows| ==>
      var c := InTurn(cs, Satisfied(shows[..j])); shows[j].now - c.startedAt <= c.timeout
  }

  /** The challenges were satisfied in turn, each in time; and no frame came too late for the last one. */
  ghost predicate Met(cs: seq<Challenge>, shows: seq<Show>)
    requires cs != []
  {
    InTime(cs, shows) && Satisfied(shows) >= |cs|
  }

  // ---------------------------------------------------------------- one round

  /** The first `met` challenges are passed, the others untouched. */
  ghost predicate PassedInTurn(cs: seq<Challenge>, r: Round, met: nat) {
    && |r.challenges| == |cs| > 0
    && r.active == (if met < |cs| then met else |cs| - 1)
    && forall k :: 0 <= k < |cs| ==>
         r.challenges[k] == if k < met then cs[k].(completed := true, passed := true) else cs[k]
  }

  /** Some challenge has timed out for good. */
  ghost predicate TimedOut(cs: seq<Challenge>, r: Round, now: real) {
    && |r.challenges| == |cs| > r.active
    && exists k :: TimedOutAt(r, k, now)
  }

  predicate TimedOutAt(r: Round, k: nat, now: real) {
    && k < |r.challenges| && r.challenges[k].completed && !r.challenges[k].passed
    && (k < r.active || (k == r.active == |r.challenges| - 1 && r.challenges[k].Expired(now)))
  }

  lemma ShowInTurn(cs: seq<Challenge>, r: Round, met: nat, show: Show)
    requires PassedInTurn(cs, r, met)
    ensures var c := InTurn(cs, met);
            if show.now - c.startedAt <= c.timeout then
              PassedInTurn(cs, ShowTo(r, show), met + if show.satisfied then 1 else 0)
            else TimedOut(cs, ShowTo(r, show), show.now)
  {
    var c := InTurn(cs, met);
    if show.now - c.startedAt > c.timeout {
      assert TimedOutAt(ShowTo(r, show), if met < |cs| then met else |cs| - 1, show.now);
    }
  }

  lemma ShowTooLate(cs: seq<Challenge>, r: Round, now: real, show: Show)
    requires TimedOut(cs, r, now) && now <= show.now
    ensures TimedOut(cs, ShowTo(r, show), show.now)
  {
    var k :| TimedOutAt(r, k, now);
    assert TimedOutAt(ShowTo(r, show), k, show.now);
  }

  lemma InTimeNext(cs: seq<Challenge>, shows: seq<Show>)
    requires cs != [] && shows != []
    ensures var n := |shows| - 1;
            var c := InTurn(cs, Satisfied(shows[..n]));
            InTime(cs, shows) <==> InTime(cs, shows[..n]) && shows[n].now - c.startedAt <= c.timeout
  {
    hide InTurn, Satisfied;
    var past := shows[..|shows| - 1];
    assert forall j :: 0 <= j < |past| ==> past[..j] == shows[..j] && past[j] == shows[j];
  }

  ghost predicate InOrder(shows: seq<Show>) {
    forall i, j :: 0 <= i <= j < |shows| ==> shows[i].now <= shows[j].now
  }

  lemma {:induction false} RoundDecided(cs: seq<Challenge>, shows: seq<Show>)
    requires cs != [] && InOrder(shows) && forall k :: 0 <= k < |cs| ==> cs[k].Untouched()
    ensures if InTime(cs, shows) then PassedInTurn(cs, Played(cs, shows), Satisfied(shows))
            else shows != [] && TimedOut(cs, Played(cs, shows), shows[|shows| - 1].now)
  {
    hide ShowTo, TimedOut, PassedInTurn, InTurn;
    if shows == [] {
      NothingShown(cs);
    } else {
      var n := |shows| - 1;
      var past := shows[..n];
      RoundDecided(cs, past);
      InTimeNext(cs, shows);
      hide InTime;
      if InTime(cs, past) {
        ShowInTurn(cs, Played(cs, past), Satisfied(past), shows[n]);
      } else {
        ShowTooLate(cs, Played(cs, past), past[n - 1].now, shows[n]);
      }
    }
  }

  lemma NothingShown(cs: seq<Challenge>)
    requires cs != []
    ensures PassedInTurn(cs, Round(cs, 0), 0)
  {
  }

  /** A round is passed exactly if its challenges were satisfied in turn, each before its timeout. */
  lemma RoundPassedIffMet(cs: seq<Challenge>, shows: seq<Show>)
    requires cs != [] && InOrder(shows) && forall k :: 0 <= k < |cs| ==> cs[k].Untouched()
    ensures Passed(Played(cs, shows).challenges) <==> Met(cs, shows)
  {
    RoundDecided(cs, shows);
    hide Played, Satisfied, InTime;
    var r := Played(cs, shows);
    if InTime(cs, shows) {
      assert Satisfied(shows) < |cs| ==> !r.challenges[Satisfied(shows)].passed;
    }
  }

  // ---------------------------------------------------------------- rounds of a session

  /** The scored frames among requests `from` to `upto` - 1. */
  function Shows(c: Config, s0: Session, reqs: seq<Request>, from: nat, upto: nat): seq<Show>
    requires from <= upto <= |reqs|
    decreases upto
  {
    if from == upto then []
    else
      var past := Shows(c, s0, reqs, from, upto - 1);
      if ScoredAt(c, s0, reqs, upto - 1)
      then past + [Show(reqs[upto - 1].now, reqs[upto - 1].frame.scoring.satisfied)]
      else past
  }

  lemma {:induction false} ShowsInOrder(c: Config, s0: Session, reqs: seq<Request>, from: nat, upto: nat)
    requires Served(c, s0, reqs) && from <= upto <= |reqs|
    ensures var shows := Shows(c, s0, reqs, from, upto);
            InOrder(shows) && (shows != [] ==> upto > 0 && shows[|shows| - 1].now <= reqs[upto - 1].now)
    decreases upto
  {
    hide ScoredAt;
    if from < upto {
      ShowsInOrder(c, s0, reqs, from, upto - 1);
    }
  }

  /** The round in progress, in one session and the other one aside. */
  function Current(s: Session): Round {
    if s.inStepUp then Round(s.stepUps, s.stepUpIndex) else Round(s.challenges, s.index)
  }

  lemma JudgeShows(s: Session, now: real, satisfied: bool)
    ensures var s' := JudgeFrame(s, now, satisfied);
            && s'.inStepUp == s.inStepUp && Current(s') == ShowTo(Current(s), Show(now, satisfied))
            && (s.inStepUp ==> s'.challenges == s.challenges)
  {
    hide EvaluateResult, NoteTimeout, Judge, Completes;
  }

  /** A request that is no finish shows at most its frame to the round in progress. */
  lemma StepShows(c: Config, s: Session, r: Request)
    requires !r.FinishRequest?
    ensures var s' := Step(c, s, r);
            && s'.inStepUp == s.inStepUp && (s.inStepUp ==> s'.challenges == s.challenges)
            && Current(s') == if r.FrameRequest? && Scores(c, s, r.now, r.frame)
                              then ShowTo(Current(s), Show(r.now, r.frame.scoring.satisfied)) else Current(s)
  {
    hide MergeReasons, JudgeFrame, ShowTo;
    if r.FrameRequest? && Scores(c, s, r.now, r.frame) {
      JudgeShows(Shown(s, r.frame), r.now, r.frame.scoring.satisfied);
    }
  }

  /** No finish among requests `from` to `upto` - 1; failed ones aside, which leave the session alone. */
  predicate NoFinish(reqs: seq<Request>, from: nat, upto: nat)
    requires upto <= |reqs|
  {
    forall j :: from <= j < upto ==> !reqs[j].FinishRequest?
  }

  lemma {:induction false} RoundIsPlayed(c: Config, s0: Session, reqs: seq<Request>, from: nat, upto: nat)
    requires from <= upto <= |reqs| && NoFinish(reqs, from, upto)
    requires Current(Before(c, s0, reqs, from)).active == 0
    ensures var s, s' := Before(c, s0, reqs, from), Before(c, s0, reqs, upto);
            && s'.inStepUp == s.inStepUp && (s.inStepUp ==> s'.challenges == s.challenges)
            && Current(s') == Played(Current(s).challenges, Shows(c, s0, reqs, from, upto))
    decreases upto
  {
    hide Step, After, ShowTo;
    if from < upto {
      RoundIsPlayed(c, s0, reqs, from, upto - 1);
      AfterNext(c, s0, reqs, upto - 1);
      StepShows(c, Before(c, s0, reqs, upto - 1), reqs[upto - 1]);
    }
  }

  // ---------------------------------------------------------------- the verdicts

  /** The risk of every scored frame so far, and of none, is below the limit. */
  ghost predicate RisksBelow(c: Config, s0: Session, reqs: seq<Request>, i: nat, limit: real)
    requires i <= |reqs|
  {
    0.0 < limit && forall j :: 0 <= j < i && ScoredAt(c, s0, reqs, j) ==> reqs[j].frame.scoring.risk < limit
  }

  lemma RiskBelowIff(c: Config, s0: Session, reqs: seq<Request>, i: nat, limit: real)
    requires s0.risk == 0.0 && i <= |reqs|
    ensures Before(c, s0, reqs, i).risk < limit <==> RisksBelow(c, s0, reqs, i, limit)
  {
    hide After;
    RiskNeverFalls(c, s0, reqs[..i], 0);
    assert Before(c, s0, reqs[..i], 0) == s0 by { NothingServed(c, s0, reqs[..i]); }
    forall j | 0 <= j < i && ScoredAt(c, s0, reqs, j)
      ensures reqs[j].frame.scoring.risk <= Before(c, s0, reqs, i).risk
    {
      BeforeInPrefix(c, s0, reqs, i, j);
      EveryScoreCounts(c, s0, reqs[..i], j);
    }
    RiskIsSomeScore(c, s0, reqs[..i]);
    if Before(c, s0, reqs, i).risk != 0.0 {
      var j :| 0 <= j < i && ScoredAt(c, s0, reqs[..i], j)
               && reqs[..i][j].frame.scoring.risk == Before(c, s0, reqs, i).risk;
      BeforeInPrefix(c, s0, reqs, i, j);
    }
  }

  lemma NothingServed(c: Config, s0: Session, reqs: seq<Request>)
    ensures Before(c, s0, reqs, 0) == s0
  {
  }

  /** The first finish of a session that is neither expired nor out of frames, in every mode and in terms of
      its requests: where the face matches and all risks are below R2, it is allowed exactly if the challenges
      were met in turn and in time and all risks are below R1, or if they were not met and dev relaxation
      steps in; a step-up is asked for exactly if they were met, with a risk of R1 or more; everything else is
      denied. */
  lemma FirstFinishIff(c: Config, s0: Session, reqs: seq<Request>, i: nat)
    requires Served(c, s0, reqs) && i < |reqs| && reqs[i].FinishRequest? && NoFinish(reqs, 0, i)
    requires !Before(c, s0, reqs, i).finished && !s0.Expired(reqs[i].now)
    ensures var s, verdict := Before(c, s0, reqs, i), VerdictAt(c, s0, reqs, i);
            var ready := Matches(c, s, reqs[i].template) && RisksBelow(c, s0, reqs, i, c.r2);
            var met := Met(s0.challenges, Shows(c, s0, reqs, 0, i));
            && (verdict == Some(Allow) <==>
                  ready && if met then RisksBelow(c, s0, reqs, i, c.r1)
                           else c.relaxed && FallbackEmbeddingUsed in s.quality)
            && (verdict == Some(StepUp) <==> ready && met && !RisksBelow(c, s0, reqs, i, c.r1) && c.maxStepUps > 0)
            && verdict.Some?
  {
    hide After, ScoredAt, FinishStep, Played, InTime, Matches;
    var s := Before(c, s0, reqs, i);
    NothingServed(c, s0, reqs);
    RoundIsPlayed(c, s0, reqs, 0, i);
    ShowsInOrder(c, s0, reqs, 0, i);
    RoundPassedIffMet(s0.challenges, Shows(c, s0, reqs, 0, i));
    hide Met;
    ServedPrefix(c, s0, reqs, i);
    SoundInEveryRun(c, s0, reqs[..i]);
    hide Sound, Served, Generated;
    LiveVerdictIff(c, s, reqs[i].now, reqs[i].template, reqs[i].extra);
    RiskBelowIff(c, s0, reqs, i, c.r1);
    RiskBelowIff(c, s0, reqs, i, c.r2);
    hide Passed, RisksBelow;
  }

  lemma StepUpOpensRound(c: Config, s: Session, r: Request)
    requires r.FinishRequest? && FinishStep(c, s, r.now, r.template, r.extra).1 == Some(StepUp)
    ensures var s' := Step(c, s, r);
            s'.inStepUp && Current(s') == Round(r.extra, 0) && s'.challenges == s.challenges
  {
    hide Decide;
  }

  /** The next finish after a step-up was asked for, in the same terms: where the face matches and all risks
      are below R2, it is allowed exactly if the challenges of the new round were met in turn and in time, or
      if dev relaxation steps in; everything else is denied. */
  lemma SecondFinishIff(c: Config, s0: Session, reqs: seq<Request>, i: nat, j: nat)
    requires Served(c, s0, reqs) && i < j < |reqs| && reqs[i].FinishRequest? && reqs[j].FinishRequest?
    requires VerdictAt(c, s0, reqs, i) == Some(StepUp) && NoFinish(reqs, i + 1, j)
    requires !Before(c, s0, reqs, i).finished && !Before(c, s0, reqs, j).finished && !s0.Expired(reqs[j].now)
    ensures var s, verdict := Before(c, s0, reqs, j), VerdictAt(c, s0, reqs, j);
            var ready := Matches(c, s, reqs[j].template) && RisksBelow(c, s0, reqs, j, c.r2);
            var met := Met(reqs[i].extra, Shows(c, s0, reqs, i + 1, j));
            && (verdict == Some(Allow) <==> ready && (met || (c.relaxed && FallbackEmbeddingUsed in s.quality)))
            && (verdict == Some(Allow) || verdict == Some(Deny))
  {
    hide After, ScoredAt, FinishStep, Played, InTime, Matches, Step;
    var s := Before(c, s0, reqs, j);
    AfterNext(c, s0, reqs, i);
    StepUpOpensRound(c, Before(c, s0, reqs, i), reqs[i]);
    RoundIsPlayed(c, s0, reqs, i + 1, j);
    ShowsInOrder(c, s0, reqs, i + 1, j);
    RoundPassedIffMet(reqs[i].extra, Shows(c, s0, reqs, i + 1, j));
    hide Met;
    ServedPrefix(c, s0, reqs, j);
    SoundInEveryRun(c, s0, reqs[..j]);
    assert s.inStepUp && Passed(s.challenges);
    hide Sound, Served, Generated;
    LiveVerdictIff(c, s, reqs[j].now, reqs[j].template, reqs[j].extra);
    RiskBelowIff(c, s0, reqs, j, c.r2);
    hide Passed, RisksBelow;
    var verdict := VerdictAt(c, s0, reqs, j);
    assert verdict != Some(StepUp);
    match verdict.value
    case Allow =>
    case Deny =>
    case StepUp =>
  }
}
