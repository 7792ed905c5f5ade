/** The decision policies: thresholds in a fixed order of precedence. */
module Decision {
  import opened Basics

  datatype Verdict = Approved | Review | Rejected

  datatype Reason =
    | FaceNotDetected | FingerNotDetected | CaptureQualityInsufficient | LivenessFailed | PadFailed
    | MatchConfirmed | MatchRequiresHumanReview | MatchNotConfirmed | PadUnavailableReviewRequired
    | ReferenceNotFound | ConsentWithdrawn | ModelNotApproved | ModelVersionMismatch
    | ServiceUnavailable | RiskSignalReview

  datatype Outcome = Outcome(verdict: Verdict, reason: Reason)

  datatype Policy =
    | FacePolicy(minQuality: real, maxPose: real, maxOcclusion: real, minLiveness: real,
                 approveAt: real, reviewAt: real)
    | FingerPolicy(minQuality: real, minMinutiae: int, approveAt: real, reviewAt: real, requirePad: bool)

  const DEFAULT_FACE := FacePolicy(0.72, 25.0, 0.2, 0.93, 0.74, 0.62)
  const DEFAULT_FINGER := FingerPolicy(0.6, 16, 0.8, 0.55, true)

  datatype FaceInput = FaceInput(
    faceDetected: bool, quality: real, pose: real, occlusion: real, isLive: bool, liveness: real, similarity: real)

  datatype FingerInput = FingerInput(
    fingerDetected: bool, quality: real, minutiaeCount: int, padPresent: bool, padIsLive: bool, score: real)

  function Decide(p: Policy, i: FaceInput): Outcome
    requires p.FacePolicy?
  {
    if !i.faceDetected then Outcome(Rejected, FaceNotDetected)
    else if i.quality < p.minQuality || Abs(i.pose) > p.maxPose || i.occlusion > p.maxOcclusion then
      Outcome(Review, CaptureQualityInsufficient)
    else if !i.isLive || i.liveness < p.minLiveness then Outcome(Rejected, LivenessFailed)
    else if i.similarity >= p.approveAt then Outcome(Approved, MatchConfirmed)
    else if i.similarity >= p.reviewAt then Outcome(Review, MatchRequiresHumanReview)
    else Outcome(Rejected, MatchNotConfirmed)
  }

  function DecideFingerprint(p: Policy, i: FingerInput): Outcome
    requires p.FingerPolicy?
  {
    if !i.fingerDetected then Outcome(Rejected, FingerNotDetected)
    else if i.quality < p.minQuality || i.minutiaeCount < p.minMinutiae then Outcome(Review, CaptureQualityInsufficient)
    else if i.padPresent && !i.padIsLive then Outcome(Rejected, PadFailed)
    else if i.score >= p.approveAt then
      if p.requirePad && !(i.padPresent && i.padIsLive) then Outcome(Review, PadUnavailableReviewRequired)
      else Outcome(Approved, MatchConfirmed)
    else if i.score >= p.reviewAt then Outcome(Review, MatchRequiresHumanReview)
    else Outcome(Rejected, MatchNotConfirmed)
  }

  /** Every threshold an approval rests on. */
  ghost predicate FacePasses(p: Policy, i: FaceInput)
    requires p.FacePolicy?
  {
    && i.faceDetected && i.isLive
    && i.quality >= p.minQuality && -p.maxPose <= i.pose <= p.maxPose && i.occlusion <= p.maxOcclusion
    && i.liveness >= p.minLiveness && i.similarity >= p.approveAt
  }

  ghost predicate FingerPasses(p: Policy, i: FingerInput)
    requires p.FingerPolicy?
  {
    && i.fingerDetected && i.quality >= p.minQuality && i.minutiaeCount >= p.minMinutiae
    && i.score >= p.approveAt && (i.padPresent ==> i.padIsLive) && (p.requirePad ==> i.padPresent)
  }

  /** Approval means exactly that every threshold holds. */
  lemma ApprovedIff(p: Policy, i: FaceInput, q: Policy, j: FingerInput)
    requires p.FacePolicy? && q.FingerPolicy?
    ensures Decide(p, i).verdict == Approved <==> FacePasses(p, i)
    ensures DecideFingerprint(q, j).verdict == Approved <==> FingerPasses(q, j)
  {
  }

  /** The capture itself is good enough to be judged. */
  ghost predicate FaceUsable(p: Policy, i: FaceInput)
    requires p.FacePolicy?
  {
    i.quality >= p.minQuality && -p.maxPose <= i.pose <= p.maxPose && i.occlusion <= p.maxOcclusion
  }

  /** A face is rejected exactly when none is found, or a usable capture is not live or
      matches too little even for review; a bad capture is reviewed whatever else it shows. */
  lemma FaceVerdictIff(p: Policy, i: FaceInput)
    requires p.FacePolicy?
    ensures Decide(p, i).verdict == Rejected <==>
      !i.faceDetected
      || (FaceUsable(p, i) && (!i.isLive || i.liveness < p.minLiveness || (i.similarity < p.approveAt && i.similarity < p.reviewAt)))
    ensures i.faceDetected && !FaceUsable(p, i) ==> Decide(p, i) == Outcome(Review, CaptureQualityInsufficient)
  {
  }

  /** The same for a finger; presentation-attack detection that is missing or inconclusive
      where it is required sends a match to review. */
  lemma FingerVerdictIff(p: Policy, i: FingerInput)
    requires p.FingerPolicy?
    ensures DecideFingerprint(p, i).verdict == Rejected <==>
      !i.fingerDetected
      || (i.quality >= p.minQuality && i.minutiaeCount >= p.minMinutiae
          && ((i.padPresent && !i.padIsLive) || (i.score < p.approveAt && i.score < p.reviewAt)))
    ensures DecideFingerprint(p, i).reason == PadUnavailableReviewRequired <==>
      && i.fingerDetected && i.quality >= p.minQuality && i.minutiaeCount >= p.minMinutiae
      && i.score >= p.approveAt && p.requirePad && !i.padPresent
  {
  }

  function Severity(v: Verdict): nat { match v case Approved => 0 case Review => 1 case Rejected => 2 }

  /** With everything else equal, a better match never gets a worse verdict. */
  lemma BetterMatchNeverHurts(p: Policy, i: FaceInput, similarity: real, q: Policy, j: FingerInput, score: real)
    requires p.FacePolicy? && q.FingerPolicy? && similarity >= i.similarity && score >= j.score
    ensures Severity(Decide(p, i.(similarity := similarity)).verdict) <= Severity(Decide(p, i).verdict)
    ensures Severity(DecideFingerprint(q, j.(score := score)).verdict) <= Severity(DecideFingerprint(q, j).verdict)
  {
  }
}
