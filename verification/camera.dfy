/**
 * The emotion aggregation buffer of the camera script: four running scores,
 * fed once per analysed frame with the face classifier's expression
 * probabilities (weighted per emotion), read back as the dominant emotion
 * and as rounded percentages, and zeroed at every evaluation point.
 */
module Camera {
  import opened Wrappers
  import opened Emotions
  import JsBuiltins

  /** The `emotionScores` object. */
  type Scores = PerEmotion<real>

  /** The expression probabilities of the first detected face; a key the
      classifier did not report is `None`. */
  type Frame = PerEmotion<Option<JsBuiltins.Number>>

  const Zero: Scores := PerEmotion(0.0, 0.0, 0.0, 0.0)

  /** The `MULT` weights: sad and angry are boosted because the classifier
      reports them less readily. */
  function Mult(e: Emotion): real {
    match e
    case Happy => 1.0
    case Neutral => 1.0
    case Sad => 5.0
    case Angry => 2.0
  }

  ghost predicate NonNegative(s: Scores) {
    forall e :: s.Get(e) >= 0.0
  }

  /** Classifier output is a probability distribution: every reported finite
      value is non-negative. */
  ghost predicate FrameNonNegative(f: Frame) {
    forall e :: f.Get(e).Some? && f.Get(e).value.Finite? ==> f.Get(e).value.value >= 0.0
  }

  /** `resetEmotionScores`. */
  function Reset(s: Scores): (r: Scores)
    ensures forall e :: r.Get(e) == 0.0
  {
    Zero
  }

  /** What one reading adds before weighting: a missing key counts as 0
      (`?? 0`), a non-finite value is skipped (`Number.isFinite`). */
  function Reading(x: Option<JsBuiltins.Number>): real {
    if x.Some? && x.value.Finite? then x.value.value else 0.0
  }

  /** The aggregation loop over the four keys of one frame. */
  function AddFrame(s: Scores, f: Frame): (r: Scores)
    ensures forall e :: r.Get(e) == s.Get(e) + Reading(f.Get(e)) * Mult(e)
    ensures forall e :: f.Get(e).Some? && f.Get(e).value.NonFinite? ==> r.Get(e) == s.Get(e)
  {
    PerEmotion(
      s.happy + Reading(f.happy) * Mult(Happy),
      s.neutral + Reading(f.neutral) * Mult(Neutral),
      s.sad + Reading(f.sad) * Mult(Sad),
      s.angry + Reading(f.angry) * Mult(Angry))
  }

  /** One tick of the detection loop: a frame without a detected face (or a
      failed detection) leaves the scores as they are. */
  function Observe(s: Scores, detection: Option<Frame>): (r: Scores)
    ensures detection.None? ==> r == s
  {
    match detection
    case None => s
    case Some(f) => AddFrame(s, f)
  }

  /** Scores stay non-negative under non-negative input. */
  lemma ObservePreservesNonNegative(s: Scores, detection: Option<Frame>)
    requires NonNegative(s)
    requires detection.Some? ==> FrameNonNegative(detection.value)
    ensures NonNegative(Observe(s, detection))
  {
    if detection.Some? {
      forall e ensures Observe(s, detection).Get(e) >= 0.0 {
        assert Reading(detection.value.Get(e)) >= 0.0;
      }
    }
  }

  /** Scores after a run of detection ticks. */
  function Accumulate(s: Scores, detections: seq<Option<Frame>>): Scores
    decreases |detections|
  {
    if |detections| == 0 then s
    else Accumulate(Observe(s, detections[0]), detections[1..])
  }

  /** The raw, unweighted evidence for one emotion over a run of ticks. */
  function Evidence(detections: seq<Option<Frame>>, e: Emotion): real
    decreases |detections|
  {
    if |detections| == 0 then 0.0
    else
      (if detections[0].Some? then Reading(detections[0].value.Get(e)) else 0.0)
      + Evidence(detections[1..], e)
  }

  /** Each score is its starting value plus its weight times the evidence
      seen since: the buffer is a weighted sum over the frames. */
  lemma {:induction false} AccumulateIsWeightedSum(s: Scores, detections: seq<Option<Frame>>, e: Emotion)
    ensures Accumulate(s, detections).Get(e) == s.Get(e) + Mult(e) * Evidence(detections, e)
    decreases |detections|
  {
    if |detections| > 0 {
      var s' := Observe(s, detections[0]);
      AccumulateIsWeightedSum(s', detections[1..], e);
    }
  }

  /** The head of the descending stable sort of the entries from key
      position `i` on: the earliest of the maximal scores. */
  function TopFrom(s: Scores, i: nat): (r: Emotion)
    requires i < |KeyOrder|
    ensures i <= Rank(r)
    ensures forall e :: i <= Rank(e) ==> s.Get(e) <= s.Get(r)
    ensures forall e :: i <= Rank(e) < Rank(r) ==> s.Get(e) < s.Get(r)
    decreases |KeyOrder| - i
  {
    if i == |KeyOrder| - 1 then KeyOrder[i]
    else
      var rest := TopFrom(s, i + 1);
      if s.Get(KeyOrder[i]) >= s.Get(rest) then KeyOrder[i] else rest
  }

  /** `getDominantEmotion`: the top entry, if its score is positive. */
  function Dominant(s: Scores): (r: Option<Emotion>)
    ensures r.None? <==> forall e :: s.Get(e) <= 0.0
    ensures r.Some? ==> s.Get(r.value) > 0.0
    ensures r.Some? ==> forall e :: s.Get(e) <= s.Get(r.value)
    ensures r.Some? ==> forall e :: s.Get(e) == s.Get(r.value) ==> Rank(r.value) <= Rank(e)
  {
    var top := TopFrom(s, 0);
    if s.Get(top) > 0.0 then Some(top) else None
  }

  /** With non-negative scores the camera has no opinion exactly when
      nothing has been recorded. */
  lemma DominantNoneIffAllZero(s: Scores)
    requires NonNegative(s)
    ensures Dominant(s).None? <==> forall e :: s.Get(e) == 0.0
  {
  }

  /** The `reduce` over the four scores. With non-negative scores it is 0
      exactly when every score is, and it bounds each of them. */
  function Total(s: Scores): (r: real)
    ensures NonNegative(s) ==> (r == 0.0 <==> forall e :: s.Get(e) == 0.0)
    ensures NonNegative(s) ==> forall e :: s.Get(e) <= r
  {
    SumOfNonNegative(s);
    s.happy + s.neutral + s.sad + s.angry
  }

  lemma SumOfNonNegative(s: Scores)
    ensures NonNegative(s) ==> (s.happy + s.neutral + s.sad + s.angry == 0.0 <==> forall e :: s.Get(e) == 0.0)
    ensures NonNegative(s) ==> forall e :: s.Get(e) <= s.happy + s.neutral + s.sad + s.angry
  {
    if NonNegative(s) {
      assert s.Get(Happy) >= 0.0 && s.Get(Neutral) >= 0.0 && s.Get(Sad) >= 0.0 && s.Get(Angry) >= 0.0;
    }
  }

  /** `getEmotionStats`: each score as a rounded percentage of the total. */
  function Stats(s: Scores): (r: Option<PerEmotion<int>>)
    ensures r.None? <==> Total(s) == 0.0
    ensures r.Some? ==> forall e ::
      r.value.Get(e) as real - 0.5 <= 100.0 * s.Get(e) / Total(s) < r.value.Get(e) as real + 0.5
  {
    var total := Total(s);
    if total == 0.0 then None
    else
      Some(PerEmotion(
        JsBuiltins.Round(100.0 * s.happy / total),
        JsBuiltins.Round(100.0 * s.neutral / total),
        JsBuiltins.Round(100.0 * s.sad / total),
        JsBuiltins.Round(100.0 * s.angry / total)))
  }

  /** Real-number facts about shares of a positive total. */
  lemma ShareBounds(a: real, t: real)
    requires t > 0.0 && 0.0 <= a <= t
    ensures 0.0 <= 100.0 * a / t <= 100.0
  {
    var q := 100.0 * a / t;
    assert q * t == 100.0 * a;
  }

  lemma ShareMonotone(a: real, b: real, t: real)
    requires t > 0.0 && a <= b
    ensures 100.0 * a / t <= 100.0 * b / t
  {
    var q := 100.0 * b / t - 100.0 * a / t;
    assert q == 100.0 * (b - a) / t;
    assert q * t == 100.0 * (b - a);
  }

  lemma SharesAddUp(a: real, b: real, c: real, d: real)
    requires a + b + c + d != 0.0
    ensures var t := a + b + c + d;
      100.0 * a / t + 100.0 * b / t + 100.0 * c / t + 100.0 * d / t == 100.0
  {
    var t := a + b + c + d;
    assert 100.0 * a / t + 100.0 * b / t + 100.0 * c / t + 100.0 * d / t == 100.0 * t / t;
  }

  /** With non-negative scores every percentage is in [0, 100], and the four
      rounded percentages add up to 100 give or take rounding (99 to 102). */
  lemma {:induction false} StatsBounds(s: Scores)
    requires NonNegative(s)
    requires Stats(s).Some?
    ensures forall e :: 0 <= Stats(s).value.Get(e) <= 100
    ensures 99 <= Stats(s).value.happy + Stats(s).value.neutral + Stats(s).value.sad + Stats(s).value.angry <= 102
  {
    var t := Total(s);
    var p := Stats(s).value;
    assert s.Get(Happy) >= 0.0 && s.Get(Neutral) >= 0.0 && s.Get(Sad) >= 0.0 && s.Get(Angry) >= 0.0;
    forall e ensures 0 <= p.Get(e) <= 100 {
      ShareBounds(s.Get(e), t);
    }
    SharesAddUp(s.happy, s.neutral, s.sad, s.angry);
  }

  /** The percentages order the emotions as the scores do, so the dominant
      emotion also has the largest percentage. */
  lemma {:induction false} DominantHasLargestShare(s: Scores)
    requires NonNegative(s)
    requires Dominant(s).Some? && Stats(s).Some?
    ensures forall e :: Stats(s).value.Get(e) <= Stats(s).value.Get(Dominant(s).value)
  {
    var t := Total(s);
    var d := Dominant(s).value;
    assert s.Get(Happy) >= 0.0 && s.Get(Neutral) >= 0.0 && s.Get(Sad) >= 0.0 && s.Get(Angry) >= 0.0;
    forall e ensures Stats(s).value.Get(e) <= Stats(s).value.Get(d) {
      ShareMonotone(s.Get(e), s.Get(d), t);
      JsBuiltins.RoundMonotone(100.0 * s.Get(e) / t, 100.0 * s.Get(d) / t);
    }
  }

  /** Right after a reset the camera reports neither a dominant emotion nor
      statistics. */
  lemma AfterResetNothingToReport(s: Scores)
    ensures Dominant(Reset(s)).None?
    ensures Stats(Reset(s)).None?
  {
  }
}
