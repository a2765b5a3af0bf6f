/** The review-effort arithmetic of GerritReviewBuddy.prebuild: a changed-line
    count becomes a review time, a number of sessions, a session length and a
    minimum number of reviewers. */
module Effort {

  /** Largest value of a Java `int`. */
  const IntMax: int := 0x7fff_ffff

  /** Java's `/` on `int`, which truncates toward zero (Dafny's `/` is Euclidean). */
  function JavaDiv(a: int, b: int): int
    requires b != 0
  {
    if a >= 0 then a / b else -((-a) / b)
  }

  /** `roundUpDivision`: the ceiling of number / divisor. Both checkArgument
      calls of the source become the precondition. */
  function RoundUpDivision(number: int, divisor: int): (q: int)
    requires number > 0 && divisor > 0
    ensures q >= 1
    ensures q * divisor >= number
    ensures (q - 1) * divisor < number
  {
    var s := number + divisor - 1;
    var q := JavaDiv(s, divisor);
    assert q == s / divisor;
    assert q * divisor + s % divisor == s;
    q
  }

  /** `roundUpToMultipleOfFive`: the least multiple of five that is not below
      the argument, for every argument the Java expression handles that way. */
  function RoundUpToMultipleOfFive(number: int): (r: int)
    ensures r % 5 == 0
    ensures number > -5 ==> number <= r < number + 5
  {
    var q := JavaDiv(number + 4, 5);
    assert number > -5 ==> q == (number + 4) / 5;
    q * 5
  }

  /** The numbers computed at lines 147-157 of the source. */
  datatype Estimate = Estimate(
    totalReviewTime: int,
    roundedReviewTime: int,
    reviewSessionsCount: int,
    reviewSessionsLength: int,
    reviewersCount: int)

  /** The effort estimate for a positive changed-line count (a count of zero
      makes the first RoundUpDivision fail its precondition). */
  function EstimateEffort(changedLinesCount: int): Estimate
    requires changedLinesCount > 0
  {
    var totalReviewTime := if RoundUpDivision(changedLinesCount, 5) >= 5
                           then RoundUpDivision(changedLinesCount, 5) else 5;
    var roundedReviewTime := RoundUpToMultipleOfFive(totalReviewTime);
    var reviewSessionsCount := RoundUpDivision(roundedReviewTime, 60);
    var reviewSessionsLength :=
      RoundUpToMultipleOfFive(RoundUpDivision(roundedReviewTime, reviewSessionsCount));
    Estimate(totalReviewTime, roundedReviewTime, reviewSessionsCount,
             reviewSessionsLength, reviewSessionsCount + 1)
  }

  /** A value at most 60 rounds up to a multiple of five that is still at most 60. */
  lemma RoundUpStaysWithinHour(n: int)
    requires 0 < n <= 60
    ensures RoundUpToMultipleOfFive(n) <= 60
  {
    var r := RoundUpToMultipleOfFive(n);
    assert r < 65 && r % 5 == 0;
  }

  lemma MulMonotone(a: int, b: int, s: int)
    requires a >= b && s >= 0
    ensures a * s >= b * s
  {
  }

  /** Spreading a review that fits in `sessions` hours over that many
      sessions needs at most an hour per session. */
  lemma PerSessionWithinHour(reviewTime: int, sessions: int)
    requires reviewTime > 0 && sessions >= 1
    requires reviewTime <= sessions * 60
    ensures RoundUpDivision(reviewTime, sessions) <= 60
  {
    var q := RoundUpDivision(reviewTime, sessions);
    if q > 60 {
      MulMonotone(q - 1, 60, sessions);
      assert false;
    }
  }

  /** Everything the estimate promises: a review of at least five minutes,
      split into the fewest hour-long sessions that hold it, each session a
      multiple of five minutes and at most an hour, together long enough for
      the whole review, and one reviewer more than there are sessions. */
  lemma EstimateProperties(changedLinesCount: int)
    requires changedLinesCount > 0
    ensures var e := EstimateEffort(changedLinesCount);
      && e.totalReviewTime >= 5
      && 5 * e.totalReviewTime >= changedLinesCount
      && e.roundedReviewTime % 5 == 0
      && e.totalReviewTime <= e.roundedReviewTime < e.totalReviewTime + 5
      && e.reviewSessionsCount >= 1
      && (e.reviewSessionsCount - 1) * 60 < e.roundedReviewTime <= e.reviewSessionsCount * 60
      && e.reviewSessionsLength % 5 == 0
      && 5 <= e.reviewSessionsLength <= 60
      && e.reviewSessionsCount * e.reviewSessionsLength >= e.roundedReviewTime
      && e.reviewersCount == e.reviewSessionsCount + 1
  {
    var e := EstimateEffort(changedLinesCount);
    var s := e.reviewSessionsCount;
    var perSession := RoundUpDivision(e.roundedReviewTime, s);
    PerSessionWithinHour(e.roundedReviewTime, s);
    RoundUpStaysWithinHour(perSession);
    MulMonotone(e.reviewSessionsLength, perSession, s);
  }

  /** The worked examples: up to five lines is one five-minute session for two
      reviewers, 250 lines one fifty-minute session, 1000 lines four
      fifty-minute sessions for five reviewers. */
  lemma EstimateExamples()
    ensures forall n :: 1 <= n <= 5 ==> EstimateEffort(n) == Estimate(5, 5, 1, 5, 2)
    ensures EstimateEffort(250) == Estimate(50, 50, 1, 50, 2)
    ensures EstimateEffort(1000) == Estimate(200, 200, 4, 50, 5)
  {
    forall n | 1 <= n <= 5 ensures EstimateEffort(n) == Estimate(5, 5, 1, 5, 2) {
      assert RoundUpDivision(n, 5) == 1;
    }
    assert RoundUpDivision(250, 5) == 50;
    assert RoundUpDivision(1000, 5) == 200;
    assert RoundUpDivision(200, 60) == 4;
    assert RoundUpDivision(200, 4) == 50;
  }

  /** For every changed-line count up to IntMax - 4, no intermediate value of
      the estimate leaves the range of a Java `int`: neither the sums
      `number + divisor - 1` that each of the three roundUpDivision calls
      forms, nor the sums `number + 4` of the two roundings, nor the reviewer
      count. So the unbounded arithmetic of this model is the source's
      32-bit arithmetic. */
  lemma EstimateFitsInJavaInt(changedLinesCount: int)
    requires 0 < changedLinesCount <= IntMax - 4
    ensures var e := EstimateEffort(changedLinesCount);
      && changedLinesCount + 5 - 1 <= IntMax
      && e.totalReviewTime + 4 <= IntMax
      && e.roundedReviewTime + 60 - 1 <= IntMax
      && e.roundedReviewTime + e.reviewSessionsCount - 1 <= IntMax
      && RoundUpDivision(e.roundedReviewTime, e.reviewSessionsCount) + 4 <= IntMax
      && e.reviewersCount <= IntMax
  {
    EstimateProperties(changedLinesCount);
    var e := EstimateEffort(changedLinesCount);
    var c := RoundUpDivision(changedLinesCount, 5);
    assert (c - 1) * 5 < changedLinesCount;
  }
}
