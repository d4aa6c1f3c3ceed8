/**
  The frame arithmetic of the two animations in App.tsx: the 250 ms
  calibration that eases the figure into the T-pose, and the keyframe
  playback that spends 250 ms on each step between consecutive keyframes.

  Times are milliseconds as reals.  The easing curve's oscillating part,
  2^(-10t) * sin((10t - 0.75) * 2pi/3), is a parameter `wave`: only its
  endpoints matter here, and those the easing fixes explicitly.
*/
module Animation {

  import opened Skeleton
  import opened History

  const CalibrationDuration: real := 250.0
  const StepDuration: real := 250.0

  function Min(a: real, b: real): real {
    if a <= b then a else b
  }

  /** snapOutEase: pinned to 0 at t = 0 and to 1 at t = 1, the damped wave plus one in between. */
  function SnapOutEase(t: real, wave: real -> real): (e: real)
    ensures t == 0.0 ==> e == 0.0
    ensures t == 1.0 ==> e == 1.0
  {
    if t == 0.0 then 0.0 else if t == 1.0 then 1.0 else wave(t) + 1.0
  }

  /** a + (b - a) * u: a at u = 0, b at u = 1, between the two for u in [0, 1]. */
  function Lerp(a: real, b: real, u: real): (r: real)
    ensures u == 0.0 ==> r == a
    ensures u == 1.0 ==> r == b
    ensures 0.0 <= u <= 1.0 && a <= b ==> a <= r <= b
    ensures 0.0 <= u <= 1.0 && b <= a ==> b <= r <= a
  {
    LerpBetween(a, b, u);
    a + (b - a) * u
  }

  lemma LerpBetween(a: real, b: real, u: real)
    ensures 0.0 <= u <= 1.0 && a <= b ==> 0.0 <= (b - a) * u <= b - a
    ensures 0.0 <= u <= 1.0 && b <= a ==> b - a <= (b - a) * u <= 0.0
  {
    if 0.0 <= u <= 1.0 {
      var d := b - a;
      assert d * u + d * (1.0 - u) == d;
      NonnegativeProduct(if a <= b then d else -d, u);
      NonnegativeProduct(if a <= b then d else -d, 1.0 - u);
    }
  }

  lemma NonnegativeProduct(x: real, y: real)
    ensures x >= 0.0 && y >= 0.0 ==> x * y >= 0.0
  {
  }

  // ---------------------------------------------------------------------
  // Calibration.

  /** The calibration's progress: elapsed / 250 capped at 1; it reaches 1 exactly when 250 ms have passed. */
  function CalibrationProgress(elapsed: real): (p: real)
    ensures p <= 1.0
    ensures p == 1.0 <==> elapsed >= CalibrationDuration
    ensures elapsed >= 0.0 ==> p >= 0.0
    ensures elapsed == 0.0 ==> p == 0.0
  {
    Min(elapsed / CalibrationDuration, 1.0)
  }

  /** Each joint moved from its start angle toward the T-pose by the eased progress. */
  function CalibrationPose(start: map<Joint, real>, eased: real): (m: map<Joint, real>)
    requires TotalOffsets(start)
    ensures TotalOffsets(m)
  {
    KeysComplete();
    map j | j in JointKeys :: Lerp(start[j], TPose()[j], eased)
  }

  /** Every calibration frame is start * (1 - eased): the T-pose is all zeros. */
  lemma CalibrationScalesStart(start: map<Joint, real>, eased: real, j: Joint)
    requires TotalOffsets(start)
    ensures CalibrationPose(start, eased)[j] == start[j] * (1.0 - eased)
  {
    JointListed(j);
  }

  /** The first calibration frame shows the start pose. */
  lemma CalibrationStartsAtStart(start: map<Joint, real>, wave: real -> real)
    requires TotalOffsets(start)
    ensures CalibrationPose(start, SnapOutEase(CalibrationProgress(0.0), wave)) == start
  {
    var m := CalibrationPose(start, 0.0);
    forall j ensures m[j] == start[j] {
      JointListed(j);
    }
  }

  /** From 250 ms on the frame is the T-pose, whatever the start pose. */
  lemma CalibrationEndsInTPose(start: map<Joint, real>, elapsed: real, wave: real -> real)
    requires TotalOffsets(start) && elapsed >= CalibrationDuration
    ensures CalibrationPose(start, SnapOutEase(CalibrationProgress(elapsed), wave)) == TPose()
  {
    var m := CalibrationPose(start, 1.0);
    forall j ensures m[j] == TPose()[j] {
      JointListed(j);
    }
  }

  // ---------------------------------------------------------------------
  // Keyframe playback.

  /** Which step of the playback a frame is in, how far along it, and whether playback is over. */
  datatype Step = Step(index: nat, fraction: real, finished: bool)

  /** The playback of n keyframes lasts (n - 1) * 250 ms. */
  function PlaybackDuration(n: nat): real
    requires n >= 2
  {
    (n - 1) as real * StepDuration
  }

  /**
    exactIndex of playTimelapse: how many steps into the playback a frame is,
    fractional part included.  The source computes it as the overall
    progress capped at 1, times the n - 1 steps; over the reals that is the
    elapsed time in steps, capped at n - 1 (PlaybackPositionAsWritten).
  */
  function PlaybackPosition(n: nat, elapsed: real): (x: real)
    requires n >= 2 && elapsed >= 0.0
    ensures 0.0 <= x <= (n - 1) as real
    ensures x == (n - 1) as real <==> elapsed >= PlaybackDuration(n)
  {
    Min(elapsed / StepDuration, (n - 1) as real)
  }

  /** The source's formulas for exactIndex and for the end test give PlaybackPosition and the end of the last step. */
  lemma PlaybackPositionAsWritten(n: nat, elapsed: real)
    requires n >= 2 && elapsed >= 0.0
    ensures Min(elapsed / PlaybackDuration(n), 1.0) * (n - 1) as real == PlaybackPosition(n, elapsed)
    ensures Min(elapsed / PlaybackDuration(n), 1.0) < 1.0 <==> elapsed < PlaybackDuration(n)
  {
    var steps := (n - 1) as real;
    var d := PlaybackDuration(n);
    assert d == steps * StepDuration;
    if elapsed < d {
      assert elapsed / d * steps == elapsed / StepDuration;
    }
  }

  /**
    The frame computation of playTimelapse: the step index is the floor of
    the position, kept below the last keyframe, and the fraction is what is
    left over; the playback is over once the overall progress reaches 1.
  */
  function PlaybackStep(n: nat, elapsed: real): (s: Step)
    requires n >= 2 && elapsed >= 0.0
    ensures s.index <= n - 2
    ensures 0.0 <= s.fraction <= 1.0
    ensures s.finished <==> elapsed >= PlaybackDuration(n)
  {
    var exact := PlaybackPosition(n, elapsed);
    var i: nat := if exact.Floor <= n - 2 then exact.Floor else n - 2;
    Step(i, exact - i as real, exact == (n - 1) as real)
  }

  /** At k * 250 ms the playback stands exactly on keyframe k: the start of step k, or the end of the last step. */
  lemma PlaybackReachesKeyframe(n: nat, k: nat)
    requires n >= 2 && k <= n - 1
    ensures var s := PlaybackStep(n, k as real * StepDuration);
      && (k < n - 1 ==> s.index == k && s.fraction == 0.0)
      && (k == n - 1 ==> s.index == k - 1 && s.fraction == 1.0)
  {
    assert PlaybackPosition(n, k as real * StepDuration) == k as real;
  }

  /** Every joint at fraction u of the way from one keyframe's angle to the next's. */
  function LerpOffsets(a: map<Joint, real>, b: map<Joint, real>, u: real): (m: map<Joint, real>)
    requires TotalOffsets(a) && TotalOffsets(b)
    ensures TotalOffsets(m)
  {
    KeysComplete();
    map j | j in JointKeys :: Lerp(a[j], b[j], u)
  }

  /** Every part's width and height at fraction u of the way from one keyframe to the next. */
  function LerpProps(a: map<Part, Proportion>, b: map<Part, Proportion>, u: real): (m: map<Part, Proportion>)
    requires TotalProps(a) && TotalProps(b)
    ensures TotalProps(m)
  {
    KeysComplete();
    map p | p in PropKeys :: Proportion(Lerp(a[p].w, b[p].w, u), Lerp(a[p].h, b[p].h, u))
  }

  /** The pose shown elapsed ms into the playback of keys. */
  function PlaybackFrame(keys: seq<PoseState>, elapsed: real): (f: PoseState)
    requires |keys| >= 2 && elapsed >= 0.0
    requires forall i | 0 <= i < |keys| :: Complete(keys[i])
    ensures Complete(f)
  {
    var s := PlaybackStep(|keys|, elapsed);
    assert Complete(keys[s.index]) && Complete(keys[s.index + 1]);
    Between(keys[s.index], keys[s.index + 1], s.fraction)
  }

  /** The pose at fraction u of the way from a to b, angles and proportions alike. */
  function Between(a: PoseState, b: PoseState, u: real): (f: PoseState)
    requires Complete(a) && Complete(b)
    ensures Complete(f)
  {
    PoseState(LerpOffsets(a.offsets, b.offsets, u), LerpProps(a.props, b.props, u))
  }

  /** Interpolating at 0 gives the first pose and at 1 the second. */
  lemma LerpEndpoints(a: PoseState, b: PoseState)
    requires Complete(a) && Complete(b)
    ensures Between(a, b, 0.0) == a
    ensures Between(a, b, 1.0) == b
  {
    KeysComplete();
    assert LerpOffsets(a.offsets, b.offsets, 0.0) == a.offsets;
    assert LerpOffsets(a.offsets, b.offsets, 1.0) == b.offsets;
    assert LerpProps(a.props, b.props, 0.0) == a.props;
    assert LerpProps(a.props, b.props, 1.0) == b.props;
  }

  /** The playback passes through every keyframe: at k * 250 ms it shows keyframe k exactly. */
  lemma PlaybackShowsKeyframe(keys: seq<PoseState>, k: nat)
    requires |keys| >= 2 && k < |keys|
    requires forall i | 0 <= i < |keys| :: Complete(keys[i])
    ensures PlaybackFrame(keys, k as real * StepDuration) == keys[k]
  {
    if k < |keys| - 1 {
      PlaybackShowsStepStart(keys, k);
    } else {
      PlaybackShowsLastKeyframe(keys, k);
    }
  }

  /** At k * 250 ms, before the last keyframe, the frame is the start of step k. */
  lemma PlaybackShowsStepStart(keys: seq<PoseState>, k: nat)
    requires |keys| >= 2 && k < |keys| - 1
    requires forall i | 0 <= i < |keys| :: Complete(keys[i])
    ensures PlaybackFrame(keys, k as real * StepDuration) == keys[k]
  {
    var e := k as real * StepDuration;
    PlaybackReachesKeyframe(|keys|, k);
    assert PlaybackStep(|keys|, e).index == k && PlaybackStep(|keys|, e).fraction == 0.0;
    var j := k + 1;
    FrameOfStep(keys, e, k, j, 0.0);
    assert PlaybackFrame(keys, e) == Between(keys[k], keys[j], 0.0);
    StepEndpoints(keys, k, j);
  }

  /** At (n - 1) * 250 ms the frame is the end of the last step. */
  lemma PlaybackShowsLastKeyframe(keys: seq<PoseState>, k: nat)
    requires |keys| >= 2 && k == |keys| - 1
    requires forall i | 0 <= i < |keys| :: Complete(keys[i])
    ensures PlaybackFrame(keys, k as real * StepDuration) == keys[k]
  {
    var e := k as real * StepDuration;
    PlaybackReachesKeyframe(|keys|, k);
    assert PlaybackStep(|keys|, e).index == k - 1 && PlaybackStep(|keys|, e).fraction == 1.0;
    FrameOfStep(keys, e, k - 1, k, 1.0);
    assert PlaybackFrame(keys, e) == Between(keys[k - 1], keys[k], 1.0);
    StepEndpoints(keys, k - 1, k);
  }

  /** A step starts on one keyframe and ends on the next. */
  lemma StepEndpoints(keys: seq<PoseState>, i: nat, j: nat)
    requires j < |keys| && j == i + 1
    requires forall i | 0 <= i < |keys| :: Complete(keys[i])
    ensures Between(keys[i], keys[j], 0.0) == keys[i]
    ensures Between(keys[i], keys[j], 1.0) == keys[j]
  {
    LerpEndpoints(keys[i], keys[j]);
  }

  /** A frame is the interpolation between the two keyframes around its step. */
  lemma FrameOfStep(keys: seq<PoseState>, elapsed: real, i: nat, j: nat, u: real)
    requires |keys| >= 2 && elapsed >= 0.0
    requires forall i | 0 <= i < |keys| :: Complete(keys[i])
    requires PlaybackStep(|keys|, elapsed).index == i && PlaybackStep(|keys|, elapsed).fraction == u && j == i + 1
    ensures j < |keys|
    ensures PlaybackFrame(keys, elapsed) == Between(keys[i], keys[j], u)
  {
    var s := PlaybackStep(|keys|, elapsed);
    assert keys[s.index] == keys[i];
    assert keys[s.index + 1] == keys[j];
    assert Between(keys[s.index], keys[s.index + 1], s.fraction) == Between(keys[i], keys[j], u);
  }

  /** Once the playback is over the last keyframe stays on screen. */
  lemma PlaybackEndsOnLastKeyframe(keys: seq<PoseState>, elapsed: real)
    requires |keys| >= 2 && elapsed >= PlaybackDuration(|keys|)
    requires forall i | 0 <= i < |keys| :: Complete(keys[i])
    ensures PlaybackFrame(keys, elapsed) == keys[|keys| - 1]
  {
    PlaybackReachesKeyframe(|keys|, |keys| - 1);
    PlaybackEndsLikeLastStep(|keys|, elapsed);
    PlaybackShowsKeyframe(keys, |keys| - 1);
  }

  /** Past the end the step is the same as at the end. */
  lemma PlaybackEndsLikeLastStep(n: nat, elapsed: real)
    requires n >= 2 && elapsed >= PlaybackDuration(n)
    ensures PlaybackStep(n, elapsed) == PlaybackStep(n, (n - 1) as real * StepDuration)
  {
  }
}
