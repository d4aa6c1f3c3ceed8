/**
  The state updaters App.tsx's handlers pass to their setters and the loops
  of the animation frame callbacks: the new pivot offsets after a change to
  one joint, the pose of one calibration frame and the pose of one playback
  frame, each proved equal to the function in Propagation or Animation that
  specifies it.
*/
module Frames {

  import opened Options
  import opened Skeleton
  import opened Hierarchy
  import opened Propagation
  import opened History
  import opened Animation

  // ---------------------------------------------------------------------
  // The state updaters the handlers pass to their setters.

  /** handlePivotChange's updater: set the joint, then push the difference down the kinematic tree. */
  method PivotUpdate(t: Tree, offsets: map<Joint, real>, modes: map<Joint, Mode>, key: Joint, newValue: real)
    returns (newOffsets: map<Joint, real>)
    requires WellFormed(t) && TotalOffsets(offsets) && TotalModes(modes)
    ensures newOffsets == PivotChange(t, offsets, modes, key, newValue)
  {
    var delta := newValue - offsets[key];
    if delta == 0.0 {
      newOffsets := offsets;
    } else {
      newOffsets := ApplyRecursiveEffect(t, offsets[key := newValue], modes, key, delta);
    }
  }

  /**
    The pose of one calibration frame: each joint eased from its start angle
    toward the T-pose by the eased progress; finished, and in the T-pose,
    once the progress has reached 1.
  */
  method CalibrationPoseAt(startPose: map<Joint, real>, elapsed: real, wave: real -> real) returns (nextPose: map<Joint, real>, finished: bool)
    requires TotalOffsets(startPose) && elapsed >= 0.0
    ensures nextPose == CalibrationPose(startPose, SnapOutEase(CalibrationProgress(elapsed), wave))
    ensures TotalOffsets(nextPose)
    ensures finished <==> elapsed >= CalibrationDuration
    ensures finished ==> nextPose == TPose()
  {
    var progress := CalibrationProgress(elapsed);
    var eased := SnapOutEase(progress, wave);
    nextPose := CalibrationFrameOffsets(startPose, eased);
    finished := !(progress < 1.0);
    if finished {
      CalibrationEndsInTPose(startPose, elapsed, wave);
    }
  }

  /**
    The pose of one playback frame, elapsed ms in: the step and the fraction
    of it, then the two loops interpolating between the keyframes around it;
    finished when the overall progress has reached 1.
  */
  method PlaybackPose(keys: seq<PoseState>, elapsed: real) returns (next: PoseState, finished: bool)
    requires |keys| >= 2 && elapsed >= 0.0
    requires forall i | 0 <= i < |keys| :: Complete(keys[i])
    ensures next == PlaybackFrame(keys, elapsed)
    ensures Complete(next)
    ensures finished <==> elapsed >= PlaybackDuration(|keys|)
  {
    var step := PlaybackStep(|keys|, elapsed);
    var i := step.index;
    var j := i + 1;
    FrameOfStep(keys, elapsed, i, j, step.fraction);
    var startState := keys[i];
    var endState := keys[j];
    var nextPivot := LerpFrameOffsets(startState.offsets, endState.offsets, step.fraction);
    var nextProps := LerpFrameProps(startState.props, endState.props, step.fraction);
    next := PoseState(nextPivot, nextProps);
    finished := step.finished;
  }

  // ---------------------------------------------------------------------
  // The per-frame loops over the joint and part keys.

  /** The calibration frame's loop: each joint in JOINT_KEYS order moved toward the T-pose by eased. */
  method CalibrationFrameOffsets(startPose: map<Joint, real>, eased: real) returns (nextPose: map<Joint, real>)
    requires TotalOffsets(startPose)
    ensures nextPose == CalibrationPose(startPose, eased)
  {
    nextPose := startPose;
    for i := 0 to |JointKeys|
      invariant nextPose.Keys == startPose.Keys
      invariant forall j :: nextPose[j] == if j in JointKeys[..i] then Lerp(startPose[j], TPose()[j], eased) else startPose[j]
    {
      var key := JointKeys[i];
      assert JointKeys[..i + 1] == JointKeys[..i] + [key];
      nextPose := nextPose[key := Lerp(startPose[key], TPose()[key], eased)];
    }
    KeysComplete();
    assert JointKeys[..|JointKeys|] == JointKeys;
  }

  /** The playback frame's first loop: every joint in JOINT_KEYS order at fraction u from a to b. */
  method LerpFrameOffsets(a: map<Joint, real>, b: map<Joint, real>, u: real) returns (nextPivot: map<Joint, real>)
    requires TotalOffsets(a) && TotalOffsets(b)
    ensures nextPivot == LerpOffsets(a, b, u)
  {
    nextPivot := map[];
    for i := 0 to |JointKeys|
      invariant forall j :: j in nextPivot <==> j in JointKeys[..i]
      invariant forall j | j in nextPivot :: nextPivot[j] == Lerp(a[j], b[j], u)
    {
      var k := JointKeys[i];
      assert JointKeys[..i + 1] == JointKeys[..i] + [k];
      nextPivot := nextPivot[k := Lerp(a[k], b[k], u)];
    }
    KeysComplete();
    assert JointKeys[..|JointKeys|] == JointKeys;
  }

  /** The playback frame's second loop: every part in PROP_KEYS order, width and height at fraction u from a to b. */
  method LerpFrameProps(a: map<Part, Proportion>, b: map<Part, Proportion>, u: real) returns (nextProps: map<Part, Proportion>)
    requires TotalProps(a) && TotalProps(b)
    ensures nextProps == LerpProps(a, b, u)
  {
    nextProps := map[];
    for i := 0 to |PropKeys|
      invariant forall p :: p in nextProps <==> p in PropKeys[..i]
      invariant forall p | p in nextProps :: nextProps[p] == Proportion(Lerp(a[p].w, b[p].w, u), Lerp(a[p].h, b[p].h, u))
    {
      var k := PropKeys[i];
      assert PropKeys[..i + 1] == PropKeys[..i] + [k];
      nextProps := nextProps[k := Proportion(Lerp(a[k].w, b[k].w, u), Lerp(a[k].h, b[k].h, u))];
    }
    KeysComplete();
    assert PropKeys[..|PropKeys|] == PropKeys;
  }
}
