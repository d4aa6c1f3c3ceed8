/**
  Forward kinematics of the mannequin (globalTransforms in components/Mannequin.tsx).

  Every body part gets an absolute position and rotation.  A rotation is the
  parent's absolute rotation plus the local rotation of the driving joint (the
  base pose value plus the pivot offset, a missing key counting as 0); the
  upper arms add a fixed quarter turn.  A position is the parent's position
  plus the parent's segment vector turned by the parent's rotation.

  rotateVec is a parameter (its cosine and sine are not modelled), and so are
  the anatomy constants, which live in a constants file that is not part of
  this model.
*/
module Kinematics {

  import opened Options
  import opened Skeleton
  import opened Hierarchy

  datatype Vec = Vec(x: real, y: real)

  /** Where a part is attached and how it is turned. */
  datatype Transform = Transform(position: Vec, rotation: real)

  /** The two proportion components. */
  datatype Axis = W | H

  /** The two sides the arm and leg chains are built for. */
  datatype Side = Right | Left

  /**
    The raw segment lengths in head units (ANATOMY_RAW_RELATIVE_TO_BASE_HEAD_UNIT)
    and the shoulder offsets from the collar centre (RIGGING) the chains use.
  */
  datatype Anatomy = Anatomy(
    waist: real, torso: real, collar: real,
    upperArm: real, lowerArm: real,
    legUpper: real, legLower: real, foot: real,
    rShoulderX: real, lShoulderX: real)

  /** A rotation of a vector by an angle in degrees (rotateVec). */
  type Rotation = (Vec, real) -> Vec

  /** rotateVec applied; every chain turns its segments through this one function. */
  function Turn(rotate: Rotation, v: Vec, deg: real): Vec {
    rotate(v, deg)
  }

  function AddVec(a: Vec, b: Vec): Vec {
    Vec(a.x + b.x, a.y + b.y)
  }

  /** The proportions in use: overrideProps when given, else props. */
  function ActiveProps(props: map<Part, Proportion>, overrideProps: Option<map<Part, Proportion>>): (r: map<Part, Proportion>)
    ensures overrideProps.Some? ==> r == overrideProps.value
    ensures overrideProps.None? ==> r == props
  {
    match overrideProps
    case Some(o) => o
    case None => props
  }

  /** One component of a proportion. */
  function Component(pr: Proportion, axis: Axis): real {
    match axis
    case W => pr.w
    case H => pr.h
  }

  /** The scale of one part along one axis; a missing part or a zero component counts as 1. */
  function Factor(active: map<Part, Proportion>, key: Part, axis: Axis): (f: real)
    ensures f != 0.0
    ensures key in active && Component(active[key], axis) != 0.0 ==> f == Component(active[key], axis)
    ensures key !in active || Component(active[key], axis) == 0.0 ==> f == 1.0
  {
    if key in active && Component(active[key], axis) != 0.0 then Component(active[key], axis) else 1.0
  }

  /** getScaledDimension. */
  function ScaledDimension(raw: real, baseUnitH: real, active: map<Part, Proportion>, key: Part, axis: Axis): (d: real)
    ensures key !in active ==> d == raw * baseUnitH
    ensures raw * baseUnitH == 0.0 <==> d == 0.0
  {
    raw * baseUnitH * Factor(active, key, axis)
  }

  /** getRot: the base pose value plus the pivot offset, a missing key counting as 0. */
  function GetRot(pose: map<Joint, real>, offsets: map<Joint, real>, key: Joint): (r: real)
    ensures key !in pose && key !in offsets ==> r == 0.0
    ensures key !in pose && key in offsets ==> r == offsets[key]
  {
    Get(pose, key) + Get(offsets, key)
  }

  /** The quarter turn an upper arm adds to the collar's rotation. */
  function BaseTurn(j: Joint): real {
    if j == LShoulder then 90.0 else if j == RShoulder then -90.0 else 0.0
  }

  /** The shoulder's sideways offset from the collar centre (RIGGING, in head units) scaled by the head unit. */
  function ShoulderX(an: Anatomy, u: real, s: Side): real {
    (if s == Right then an.rShoulderX else an.lShoulderX) * u
  }

  /** The joints and parts of the trunk chain: waist, torso, collar, head. */
  function TrunkJoints(): (r: seq<Joint>)
    ensures |r| == 4
  {
    [Joint.Waist, Joint.Torso, Joint.Collar, Neck]
  }

  function TrunkParts(): (r: seq<Part>)
    ensures |r| == 4
  {
    [Part.Waist, Part.Torso, Part.Collar, Head]
  }

  /** The joints and parts of one side's arm chain: shoulder, elbow, hand. */
  function ArmJoints(s: Side): (r: seq<Joint>)
    ensures |r| == 3
  {
    if s == Left then [LShoulder, LElbow, Joint.LHand] else [RShoulder, RElbow, Joint.RHand]
  }

  function ArmParts(s: Side): (r: seq<Part>)
    ensures |r| == 3
  {
    if s == Left then [LUpperArm, LLowerArm, Part.LHand] else [RUpperArm, RLowerArm, Part.RHand]
  }

  /** The joints and parts of one side's leg chain: hip, knee, foot, toe. */
  function LegJoints(s: Side): (r: seq<Joint>)
    ensures |r| == 4
  {
    if s == Left then [LHip, LKnee, Joint.LFoot, Joint.LToe] else [RHip, RKnee, Joint.RFoot, Joint.RToe]
  }

  function LegParts(s: Side): (r: seq<Part>)
    ensures |r| == 4
  {
    if s == Left then [LUpperLeg, LLowerLeg, Part.LFoot, Part.LToe] else [RUpperLeg, RLowerLeg, Part.RFoot, Part.RToe]
  }

  /** Waist, torso, collar and head: the trunk chain. */
  function Trunk(rotate: Rotation, an: Anatomy, u: real, active: map<Part, Proportion>,
                 pose: map<Joint, real>, offsets: map<Joint, real>): (tr: seq<Transform>)
    ensures |tr| == 4
  {
    var waistLen := ScaledDimension(an.waist, u, active, Part.Waist, H);
    var waistRot := GetRot(pose, offsets, Joint.Waist);
    var waist := Transform(Vec(0.0, 0.0), waistRot);
    var torsoLen := ScaledDimension(an.torso, u, active, Part.Torso, H);
    var torsoRot := waistRot + GetRot(pose, offsets, Joint.Torso);
    var torso := Transform(AddVec(waist.position, Turn(rotate, Vec(0.0, -waistLen), waistRot)), torsoRot);
    var collarLen := ScaledDimension(an.collar, u, active, Part.Collar, H);
    var collarRot := torsoRot + GetRot(pose, offsets, Joint.Collar);
    var collar := Transform(AddVec(torso.position, Turn(rotate, Vec(0.0, -torsoLen), torsoRot)), collarRot);
    var neckRot := collarRot + GetRot(pose, offsets, Neck);
    var head := Transform(AddVec(collar.position, Turn(rotate, Vec(0.0, -collarLen), collarRot)), neckRot);
    [waist, torso, collar, head]
  }

  /** One side of the arm loop: upper arm, lower arm, hand, hung from the collar. */
  function Arm(rotate: Rotation, an: Anatomy, u: real, active: map<Part, Proportion>,
               pose: map<Joint, real>, offsets: map<Joint, real>, collar: Transform, s: Side): (arm: seq<Transform>)
    ensures |arm| == 3
  {
    var js, ps := ArmJoints(s), ArmParts(s);
    var sx := ShoulderX(an, u, s);
    var baseShoulderRot := if s == Left then 90.0 else -90.0;
    var collarLen := ScaledDimension(an.collar, u, active, Part.Collar, H);
    var shRot := collar.rotation + baseShoulderRot + GetRot(pose, offsets, js[0]);
    var collarEnd := AddVec(collar.position, Turn(rotate, Vec(0.0, -collarLen), collar.rotation));
    var shPos := AddVec(collarEnd, Turn(rotate, Vec(sx, 0.0), collar.rotation));
    var upLen := ScaledDimension(an.upperArm, u, active, ps[0], H);
    var elRot := shRot + GetRot(pose, offsets, js[1]);
    var elPos := AddVec(shPos, Turn(rotate, Vec(0.0, upLen), shRot));
    var handRot := elRot + GetRot(pose, offsets, js[2]);
    var lowLen := ScaledDimension(an.lowerArm, u, active, ps[1], H);
    [Transform(shPos, shRot), Transform(elPos, elRot), Transform(AddVec(elPos, Turn(rotate, Vec(0.0, lowLen), elRot)), handRot)]
  }

  /** One side of the leg loop: upper leg, lower leg, foot, toe, hung from the waist. */
  function Leg(rotate: Rotation, an: Anatomy, u: real, active: map<Part, Proportion>,
               pose: map<Joint, real>, offsets: map<Joint, real>, waist: Transform, s: Side): (leg: seq<Transform>)
    ensures |leg| == 4
  {
    var js, ps := LegJoints(s), LegParts(s);
    var hipRot := waist.rotation + GetRot(pose, offsets, js[0]);
    var thighLen := ScaledDimension(an.legUpper, u, active, ps[0], H);
    var kneeRot := hipRot + GetRot(pose, offsets, js[1]);
    var kneePos := AddVec(waist.position, Turn(rotate, Vec(0.0, thighLen), hipRot));
    var calfLen := ScaledDimension(an.legLower, u, active, ps[1], H);
    var ankleRot := kneeRot + GetRot(pose, offsets, js[2]);
    var anklePos := AddVec(kneePos, Turn(rotate, Vec(0.0, calfLen), kneeRot));
    var footLen := ScaledDimension(an.foot, u, active, ps[2], H);
    var toeRot := ankleRot + GetRot(pose, offsets, js[3]);
    [Transform(waist.position, hipRot), Transform(kneePos, kneeRot), Transform(anklePos, ankleRot),
     Transform(AddVec(anklePos, Turn(rotate, Vec(0.0, footLen), ankleRot)), toeRot)]
  }

  /** Where a part sits in the loops of globalTransforms: the trunk, or one side's arm or leg, at an index. */
  datatype Place = InTrunk(i: nat) | InArm(side: Side, i: nat) | InLeg(side: Side, i: nat)

  function PlaceOf(p: Part): (pl: Place)
    ensures pl.InTrunk? ==> pl.i < 4 && TrunkParts()[pl.i] == p && TrunkJoints()[pl.i] == DriverOf(p)
    ensures pl.InArm? ==> pl.i < 3 && ArmParts(pl.side)[pl.i] == p && ArmJoints(pl.side)[pl.i] == DriverOf(p)
    ensures pl.InLeg? ==> pl.i < 4 && LegParts(pl.side)[pl.i] == p && LegJoints(pl.side)[pl.i] == DriverOf(p)
  {
    match p
    case Waist => InTrunk(0)
    case Torso => InTrunk(1)
    case Collar => InTrunk(2)
    case Head => InTrunk(3)
    case RUpperArm => InArm(Right, 0)
    case RLowerArm => InArm(Right, 1)
    case RHand => InArm(Right, 2)
    case LUpperArm => InArm(Left, 0)
    case LLowerArm => InArm(Left, 1)
    case LHand => InArm(Left, 2)
    case RUpperLeg => InLeg(Right, 0)
    case RLowerLeg => InLeg(Right, 1)
    case RFoot => InLeg(Right, 2)
    case RToe => InLeg(Right, 3)
    case LUpperLeg => InLeg(Left, 0)
    case LLowerLeg => InLeg(Left, 1)
    case LFoot => InLeg(Left, 2)
    case LToe => InLeg(Left, 3)
  }

  /** The parts of every chain are driven by the chain's joints, index by index. */
  lemma ChainDrivers()
    ensures forall i | 0 <= i < 4 :: DriverOf(TrunkParts()[i]) == TrunkJoints()[i]
    ensures forall s, i | 0 <= i < 3 :: DriverOf(ArmParts(s)[i]) == ArmJoints(s)[i]
    ensures forall s, i | 0 <= i < 4 :: DriverOf(LegParts(s)[i]) == LegJoints(s)[i]
  {
  }

  /** The transform of one part: its entry in the chain it belongs to. */
  function PartTransform(rotate: Rotation, an: Anatomy, u: real, active: map<Part, Proportion>,
                         pose: map<Joint, real>, offsets: map<Joint, real>, p: Part): Transform
  {
    var tr := Trunk(rotate, an, u, active, pose, offsets);
    match PlaceOf(p)
    case InTrunk(i) => tr[i]
    case InArm(s, i) => Arm(rotate, an, u, active, pose, offsets, tr[2], s)[i]
    case InLeg(s, i) => Leg(rotate, an, u, active, pose, offsets, tr[0], s)[i]
  }

  /** globalTransforms: a transform for every part in PROP_KEYS, built from the active proportions. */
  function GlobalTransforms(rotate: Rotation, an: Anatomy, u: real, props: map<Part, Proportion>,
                            overrideProps: Option<map<Part, Proportion>>,
                            pose: map<Joint, real>, offsets: map<Joint, real>): (trans: map<Part, Transform>)
    ensures forall p: Part :: p in trans
  {
    KeysComplete();
    var active := ActiveProps(props, overrideProps);
    map p | p in PropKeys :: PartTransform(rotate, an, u, active, pose, offsets, p)
  }

  /** Looking up one part in the global transforms. */
  lemma Lookup(rotate: Rotation, an: Anatomy, u: real, props: map<Part, Proportion>,
               ov: Option<map<Part, Proportion>>, pose: map<Joint, real>, offsets: map<Joint, real>, p: Part)
    ensures GlobalTransforms(rotate, an, u, props, ov, pose, offsets)[p]
         == PartTransform(rotate, an, u, ActiveProps(props, ov), pose, offsets, p)
  {
    PartListed(p);
  }

  // ---------------------------------------------------------------------
  // What each chain computes, step by step.

  /**
    A part at unit proportions (as every part is under ATOMIC_PROPS) has every
    scaled dimension equal to the raw length times the head unit.
  */
  lemma UnitScale(raw: real, u: real, active: map<Part, Proportion>, key: Part, axis: Axis)
    requires key in active && active[key] == Proportion(1.0, 1.0)
    ensures ScaledDimension(raw, u, active, key, axis) == raw * u
  {
    assert Factor(active, key, axis) == 1.0;
  }

  /** The waist is at the origin, turned by its own local rotation. */
  lemma WaistAtOrigin(rotate: Rotation, an: Anatomy, u: real, props: map<Part, Proportion>,
                      ov: Option<map<Part, Proportion>>, pose: map<Joint, real>, offsets: map<Joint, real>)
    ensures var trans := GlobalTransforms(rotate, an, u, props, ov, pose, offsets);
      trans[Part.Waist] == Transform(Vec(0.0, 0.0), GetRot(pose, offsets, Joint.Waist))
  {
    Lookup(rotate, an, u, props, ov, pose, offsets, Part.Waist);
  }

  /** The trunk chains up from the waist at the origin: each later segment starts at the end of the previous one, turned by its rotation, and adds its joint's local rotation. */
  lemma TrunkChain(rotate: Rotation, an: Anatomy, u: real, active: map<Part, Proportion>,
                   pose: map<Joint, real>, offsets: map<Joint, real>)
    ensures var tr := Trunk(rotate, an, u, active, pose, offsets);
      && tr[0] == Transform(Vec(0.0, 0.0), GetRot(pose, offsets, Joint.Waist))
      && tr[1].rotation == tr[0].rotation + GetRot(pose, offsets, Joint.Torso)
      && tr[2].rotation == tr[1].rotation + GetRot(pose, offsets, Joint.Collar)
      && tr[3].rotation == tr[2].rotation + GetRot(pose, offsets, Neck)
      && tr[1].position == AddVec(tr[0].position, Turn(rotate, Vec(0.0, -ScaledDimension(an.waist, u, active, Part.Waist, H)), tr[0].rotation))
      && tr[2].position == AddVec(tr[1].position, Turn(rotate, Vec(0.0, -ScaledDimension(an.torso, u, active, Part.Torso, H)), tr[1].rotation))
      && tr[3].position == AddVec(tr[2].position, Turn(rotate, Vec(0.0, -ScaledDimension(an.collar, u, active, Part.Collar, H)), tr[2].rotation))
  {
  }

  /**
    Each arm hangs from the collar: the shoulder sits at the collar's end (where
    the head starts) moved sideways by the shoulder offset in the collar's frame,
    and turns a quarter turn beyond the collar plus its own local rotation;
    elbow and hand follow like the leg segments.
  */
  lemma ArmChain(rotate: Rotation, an: Anatomy, u: real, active: map<Part, Proportion>,
                 pose: map<Joint, real>, offsets: map<Joint, real>, collar: Transform, s: Side)
    ensures var arm := Arm(rotate, an, u, active, pose, offsets, collar, s);
      var js, ps := ArmJoints(s), ArmParts(s);
      var collarEnd := AddVec(collar.position, Turn(rotate, Vec(0.0, -ScaledDimension(an.collar, u, active, Part.Collar, H)), collar.rotation));
      && arm[0].position == AddVec(collarEnd, Turn(rotate, Vec(ShoulderX(an, u, s), 0.0), collar.rotation))
      && arm[0].rotation == collar.rotation + BaseTurn(js[0]) + GetRot(pose, offsets, js[0])
      && arm[1].rotation == arm[0].rotation + GetRot(pose, offsets, js[1])
      && arm[2].rotation == arm[1].rotation + GetRot(pose, offsets, js[2])
      && arm[1].position == AddVec(arm[0].position, Turn(rotate, Vec(0.0, ScaledDimension(an.upperArm, u, active, ps[0], H)), arm[0].rotation))
      && arm[2].position == AddVec(arm[1].position, Turn(rotate, Vec(0.0, ScaledDimension(an.lowerArm, u, active, ps[1], H)), arm[1].rotation))
  {
    if s == Left {
      assert BaseTurn(ArmJoints(s)[0]) == 90.0;
    } else {
      assert BaseTurn(ArmJoints(s)[0]) == -90.0;
    }
  }

  /** Each leg chains off the waist's own position: a rotation adds the joint's local rotation to the previous one, a position adds the previous segment turned by the previous rotation. */
  lemma LegChain(rotate: Rotation, an: Anatomy, u: real, active: map<Part, Proportion>,
                 pose: map<Joint, real>, offsets: map<Joint, real>, waist: Transform, s: Side)
    ensures var leg := Leg(rotate, an, u, active, pose, offsets, waist, s);
      var js, ps := LegJoints(s), LegParts(s);
      && leg[0] == Transform(waist.position, waist.rotation + GetRot(pose, offsets, js[0]))
      && leg[1].rotation == leg[0].rotation + GetRot(pose, offsets, js[1])
      && leg[2].rotation == leg[1].rotation + GetRot(pose, offsets, js[2])
      && leg[3].rotation == leg[2].rotation + GetRot(pose, offsets, js[3])
      && leg[1].position == AddVec(leg[0].position, Turn(rotate, Vec(0.0, ScaledDimension(an.legUpper, u, active, ps[0], H)), leg[0].rotation))
      && leg[2].position == AddVec(leg[1].position, Turn(rotate, Vec(0.0, ScaledDimension(an.legLower, u, active, ps[1], H)), leg[1].rotation))
      && leg[3].position == AddVec(leg[2].position, Turn(rotate, Vec(0.0, ScaledDimension(an.foot, u, active, ps[2], H)), leg[2].rotation))
  {
  }

  // ---------------------------------------------------------------------
  // An independent reference: transforms read off the kinematic tree.

  /** The absolute rotation the tree implies for a joint: its own local rotation (and an upper arm's quarter turn) on top of its parent's. */
  function AbsoluteRotation(pose: map<Joint, real>, offsets: map<Joint, real>, j: Joint): real
    decreases Depth(j)
  {
    BaseTurn(j) + GetRot(pose, offsets, j) +
      match Parent(j)
      case None => 0.0
      case Some(q) => AbsoluteRotation(pose, offsets, q)
  }

  /** The raw length of the segment a part draws; the head, hands and toes carry nothing below them. */
  function RawLength(an: Anatomy, p: Part): real {
    match p
    case Waist => an.waist
    case Torso => an.torso
    case Collar => an.collar
    case LUpperArm => an.upperArm
    case RUpperArm => an.upperArm
    case LLowerArm => an.lowerArm
    case RLowerArm => an.lowerArm
    case LUpperLeg => an.legUpper
    case RUpperLeg => an.legUpper
    case LLowerLeg => an.legLower
    case RLowerLeg => an.legLower
    case LFoot => an.foot
    case RFoot => an.foot
    case _ => 0.0
  }

  /** A part's segment before turning: up the trunk, down the limbs. */
  function Segment(an: Anatomy, u: real, active: map<Part, Proportion>, p: Part): Vec {
    var len := ScaledDimension(RawLength(an, p), u, active, p, H);
    if p == Part.Waist || p == Part.Torso || p == Part.Collar then Vec(0.0, -len) else Vec(0.0, len)
  }

  /**
    Where joint j attaches below its parent q, given q's position and absolute
    rotation: at the end of q's turned segment, except that the hips attach at
    the waist's own position and the shoulders are moved sideways from the
    collar's end in the collar's frame.
  */
  function Attach(rotate: Rotation, an: Anatomy, u: real, active: map<Part, Proportion>,
                  q: Joint, j: Joint, pos: Vec, rot: real): Vec
  {
    var segmentEnd := AddVec(pos, Turn(rotate, Segment(an, u, active, PartOf(q)), rot));
    if j == LHip || j == RHip then pos
    else if j == LShoulder then AddVec(segmentEnd, Turn(rotate, Vec(ShoulderX(an, u, Left), 0.0), rot))
    else if j == RShoulder then AddVec(segmentEnd, Turn(rotate, Vec(ShoulderX(an, u, Right), 0.0), rot))
    else segmentEnd
  }

  /** The position the tree implies for the part a joint drives. */
  function JointPosition(rotate: Rotation, an: Anatomy, u: real, active: map<Part, Proportion>,
                         pose: map<Joint, real>, offsets: map<Joint, real>, j: Joint): Vec
    decreases Depth(j)
  {
    match Parent(j)
    case None => Vec(0.0, 0.0)
    case Some(q) =>
      Attach(rotate, an, u, active, q, j, JointPosition(rotate, an, u, active, pose, offsets, q), AbsoluteRotation(pose, offsets, q))
  }

  /** Unfolding the absolute rotation at one joint. */
  lemma AbsoluteRotationStep(pose: map<Joint, real>, offsets: map<Joint, real>, q: Joint, j: Joint)
    requires Parent(j) == Some(q)
    ensures AbsoluteRotation(pose, offsets, j) == BaseTurn(j) + GetRot(pose, offsets, j) + AbsoluteRotation(pose, offsets, q)
  {
  }

  /** Unfolding the position at one joint. */
  lemma JointPositionStep(rotate: Rotation, an: Anatomy, u: real, active: map<Part, Proportion>,
                          pose: map<Joint, real>, offsets: map<Joint, real>, q: Joint, j: Joint)
    requires Parent(j) == Some(q)
    ensures JointPosition(rotate, an, u, active, pose, offsets, j)
         == Attach(rotate, an, u, active, q, j, JointPosition(rotate, an, u, active, pose, offsets, q), AbsoluteRotation(pose, offsets, q))
  {
  }

  /**
    One step down the tree: if the parent's transform is the tree's and the
    child's rotation and position are built from it as the tree says, the
    child's transform is the tree's too.
  */
  lemma FrameStep(rotate: Rotation, an: Anatomy, u: real, active: map<Part, Proportion>,
                  pose: map<Joint, real>, offsets: map<Joint, real>, q: Joint, j: Joint, above: Transform, here: Transform)
    requires Parent(j) == Some(q)
    requires above == Transform(JointPosition(rotate, an, u, active, pose, offsets, q), AbsoluteRotation(pose, offsets, q))
    requires here.rotation == above.rotation + BaseTurn(j) + GetRot(pose, offsets, j)
    requires here.position == Attach(rotate, an, u, active, q, j, above.position, above.rotation)
    ensures here == Transform(JointPosition(rotate, an, u, active, pose, offsets, j), AbsoluteRotation(pose, offsets, j))
  {
    AbsoluteRotationStep(pose, offsets, q, j);
    JointPositionStep(rotate, an, u, active, pose, offsets, q, j);
  }

  /** The trunk's transforms are the tree's, joint by joint. */
  lemma TrunkFrames(rotate: Rotation, an: Anatomy, u: real, active: map<Part, Proportion>,
                    pose: map<Joint, real>, offsets: map<Joint, real>)
    ensures var tr := Trunk(rotate, an, u, active, pose, offsets);
      forall i | 0 <= i < 4 :: tr[i] == Transform(JointPosition(rotate, an, u, active, pose, offsets, TrunkJoints()[i]),
                                                  AbsoluteRotation(pose, offsets, TrunkJoints()[i]))
  {
    var tr := Trunk(rotate, an, u, active, pose, offsets);
    TrunkChain(rotate, an, u, active, pose, offsets);
    TrunkAttach(rotate, an, u, active, tr[0].position, tr[0].rotation, tr[1].position, tr[1].rotation, tr[2].position, tr[2].rotation);
    assert tr[0] == Transform(JointPosition(rotate, an, u, active, pose, offsets, Joint.Waist), AbsoluteRotation(pose, offsets, Joint.Waist));
    FrameStep(rotate, an, u, active, pose, offsets, Joint.Waist, Joint.Torso, tr[0], tr[1]);
    FrameStep(rotate, an, u, active, pose, offsets, Joint.Torso, Joint.Collar, tr[1], tr[2]);
    FrameStep(rotate, an, u, active, pose, offsets, Joint.Collar, Neck, tr[2], tr[3]);
  }

  /** How the tree attaches the torso, collar and neck, none with a quarter turn. */
  lemma TrunkAttach(rotate: Rotation, an: Anatomy, u: real, active: map<Part, Proportion>,
                    p0: Vec, r0: real, p1: Vec, r1: real, p2: Vec, r2: real)
    ensures Attach(rotate, an, u, active, Joint.Waist, Joint.Torso, p0, r0)
         == AddVec(p0, Turn(rotate, Vec(0.0, -ScaledDimension(an.waist, u, active, Part.Waist, H)), r0))
    ensures Attach(rotate, an, u, active, Joint.Torso, Joint.Collar, p1, r1)
         == AddVec(p1, Turn(rotate, Vec(0.0, -ScaledDimension(an.torso, u, active, Part.Torso, H)), r1))
    ensures Attach(rotate, an, u, active, Joint.Collar, Neck, p2, r2)
         == AddVec(p2, Turn(rotate, Vec(0.0, -ScaledDimension(an.collar, u, active, Part.Collar, H)), r2))
    ensures BaseTurn(Joint.Torso) == 0.0 && BaseTurn(Joint.Collar) == 0.0 && BaseTurn(Neck) == 0.0
  {
  }

  /** Each arm's joints hang one below the other from the collar; only the shoulder has a quarter turn. */
  lemma ArmJointsHang(s: Side)
    ensures Parent(ArmJoints(s)[0]) == Some(Joint.Collar)
    ensures forall i | 0 < i < 3 :: Parent(ArmJoints(s)[i]) == Some(ArmJoints(s)[i - 1])
    ensures forall i | 0 < i < 3 :: BaseTurn(ArmJoints(s)[i]) == 0.0
  {
  }

  /** How the tree attaches each joint of an arm. */
  lemma ArmAttach(rotate: Rotation, an: Anatomy, u: real, active: map<Part, Proportion>, s: Side,
                  p0: Vec, r0: real, p1: Vec, r1: real, p2: Vec, r2: real)
    ensures Attach(rotate, an, u, active, Joint.Collar, ArmJoints(s)[0], p0, r0)
         == AddVec(AddVec(p0, Turn(rotate, Vec(0.0, -ScaledDimension(an.collar, u, active, Part.Collar, H)), r0)),
                   Turn(rotate, Vec(ShoulderX(an, u, s), 0.0), r0))
    ensures Attach(rotate, an, u, active, ArmJoints(s)[0], ArmJoints(s)[1], p1, r1)
         == AddVec(p1, Turn(rotate, Vec(0.0, ScaledDimension(an.upperArm, u, active, ArmParts(s)[0], H)), r1))
    ensures Attach(rotate, an, u, active, ArmJoints(s)[1], ArmJoints(s)[2], p2, r2)
         == AddVec(p2, Turn(rotate, Vec(0.0, ScaledDimension(an.lowerArm, u, active, ArmParts(s)[1], H)), r2))
  {
    if s == Left {
    } else {
    }
  }

  /** Each arm's transforms are the tree's, joint by joint. */
  lemma ArmFrames(rotate: Rotation, an: Anatomy, u: real, active: map<Part, Proportion>,
                  pose: map<Joint, real>, offsets: map<Joint, real>, s: Side)
    ensures var tr := Trunk(rotate, an, u, active, pose, offsets);
      var arm := Arm(rotate, an, u, active, pose, offsets, tr[2], s);
      forall i | 0 <= i < 3 :: arm[i] == Transform(JointPosition(rotate, an, u, active, pose, offsets, ArmJoints(s)[i]),
                                                   AbsoluteRotation(pose, offsets, ArmJoints(s)[i]))
  {
    var tr := Trunk(rotate, an, u, active, pose, offsets);
    TrunkFrames(rotate, an, u, active, pose, offsets);
    assert tr[2] == Transform(JointPosition(rotate, an, u, active, pose, offsets, Joint.Collar), AbsoluteRotation(pose, offsets, Joint.Collar));
    ArmFramesBelow(rotate, an, u, active, pose, offsets, tr[2], s);
  }

  /** Hung below the tree's transform of its root joint, an arm chain carries the tree's transforms. */
  lemma ArmFramesBelow(rotate: Rotation, an: Anatomy, u: real, active: map<Part, Proportion>,
                       pose: map<Joint, real>, offsets: map<Joint, real>, above: Transform, s: Side)
    requires above == Transform(JointPosition(rotate, an, u, active, pose, offsets, Joint.Collar), AbsoluteRotation(pose, offsets, Joint.Collar))
    ensures var arm := Arm(rotate, an, u, active, pose, offsets, above, s);
      forall i | 0 <= i < 3 :: arm[i] == Transform(JointPosition(rotate, an, u, active, pose, offsets, ArmJoints(s)[i]),
                                                   AbsoluteRotation(pose, offsets, ArmJoints(s)[i]))
  {
    ArmFramesEach(rotate, an, u, active, pose, offsets, above, s);
    var arm := Arm(rotate, an, u, active, pose, offsets, above, s);
    forall i | 0 <= i < 3
      ensures arm[i] == Transform(JointPosition(rotate, an, u, active, pose, offsets, ArmJoints(s)[i]),
                                  AbsoluteRotation(pose, offsets, ArmJoints(s)[i]))
    {
      assert i == 0 || i == 1 || i == 2;
    }
  }

  /** The arm chain below the collar, segment by segment. */
  lemma ArmFramesEach(rotate: Rotation, an: Anatomy, u: real, active: map<Part, Proportion>,
                      pose: map<Joint, real>, offsets: map<Joint, real>, above: Transform, s: Side)
    requires above == Transform(JointPosition(rotate, an, u, active, pose, offsets, Joint.Collar), AbsoluteRotation(pose, offsets, Joint.Collar))
    ensures var arm, js := Arm(rotate, an, u, active, pose, offsets, above, s), ArmJoints(s);
      && arm[0] == Transform(JointPosition(rotate, an, u, active, pose, offsets, js[0]), AbsoluteRotation(pose, offsets, js[0]))
      && arm[1] == Transform(JointPosition(rotate, an, u, active, pose, offsets, js[1]), AbsoluteRotation(pose, offsets, js[1]))
      && arm[2] == Transform(JointPosition(rotate, an, u, active, pose, offsets, js[2]), AbsoluteRotation(pose, offsets, js[2]))
  {
    var arm := Arm(rotate, an, u, active, pose, offsets, above, s);
    ArmChain(rotate, an, u, active, pose, offsets, above, s);
    ArmJointsHang(s);
    var js := ArmJoints(s);
    ArmAttach(rotate, an, u, active, s, above.position, above.rotation, arm[0].position, arm[0].rotation, arm[1].position, arm[1].rotation);
    FrameStep(rotate, an, u, active, pose, offsets, Joint.Collar, js[0], above, arm[0]);
    FrameStep(rotate, an, u, active, pose, offsets, js[0], js[1], arm[0], arm[1]);
    FrameStep(rotate, an, u, active, pose, offsets, js[1], js[2], arm[1], arm[2]);
  }

  /** Each leg's joints hang one below the other from the waist, with no quarter turn. */
  lemma LegJointsHang(s: Side)
    ensures Parent(LegJoints(s)[0]) == Some(Joint.Waist)
    ensures forall i | 0 < i < 4 :: Parent(LegJoints(s)[i]) == Some(LegJoints(s)[i - 1])
    ensures forall i | 0 <= i < 4 :: BaseTurn(LegJoints(s)[i]) == 0.0
  {
  }

  /** How the tree attaches the joints of one leg, given by its hip, knee, foot and toe joints and its upper-leg, lower-leg and foot parts. */
  lemma LegSideAttach(rotate: Rotation, an: Anatomy, u: real, active: map<Part, Proportion>,
                      hip: Joint, knee: Joint, ankle: Joint, toe: Joint, thigh: Part, calf: Part, foot: Part,
                      p0: Vec, r0: real, p1: Vec, r1: real, p2: Vec, r2: real, p3: Vec, r3: real)
    requires hip == LHip || hip == RHip
    requires knee != LShoulder && knee != RShoulder && knee != LHip && knee != RHip
    requires ankle != LShoulder && ankle != RShoulder && ankle != LHip && ankle != RHip
    requires toe != LShoulder && toe != RShoulder && toe != LHip && toe != RHip
    requires PartOf(hip) == thigh && PartOf(knee) == calf && PartOf(ankle) == foot
    requires RawLength(an, thigh) == an.legUpper && RawLength(an, calf) == an.legLower && RawLength(an, foot) == an.foot
    requires thigh !in {Part.Waist, Part.Torso, Part.Collar} && calf !in {Part.Waist, Part.Torso, Part.Collar}
    requires foot !in {Part.Waist, Part.Torso, Part.Collar}
    ensures Attach(rotate, an, u, active, Joint.Waist, hip, p0, r0) == p0
    ensures Attach(rotate, an, u, active, hip, knee, p1, r1)
         == AddVec(p1, Turn(rotate, Vec(0.0, ScaledDimension(an.legUpper, u, active, thigh, H)), r1))
    ensures Attach(rotate, an, u, active, knee, ankle, p2, r2)
         == AddVec(p2, Turn(rotate, Vec(0.0, ScaledDimension(an.legLower, u, active, calf, H)), r2))
    ensures Attach(rotate, an, u, active, ankle, toe, p3, r3)
         == AddVec(p3, Turn(rotate, Vec(0.0, ScaledDimension(an.foot, u, active, foot, H)), r3))
  {
  }

  /** How the tree attaches each joint of a leg. */
  lemma LegAttach(rotate: Rotation, an: Anatomy, u: real, active: map<Part, Proportion>, s: Side,
                  p0: Vec, r0: real, p1: Vec, r1: real, p2: Vec, r2: real, p3: Vec, r3: real)
    ensures Attach(rotate, an, u, active, Joint.Waist, LegJoints(s)[0], p0, r0) == p0
    ensures Attach(rotate, an, u, active, LegJoints(s)[0], LegJoints(s)[1], p1, r1)
         == AddVec(p1, Turn(rotate, Vec(0.0, ScaledDimension(an.legUpper, u, active, LegParts(s)[0], H)), r1))
    ensures Attach(rotate, an, u, active, LegJoints(s)[1], LegJoints(s)[2], p2, r2)
         == AddVec(p2, Turn(rotate, Vec(0.0, ScaledDimension(an.legLower, u, active, LegParts(s)[1], H)), r2))
    ensures Attach(rotate, an, u, active, LegJoints(s)[2], LegJoints(s)[3], p3, r3)
         == AddVec(p3, Turn(rotate, Vec(0.0, ScaledDimension(an.foot, u, active, LegParts(s)[2], H)), r3))
  {
    if s == Left {
      LegSideAttach(rotate, an, u, active, LHip, LKnee, Joint.LFoot, Joint.LToe, LUpperLeg, LLowerLeg, Part.LFoot,
                    p0, r0, p1, r1, p2, r2, p3, r3);
    } else {
      LegSideAttach(rotate, an, u, active, RHip, RKnee, Joint.RFoot, Joint.RToe, RUpperLeg, RLowerLeg, Part.RFoot,
                    p0, r0, p1, r1, p2, r2, p3, r3);
    }
  }

  /** Each leg's transforms are the tree's, joint by joint. */
  lemma LegFrames(rotate: Rotation, an: Anatomy, u: real, active: map<Part, Proportion>,
                  pose: map<Joint, real>, offsets: map<Joint, real>, s: Side)
    ensures var tr := Trunk(rotate, an, u, active, pose, offsets);
      var leg := Leg(rotate, an, u, active, pose, offsets, tr[0], s);
      forall i | 0 <= i < 4 :: leg[i] == Transform(JointPosition(rotate, an, u, active, pose, offsets, LegJoints(s)[i]),
                                                   AbsoluteRotation(pose, offsets, LegJoints(s)[i]))
  {
    var tr := Trunk(rotate, an, u, active, pose, offsets);
    TrunkFrames(rotate, an, u, active, pose, offsets);
    assert tr[0] == Transform(JointPosition(rotate, an, u, active, pose, offsets, Joint.Waist), AbsoluteRotation(pose, offsets, Joint.Waist));
    LegFramesBelow(rotate, an, u, active, pose, offsets, tr[0], s);
  }

  /** Hung below the tree's transform of its root joint, a leg chain carries the tree's transforms. */
  lemma LegFramesBelow(rotate: Rotation, an: Anatomy, u: real, active: map<Part, Proportion>,
                       pose: map<Joint, real>, offsets: map<Joint, real>, above: Transform, s: Side)
    requires above == Transform(JointPosition(rotate, an, u, active, pose, offsets, Joint.Waist), AbsoluteRotation(pose, offsets, Joint.Waist))
    ensures var leg := Leg(rotate, an, u, active, pose, offsets, above, s);
      forall i | 0 <= i < 4 :: leg[i] == Transform(JointPosition(rotate, an, u, active, pose, offsets, LegJoints(s)[i]),
                                                   AbsoluteRotation(pose, offsets, LegJoints(s)[i]))
  {
    LegFramesEach(rotate, an, u, active, pose, offsets, above, s);
    var leg := Leg(rotate, an, u, active, pose, offsets, above, s);
    forall i | 0 <= i < 4
      ensures leg[i] == Transform(JointPosition(rotate, an, u, active, pose, offsets, LegJoints(s)[i]),
                                  AbsoluteRotation(pose, offsets, LegJoints(s)[i]))
    {
      assert i == 0 || i == 1 || i == 2 || i == 3;
    }
  }

  /** The leg chain below the waist, segment by segment. */
  lemma LegFramesEach(rotate: Rotation, an: Anatomy, u: real, active: map<Part, Proportion>,
                      pose: map<Joint, real>, offsets: map<Joint, real>, above: Transform, s: Side)
    requires above == Transform(JointPosition(rotate, an, u, active, pose, offsets, Joint.Waist), AbsoluteRotation(pose, offsets, Joint.Waist))
    ensures var leg, js := Leg(rotate, an, u, active, pose, offsets, above, s), LegJoints(s);
      && leg[0] == Transform(JointPosition(rotate, an, u, active, pose, offsets, js[0]), AbsoluteRotation(pose, offsets, js[0]))
      && leg[1] == Transform(JointPosition(rotate, an, u, active, pose, offsets, js[1]), AbsoluteRotation(pose, offsets, js[1]))
      && leg[2] == Transform(JointPosition(rotate, an, u, active, pose, offsets, js[2]), AbsoluteRotation(pose, offsets, js[2]))
      && leg[3] == Transform(JointPosition(rotate, an, u, active, pose, offsets, js[3]), AbsoluteRotation(pose, offsets, js[3]))
  {
    var leg := Leg(rotate, an, u, active, pose, offsets, above, s);
    LegChain(rotate, an, u, active, pose, offsets, above, s);
    LegJointsHang(s);
    var js := LegJoints(s);
    LegAttach(rotate, an, u, active, s, above.position, above.rotation, leg[0].position, leg[0].rotation, leg[1].position, leg[1].rotation, leg[2].position, leg[2].rotation);
    FrameStep(rotate, an, u, active, pose, offsets, Joint.Waist, js[0], above, leg[0]);
    FrameStep(rotate, an, u, active, pose, offsets, js[0], js[1], leg[0], leg[1]);
    FrameStep(rotate, an, u, active, pose, offsets, js[1], js[2], leg[1], leg[2]);
    FrameStep(rotate, an, u, active, pose, offsets, js[2], js[3], leg[2], leg[3]);
  }

  /** The transform the chains give a part is the one the kinematic tree implies for its driving joint. */
  lemma PartFollowsTree(rotate: Rotation, an: Anatomy, u: real, active: map<Part, Proportion>,
                        pose: map<Joint, real>, offsets: map<Joint, real>, p: Part)
    ensures PartTransform(rotate, an, u, active, pose, offsets, p)
         == Transform(JointPosition(rotate, an, u, active, pose, offsets, DriverOf(p)),
                      AbsoluteRotation(pose, offsets, DriverOf(p)))
  {
    match PlaceOf(p)
    case InTrunk(i) =>
      TrunkPartFollowsTree(rotate, an, u, active, pose, offsets, p);
    case InArm(s, i) =>
      ArmPartFollowsTree(rotate, an, u, active, pose, offsets, p);
    case InLeg(s, i) =>
      LegPartFollowsTree(rotate, an, u, active, pose, offsets, p);
  }

  lemma TrunkPartFollowsTree(rotate: Rotation, an: Anatomy, u: real, active: map<Part, Proportion>,
                             pose: map<Joint, real>, offsets: map<Joint, real>, p: Part)
    requires PlaceOf(p).InTrunk?
    ensures PartTransform(rotate, an, u, active, pose, offsets, p)
         == Transform(JointPosition(rotate, an, u, active, pose, offsets, DriverOf(p)),
                      AbsoluteRotation(pose, offsets, DriverOf(p)))
  {
    TrunkFrames(rotate, an, u, active, pose, offsets);
  }

  lemma ArmPartFollowsTree(rotate: Rotation, an: Anatomy, u: real, active: map<Part, Proportion>,
                           pose: map<Joint, real>, offsets: map<Joint, real>, p: Part)
    requires PlaceOf(p).InArm?
    ensures PartTransform(rotate, an, u, active, pose, offsets, p)
         == Transform(JointPosition(rotate, an, u, active, pose, offsets, DriverOf(p)),
                      AbsoluteRotation(pose, offsets, DriverOf(p)))
  {
    ArmFrames(rotate, an, u, active, pose, offsets, PlaceOf(p).side);
  }

  lemma LegPartFollowsTree(rotate: Rotation, an: Anatomy, u: real, active: map<Part, Proportion>,
                           pose: map<Joint, real>, offsets: map<Joint, real>, p: Part)
    requires PlaceOf(p).InLeg?
    ensures PartTransform(rotate, an, u, active, pose, offsets, p)
         == Transform(JointPosition(rotate, an, u, active, pose, offsets, DriverOf(p)),
                      AbsoluteRotation(pose, offsets, DriverOf(p)))
  {
    LegFrames(rotate, an, u, active, pose, offsets, PlaceOf(p).side);
  }

  /** Every part's global transform is the one the kinematic tree implies for its driving joint. */
  lemma TransformsFollowTree(rotate: Rotation, an: Anatomy, u: real, props: map<Part, Proportion>,
                             ov: Option<map<Part, Proportion>>, pose: map<Joint, real>, offsets: map<Joint, real>, p: Part)
    ensures GlobalTransforms(rotate, an, u, props, ov, pose, offsets)[p]
         == Transform(JointPosition(rotate, an, u, ActiveProps(props, ov), pose, offsets, DriverOf(p)),
                      AbsoluteRotation(pose, offsets, DriverOf(p)))
  {
    Lookup(rotate, an, u, props, ov, pose, offsets, p);
    PartFollowsTree(rotate, an, u, ActiveProps(props, ov), pose, offsets, p);
  }

  // ---------------------------------------------------------------------
  // What a part's transform depends on.

  /** Two offset maps agree on j and on every joint above it. */
  ghost predicate AgreeAbove(o1: map<Joint, real>, o2: map<Joint, real>, j: Joint) {
    forall a :: InSubtree(KinematicTree(), a, j) ==> Get(o1, a) == Get(o2, a)
  }

  /** Agreement above a joint carries over to its parent. */
  lemma AgreeAboveParent(o1: map<Joint, real>, o2: map<Joint, real>, q: Joint, j: Joint)
    requires AgreeAbove(o1, o2, j) && Parent(j) == Some(q)
    ensures AgreeAbove(o1, o2, q)
  {
    var t := KinematicTree();
    forall a | InSubtree(t, a, q) ensures Get(o1, a) == Get(o2, a) {
      SubtreeDown(t, a, q, j);
    }
  }

  /** Agreement above a joint includes the joint itself. */
  lemma AgreeAboveHere(pose: map<Joint, real>, o1: map<Joint, real>, o2: map<Joint, real>, j: Joint)
    requires AgreeAbove(o1, o2, j)
    ensures GetRot(pose, o1, j) == GetRot(pose, o2, j)
  {
    assert InSubtree(KinematicTree(), j, j);
  }

  /** A joint's absolute rotation depends only on the offsets at and above it. */
  lemma {:induction false} RotationDependsOnAncestors(pose: map<Joint, real>, o1: map<Joint, real>, o2: map<Joint, real>, j: Joint)
    requires AgreeAbove(o1, o2, j)
    ensures AbsoluteRotation(pose, o1, j) == AbsoluteRotation(pose, o2, j)
    decreases Depth(j)
  {
    AgreeAboveHere(pose, o1, o2, j);
    if Parent(j).Some? {
      var q := Parent(j).value;
      AgreeAboveParent(o1, o2, q, j);
      RotationDependsOnAncestors(pose, o1, o2, q);
      AbsoluteRotationStep(pose, o1, q, j);
      AbsoluteRotationStep(pose, o2, q, j);
    }
  }

  /** A joint's position depends only on the offsets at and above it. */
  lemma {:induction false} PositionDependsOnAncestors(rotate: Rotation, an: Anatomy, u: real, active: map<Part, Proportion>,
                                                      pose: map<Joint, real>, o1: map<Joint, real>, o2: map<Joint, real>, j: Joint)
    requires AgreeAbove(o1, o2, j)
    ensures JointPosition(rotate, an, u, active, pose, o1, j) == JointPosition(rotate, an, u, active, pose, o2, j)
    decreases Depth(j)
  {
    if Parent(j).Some? {
      var q := Parent(j).value;
      AgreeAboveParent(o1, o2, q, j);
      RotationDependsOnAncestors(pose, o1, o2, q);
      PositionDependsOnAncestors(rotate, an, u, active, pose, o1, o2, q);
      JointPositionStep(rotate, an, u, active, pose, o1, q, j);
      JointPositionStep(rotate, an, u, active, pose, o2, q, j);
    }
  }

  /** A joint's position depends only on the offsets strictly above it. */
  lemma PositionDependsOnParent(rotate: Rotation, an: Anatomy, u: real, active: map<Part, Proportion>,
                                pose: map<Joint, real>, o1: map<Joint, real>, o2: map<Joint, real>, q: Joint, j: Joint)
    requires Parent(j) == Some(q) && AgreeAbove(o1, o2, q)
    ensures JointPosition(rotate, an, u, active, pose, o1, j) == JointPosition(rotate, an, u, active, pose, o2, j)
  {
    RotationDependsOnAncestors(pose, o1, o2, q);
    PositionDependsOnAncestors(rotate, an, u, active, pose, o1, o2, q);
    JointPositionStep(rotate, an, u, active, pose, o1, q, j);
    JointPositionStep(rotate, an, u, active, pose, o2, q, j);
  }

  /** Changing only a joint's own offset by d, nothing above it, turns it by exactly d. */
  lemma RotationAfterOwnChange(pose: map<Joint, real>, o1: map<Joint, real>, o2: map<Joint, real>, j: Joint, d: real)
    requires Get(o1, j) == Get(o2, j) + d
    requires Parent(j).Some? ==> AgreeAbove(o1, o2, Parent(j).value)
    ensures AbsoluteRotation(pose, o1, j) == AbsoluteRotation(pose, o2, j) + d
  {
    if Parent(j).Some? {
      var q := Parent(j).value;
      RotationDependsOnAncestors(pose, o1, o2, q);
      AbsoluteRotationStep(pose, o1, q, j);
      AbsoluteRotationStep(pose, o2, q, j);
    }
  }

  /** A part's transform depends only on the offsets of its driving joint and the joints above it. */
  lemma PartDependsOnAncestors(rotate: Rotation, an: Anatomy, u: real, props: map<Part, Proportion>,
                               ov: Option<map<Part, Proportion>>, pose: map<Joint, real>,
                               o1: map<Joint, real>, o2: map<Joint, real>, p: Part)
    requires AgreeAbove(o1, o2, DriverOf(p))
    ensures GlobalTransforms(rotate, an, u, props, ov, pose, o1)[p] == GlobalTransforms(rotate, an, u, props, ov, pose, o2)[p]
  {
    TransformsFollowTree(rotate, an, u, props, ov, pose, o1, p);
    TransformsFollowTree(rotate, an, u, props, ov, pose, o2, p);
    RotationDependsOnAncestors(pose, o1, o2, DriverOf(p));
    PositionDependsOnAncestors(rotate, an, u, ActiveProps(props, ov), pose, o1, o2, DriverOf(p));
  }

  /** The waist and the two legs: the joints whose parts the hips hang from the waist. */
  predicate LowerBody(j: Joint) {
    j == Joint.Waist || j in LegJoints(Left) || j in LegJoints(Right)
  }

  /** The parent of a lower-body joint is a lower-body joint. */
  lemma LowerBodyClosedUpward(j: Joint)
    requires LowerBody(j) && Parent(j).Some?
    ensures LowerBody(Parent(j).value)
  {
  }

  /** Every joint above a lower-body joint is a lower-body joint: no trunk or arm joint is among them. */
  lemma {:induction false} AncestorsOfLowerBody(a: Joint, d: Joint)
    requires LowerBody(d) && InSubtree(KinematicTree(), a, d)
    ensures LowerBody(a)
    decreases Depth(d)
  {
    if d != a {
      var t := KinematicTree();
      SubtreeUp(t, a, d);
      LowerBodyClosedUpward(d);
      AncestorsOfLowerBody(a, Parent(d).value);
    }
  }

  /** The waist and the legs do not move when a torso, collar, neck or arm offset changes. */
  lemma LegsIgnoreUpperBody(rotate: Rotation, an: Anatomy, u: real, props: map<Part, Proportion>,
                            ov: Option<map<Part, Proportion>>, pose: map<Joint, real>,
                            offsets: map<Joint, real>, j: Joint, v: real, p: Part)
    requires !LowerBody(j) && LowerBody(DriverOf(p))
    ensures GlobalTransforms(rotate, an, u, props, ov, pose, offsets[j := v])[p]
         == GlobalTransforms(rotate, an, u, props, ov, pose, offsets)[p]
  {
    forall a | InSubtree(KinematicTree(), a, DriverOf(p))
      ensures Get(offsets[j := v], a) == Get(offsets, a)
    {
      AncestorsOfLowerBody(a, DriverOf(p));
    }
    PartDependsOnAncestors(rotate, an, u, props, ov, pose, offsets[j := v], offsets, p);
  }

  /** In the tree, a hip is placed where the waist is. */
  lemma HipAtWaistJoint(rotate: Rotation, an: Anatomy, u: real, active: map<Part, Proportion>,
                        pose: map<Joint, real>, offsets: map<Joint, real>, s: Side)
    ensures JointPosition(rotate, an, u, active, pose, offsets, LegJoints(s)[0])
         == JointPosition(rotate, an, u, active, pose, offsets, Joint.Waist)
  {
    LegJointsHang(s);
    JointPositionStep(rotate, an, u, active, pose, offsets, Joint.Waist, LegJoints(s)[0]);
  }

  /** Both upper legs start where the waist is, not at the end of the torso. */
  lemma HipsAtWaist(rotate: Rotation, an: Anatomy, u: real, props: map<Part, Proportion>,
                    ov: Option<map<Part, Proportion>>, pose: map<Joint, real>, offsets: map<Joint, real>, s: Side)
    ensures var trans := GlobalTransforms(rotate, an, u, props, ov, pose, offsets);
      trans[LegParts(s)[0]].position == trans[Part.Waist].position
  {
    var thigh := LegParts(s)[0];
    assert DriverOf(thigh) == LegJoints(s)[0] && DriverOf(Part.Waist) == Joint.Waist;
    HipAtWaistJoint(rotate, an, u, ActiveProps(props, ov), pose, offsets, s);
    TransformsFollowTree(rotate, an, u, props, ov, pose, offsets, thigh);
    TransformsFollowTree(rotate, an, u, props, ov, pose, offsets, Part.Waist);
  }
}
