/**
  The skeletal model of the posing engine: the 18 joints and the 18 body
  parts, the joint modes, the fixed kinematic tree and the constant poses.
*/
module Skeleton {

  import opened Options

  /** The rotational degrees of freedom, one per key of the pivot-offset record. */
  datatype Joint =
    | Waist | Torso | Collar | Neck
    | LShoulder | LElbow | LHand
    | RShoulder | RElbow | RHand
    | LHip | LKnee | LFoot | LToe
    | RHip | RKnee | RFoot | RToe

  /** The rigid segments, one per key of the proportions record. */
  datatype Part =
    | Head | Collar | Torso | Waist
    | LUpperArm | LLowerArm | LHand
    | RUpperArm | RLowerArm | RHand
    | LUpperLeg | LLowerLeg | LFoot | LToe
    | RUpperLeg | RLowerLeg | RFoot | RToe

  /** How a rotation change at a joint is pushed to its children. */
  datatype Mode = Fk | Bend | Stretch

  /** Width and height scale of one body part. */
  datatype Proportion = Proportion(w: real, h: real)

  /** The canonical joint order (JOINT_KEYS). */
  const JointKeys: seq<Joint> := [
    Joint.Waist, Joint.Torso, Joint.Collar, Neck,
    LShoulder, LElbow, Joint.LHand,
    RShoulder, RElbow, Joint.RHand,
    LHip, LKnee, Joint.LFoot, Joint.LToe,
    RHip, RKnee, Joint.RFoot, Joint.RToe
  ]

  /** The canonical part order (PROP_KEYS). */
  const PropKeys: seq<Part> := [
    Head, Part.Collar, Part.Torso, Part.Waist,
    LUpperArm, LLowerArm, Part.LHand,
    RUpperArm, RLowerArm, Part.RHand,
    LUpperLeg, LLowerLeg, Part.LFoot, Part.LToe,
    RUpperLeg, RLowerLeg, Part.RFoot, Part.RToe
  ]

  /** Every joint is listed in the canonical order, and so is every part. */
  lemma KeysComplete()
    ensures forall j: Joint :: j in JointKeys
    ensures forall p: Part :: p in PropKeys
  {
    forall j: Joint ensures j in JointKeys {
      JointListed(j);
    }
    forall p: Part ensures p in PropKeys {
      PartListed(p);
    }
  }

  lemma JointListed(j: Joint)
    ensures j in JointKeys
  {
  }

  lemma PartListed(p: Part)
    ensures p in PropKeys
  {
  }

  ghost predicate Distinct<T>(s: seq<T>) {
    forall i, k :: 0 <= i < k < |s| ==> s[i] != s[k]
  }

  lemma CanonicalOrdersDistinct()
    ensures Distinct(JointKeys) && |JointKeys| == 18
    ensures Distinct(PropKeys) && |PropKeys| == 18
  {
  }

  /** The children of every joint, in the order of KINEMATIC_TREE. */
  function Children(j: Joint): (kids: seq<Joint>)
    ensures forall c <- kids :: Parent(c) == Some(j)
  {
    match j
    case Waist => [Joint.Torso, LHip, RHip]
    case Torso => [Joint.Collar]
    case Collar => [Neck, LShoulder, RShoulder]
    case Neck => []
    case LShoulder => [LElbow]
    case LElbow => [Joint.LHand]
    case LHand => []
    case RShoulder => [RElbow]
    case RElbow => [Joint.RHand]
    case RHand => []
    case LHip => [LKnee]
    case LKnee => [Joint.LFoot]
    case LFoot => [Joint.LToe]
    case LToe => []
    case RHip => [RKnee]
    case RKnee => [Joint.RFoot]
    case RFoot => [Joint.RToe]
    case RToe => []
  }

  /** Distance from the root of the tree (the waist). */
  function Depth(j: Joint): (n: nat)
    ensures n <= 5
  {
    match j
    case Waist => 0
    case Torso | LHip | RHip => 1
    case Collar | LKnee | RKnee => 2
    case Neck | LShoulder | RShoulder | LFoot | RFoot => 3
    case LElbow | RElbow | LToe | RToe => 4
    case LHand | RHand => 5
  }

  /** The joint whose children list contains j; the waist is the only root. */
  function Parent(j: Joint): (p: Option<Joint>)
    ensures p.None? <==> j == Joint.Waist
    ensures p.Some? ==> Depth(p.value) + 1 == Depth(j)
  {
    match j
    case Waist => None
    case Torso | LHip | RHip => Some(Joint.Waist)
    case Collar => Some(Joint.Torso)
    case Neck | LShoulder | RShoulder => Some(Joint.Collar)
    case LElbow => Some(LShoulder)
    case LHand => Some(LElbow)
    case RElbow => Some(RShoulder)
    case RHand => Some(RElbow)
    case LKnee => Some(LHip)
    case LFoot => Some(LKnee)
    case LToe => Some(Joint.LFoot)
    case RKnee => Some(RHip)
    case RFoot => Some(RKnee)
    case RToe => Some(Joint.RFoot)
  }

  /** Parent is exactly the inverse of the children lists, which hold no repeats. */
  lemma ParentIsInverseOfChildren(p: Joint, c: Joint)
    ensures Parent(c) == Some(p) <==> c in Children(p)
    ensures Distinct(Children(p))
  {
  }

  /** The body part whose rotation each joint drives (PIVOT_TO_PART_MAP). */
  function PartOf(j: Joint): Part {
    match j
    case Waist => Part.Waist
    case Torso => Part.Torso
    case Collar => Part.Collar
    case Neck => Head
    case LShoulder => LUpperArm
    case LElbow => LLowerArm
    case LHand => Part.LHand
    case RShoulder => RUpperArm
    case RElbow => RLowerArm
    case RHand => Part.RHand
    case LHip => LUpperLeg
    case LKnee => LLowerLeg
    case LFoot => Part.LFoot
    case LToe => Part.LToe
    case RHip => RUpperLeg
    case RKnee => RLowerLeg
    case RFoot => Part.RFoot
    case RToe => Part.RToe
  }

  /** The bone key recorded for each part in partDefinitions. */
  function DriverOf(p: Part): Joint {
    match p
    case Head => Neck
    case Collar => Joint.Collar
    case Torso => Joint.Torso
    case Waist => Joint.Waist
    case LUpperArm => LShoulder
    case LLowerArm => LElbow
    case LHand => Joint.LHand
    case RUpperArm => RShoulder
    case RLowerArm => RElbow
    case RHand => Joint.RHand
    case LUpperLeg => LHip
    case LLowerLeg => LKnee
    case LFoot => Joint.LFoot
    case LToe => Joint.LToe
    case RUpperLeg => RHip
    case RLowerLeg => RKnee
    case RFoot => Joint.RFoot
    case RToe => Joint.RToe
  }

  /** Every part is driven by exactly one joint, and every joint drives one part. */
  lemma PartDriverBijection(j: Joint, p: Part)
    ensures DriverOf(PartOf(j)) == j
    ensures PartOf(DriverOf(p)) == p
  {
  }

  /** Key names as they appear in the source records. */
  function JointName(j: Joint): string {
    match j
    case Waist => "waist"
    case Torso => "torso"
    case Collar => "collar"
    case Neck => "neck"
    case LShoulder => "l_shoulder"
    case LElbow => "l_elbow"
    case LHand => "l_hand"
    case RShoulder => "r_shoulder"
    case RElbow => "r_elbow"
    case RHand => "r_hand"
    case LHip => "l_hip"
    case LKnee => "l_knee"
    case LFoot => "l_foot"
    case LToe => "l_toe"
    case RHip => "r_hip"
    case RKnee => "r_knee"
    case RFoot => "r_foot"
    case RToe => "r_toe"
  }

  function PartName(p: Part): string {
    match p
    case Head => "head"
    case Collar => "collar"
    case Torso => "torso"
    case Waist => "waist"
    case LUpperArm => "l_upper_arm"
    case LLowerArm => "l_lower_arm"
    case LHand => "l_hand"
    case RUpperArm => "r_upper_arm"
    case RLowerArm => "r_lower_arm"
    case RHand => "r_hand"
    case LUpperLeg => "l_upper_leg"
    case LLowerLeg => "l_lower_leg"
    case LFoot => "l_foot"
    case LToe => "l_toe"
    case RUpperLeg => "r_upper_leg"
    case RLowerLeg => "r_lower_leg"
    case RFoot => "r_foot"
    case RToe => "r_toe"
  }

  /** Joint names are made of lower-case letters and underscores only. */
  lemma JointNameAlphabet(j: Joint)
    ensures |JointName(j)| > 0
    ensures forall ch <- JointName(j) :: ('a' <= ch <= 'z') || ch == '_'
  {
  }

  // ---------------------------------------------------------------------
  // Totality of the records, and the constant poses of App.tsx.

  /** Offset lookup with the source's `|| 0` default for a missing key. */
  function Get(m: map<Joint, real>, j: Joint): (v: real)
    ensures j !in m ==> v == 0.0
    ensures j in m ==> v == m[j]
  {
    if j in m then m[j] else 0.0
  }

  ghost predicate TotalOffsets(m: map<Joint, real>) {
    forall j: Joint :: j in m
  }

  ghost predicate TotalProps(m: map<Part, Proportion>) {
    forall p: Part :: p in m
  }

  ghost predicate TotalModes(m: map<Joint, Mode>) {
    forall j: Joint :: j in m
  }

  /** The canonical rest pose: every offset zero. */
  function TPose(): (m: map<Joint, real>)
    ensures TotalOffsets(m)
    ensures forall j :: m[j] == 0.0
  {
    KeysComplete();
    map j | j in JointKeys :: 0.0
  }

  function ChallengeAngle(j: Joint): real {
    match j
    case Waist => 180.0
    case Torso => 180.0
    case Collar => 0.0
    case Neck => 180.0
    case LShoulder => -95.0
    case LElbow => 180.0
    case LHand => 180.0
    case RShoulder => 95.0
    case RElbow => 180.0
    case RHand => 180.0
    case LHip => 5.0
    case LKnee => 180.0
    case LFoot => 180.0
    case LToe => 180.0
    case RHip => -5.0
    case RKnee => 180.0
    case RFoot => 180.0
    case RToe => 180.0
  }

  /** The pose the figure starts in before calibration. */
  function InitialChallengePose(): (m: map<Joint, real>)
    ensures TotalOffsets(m)
    ensures forall j :: m[j] == ChallengeAngle(j)
  {
    KeysComplete();
    map j | j in JointKeys :: ChallengeAngle(j)
  }

  /** The pose applied by the "Default" button: arms lowered by 75 degrees. */
  function DefaultPose(): (m: map<Joint, real>)
    ensures TotalOffsets(m)
    ensures forall j :: m[j] == if j == LShoulder then -75.0 else if j == RShoulder then 75.0 else 0.0
  {
    KeysComplete();
    map j | j in JointKeys :: if j == LShoulder then -75.0 else if j == RShoulder then 75.0 else 0.0
  }

  /** Unit proportions for every part (ATOMIC_PROPS). */
  function AtomicProps(): (m: map<Part, Proportion>)
    ensures TotalProps(m)
    ensures forall p :: m[p] == Proportion(1.0, 1.0)
  {
    KeysComplete();
    map p | p in PropKeys :: Proportion(1.0, 1.0)
  }

  /** Every joint starts in forward-kinematics mode. */
  function InitialJointModes(): (m: map<Joint, Mode>)
    ensures TotalModes(m)
    ensures forall j :: m[j] == Fk
  {
    KeysComplete();
    map j | j in JointKeys :: Fk
  }
}
