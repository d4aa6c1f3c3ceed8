/**
  The pose string App.tsx shows and copies:

    POSE[waist:0;torso:0;...]|PROPS[head:h1.00,w1.00;...]

  one `name:angle` entry per joint in the canonical joint order, each angle
  rounded with Math.round, then one `name:h<h>,w<w>` entry per part with both
  factors printed by toFixed(2).  toFixed is a parameter here; the POSE
  section does not depend on it, and reading that section back gives every
  joint's rounded angle.
*/
module PoseText {

  import opened Options
  import opened Skeleton
  import opened Text

  /** One POSE entry: the joint's key, a colon, its rounded angle. */
  function PoseEntry(offsets: map<Joint, real>, j: Joint): string
    requires TotalOffsets(offsets)
  {
    JointName(j) + ":" + IntText(Round(offsets[j]))
  }

  /** One PROPS entry: the part's key, then its height and width factors as printed by fixed. */
  function PropEntry(props: map<Part, Proportion>, p: Part, fixed: real -> string): string
    requires TotalProps(props)
  {
    PartName(p) + ":h" + fixed(props[p].h) + ",w" + fixed(props[p].w)
  }

  function PoseEntries(offsets: map<Joint, real>): (es: seq<string>)
    requires TotalOffsets(offsets)
    ensures |es| == |JointKeys|
    ensures forall i | 0 <= i < |es| :: es[i] == PoseEntry(offsets, JointKeys[i])
  {
    seq(|JointKeys|, i requires 0 <= i < |JointKeys| => PoseEntry(offsets, JointKeys[i]))
  }

  function PropEntries(props: map<Part, Proportion>, fixed: real -> string): (es: seq<string>)
    requires TotalProps(props)
    ensures |es| == |PropKeys|
    ensures forall i | 0 <= i < |es| :: es[i] == PropEntry(props, PropKeys[i], fixed)
  {
    seq(|PropKeys|, i requires 0 <= i < |PropKeys| => PropEntry(props, PropKeys[i], fixed))
  }

  /** poseString. */
  function PoseString(offsets: map<Joint, real>, props: map<Part, Proportion>, fixed: real -> string): string
    requires TotalOffsets(offsets) && TotalProps(props)
  {
    "POSE[" + Join(PoseEntries(offsets), ';') + "]|PROPS[" + Join(PropEntries(props, fixed), ';') + "]"
  }

  // ---------------------------------------------------------------------
  // Reading the POSE section back.

  /** A `name:angle` entry, split at its only colon. */
  function ReadEntry(e: string): Option<(string, int)> {
    var fields := Split(e, ':');
    if |fields| != 2 then None
    else
      match ParseInt(fields[1])
      case None => None
      case Some(v) => Some((fields[0], v))
  }

  /** Every entry read, in order; None as soon as one does not read. */
  function ReadEntries(es: seq<string>): Option<seq<(string, int)>>
    decreases |es|
  {
    if es == [] then Some([])
    else
      match ReadEntry(es[0])
      case None => None
      case Some(v) =>
        match ReadEntries(es[1..])
        case None => None
        case Some(vs) => Some([v] + vs)
  }

  /** The entries between "POSE[" and the first ']'. */
  function ReadPose(s: string): Option<seq<(string, int)>> {
    if |s| < 5 || s[..5] != "POSE[" then None
    else ReadEntries(Split(Before(s[5..], ']'), ';'))
  }

  /** What the POSE section stands for: each joint's key with its rounded angle, in the canonical order. */
  function RoundedPose(offsets: map<Joint, real>): (r: seq<(string, int)>)
    requires TotalOffsets(offsets)
    ensures |r| == |JointKeys|
  {
    seq(|JointKeys|, i requires 0 <= i < |JointKeys| => (JointName(JointKeys[i]), Round(offsets[JointKeys[i]])))
  }

  /** An entry reads back as its key and its angle. */
  lemma EntryRoundTrip(j: Joint, n: int)
    ensures ReadEntry(JointName(j) + ":" + IntText(n)) == Some((JointName(j), n))
    ensures ']' !in JointName(j) + ":" + IntText(n) && ';' !in JointName(j) + ":" + IntText(n)
  {
    JointNameAlphabet(j);
    var name := JointName(j);
    var num := IntText(n);
    assert ':' !in name;
    assert ':' !in num;
    SplitFirst(name, ':', num);
    SplitNone(num, ':');
    assert name + ":" + num == name + [':'] + num;
    IntTextRoundTrip(n);
  }

  /** Entries that each read back as listed read back as the list. */
  lemma {:induction false} ReadEntriesAll(es: seq<string>, vs: seq<(string, int)>)
    requires |es| == |vs|
    requires forall i | 0 <= i < |es| :: ReadEntry(es[i]) == Some(vs[i])
    ensures ReadEntries(es) == Some(vs)
    decreases |es|
  {
    if es != [] {
      ReadEntriesAll(es[1..], vs[1..]);
      assert [vs[0]] + vs[1..] == vs;
    }
  }

  /** The POSE section of a string of poseString's shape is read from the text between "POSE[" and "]". */
  lemma ReadPoseOfShape(section: string, propSection: string)
    requires ']' !in section
    ensures ReadPose("POSE[" + section + "]|PROPS[" + propSection + "]") == ReadEntries(Split(section, ';'))
  {
    var rest := "|PROPS[" + propSection + "]";
    var s := "POSE[" + section + "]|PROPS[" + propSection + "]";
    assert s == "POSE[" + (section + [']'] + rest);
    assert s[..5] == "POSE[";
    assert s[5..] == section + [']'] + rest;
    BeforeFirst(section, ']', rest);
  }

  /** Every POSE entry reads back as its key and rounded angle, and holds neither ']' nor ';'. */
  lemma PoseEntriesRead(offsets: map<Joint, real>)
    requires TotalOffsets(offsets)
    ensures forall i | 0 <= i < |JointKeys| ::
      && ReadEntry(PoseEntries(offsets)[i]) == Some(RoundedPose(offsets)[i])
      && ']' !in PoseEntries(offsets)[i] && ';' !in PoseEntries(offsets)[i]
  {
    forall i | 0 <= i < |JointKeys|
      ensures && ReadEntry(PoseEntries(offsets)[i]) == Some(RoundedPose(offsets)[i])
              && ']' !in PoseEntries(offsets)[i] && ';' !in PoseEntries(offsets)[i]
    {
      EntryRoundTrip(JointKeys[i], Round(offsets[JointKeys[i]]));
    }
  }

  /** Reading the POSE section of poseString gives every joint's rounded angle, whatever the props print as. */
  lemma PoseStringRoundTrip(offsets: map<Joint, real>, props: map<Part, Proportion>, fixed: real -> string)
    requires TotalOffsets(offsets) && TotalProps(props)
    ensures ReadPose(PoseString(offsets, props, fixed)) == Some(RoundedPose(offsets))
  {
    var es := PoseEntries(offsets);
    PoseEntriesRead(offsets);
    JoinAvoids(es, ';', ']');
    ReadPoseOfShape(Join(es, ';'), Join(PropEntries(props, fixed), ';'));
    SplitJoin(es, ';');
    ReadEntriesAll(es, RoundedPose(offsets));
  }

  /** Two poses with the same string agree on every rounded angle. */
  lemma SamePoseStringSameRoundedAngles(
    o1: map<Joint, real>, p1: map<Part, Proportion>,
    o2: map<Joint, real>, p2: map<Part, Proportion>,
    fixed: real -> string, j: Joint)
    requires TotalOffsets(o1) && TotalProps(p1) && TotalOffsets(o2) && TotalProps(p2)
    requires PoseString(o1, p1, fixed) == PoseString(o2, p2, fixed)
    ensures Round(o1[j]) == Round(o2[j])
  {
    PoseStringRoundTrip(o1, p1, fixed);
    PoseStringRoundTrip(o2, p2, fixed);
    JointListed(j);
    var i :| 0 <= i < |JointKeys| && JointKeys[i] == j;
    assert RoundedPose(o1)[i] == RoundedPose(o2)[i];
  }
}
