/**
  What a drag does to the drawn mannequin: handlePivotChange (App.tsx) feeding
  globalTransforms (components/Mannequin.tsx).
*/
module Posing {

  import opened Options
  import opened Skeleton
  import opened Hierarchy
  import opened Propagation
  import opened Kinematics

  /** After a pivot change the offsets still agree above every joint outside the changed subtree. */
  lemma AgreeOutside(m: map<Joint, real>, modes: map<Joint, Mode>, key: Joint, newValue: real, j: Joint)
    requires TotalModes(modes) && key in m
    requires !InSubtree(KinematicTree(), key, j)
    ensures AgreeAbove(PivotChange(KinematicTree(), m, modes, key, newValue), m, j)
  {
    var t := KinematicTree();
    forall a | InSubtree(t, a, j)
      ensures Get(PivotChange(t, m, modes, key, newValue), a) == Get(m, a)
    {
      OutsideStaysOutside(t, key, a, j);
      OutsideSubtreeUnchanged(t, m, modes, key, newValue, a);
    }
  }

  /** Changing one joint moves no part whose driving joint lies outside that joint's subtree. */
  lemma PivotChangeMovesOnlyItsSubtree(rotate: Rotation, an: Anatomy, u: real, props: map<Part, Proportion>,
                                       ov: Option<map<Part, Proportion>>, pose: map<Joint, real>,
                                       m: map<Joint, real>, modes: map<Joint, Mode>, key: Joint, newValue: real, p: Part)
    requires TotalModes(modes) && key in m
    requires !InSubtree(KinematicTree(), key, DriverOf(p))
    ensures var r := PivotChange(KinematicTree(), m, modes, key, newValue);
      GlobalTransforms(rotate, an, u, props, ov, pose, r)[p] == GlobalTransforms(rotate, an, u, props, ov, pose, m)[p]
  {
    AgreeOutside(m, modes, key, newValue, DriverOf(p));
    PartDependsOnAncestors(rotate, an, u, props, ov, pose, PivotChange(KinematicTree(), m, modes, key, newValue), m, p);
  }

  /** The part a changed joint drives stays where it is attached and turns by exactly the change. */
  lemma DraggedPartTurnsInPlace(rotate: Rotation, an: Anatomy, u: real, props: map<Part, Proportion>,
                                ov: Option<map<Part, Proportion>>, pose: map<Joint, real>,
                                m: map<Joint, real>, modes: map<Joint, Mode>, key: Joint, newValue: real)
    requires TotalModes(modes) && key in m
    ensures var before := GlobalTransforms(rotate, an, u, props, ov, pose, m)[PartOf(key)];
      var after := GlobalTransforms(rotate, an, u, props, ov, pose, PivotChange(KinematicTree(), m, modes, key, newValue))[PartOf(key)];
      && after.position == before.position
      && after.rotation == before.rotation + (newValue - m[key])
  {
    var t := KinematicTree();
    var r := PivotChange(t, m, modes, key, newValue);
    var active := ActiveProps(props, ov);
    PartDriverBijection(key, PartOf(key));
    TransformsFollowTree(rotate, an, u, props, ov, pose, m, PartOf(key));
    TransformsFollowTree(rotate, an, u, props, ov, pose, r, PartOf(key));
    PivotChangeAt(t, m, modes, key, newValue, key);
    if Parent(key).Some? {
      var q := Parent(key).value;
      ParentOutsideSubtree(t, q, key);
      AgreeOutside(m, modes, key, newValue, q);
      PositionDependsOnParent(rotate, an, u, active, pose, r, m, q, key);
    }
    RotationAfterOwnChange(pose, r, m, key, newValue - m[key]);
  }
}
