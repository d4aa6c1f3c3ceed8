/**
  Joint-influence propagation (handlePivotChange in App.tsx).

  Setting a joint to a new value applies the difference to that joint; then,
  starting at it, every joint in mode Bend pushes the same difference to each
  of its children, every joint in mode Stretch pushes the negated difference,
  and a joint in mode Fk stops the push below itself.  Each child continues
  with the difference it received and its own mode.

  Apply/ApplyKids follow the traversal of the source step by step; Arrive is
  an independent closed form (the difference that reaches one joint, read
  along its parent chain), and ApplyAt proves the two agree on every joint.
  Everything is stated for any well-formed tree; the app runs it on
  KinematicTree().
*/
module Propagation {

  import opened Options
  import opened Skeleton
  import opened Hierarchy

  /** The difference a parent in the given mode passes to each child. */
  function ChildDelta(mode: Mode, d: real): real {
    if mode == Bend then d else if mode == Stretch then -d else 0.0
  }

  /** applyRecursiveEffect(p, d) on the working copy m. */
  function Apply(t: Tree, m: map<Joint, real>, modes: map<Joint, Mode>, p: Joint, d: real): (r: map<Joint, real>)
    requires WellFormed(t) && TotalModes(modes)
    ensures m.Keys <= r.Keys
    decreases t.height - t.depth(p), 1, 0
  {
    if modes[p] == Fk then m
    else ApplyKids(t, m, modes, p, t.children(p), ChildDelta(modes[p], d))
  }

  /** The children.forEach loop of applyRecursiveEffect, over a prefix kids of p's children. */
  function ApplyKids(t: Tree, m: map<Joint, real>, modes: map<Joint, Mode>, p: Joint, kids: seq<Joint>, cd: real)
    : (r: map<Joint, real>)
    requires WellFormed(t) && TotalModes(modes)
    requires forall c <- kids :: t.parent(c) == Some(p)
    ensures m.Keys <= r.Keys
    decreases t.height - t.depth(p), 0, |kids|
  {
    if kids == [] then m
    else
      var c := kids[|kids| - 1];
      assert c in kids;
      var before := ApplyKids(t, m, modes, p, kids[..|kids| - 1], cd);
      Apply(t, before[c := Get(before, c) + cd], modes, c, cd)
  }

  /** The difference between the requested and the current value of key. */
  function Delta(m: map<Joint, real>, key: Joint, newValue: real): real
    requires key in m
  {
    newValue - m[key]
  }

  /** The whole handler: the new offsets after setting key to newValue. */
  function PivotChange(t: Tree, m: map<Joint, real>, modes: map<Joint, Mode>, key: Joint, newValue: real)
    : (r: map<Joint, real>)
    requires WellFormed(t) && TotalModes(modes) && key in m
    ensures m.Keys <= r.Keys
  {
    var delta := Delta(m, key, newValue);
    if delta == 0.0 then m else Apply(t, m[key := newValue], modes, key, delta)
  }

  /**
    The difference that reaches j when the push starts at p with difference d,
    or None when j is not reached: the start receives d, and a child receives
    what its parent received, passed through the parent's mode, unless the
    parent is in mode Fk.
  */
  function Arrive(t: Tree, modes: map<Joint, Mode>, p: Joint, d: real, j: Joint): Option<real>
    requires WellFormed(t) && TotalModes(modes)
    decreases t.depth(j)
  {
    if j == p then Some(d)
    else match t.parent(j)
      case None => None
      case Some(q) =>
        match Arrive(t, modes, p, d, q)
        case None => None
        case Some(dq) => if modes[q] == Fk then None else Some(ChildDelta(modes[q], dq))
  }

  /** What the push adds to j (the start itself is not adjusted by the push). */
  function Shift(t: Tree, modes: map<Joint, Mode>, p: Joint, d: real, j: Joint): real
    requires WellFormed(t) && TotalModes(modes)
  {
    if j != p && Arrive(t, modes, p, d, j).Some? then Arrive(t, modes, p, d, j).value else 0.0
  }

  // ---------------------------------------------------------------------
  // Facts about the closed form.

  /** One step down the parent chain. */
  lemma ArriveStep(t: Tree, modes: map<Joint, Mode>, p: Joint, d: real, q: Joint, j: Joint)
    requires WellFormed(t) && TotalModes(modes)
    requires j != p && t.parent(j) == Some(q)
    ensures Arrive(t, modes, p, d, q).None? ==> Arrive(t, modes, p, d, j).None?
    ensures modes[q] == Fk ==> Arrive(t, modes, p, d, j).None?
    ensures Arrive(t, modes, p, d, q).Some? && modes[q] != Fk ==>
      Arrive(t, modes, p, d, j) == Some(ChildDelta(modes[q], Arrive(t, modes, p, d, q).value))
  {
  }

  /** Nothing outside the subtree of the start is reached. */
  lemma {:induction false} ArriveOutside(t: Tree, modes: map<Joint, Mode>, p: Joint, d: real, j: Joint)
    requires WellFormed(t) && TotalModes(modes)
    requires !InSubtree(t, p, j)
    ensures Arrive(t, modes, p, d, j).None?
    decreases t.depth(j)
  {
    if t.parent(j).Some? {
      var q := t.parent(j).value;
      ArriveOutside(t, modes, p, d, q);
      ArriveStep(t, modes, p, d, q, j);
    }
  }

  /** Below a joint in mode Fk inside the pushed subtree nothing is reached. */
  lemma {:induction false} ArriveBelowFk(t: Tree, modes: map<Joint, Mode>, p: Joint, d: real, q: Joint, j: Joint)
    requires WellFormed(t) && TotalModes(modes)
    requires InSubtree(t, p, q) && modes[q] == Fk
    requires InSubtree(t, q, j) && j != q
    ensures Arrive(t, modes, p, d, j).None?
    decreases t.depth(j)
  {
    StrictlyBelow(t, p, q, j);
    SubtreeUp(t, q, j);
    var q' := t.parent(j).value;
    ArriveStep(t, modes, p, d, q', j);
    if q' != q {
      ArriveBelowFk(t, modes, p, d, q, q');
    }
  }

  /** A joint strictly below a joint of p's subtree is not p. */
  lemma StrictlyBelow(t: Tree, p: Joint, q: Joint, j: Joint)
    requires WellFormed(t) && InSubtree(t, p, q) && InSubtree(t, q, j) && j != q
    ensures j != p
  {
    SubtreeDepth(t, p, q);
    SubtreeDepth(t, q, j);
  }

  /** A push with difference zero only ever passes zero. */
  lemma {:induction false} ArriveZero(t: Tree, modes: map<Joint, Mode>, p: Joint, j: Joint)
    requires WellFormed(t) && TotalModes(modes)
    ensures Arrive(t, modes, p, 0.0, j).Some? ==> Arrive(t, modes, p, 0.0, j).value == 0.0
    decreases t.depth(j)
  {
    if j != p && t.parent(j).Some? {
      var q := t.parent(j).value;
      ArriveZero(t, modes, p, q);
      ArriveStep(t, modes, p, 0.0, q, j);
    }
  }

  /** Inside the subtree of a child c, a push from p equals the push c itself starts. */
  lemma {:induction false} ArriveThroughChild(t: Tree, modes: map<Joint, Mode>, p: Joint, d: real, c: Joint, j: Joint)
    requires WellFormed(t) && TotalModes(modes)
    requires t.parent(c) == Some(p) && modes[p] != Fk
    requires InSubtree(t, c, j)
    ensures Arrive(t, modes, p, d, j) == Arrive(t, modes, c, ChildDelta(modes[p], d), j)
    decreases t.depth(j)
  {
    ChildSubtreeInside(t, p, c, j);
    if j == c {
      ArriveStep(t, modes, p, d, p, c);
    } else {
      SubtreeUp(t, c, j);
      var q := t.parent(j).value;
      ArriveThroughChild(t, modes, p, d, c, q);
      ArriveSameStep(t, modes, p, d, c, ChildDelta(modes[p], d), q, j);
    }
  }

  /** Two pushes that deliver the same to a parent deliver the same to its child. */
  lemma ArriveSameStep(t: Tree, modes: map<Joint, Mode>, p: Joint, d: real, p': Joint, d': real, q: Joint, j: Joint)
    requires WellFormed(t) && TotalModes(modes)
    requires j != p && j != p' && t.parent(j) == Some(q)
    requires Arrive(t, modes, p, d, q) == Arrive(t, modes, p', d', q)
    ensures Arrive(t, modes, p, d, j) == Arrive(t, modes, p', d', j)
  {
  }

  // ---------------------------------------------------------------------
  // The traversal agrees with the closed form.

  /** What the step for child c (its own adjustment and its recursion) adds to j. */
  function Contribution(t: Tree, modes: map<Joint, Mode>, c: Joint, cd: real, j: Joint): real
    requires WellFormed(t) && TotalModes(modes)
  {
    (if j == c then cd else 0.0) + Shift(t, modes, c, cd, j)
  }

  /** What the loop over kids adds to j. */
  function KidsShift(t: Tree, modes: map<Joint, Mode>, kids: seq<Joint>, cd: real, j: Joint): real
    requires WellFormed(t) && TotalModes(modes)
    decreases |kids|
  {
    if kids == [] then 0.0
    else KidsShift(t, modes, kids[..|kids| - 1], cd, j) + Contribution(t, modes, kids[|kids| - 1], cd, j)
  }

  /** When only c of distinct kids contributes, the loop adds exactly c's contribution. */
  lemma {:induction false} KidsShiftFocus(t: Tree, modes: map<Joint, Mode>, kids: seq<Joint>, cd: real, j: Joint, c: Joint)
    requires WellFormed(t) && TotalModes(modes)
    requires Distinct(kids) && c in kids
    requires forall k <- kids :: k != c ==> Contribution(t, modes, k, cd, j) == 0.0
    ensures KidsShift(t, modes, kids, cd, j) == Contribution(t, modes, c, cd, j)
    decreases |kids|
  {
    var init, last := kids[..|kids| - 1], kids[|kids| - 1];
    assert kids == init + [last];
    assert forall k <- init :: k in kids;
    if last == c {
      assert c !in init;
      KidsShiftNone(t, modes, init, cd, j);
    } else {
      assert Distinct(init);
      KidsShiftFocus(t, modes, init, cd, j, c);
    }
  }

  /** When no kid contributes, the loop adds nothing. */
  lemma {:induction false} KidsShiftNone(t: Tree, modes: map<Joint, Mode>, kids: seq<Joint>, cd: real, j: Joint)
    requires WellFormed(t) && TotalModes(modes)
    requires forall k <- kids :: Contribution(t, modes, k, cd, j) == 0.0
    ensures KidsShift(t, modes, kids, cd, j) == 0.0
    decreases |kids|
  {
    if kids != [] {
      var init, last := kids[..|kids| - 1], kids[|kids| - 1];
      assert last in kids;
      assert forall k <- init :: k in kids;
      KidsShiftNone(t, modes, init, cd, j);
    }
  }

  /** For j strictly below p, only the child toward j contributes, and it contributes the shift. */
  lemma KidsShiftBelow(t: Tree, modes: map<Joint, Mode>, p: Joint, d: real, j: Joint)
    requires WellFormed(t) && TotalModes(modes) && modes[p] != Fk
    requires InSubtree(t, p, j) && j != p
    ensures KidsShift(t, modes, t.children(p), ChildDelta(modes[p], d), j) == Shift(t, modes, p, d, j)
  {
    var kids, cd := t.children(p), ChildDelta(modes[p], d);
    var c := ChildToward(t, p, j);
    forall k <- kids | k != c
      ensures Contribution(t, modes, k, cd, j) == 0.0
    {
      SiblingSubtreesDisjoint(t, c, k, j);
      ArriveOutside(t, modes, k, cd, j);
    }
    KidsShiftFocus(t, modes, kids, cd, j, c);
    ArriveThroughChild(t, modes, p, d, c, j);
  }

  /** For j outside p's strict subtree, no child contributes and the shift is zero. */
  lemma KidsShiftAway(t: Tree, modes: map<Joint, Mode>, p: Joint, d: real, j: Joint)
    requires WellFormed(t) && TotalModes(modes) && modes[p] != Fk
    requires !InSubtree(t, p, j) || j == p
    ensures KidsShift(t, modes, t.children(p), ChildDelta(modes[p], d), j) == 0.0
    ensures Shift(t, modes, p, d, j) == 0.0
  {
    var kids, cd := t.children(p), ChildDelta(modes[p], d);
    forall k <- kids
      ensures Contribution(t, modes, k, cd, j) == 0.0
    {
      ChildOutside(t, p, k, j);
      ArriveOutside(t, modes, k, cd, j);
    }
    KidsShiftNone(t, modes, kids, cd, j);
    if j != p {
      ArriveOutside(t, modes, p, d, j);
    }
  }

  /** A joint outside p's strict subtree is outside every child's subtree. */
  lemma ChildOutside(t: Tree, p: Joint, k: Joint, j: Joint)
    requires WellFormed(t) && t.parent(k) == Some(p)
    requires !InSubtree(t, p, j) || j == p
    ensures !InSubtree(t, k, j)
  {
    if InSubtree(t, k, j) {
      ChildSubtreeInside(t, p, k, j);
    }
  }

  /** The loop over all children of a propagating p adds exactly the closed-form shift. */
  lemma KidsShiftOfChildren(t: Tree, modes: map<Joint, Mode>, p: Joint, d: real, j: Joint)
    requires WellFormed(t) && TotalModes(modes) && modes[p] != Fk
    ensures KidsShift(t, modes, t.children(p), ChildDelta(modes[p], d), j) == Shift(t, modes, p, d, j)
  {
    if j != p && InSubtree(t, p, j) {
      KidsShiftBelow(t, modes, p, d, j);
    } else {
      KidsShiftAway(t, modes, p, d, j);
    }
  }

  /** Reading one joint of an updated map. */
  lemma GetUpdate(m: map<Joint, real>, c: Joint, v: real, j: Joint)
    ensures Get(m[c := v], j) == (if j == c then v else Get(m, j))
  {
  }

  /** applyRecursiveEffect(p, d) adds to every joint exactly its closed-form shift. */
  lemma {:induction false} ApplyAt(t: Tree, m: map<Joint, real>, modes: map<Joint, Mode>, p: Joint, d: real, j: Joint)
    requires WellFormed(t) && TotalModes(modes)
    ensures Get(Apply(t, m, modes, p, d), j) == Get(m, j) + Shift(t, modes, p, d, j)
    decreases t.height - t.depth(p), 1, 0
  {
    if modes[p] == Fk {
      FkShiftsNothing(t, modes, p, d, j);
    } else {
      ApplyKidsAt(t, m, modes, p, t.children(p), ChildDelta(modes[p], d), j);
      KidsShiftOfChildren(t, modes, p, d, j);
    }
  }

  /** A push from a joint in mode Fk shifts nothing. */
  lemma FkShiftsNothing(t: Tree, modes: map<Joint, Mode>, p: Joint, d: real, j: Joint)
    requires WellFormed(t) && TotalModes(modes) && modes[p] == Fk
    ensures Shift(t, modes, p, d, j) == 0.0
  {
    if j != p && InSubtree(t, p, j) {
      ArriveBelowFk(t, modes, p, d, p, j);
    } else if j != p {
      ArriveOutside(t, modes, p, d, j);
    }
  }

  /** The loop over kids adds to every joint exactly what KidsShift says. */
  lemma {:induction false} ApplyKidsAt(t: Tree, m: map<Joint, real>, modes: map<Joint, Mode>, p: Joint, kids: seq<Joint>, cd: real, j: Joint)
    requires WellFormed(t) && TotalModes(modes)
    requires forall c <- kids :: t.parent(c) == Some(p)
    ensures Get(ApplyKids(t, m, modes, p, kids, cd), j) == Get(m, j) + KidsShift(t, modes, kids, cd, j)
    decreases t.height - t.depth(p), 0, |kids|
  {
    if kids != [] {
      var c, init := kids[|kids| - 1], kids[..|kids| - 1];
      assert c in kids;
      var before := ApplyKids(t, m, modes, p, init, cd);
      var updated := before[c := Get(before, c) + cd];
      ApplyKidsAt(t, m, modes, p, init, cd, j);
      ApplyAt(t, updated, modes, c, cd, j);
      GetUpdate(before, c, Get(before, c) + cd, j);
      assert ApplyKids(t, m, modes, p, kids, cd) == Apply(t, updated, modes, c, cd);
      assert KidsShift(t, modes, kids, cd, j) == KidsShift(t, modes, init, cd, j) + Contribution(t, modes, c, cd, j);
    }
  }

  // ---------------------------------------------------------------------
  // The handler's properties.

  /** The target gets exactly the new value; every other joint gets its closed-form shift. */
  lemma PivotChangeAt(t: Tree, m: map<Joint, real>, modes: map<Joint, Mode>, key: Joint, newValue: real, j: Joint)
    requires WellFormed(t) && TotalModes(modes) && key in m
    ensures Get(PivotChange(t, m, modes, key, newValue), key) == newValue
    ensures j != key ==>
      Get(PivotChange(t, m, modes, key, newValue), j) == Get(m, j) + Shift(t, modes, key, Delta(m, key, newValue), j)
  {
    var delta := Delta(m, key, newValue);
    if delta == 0.0 {
      ArriveZero(t, modes, key, j);
    } else {
      ApplyAt(t, m[key := newValue], modes, key, delta, key);
      ApplyAt(t, m[key := newValue], modes, key, delta, j);
      GetUpdate(m, key, newValue, j);
    }
  }

  /** Setting a joint to its current value returns the offsets unchanged. */
  lemma ZeroDeltaIsNoOp(t: Tree, m: map<Joint, real>, modes: map<Joint, Mode>, key: Joint)
    requires WellFormed(t) && TotalModes(modes) && key in m
    ensures PivotChange(t, m, modes, key, m[key]) == m
  {
  }

  /** A target in mode Fk changes alone. */
  lemma FkTargetChangesAlone(t: Tree, m: map<Joint, real>, modes: map<Joint, Mode>, key: Joint, newValue: real, j: Joint)
    requires WellFormed(t) && TotalModes(modes) && key in m && modes[key] == Fk
    requires j != key
    ensures Get(PivotChange(t, m, modes, key, newValue), j) == Get(m, j)
  {
    PivotChangeAt(t, m, modes, key, newValue, j);
    if InSubtree(t, key, j) {
      ArriveBelowFk(t, modes, key, Delta(m, key, newValue), key, j);
    } else {
      ArriveOutside(t, modes, key, Delta(m, key, newValue), j);
    }
  }

  /** Joints outside the target's subtree never change. */
  lemma OutsideSubtreeUnchanged(t: Tree, m: map<Joint, real>, modes: map<Joint, Mode>, key: Joint, newValue: real, j: Joint)
    requires WellFormed(t) && TotalModes(modes) && key in m
    requires !InSubtree(t, key, j)
    ensures Get(PivotChange(t, m, modes, key, newValue), j) == Get(m, j)
  {
    PivotChangeAt(t, m, modes, key, newValue, j);
    ArriveOutside(t, modes, key, Delta(m, key, newValue), j);
  }

  /** A direct child of a Bend target gets +delta, of a Stretch target -delta. */
  lemma DirectChildShift(t: Tree, m: map<Joint, real>, modes: map<Joint, Mode>, key: Joint, newValue: real, c: Joint)
    requires WellFormed(t) && TotalModes(modes) && key in m
    requires t.parent(c) == Some(key)
    ensures modes[key] == Bend ==>
      Get(PivotChange(t, m, modes, key, newValue), c) == Get(m, c) + Delta(m, key, newValue)
    ensures modes[key] == Stretch ==>
      Get(PivotChange(t, m, modes, key, newValue), c) == Get(m, c) - Delta(m, key, newValue)
  {
    ChildInSubtree(t, key, c);
    PivotChangeAt(t, m, modes, key, newValue, c);
    ArriveStep(t, modes, key, Delta(m, key, newValue), key, c);
  }

  /**
    The recursion rule: below the target, what a joint gains is what its parent
    gained (the target counts with the full delta), passed through the parent's
    mode, and nothing when the parent is in mode Fk.
  */
  lemma ChildFollowsParent(t: Tree, m: map<Joint, real>, modes: map<Joint, Mode>, key: Joint, newValue: real, q: Joint, j: Joint)
    requires WellFormed(t) && TotalModes(modes) && key in m
    requires t.parent(j) == Some(q) && InSubtree(t, key, q)
    ensures var r := PivotChange(t, m, modes, key, newValue);
            var gained := if q == key then Delta(m, key, newValue) else Get(r, q) - Get(m, q);
            Get(r, j) - Get(m, j) == if modes[q] == Fk then 0.0 else ChildDelta(modes[q], gained)
  {
    var delta := Delta(m, key, newValue);
    ChildBelowStart(t, key, q, j);
    PivotChangeAt(t, m, modes, key, newValue, j);
    PivotChangeAt(t, m, modes, key, newValue, q);
    if modes[q] == Fk {
      ShiftUnderFk(t, modes, key, delta, q, j);
    } else if q == key {
      ShiftUnderStart(t, modes, key, delta, j);
    } else {
      ShiftUnderJoint(t, modes, key, delta, q, j);
    }
  }

  /** A child of a joint of the pushed subtree is not the start of the push. */
  lemma ChildBelowStart(t: Tree, p: Joint, q: Joint, j: Joint)
    requires WellFormed(t) && t.parent(j) == Some(q) && InSubtree(t, p, q)
    ensures j != p
  {
    ChildInSubtree(t, q, j);
    StrictlyBelow(t, p, q, j);
  }

  /** The closed form of the recursion rule, for a parent in mode Fk: the child gains nothing. */
  lemma ShiftUnderFk(t: Tree, modes: map<Joint, Mode>, p: Joint, d: real, q: Joint, j: Joint)
    requires WellFormed(t) && TotalModes(modes)
    requires t.parent(j) == Some(q) && InSubtree(t, p, q) && modes[q] == Fk
    ensures Shift(t, modes, p, d, j) == 0.0
  {
    ChildBelowStart(t, p, q, j);
    ArriveStep(t, modes, p, d, q, j);
  }

  /** ... for the start itself as the parent: the child gains the start's difference, through its mode. */
  lemma ShiftUnderStart(t: Tree, modes: map<Joint, Mode>, p: Joint, d: real, j: Joint)
    requires WellFormed(t) && TotalModes(modes)
    requires t.parent(j) == Some(p) && modes[p] != Fk
    ensures Shift(t, modes, p, d, j) == ChildDelta(modes[p], d)
  {
    ChildInSubtree(t, p, j);
    ArriveStep(t, modes, p, d, p, j);
  }

  /** ... for a deeper parent: the child gains the parent's gain, through the parent's mode. */
  lemma ShiftUnderJoint(t: Tree, modes: map<Joint, Mode>, p: Joint, d: real, q: Joint, j: Joint)
    requires WellFormed(t) && TotalModes(modes)
    requires t.parent(j) == Some(q) && InSubtree(t, p, q) && q != p && modes[q] != Fk
    ensures Shift(t, modes, p, d, j) == ChildDelta(modes[q], Shift(t, modes, p, d, q))
  {
    ChildBelowStart(t, p, q, j);
    ArriveStep(t, modes, p, d, q, j);
  }

  /** A joint in mode Fk inside the target's subtree shields everything below it. */
  lemma FkJointShieldsDescendants(t: Tree, m: map<Joint, real>, modes: map<Joint, Mode>, key: Joint, newValue: real, q: Joint, j: Joint)
    requires WellFormed(t) && TotalModes(modes) && key in m
    requires InSubtree(t, key, q) && modes[q] == Fk
    requires InSubtree(t, q, j) && j != q
    ensures Get(PivotChange(t, m, modes, key, newValue), j) == Get(m, j)
  {
    StrictlyBelow(t, key, q, j);
    PivotChangeAt(t, m, modes, key, newValue, j);
    ArriveBelowFk(t, modes, key, Delta(m, key, newValue), q, j);
  }

  // ---------------------------------------------------------------------
  // The traversal as the source runs it: a recursive walk that updates the
  // working copy child by child.

  /** The loop over kids + [c] is the loop over kids followed by the step for c. */
  lemma ApplyKidsSnoc(t: Tree, m: map<Joint, real>, modes: map<Joint, Mode>, p: Joint, kids: seq<Joint>, c: Joint, cd: real)
    requires WellFormed(t) && TotalModes(modes)
    requires forall k <- kids :: t.parent(k) == Some(p)
    requires t.parent(c) == Some(p)
    ensures forall k <- kids + [c] :: t.parent(k) == Some(p)
    ensures var before := ApplyKids(t, m, modes, p, kids, cd);
      ApplyKids(t, m, modes, p, kids + [c], cd) == Apply(t, before[c := Get(before, c) + cd], modes, c, cd)
  {
    assert (kids + [c])[..|kids|] == kids;
  }

  /** Extending a prefix by one element. */
  lemma PrefixSnoc<T>(s: seq<T>, i: nat)
    requires i < |s|
    ensures s[..i + 1] == s[..i] + [s[i]]
  {
  }

  method ApplyRecursiveEffect(t: Tree, offsets: map<Joint, real>, modes: map<Joint, Mode>, parentKey: Joint, appliedDelta: real)
    returns (r: map<Joint, real>)
    requires WellFormed(t) && TotalModes(modes)
    ensures r == Apply(t, offsets, modes, parentKey, appliedDelta)
    decreases t.height - t.depth(parentKey)
  {
    r := offsets;
    var parentMode := modes[parentKey];
    if parentMode == Fk {
      return;
    }
    var children := t.children(parentKey);
    var childDelta := 0.0;
    if parentMode == Bend {
      childDelta := appliedDelta;
    } else if parentMode == Stretch {
      childDelta := -appliedDelta;
    }
    assert childDelta == ChildDelta(parentMode, appliedDelta);
    assert children[..0] == [];
    for i := 0 to |children|
      invariant forall k <- children[..i] :: t.parent(k) == Some(parentKey)
      invariant r == ApplyKids(t, offsets, modes, parentKey, children[..i], childDelta)
    {
      var childKey := children[i];
      assert t.parent(childKey) == Some(parentKey);
      ApplyKidsSnoc(t, offsets, modes, parentKey, children[..i], childKey, childDelta);
      PrefixSnoc(children, i);
      r := r[childKey := Get(r, childKey) + childDelta];
      r := ApplyRecursiveEffect(t, r, modes, childKey, childDelta);
    }
    assert children[..|children|] == children;
    assert r == ApplyKids(t, offsets, modes, parentKey, children, childDelta);
  }
}
