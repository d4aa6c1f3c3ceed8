/**
  Parent/child tables over the joints and the subtree relation they define.

  The facts about subtrees hold for every well-formed table; the app's own
  table (KINEMATIC_TREE) is one of them, by KinematicTree below.  The
  propagation of a rotation change is proved over this interface, so that
  its proofs never have to take the app's 18-way table apart.
*/
module Hierarchy {

  import opened Options
  import opened Skeleton

  /** A parent/children table over the joints, each joint with its depth. */
  datatype Tree = Tree(
    parent: Joint -> Option<Joint>,
    children: Joint -> seq<Joint>,
    depth: Joint -> nat,
    height: nat)

  /**
    The children lists are the inverse of the parent links and hold no
    repeats; a child is one level deeper than its parent, and no joint is
    deeper than the height.
  */
  ghost predicate WellFormed(t: Tree) {
    && (forall j :: t.parent(j).Some? ==> t.depth(t.parent(j).value) + 1 == t.depth(j))
    && (forall j :: t.depth(j) <= t.height)
    && (forall p, c :: t.parent(c) == Some(p) <==> c in t.children(p))
    && (forall p :: Distinct(t.children(p)))
  }

  /** The app's kinematic tree, rooted at the waist, five levels deep. */
  function KinematicTree(): (t: Tree)
    ensures WellFormed(t)
    ensures t.height == 5
    ensures forall j :: t.parent(j) == Parent(j) && t.children(j) == Children(j)
  {
    forall p, c ensures Parent(c) == Some(p) <==> c in Children(p) {
      ParentIsInverseOfChildren(p, c);
    }
    forall p ensures Distinct(Children(p)) {
      ParentIsInverseOfChildren(p, p);
    }
    Tree(Parent, Children, Depth, 5)
  }

  /** j lies in the subtree rooted at a (a itself included). */
  predicate InSubtree(t: Tree, a: Joint, j: Joint)
    requires WellFormed(t)
    decreases t.depth(j)
  {
    j == a || (t.parent(j).Some? && InSubtree(t, a, t.parent(j).value))
  }

  /** A subtree's joints are at least as deep as its root, and only the root is as deep. */
  lemma {:induction false} SubtreeDepth(t: Tree, a: Joint, j: Joint)
    requires WellFormed(t) && InSubtree(t, a, j)
    ensures t.depth(a) <= t.depth(j)
    ensures t.depth(a) == t.depth(j) ==> a == j
    decreases t.depth(j)
  {
    if j != a {
      SubtreeDepth(t, a, t.parent(j).value);
    }
  }

  /** Two subtrees that share a joint are nested. */
  lemma {:induction false} SubtreesNest(t: Tree, a: Joint, b: Joint, j: Joint)
    requires WellFormed(t) && InSubtree(t, a, j) && InSubtree(t, b, j)
    ensures InSubtree(t, a, b) || InSubtree(t, b, a)
    decreases t.depth(j)
  {
    if j != a && j != b {
      SubtreesNest(t, a, b, t.parent(j).value);
    }
  }

  /** The subtrees of two different children of one joint are disjoint. */
  lemma SiblingSubtreesDisjoint(t: Tree, c: Joint, c': Joint, j: Joint)
    requires WellFormed(t)
    requires t.parent(c).Some? && t.parent(c) == t.parent(c') && c != c'
    requires InSubtree(t, c, j)
    ensures !InSubtree(t, c', j)
  {
    if InSubtree(t, c', j) {
      SharedJointSameSibling(t, c, c', j);
    }
  }

  /** Two children of one joint whose subtrees share a joint are the same child. */
  lemma SharedJointSameSibling(t: Tree, c: Joint, c': Joint, j: Joint)
    requires WellFormed(t)
    requires t.parent(c).Some? && t.parent(c) == t.parent(c')
    requires InSubtree(t, c, j) && InSubtree(t, c', j)
    ensures c == c'
  {
    SubtreesNest(t, c, c', j);
    NestedSiblingsEqual(t, c, c');
  }

  /** Of two children of one joint, one lies in the other's subtree only if they are the same. */
  lemma NestedSiblingsEqual(t: Tree, c: Joint, c': Joint)
    requires WellFormed(t)
    requires t.parent(c).Some? && t.parent(c) == t.parent(c')
    requires InSubtree(t, c, c') || InSubtree(t, c', c)
    ensures c == c'
  {
    if InSubtree(t, c, c') {
      SubtreeDepth(t, c, c');
    } else {
      SubtreeDepth(t, c', c);
    }
  }

  /** A child lies in its parent's subtree. */
  lemma ChildInSubtree(t: Tree, p: Joint, c: Joint)
    requires WellFormed(t) && t.parent(c) == Some(p)
    ensures InSubtree(t, p, c) && c != p
  {
  }

  /** Below its root, a subtree contains the parent of each of its joints. */
  lemma SubtreeUp(t: Tree, a: Joint, j: Joint)
    requires WellFormed(t) && InSubtree(t, a, j) && j != a
    ensures t.parent(j).Some? && InSubtree(t, a, t.parent(j).value)
  {
  }

  /** A subtree that contains a joint's parent contains the joint. */
  lemma SubtreeDown(t: Tree, a: Joint, q: Joint, j: Joint)
    requires WellFormed(t) && t.parent(j) == Some(q) && InSubtree(t, a, q)
    ensures InSubtree(t, a, j)
  {
  }

  /** The subtree of a child is part of its parent's subtree. */
  lemma {:induction false} ChildSubtreeWithin(t: Tree, p: Joint, c: Joint, j: Joint)
    requires WellFormed(t) && t.parent(c) == Some(p) && InSubtree(t, c, j)
    ensures InSubtree(t, p, j)
    decreases t.depth(j)
  {
    if j == c {
      ChildInSubtree(t, p, c);
    } else {
      SubtreeUp(t, c, j);
      var q := t.parent(j).value;
      ChildSubtreeWithin(t, p, c, q);
      SubtreeDown(t, p, q, j);
    }
  }

  /** ... and does not contain the parent itself. */
  lemma ChildSubtreeInside(t: Tree, p: Joint, c: Joint, j: Joint)
    requires WellFormed(t) && t.parent(c) == Some(p) && InSubtree(t, c, j)
    ensures InSubtree(t, p, j) && j != p
  {
    ChildSubtreeWithin(t, p, c, j);
    SubtreeDepth(t, c, j);
  }

  /** Subtrees are transitive: the subtree of a joint in a's subtree lies in a's subtree. */
  lemma {:induction false} SubtreeTransitive(t: Tree, a: Joint, b: Joint, j: Joint)
    requires WellFormed(t) && InSubtree(t, a, b) && InSubtree(t, b, j)
    ensures InSubtree(t, a, j)
    decreases t.depth(j)
  {
    if j != b {
      SubtreeUp(t, b, j);
      var q := t.parent(j).value;
      SubtreeTransitive(t, a, b, q);
      SubtreeDown(t, a, q, j);
    }
  }

  /** Everything above a joint outside key's subtree is outside it as well. */
  lemma OutsideStaysOutside(t: Tree, key: Joint, a: Joint, j: Joint)
    requires WellFormed(t) && InSubtree(t, a, j) && !InSubtree(t, key, j)
    ensures !InSubtree(t, key, a)
  {
    if InSubtree(t, key, a) {
      SubtreeTransitive(t, key, a, j);
    }
  }

  /** A joint's parent is outside the joint's subtree. */
  lemma ParentOutsideSubtree(t: Tree, q: Joint, j: Joint)
    requires WellFormed(t) && t.parent(j) == Some(q)
    ensures !InSubtree(t, j, q)
  {
    if InSubtree(t, j, q) {
      SubtreeDepth(t, j, q);
    }
  }

  /** The child of p on the way down to j, for a j strictly below p. */
  function ChildToward(t: Tree, p: Joint, j: Joint): (c: Joint)
    requires WellFormed(t) && InSubtree(t, p, j) && j != p
    ensures t.parent(c) == Some(p) && InSubtree(t, c, j)
    decreases t.depth(j)
  {
    var q := t.parent(j).value;
    if q == p then j else ChildToward(t, p, q)
  }
}
