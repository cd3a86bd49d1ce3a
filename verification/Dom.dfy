/**
 The document tree a selector query reads.  A query never changes the tree, so
 the tree is a value: nodes are numbered in document order and every link is a
 field of the node's record.  The three expando properties that the engine does
 write (`sizcache`, `sizset`, `nodeIndex`) live in `SelectorEngine.Engine`.
 */
module Dom {
  import opened Wrappers

  /** nodeType 1, nodeType 9, and every other node type. */
  datatype Kind = ElementNode | DocumentNode | OtherNode

  /** `name` is the node's lower-cased nodeName. */
  datatype NodeInfo = NodeInfo(
    kind: Kind,
    name: string,
    parent: Option<nat>,
    prev: Option<nat>,
    next: Option<nat>,
    firstChild: Option<nat>)

  predicate IsElement(t: seq<NodeInfo>, n: nat)
    requires n < |t|
  {
    t[n].kind.ElementNode?
  }

  ghost predicate NodeOk(t: seq<NodeInfo>, n: nat)
    requires n < |t|
  {
    && (t[n].parent.Some? ==> t[n].parent.value < n && !t[n].kind.DocumentNode?)
    && (t[n].parent.Some? ==> IsElement(t, t[n].parent.value) || t[t[n].parent.value].parent.None?)
    && (t[n].prev.Some? ==>
          && t[n].parent.Some?
          && t[n].prev.value < n
          && t[t[n].prev.value].parent == t[n].parent
          && t[t[n].prev.value].next == Some(n))
    && (t[n].next.Some? ==>
          && n < t[n].next.value < |t|
          && t[t[n].next.value].prev == Some(n))
    && (t[n].firstChild.Some? ==>
          && n < t[n].firstChild.value < |t|
          && t[t[n].firstChild.value].parent == Some(n)
          && t[t[n].firstChild.value].prev == None)
    && (t[n].parent.Some? && t[n].prev.None? ==> t[t[n].parent.value].firstChild == Some(n))
  }

  /**
   Links agree with each other and respect document order; only elements and the
   roots above them (a document or a fragment) have children.
   */
  ghost predicate WellFormed(t: seq<NodeInfo>) {
    forall n: nat :: n < |t| ==> NodeOk(t, n)
  }

  type Tree = t: seq<NodeInfo> | WellFormed(t) witness []

  function Elements(t: seq<NodeInfo>): set<nat> {
    set n: nat | 0 <= n < |t| && IsElement(t, n)
  }

  /** The two properties the engine walks along (`elem[dir]`). */
  datatype Direction = ParentNode | PreviousSibling

  function Go(t: Tree, d: Direction, n: nat): (r: Option<nat>)
    requires n < |t|
    ensures r.Some? ==> r.value < n
  {
    assert NodeOk(t, n);
    match d
    case ParentNode => t[n].parent
    case PreviousSibling => t[n].prev
  }

  /** `b` is `a` or is met when walking from `a` in direction `d`. */
  predicate Reaches(t: Tree, d: Direction, a: nat, b: nat)
    requires a < |t|
    decreases a
  {
    a == b || (Go(t, d, a).Some? && Reaches(t, d, Go(t, d, a).value, b))
  }

  /** Like Reaches, after at least one move. */
  predicate Beyond(t: Tree, d: Direction, a: nat, b: nat)
    requires a < |t|
  {
    Go(t, d, a).Some? && Reaches(t, d, Go(t, d, a).value, b)
  }

  /** `a` is a proper ancestor of `b` (debian/missing-sources/jquery.js:3535). */
  predicate Contains(t: Tree, a: nat, b: nat)
    requires b < |t|
  {
    Beyond(t, ParentNode, b, a)
  }

  /** `a` and `b` share a parent and `a` comes first in document order. */
  ghost predicate Precedes(t: Tree, a: nat, b: nat)
    requires b < |t|
  {
    a < b && t[a].parent.Some? && t[a].parent == t[b].parent
  }

  lemma {:induction false} ReachesBound(t: Tree, d: Direction, a: nat, b: nat)
    requires a < |t| && Reaches(t, d, a, b)
    ensures b <= a
    decreases a
  {
    if a != b {
      ReachesBound(t, d, Go(t, d, a).value, b);
    }
  }

  lemma {:induction false} ReachesTransitive(t: Tree, d: Direction, a: nat, b: nat, c: nat)
    requires a < |t| && b < |t| && Reaches(t, d, a, b) && Reaches(t, d, b, c)
    ensures Reaches(t, d, a, c)
    decreases a
  {
    if a != b {
      ReachesTransitive(t, d, Go(t, d, a).value, b, c);
    }
  }

  lemma {:induction false} SiblingsShareParent(t: Tree, a: nat, b: nat)
    requires a < |t| && b < |t| && Reaches(t, PreviousSibling, a, b)
    ensures t[a].parent == t[b].parent
    ensures a != b ==> t[a].parent.Some?
    decreases a
  {
    if a != b {
      assert NodeOk(t, a);
      SiblingsShareParent(t, t[a].prev.value, b);
    }
  }

  /** Walking back from any child ends at its parent's first child. */
  lemma {:induction false} ReachesFirstChild(t: Tree, a: nat)
    requires a < |t| && t[a].parent.Some?
    ensures t[a].parent.value < |t| && t[t[a].parent.value].firstChild.Some?
    ensures Reaches(t, PreviousSibling, a, t[t[a].parent.value].firstChild.value)
    decreases a
  {
    assert NodeOk(t, a);
    if t[a].prev.Some? {
      ReachesFirstChild(t, t[a].prev.value);
    }
  }

  /** A walk that reaches `b` from elsewhere also met the node just after `b`. */
  lemma {:induction false} ReachesThroughNext(t: Tree, a: nat, b: nat)
    requires a < |t| && b < |t| && a != b && Reaches(t, PreviousSibling, a, b)
    ensures t[b].next.Some? && Reaches(t, PreviousSibling, a, t[b].next.value)
    decreases a
  {
    assert NodeOk(t, a);
    if t[a].prev.value != b {
      ReachesThroughNext(t, t[a].prev.value, b);
    }
  }

  lemma {:induction false} SiblingsLinear(t: Tree, a: nat, b: nat)
    requires a < |t| && b < |t| && t[a].parent.Some? && t[a].parent == t[b].parent
    ensures Reaches(t, PreviousSibling, a, b) || Reaches(t, PreviousSibling, b, a)
    decreases a
  {
    assert NodeOk(t, a);
    if t[a].prev.None? {
      ReachesFirstChild(t, b);
    } else {
      var c := t[a].prev.value;
      SiblingsLinear(t, c, b);
      if Reaches(t, PreviousSibling, b, c) && b != c {
        ReachesThroughNext(t, b, c);
      }
    }
  }

  /** Walking back over siblings meets exactly the siblings earlier in document order. */
  lemma {:induction false} BeyondIsPrecedes(t: Tree, a: nat, b: nat)
    requires a < |t| && b < |t|
    ensures Beyond(t, PreviousSibling, b, a) <==> Precedes(t, a, b)
  {
    assert NodeOk(t, b);
    if Beyond(t, PreviousSibling, b, a) {
      ReachesBound(t, PreviousSibling, t[b].prev.value, a);
      assert Reaches(t, PreviousSibling, b, a);
      SiblingsShareParent(t, b, a);
    }
    if Precedes(t, a, b) {
      SiblingsLinear(t, a, b);
      if Reaches(t, PreviousSibling, a, b) {
        ReachesBound(t, PreviousSibling, a, b);
      }
    }
  }

  /** The first node of `accepted` met when walking from `from`, the start included. */
  function Nearest(t: Tree, d: Direction, accepted: set<nat>, from: Option<nat>): (r: Option<nat>)
    requires from.Some? ==> from.value < |t|
    ensures r.Some? ==> r.value < |t| && r.value in accepted
    decreases if from.Some? then from.value + 1 else 0
  {
    if from.None? then None
    else if from.value in accepted then from
    else Nearest(t, d, accepted, Go(t, d, from.value))
  }

  /** Nearest finds a reachable accepted node, and every other one lies beyond it. */
  lemma {:induction false} NearestIsNearest(t: Tree, d: Direction, accepted: set<nat>, a: nat)
    requires a < |t|
    ensures var r := Nearest(t, d, accepted, Some(a));
            && (r.Some? ==> Reaches(t, d, a, r.value))
            && forall b :: b in accepted && Reaches(t, d, a, b) ==> r.Some? && Reaches(t, d, r.value, b)
    decreases a
  {
    if a !in accepted && Go(t, d, a).Some? {
      NearestIsNearest(t, d, accepted, Go(t, d, a).value);
    }
  }
}
