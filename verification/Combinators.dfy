/**
 What a chain of combinators means (Selectors Level 3, sections 8.1 to 8.3) and
 what a right-to-left evaluation that keeps one witness per candidate finds of it.

 Links are listed right to left, the order in which the engine consumes them:
 `links[0]` joins the candidate to the compound just left of it.
 */
module Combinators {
  import opened Wrappers
  import opened Dom

  datatype Combinator = Descendant | Child | Adjacent | General

  /** A combinator with the nodes its left-hand compound selects in this tree. */
  datatype Link = Link(combinator: Combinator, accepted: set<nat>)

  /** Compound selectors select elements only. */
  ghost predicate ElementLinks(t: Tree, links: seq<Link>) {
    forall i :: 0 <= i < |links| ==> links[i].accepted <= Elements(t)
  }

  /** `w combinator n` as the standard defines it. */
  ghost predicate Related(t: Tree, c: Combinator, w: nat, n: nat)
    requires n < |t|
  {
    match c
    case Descendant => Contains(t, w, n)
    case Child => t[n].parent == Some(w)
    case General => Precedes(t, w, n)
    case Adjacent =>
      && Precedes(t, w, n) && IsElement(t, w)
      && forall x: nat :: Precedes(t, x, n) && IsElement(t, x) ==> x <= w
  }

  /** `ws[0]` is the candidate, `ws[i + 1]` a witness for the compound of `links[i]`. */
  ghost predicate Chain(t: Tree, links: seq<Link>, ws: seq<nat>) {
    && |ws| == |links| + 1
    && (forall i :: 0 <= i < |ws| ==> ws[i] < |t|)
    && forall i :: 0 <= i < |links| ==>
         Related(t, links[i].combinator, ws[i + 1], ws[i]) && ws[i + 1] in links[i].accepted
  }

  /** The one witness the engine keeps for `n`: the nearest accepted node. */
  function Pick(t: Tree, k: Link, n: nat): (w: Option<nat>)
    requires n < |t|
    ensures w.Some? ==> w.value < |t| && w.value in k.accepted
  {
    match k.combinator
    case Descendant => Nearest(t, ParentNode, k.accepted, Go(t, ParentNode, n))
    case General => Nearest(t, PreviousSibling, k.accepted, Go(t, PreviousSibling, n))
    case Child =>
      var p := Go(t, ParentNode, n);
      if p.Some? && p.value in k.accepted then p else None
    case Adjacent =>
      var p := Nearest(t, PreviousSibling, Elements(t), Go(t, PreviousSibling, n));
      if p.Some? && p.value in k.accepted then p else None
  }

  /** The leftmost witness after all links, or None once one step finds nothing. */
  function Greedy(t: Tree, links: seq<Link>, n: nat): (w: Option<nat>)
    requires n < |t|
    ensures w.Some? ==> w.value < |t|
  {
    if links == [] then Some(n)
    else
      var w := Pick(t, links[0], n);
      if w.None? then None else Greedy(t, links[1..], w.value)
  }

  /** The witness after every number of links. */
  ghost function GreedyChain(t: Tree, links: seq<Link>, n: nat): (ws: seq<nat>)
    requires n < |t| && Greedy(t, links, n).Some?
    ensures |ws| == |links| + 1
  {
    [n] + if links == [] then [] else GreedyChain(t, links[1..], Pick(t, links[0], n).value)
  }

  lemma PreviousElement(t: Tree, n: nat)
    requires n < |t|
    ensures var p := Nearest(t, PreviousSibling, Elements(t), Go(t, PreviousSibling, n));
            && (p.Some? ==> Related(t, Adjacent, p.value, n))
            && forall w: nat :: w < |t| && Related(t, Adjacent, w, n) ==> p == Some(w)
  {
    var s := Go(t, PreviousSibling, n);
    var p := Nearest(t, PreviousSibling, Elements(t), s);
    forall x: nat | x < |t|
      ensures Precedes(t, x, n) <==> Beyond(t, PreviousSibling, n, x)
    {
      BeyondIsPrecedes(t, x, n);
    }
    if s.Some? {
      NearestIsNearest(t, PreviousSibling, Elements(t), s.value);
      forall x: nat | Precedes(t, x, n) && IsElement(t, x)
        ensures p.Some? && x <= p.value
      {
        assert x in Elements(t);
        ReachesBound(t, PreviousSibling, p.value, x);
      }
    }
  }

  lemma PickSound(t: Tree, k: Link, n: nat)
    requires n < |t| && Pick(t, k, n).Some?
    ensures Related(t, k.combinator, Pick(t, k, n).value, n)
  {
    match k.combinator {
      case Descendant =>
        NearestIsNearest(t, ParentNode, k.accepted, Go(t, ParentNode, n).value);
      case General =>
        NearestIsNearest(t, PreviousSibling, k.accepted, Go(t, PreviousSibling, n).value);
        BeyondIsPrecedes(t, Pick(t, k, n).value, n);
      case Child =>
      case Adjacent => PreviousElement(t, n);
    }
  }

  /** Soundness: the witnesses kept on the way form a chain of the declarative meaning. */
  lemma {:induction false} GreedySound(t: Tree, links: seq<Link>, n: nat)
    requires n < |t| && Greedy(t, links, n).Some?
    ensures var ws := GreedyChain(t, links, n);
            Chain(t, links, ws) && ws[0] == n && ws[|links|] == Greedy(t, links, n).value
    decreases |links|
  {
    if links != [] {
      var w := Pick(t, links[0], n).value;
      PickSound(t, links[0], n);
      GreedySound(t, links[1..], w);
      ChainExtends(t, links, n, GreedyChain(t, links[1..], w));
    }
  }

  lemma ChainExtends(t: Tree, links: seq<Link>, n: nat, rest: seq<nat>)
    requires n < |t| && links != [] && Chain(t, links[1..], rest)
    requires Related(t, links[0].combinator, rest[0], n) && rest[0] in links[0].accepted
    ensures Chain(t, links, [n] + rest)
  {
    var ws := [n] + rest;
    forall i | 0 <= i < |links|
      ensures Related(t, links[i].combinator, ws[i + 1], ws[i]) && ws[i + 1] in links[i].accepted
    {
      if i > 0 {
        assert links[i] == links[1..][i - 1];
      }
    }
  }

  /** After `i` links the witness kept is the `i`-th of that chain. */
  lemma {:induction false} GreedyPrefix(t: Tree, links: seq<Link>, n: nat, i: nat)
    requires n < |t| && Greedy(t, links, n).Some? && i <= |links|
    ensures Greedy(t, links[..i], n) == Some(GreedyChain(t, links, n)[i])
    decreases |links|
  {
    if i > 0 {
      var w := Pick(t, links[0], n).value;
      GreedyPrefix(t, links[1..], w, i - 1);
      assert links[..i][1..] == links[1..][..i - 1];
    }
  }

  // ---- Completeness ---------------------------------------------------------

  /**
   Reading right to left, the nearest witness of a descendant step keeps every
   option open only for another descendant step, and the nearest witness of a
   general-sibling step for anything but an adjacent-sibling step.
   */
  predicate SafePair(right: Combinator, left: Combinator) {
    match right
    case Descendant => left.Descendant?
    case General => !left.Adjacent?
    case _ => true
  }

  predicate Safe(cs: seq<Combinator>) {
    forall i :: 0 <= i < |cs| - 1 ==> SafePair(cs[i], cs[i + 1])
  }

  function CombinatorsOf(links: seq<Link>): (cs: seq<Combinator>)
    ensures |cs| == |links|
  {
    seq(|links|, i requires 0 <= i < |links| => links[i].combinator)
  }

  /** How the kept witness `g` of a step with combinator `c` dominates another witness `w`. */
  ghost predicate Dominates(t: Tree, c: Option<Combinator>, g: nat, w: nat)
    requires g < |t| && w < |t|
  {
    match c
    case Some(Descendant) => Reaches(t, ParentNode, g, w)
    case Some(General) => Reaches(t, PreviousSibling, g, w)
    case _ => g == w
  }

  lemma BeyondExtends(t: Tree, d: Direction, g: nat, w: nat, x: nat)
    requires g < |t| && w < |t| && Reaches(t, d, g, w) && Beyond(t, d, w, x)
    ensures Beyond(t, d, g, x)
  {
    if g != w {
      var g' := Go(t, d, g).value;
      ReachesTransitive(t, d, w, Go(t, d, w).value, x);
      ReachesTransitive(t, d, g', w, x);
    }
  }

  /** The exchange step: a dominating witness picks a dominating witness. */
  lemma PickDominates(t: Tree, k: Link, before: Option<Combinator>, g: nat, w: nat, x: nat)
    requires g < |t| && w < |t| && x < |t|
    requires Dominates(t, before, g, w)
    requires before.Some? ==> SafePair(before.value, k.combinator)
    requires Related(t, k.combinator, x, w) && x in k.accepted
    ensures Pick(t, k, g).Some? && Dominates(t, Some(k.combinator), Pick(t, k, g).value, x)
  {
    match k.combinator {
      case Descendant =>
        if before == Some(Descendant) {
          BeyondExtends(t, ParentNode, g, w, x);
        } else if before == Some(General) {
          SiblingsShareParent(t, g, w);
        }
        assert Beyond(t, ParentNode, g, x);
        NearestIsNearest(t, ParentNode, k.accepted, Go(t, ParentNode, g).value);
      case General =>
        BeyondIsPrecedes(t, x, w);
        if before == Some(General) {
          BeyondExtends(t, PreviousSibling, g, w, x);
        }
        assert Beyond(t, PreviousSibling, g, x);
        NearestIsNearest(t, PreviousSibling, k.accepted, Go(t, PreviousSibling, g).value);
      case Child =>
        if before == Some(General) {
          SiblingsShareParent(t, g, w);
        }
      case Adjacent =>
        PreviousElement(t, g);
    }
  }

  function LastCombinator(links: seq<Link>, before: Option<Combinator>): Option<Combinator> {
    if links == [] then before else Some(links[|links| - 1].combinator)
  }

  lemma {:induction false} GreedyDominates(
    t: Tree, links: seq<Link>, before: Option<Combinator>, g: nat, ws: seq<nat>)
    requires g < |t| && Chain(t, links, ws) && Safe(CombinatorsOf(links))
    requires Dominates(t, before, g, ws[0])
    requires before.Some? && links != [] ==> SafePair(before.value, links[0].combinator)
    ensures Greedy(t, links, g).Some?
    ensures Dominates(t, LastCombinator(links, before), Greedy(t, links, g).value, ws[|links|])
    decreases |links|
  {
    if links != [] {
      PickDominates(t, links[0], before, g, ws[0], ws[1]);
      var cs := CombinatorsOf(links);
      assert forall i :: 0 <= i < |links| - 1 ==> CombinatorsOf(links[1..])[i] == cs[i + 1];
      if |links| > 1 {
        assert SafePair(cs[0], cs[1]);
      }
      forall i | 0 <= i < |links[1..]|
        ensures Related(t, links[1..][i].combinator, ws[1..][i + 1], ws[1..][i])
                && ws[1..][i + 1] in links[1..][i].accepted
      {
        assert links[1..][i] == links[i + 1];
      }
      GreedyDominates(t, links[1..], Some(links[0].combinator), Pick(t, links[0], g).value, ws[1..]);
    }
  }

  /** Nodes the engine returns for: everything below an element, or any element of a document. */
  ghost predicate InScope(t: Tree, context: nat, w: nat)
    requires context < |t| && w < |t|
  {
    IsElement(t, w) && (IsElement(t, context) ==> Contains(t, context, w))
  }

  /** Passing from a witness to one it dominates cannot leave the scope. */
  lemma DominatesInScope(t: Tree, context: nat, c: Option<Combinator>, g: nat, w: nat)
    requires context < |t| && g < |t| && w < |t|
    requires IsElement(t, g) && InScope(t, context, w) && Dominates(t, c, g, w)
    ensures InScope(t, context, g)
  {
    if IsElement(t, context) {
      if c == Some(Descendant) {
        BeyondExtends(t, ParentNode, g, w, context);
      } else if c == Some(General) {
        SiblingsShareParent(t, g, w);
      }
    }
  }

  /** The candidate matches: some chain starts at it and ends inside the context. */
  ghost predicate Matches(t: Tree, links: seq<Link>, context: nat, n: nat)
    requires context < |t|
  {
    exists ws :: Chain(t, links, ws) && ws[0] == n && InScope(t, context, ws[|links|])
  }

  /** The candidate is found: the leftmost witness kept lies inside the context. */
  ghost predicate Found(t: Tree, links: seq<Link>, context: nat, n: nat)
    requires context < |t| && n < |t|
  {
    var w := Greedy(t, links, n);
    w.Some? && InScope(t, context, w.value)
  }

  lemma {:induction false} GreedyEndsAtElement(t: Tree, links: seq<Link>, n: nat)
    requires n < |t| && IsElement(t, n) && ElementLinks(t, links) && Greedy(t, links, n).Some?
    ensures IsElement(t, Greedy(t, links, n).value)
    decreases |links|
  {
    if links != [] {
      assert Pick(t, links[0], n).value in Elements(t);
      forall i | 0 <= i < |links[1..]| ensures links[1..][i].accepted <= Elements(t) {
        assert links[1..][i] == links[i + 1];
      }
      GreedyEndsAtElement(t, links[1..], Pick(t, links[0], n).value);
    }
  }

  lemma FoundMatches(t: Tree, links: seq<Link>, context: nat, n: nat)
    requires context < |t| && n < |t| && Found(t, links, context, n)
    ensures Matches(t, links, context, n)
  {
    GreedySound(t, links, n);
    var ws := GreedyChain(t, links, n);
    assert Chain(t, links, ws) && ws[0] == n && InScope(t, context, ws[|links|]);
  }

  /** Completeness on the safe patterns, the final scope test included. */
  lemma MatchesFound(t: Tree, links: seq<Link>, context: nat, n: nat)
    requires context < |t| && n < |t| && IsElement(t, n) && ElementLinks(t, links)
    requires Safe(CombinatorsOf(links)) && Matches(t, links, context, n)
    ensures Found(t, links, context, n)
  {
    var ws :| Chain(t, links, ws) && ws[0] == n && InScope(t, context, ws[|links|]);
    GreedyDominates(t, links, None, n, ws);
    var g := Greedy(t, links, n).value;
    GreedyEndsAtElement(t, links, n);
    DominatesInScope(t, context, LastCombinator(links, None), g, ws[|links|]);
  }

  /** No element of the tree is the root of a detached fragment. */
  ghost predicate Attached(t: Tree) {
    forall n: nat :: n < |t| && IsElement(t, n) ==> t[n].parent.Some?
  }

  /** A document node has at most one element among its children. */
  ghost predicate OneRoot(t: Tree) {
    forall m: nat, n: nat :: m < n < |t| && IsElement(t, m) && IsElement(t, n)
      && t[m].parent.Some? && t[m].parent == t[n].parent && t[m].parent.value < |t|
      ==> !t[t[m].parent.value].kind.DocumentNode?
  }

  /** One witness per candidate suffices for this pattern, whatever the document and the compounds. */
  ghost predicate OneWitnessSuffices(cs: seq<Combinator>) {
    forall t: Tree, links: seq<Link>, context: nat, n: nat ::
      && Attached(t) && OneRoot(t) && context < |t| && n < |t| && IsElement(t, n)
      && ElementLinks(t, links) && CombinatorsOf(links) == cs
      && Matches(t, links, context, n)
      ==> Found(t, links, context, n)
  }
}
