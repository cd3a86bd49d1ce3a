/**
 Where keeping one witness per candidate is not enough: for every pattern with an
 unsafe pair there is a document in which a matching candidate is lost.  The
 document is a staircase, each node the first child or the next sibling of the
 node before it, below one root element, with one decoy placed before the true
 witness of the unsafe pair.
 */
module Backtracking {
  import opened Wrappers
  import opened Dom
  import opened Combinators
  import opened Query
  import opened QueryAnswers

  function ParentOf(down: seq<bool>, m: nat): Option<nat>
    requires m <= |down|
  {
    if m == 0 then None else if down[m - 1] then Some(m - 1) else ParentOf(down, m - 1)
  }

  /** Node 0 is the document; `down[i]` says whether node `i + 1` is a child or a sibling of node `i`. */
  function Stairs(down: seq<bool>): seq<NodeInfo> {
    seq(|down| + 1, m requires 0 <= m <= |down| =>
      NodeInfo(
        if m == 0 then DocumentNode else ElementNode,
        "",
        ParentOf(down, m),
        if m > 0 && !down[m - 1] then Some(m - 1) else None,
        if m < |down| && !down[m] then Some(m + 1) else None,
        if m < |down| && down[m] then Some(m + 1) else None))
  }

  lemma {:induction false} ParentOfBound(down: seq<bool>, m: nat)
    requires 0 < m <= |down| && down[0]
    ensures ParentOf(down, m).Some? && ParentOf(down, m).value < m
  {
    if !down[m - 1] {
      ParentOfBound(down, m - 1);
    }
  }

  lemma {:induction false} BelowRoot(down: seq<bool>, m: nat)
    requires 2 <= m <= |down| && down[0] && down[1]
    ensures ParentOf(down, m).Some? && ParentOf(down, m).value >= 1
  {
    if !down[m - 1] {
      BelowRoot(down, m - 1);
    }
  }

  lemma StairsWellFormed(down: seq<bool>)
    requires |down| > 0 && down[0]
    ensures WellFormed(Stairs(down)) && Attached(Stairs(down))
    ensures |down| > 1 && down[1] ==> OneRoot(Stairs(down))
  {
    var t := Stairs(down);
    forall n: nat | n < |t|
      ensures NodeOk(t, n)
    {
      if n > 0 {
        ParentOfBound(down, n);
      }
    }
    forall n: nat | n < |t| && IsElement(t, n)
      ensures t[n].parent.Some?
    {
      ParentOfBound(down, n);
    }
    if |down| > 1 && down[1] {
      forall n: nat | 2 <= n < |t|
        ensures t[n].parent != Some(0)
      {
        BelowRoot(down, n);
      }
    }
  }

  predicate Vertical(c: Combinator) {
    c.Descendant? || c.Child?
  }

  /** A node is related to the one before it by every combinator of its own direction. */
  lemma StepRelated(t: Tree, down: seq<bool>, m: nat, c: Combinator)
    requires |down| > 0 && down[0] && t == Stairs(down)
    requires 2 <= m <= |down| && Vertical(c) == down[m - 1]
    ensures Related(t, c, m - 1, m)
  {
    ParentOfBound(down, m - 1);
    assert Reaches(t, ParentNode, m - 1, m - 1);
  }

  lemma StepPicked(t: Tree, down: seq<bool>, m: nat, k: Link)
    requires |down| > 0 && down[0] && t == Stairs(down)
    requires 2 <= m <= |down| && Vertical(k.combinator) == down[m - 1] && m - 1 in k.accepted
    ensures Pick(t, k, m) == Some(m - 1)
  {
    assert m - 1 in Elements(t);
  }

  /** Right-to-left steps of the staircase: the unsafe pair's right combinator is taken twice. */
  function StepAt(cs: seq<Combinator>, b: nat, j: nat): Combinator
    requires b < |cs| && j <= |cs|
  {
    if j <= b then cs[j] else cs[j - 1]
  }

  function Downs(cs: seq<Combinator>, b: nat): seq<bool>
    requires b < |cs|
  {
    seq(|cs| + 3, i requires 0 <= i < |cs| + 3 =>
      i <= 1 || Vertical(StepAt(cs, b, |cs| + 2 - i)))
  }

  lemma DownAt(cs: seq<Combinator>, b: nat, i: nat)
    requires b < |cs| && 2 <= i <= |cs| + 2
    ensures Downs(cs, b)[i] == Vertical(StepAt(cs, b, |cs| + 2 - i))
  {
  }

  /** The true witnesses; node `|cs| + 2 - b` between the `b`-th and the next is the decoy. */
  function Witness(cs: seq<Combinator>, b: nat, j: nat): nat
    requires b < |cs| && j <= |cs|
  {
    if j <= b then |cs| + 3 - j else |cs| + 2 - j
  }

  function Links(cs: seq<Combinator>, b: nat): seq<Link>
    requires b < |cs|
  {
    seq(|cs|, j requires 0 <= j < |cs| =>
      Link(cs[j],
        if j == b then {Witness(cs, b, j + 1), |cs| + 2 - b} else {Witness(cs, b, j + 1)}))
  }

  lemma TrueChain(cs: seq<Combinator>, b: nat, t: Tree)
    requires b + 1 < |cs| && !SafePair(cs[b], cs[b + 1])
    requires t == Stairs(Downs(cs, b))
    ensures Chain(t, Links(cs, b), seq(|cs| + 1, j requires 0 <= j <= |cs| => Witness(cs, b, j)))
  {
    var down := Downs(cs, b);
    var ws := seq(|cs| + 1, j requires 0 <= j <= |cs| => Witness(cs, b, j));
    forall j | 0 <= j < |cs|
      ensures Related(t, cs[j], ws[j + 1], ws[j])
    {
      DownAt(cs, b, ws[j] - 1);
      StepRelated(t, down, ws[j], cs[j]);
      if j == b {
        DownAt(cs, b, ws[j] - 2);
        StepRelated(t, down, ws[j] - 1, cs[j]);
        assert Reaches(t, ParentNode, ws[j] - 2, ws[j] - 2);
      }
    }
  }

  /** The decoy satisfies its compound but has nothing for the next link. */
  lemma DecoyFails(cs: seq<Combinator>, b: nat, t: Tree)
    requires b + 1 < |cs| && !SafePair(cs[b], cs[b + 1])
    requires t == Stairs(Downs(cs, b))
    ensures Pick(t, Links(cs, b)[b + 1], |cs| + 2 - b) == None
  {
    var d := |cs| + 2 - b;
    DownAt(cs, b, d - 1);
    assert d - 1 in Elements(t);
  }

  lemma {:induction false} GreedyMisses(cs: seq<Combinator>, b: nat, t: Tree, j: nat)
    requires b + 1 < |cs| && !SafePair(cs[b], cs[b + 1]) && j <= b
    requires t == Stairs(Downs(cs, b))
    ensures Greedy(t, Links(cs, b)[j..], |cs| + 3 - j) == None
    decreases b - j
  {
    var links := Links(cs, b);
    DownAt(cs, b, |cs| + 2 - j);
    StepPicked(t, Downs(cs, b), |cs| + 3 - j, links[j]);
    assert links[j..][1..] == links[j + 1..];
    if j == b {
      DecoyFails(cs, b, t);
    } else {
      GreedyMisses(cs, b, t, j + 1);
    }
  }

  lemma GreedyLoses(cs: seq<Combinator>, b: nat, t: Tree)
    requires b + 1 < |cs| && !SafePair(cs[b], cs[b + 1])
    requires t == Stairs(Downs(cs, b))
    ensures Greedy(t, Links(cs, b), |cs| + 3) == None
  {
    GreedyMisses(cs, b, t, 0);
    assert Links(cs, b)[0..] == Links(cs, b);
  }

  lemma WitnessesMatch(cs: seq<Combinator>, b: nat, t: Tree)
    requires b + 1 < |cs| && !SafePair(cs[b], cs[b + 1])
    requires t == Stairs(Downs(cs, b))
    ensures Matches(t, Links(cs, b), 0, |cs| + 3)
  {
    var links := Links(cs, b);
    TrueChain(cs, b, t);
    var ws := seq(|cs| + 1, j requires 0 <= j <= |cs| => Witness(cs, b, j));
    assert Chain(t, links, ws) && ws[0] == |cs| + 3 && InScope(t, 0, ws[|links|]);
  }

  lemma LinksShape(cs: seq<Combinator>, b: nat, t: Tree)
    requires b + 1 < |cs| && t == Stairs(Downs(cs, b))
    ensures ElementLinks(t, Links(cs, b)) && CombinatorsOf(Links(cs, b)) == cs
    ensures Links(cs, b)[|cs| - 1].accepted == {Witness(cs, b, |cs|)}
    ensures IsElement(t, |cs| + 3) && IsElement(t, Witness(cs, b, |cs|)) && t[0].kind.DocumentNode?
  {
    forall n: nat | 0 < n < |t| ensures n in Elements(t) {
    }
  }

  /** A document whose links select elements, the leftmost one `first` alone. */
  ghost predicate Selective(cs: seq<Combinator>, t: Tree, links: seq<Link>, n: nat, first: nat) {
    && Attached(t) && OneRoot(t) && 0 < |t| && t[0].kind.DocumentNode?
    && n < |t| && IsElement(t, n) && first < |t| && IsElement(t, first)
    && ElementLinks(t, links) && CombinatorsOf(links) == cs
    && links != [] && links[|links| - 1].accepted == {first}
  }

  /** The leftmost witness kept. */
  function Leftmost(t: Tree, links: seq<Link>, n: nat): Option<nat>
    requires n < |t|
  {
    Greedy(t, links, n)
  }

  /** The match is there, and the one witness kept for it leads nowhere. */
  ghost predicate Missed(t: Tree, links: seq<Link>, n: nat)
    requires 0 < |t| && n < |t|
  {
    Matches(t, links, 0, n) && Leftmost(t, links, n) == None
  }

  /** Such a document in which the match of `n` is lost. */
  ghost predicate Loses(cs: seq<Combinator>, t: Tree, links: seq<Link>, n: nat, first: nat) {
    Selective(cs, t, links, n, first) && Missed(t, links, n)
  }

  lemma StairsSelect(cs: seq<Combinator>, b: nat, t: Tree, links: seq<Link>, n: nat, first: nat)
    requires b + 1 < |cs| && t == Stairs(Downs(cs, b)) && links == Links(cs, b)
    requires n == |cs| + 3 && first == Witness(cs, b, |cs|)
    ensures Selective(cs, t, links, n, first)
  {
    StairsWellFormed(Downs(cs, b));
    LinksShape(cs, b, t);
  }

  lemma StairsMiss(cs: seq<Combinator>, b: nat, t: Tree, links: seq<Link>, n: nat)
    requires b + 1 < |cs| && !SafePair(cs[b], cs[b + 1])
    requires t == Stairs(Downs(cs, b)) && links == Links(cs, b) && n == |cs| + 3
    ensures Missed(t, links, n)
  {
    WitnessesMatch(cs, b, t);
    GreedyLoses(cs, b, t);
  }

  /**
   An unsafe pair anywhere in a pattern loses a match in some document: all elements
   hang below one root element, and the chain's leftmost witness is selected alone.
   */
  lemma LostMatch(cs: seq<Combinator>, b: nat) returns (t: Tree, links: seq<Link>, n: nat, first: nat)
    requires b + 1 < |cs| && !SafePair(cs[b], cs[b + 1])
    ensures Loses(cs, t, links, n, first)
  {
    StairsWellFormed(Downs(cs, b));
    t, links, n, first := Stairs(Downs(cs, b)), Links(cs, b), |cs| + 3, Witness(cs, b, |cs|);
    StairsSelect(cs, b, t, links, n, first);
    StairsMiss(cs, b, t, links, n);
  }

  /**
   The exact extent of completeness: one witness per candidate finds every match
   in every document iff no pair of neighbouring combinators is unsafe.
   */
  lemma CompletenessCriterion(cs: seq<Combinator>)
    ensures OneWitnessSuffices(cs) <==> Safe(cs)
  {
    if Safe(cs) {
      forall t: Tree, links: seq<Link>, context: nat, n: nat |
        && Attached(t) && OneRoot(t) && context < |t| && n < |t| && IsElement(t, n)
        && ElementLinks(t, links) && CombinatorsOf(links) == cs
        && Matches(t, links, context, n)
        ensures Found(t, links, context, n)
      {
        MatchesFound(t, links, context, n);
      }
    } else {
      var b :| 0 <= b < |cs| - 1 && !SafePair(cs[b], cs[b + 1]);
      var t, links, n, _ := LostMatch(cs, b);
    }
  }

  // ---- The same criterion for the engine's own answer -----------------------

  ghost predicate Returned(t: Tree, steps: seq<Step>, context: nat, found: seq<nat>, n: nat)
    requires context < |t| && forall i :: 0 <= i < |found| ==> found[i] < |t|
  {
    var out := Run(t, steps, Candidates(found));
    out.Some? && n in Collected(t, context, found, out.value)
  }

  /** A query of this pattern in a document, with or without a leading combinator, that runs through. */
  ghost predicate QueryOf(cs: seq<Combinator>, leading: bool,
                          t: Tree, steps: seq<Step>, context: nat, found: seq<nat>) {
    && Attached(t) && OneRoot(t) && IsContext(t, context) && StepsOk(t, steps)
    && Leading(steps) == leading && (leading ==> IsElement(t, context) && steps[|steps| - 1].part.node == context)
    && CombinatorsOf(DeclaredOf(t, steps)) == cs
    && (forall i :: 0 <= i < |found| ==> found[i] < |t| && IsElement(t, found[i]))
    && RunsThrough(t, steps, found)
  }

  /** Every such query returns every matching candidate. */
  ghost predicate QueriesComplete(cs: seq<Combinator>, leading: bool) {
    forall t: Tree, steps: seq<Step>, context: nat, found: seq<nat>, n: nat ::
      QueryOf(cs, leading, t, steps, context, found) && n in found && QueryMatches(t, steps, context, n)
      ==> Returned(t, steps, context, found, n)
  }

  /** Compounds that are tests passed by exactly the nodes of the links; a leading one is the context. */
  function StepsFor(links: seq<Link>, leading: bool, context: nat): seq<Step> {
    seq(|links|, i requires 0 <= i < |links| =>
      Step(links[i].combinator,
        if leading && i == |links| - 1 then ContextNode(context)
        else Selects(Filter([Passing(links[i].accepted, {})]))))
  }

  lemma StepsForLinks(t: Tree, links: seq<Link>, leading: bool, context: nat)
    requires ElementLinks(t, links) && links != []
    requires leading ==> context < |t| && IsElement(t, context) && links[|links| - 1].accepted == {context}
    requires leading ==> !links[|links| - 1].combinator.Descendant?
    ensures var steps := StepsFor(links, leading, context);
            && DeclaredOf(t, steps) == links && LinksOf(t, steps) == links
            && StepsOk(t, steps) && Leading(steps) == leading && Answering(t, steps)
            && forall i, n: nat :: 0 <= i < |steps| && n < |t| ==> !RaisesAbove(t, steps[i], n)
  {
    var steps := StepsFor(links, leading, context);
    forall i | 0 <= i < |links| && steps[i].part.Selects?
      ensures AcceptSet(t, Filter([Passing(links[i].accepted, {})])) == links[i].accepted
    {
      assert forall n :: n in links[i].accepted ==> n in Elements(t);
      PassingSet(t, links[i].accepted);
    }
    forall i | 0 <= i < |links|
      ensures LinkOf(t, steps[i]) == links[i] && DeclaredLink(t, steps[i]) == links[i]
    {
      assert links[i].accepted * Elements(t) == links[i].accepted;
    }
  }

  /** With compounds that select elements only, walks in a document stay in it. */
  lemma ElementsStay(t: Tree, steps: seq<Step>, n: nat)
    requires n < |t| && IsElement(t, n) && Attached(t) && StepsOk(t, steps)
    requires forall i :: 0 <= i < |steps| ==> LinkOf(t, steps[i]).accepted <= Elements(t)
    requires Answering(t, steps) && forall i, m: nat :: 0 <= i < |steps| && m < |t| ==> !RaisesAbove(t, steps[i], m)
    ensures !LeavesTree(t, steps, n) && !RaisesOn(t, steps, n)
  {
    AnsweringRaises(t, steps, n);
    AttachedMeetsRoot(t, steps, n);
    forall j | 0 < j < |steps| && KeptAfter(t, steps, n, j).Some?
      ensures IsElement(t, KeptAfter(t, steps, n, j).value)
    {
      assert forall i :: 0 <= i < j ==> steps[..j][i] == steps[i];
      GreedyEndsAtElement(t, LinksOf(t, steps[..j]), n);
    }
  }

  /**
   Queries of a pattern are complete in every document iff the pattern is safe.  The
   same holds of the queries with a leading combinator, which is never a blank.
   */
  lemma QueryCriterion(cs: seq<Combinator>, leading: bool)
    requires leading ==> cs != [] && !cs[|cs| - 1].Descendant?
    ensures QueriesComplete(cs, leading) <==> Safe(cs)
  {
    if Safe(cs) {
      forall t: Tree, steps: seq<Step>, context: nat, found: seq<nat>, n: nat |
        QueryOf(cs, leading, t, steps, context, found) && n in found && QueryMatches(t, steps, context, n)
        ensures Returned(t, steps, context, found, n)
      {
        QueryAnswer(t, steps, context, found);
      }
    } else {
      var b :| 0 <= b < |cs| - 1 && !SafePair(cs[b], cs[b + 1]);
      var t, links, n, first := LostMatch(cs, b);
      LostQuery(cs, leading, t, links, n, first);
    }
  }

  lemma LostQuery(cs: seq<Combinator>, leading: bool, t: Tree, links: seq<Link>, n: nat, first: nat)
    requires cs != [] && (leading ==> !cs[|cs| - 1].Descendant?) && Loses(cs, t, links, n, first)
    ensures !QueriesComplete(cs, leading)
  {
    var context := if leading then first else 0;
    var steps := StepsFor(links, leading, context);
    StepsForLinks(t, links, leading, context);
    LostThrough(t, links, leading, context, n);
    assert QueryMatches(t, steps, context, n);
    assert QueryOf(cs, leading, t, steps, context, [n]);
    LostReturn(t, steps, context, n);
  }

  lemma LostThrough(t: Tree, links: seq<Link>, leading: bool, context: nat, n: nat)
    requires Attached(t) && n < |t| && IsElement(t, n) && ElementLinks(t, links) && links != []
    requires leading ==> context < |t| && IsElement(t, context) && links[|links| - 1].accepted == {context}
    requires leading ==> !links[|links| - 1].combinator.Descendant?
    ensures StepsOk(t, StepsFor(links, leading, context)) && RunsThrough(t, StepsFor(links, leading, context), [n])
  {
    var steps := StepsFor(links, leading, context);
    StepsForLinks(t, links, leading, context);
    forall i | 0 <= i < |links| ensures LinkOf(t, steps[i]).accepted <= Elements(t) {
      assert LinkOf(t, steps[i]) == LinksOf(t, steps)[i];
    }
    ElementsStay(t, steps, n);
  }

  lemma LostReturn(t: Tree, steps: seq<Step>, context: nat, n: nat)
    requires context < |t| && n < |t| && StepsOk(t, steps) && RunsThrough(t, steps, [n])
    requires Greedy(t, DeclaredOf(t, steps), n) == None
    ensures !Returned(t, steps, context, [n], n)
  {
    ThroughRuns(t, steps, [n]);
    QueryExact(t, steps, context, [n]);
  }
}
