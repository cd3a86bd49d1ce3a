/**
 What a query returns (debian/missing-sources/jquery.js:2596-2654), compared with
 what its selector means: soundness on every tree, and the exact extent of
 completeness when walks run out of parents.
 */
module QueryAnswers {
  import opened Wrappers
  import opened Dom
  import opened Combinators
  import opened Query
  import opened ResultSets

  /** The declarative answer: the leftmost compound is the context itself, or lies inside it. */
  ghost predicate QueryMatches(t: Tree, steps: seq<Step>, context: nat, n: nat)
    requires context < |t|
  {
    if Leading(steps) then
      exists ws :: Chain(t, DeclaredOf(t, steps), ws) && ws[0] == n
    else
      Matches(t, DeclaredOf(t, steps), context, n)
  }

  /** The engine's answer for one candidate whose walk stays in the tree. */
  ghost predicate QueryFinds(t: Tree, steps: seq<Step>, context: nat, n: nat)
    requires context < |t| && n < |t|
  {
    if Leading(steps) then
      IsElement(t, context) && Greedy(t, DeclaredOf(t, steps), n).Some?
    else
      Found(t, DeclaredOf(t, steps), context, n)
  }

  /** Nothing can be picked from a node without a parent. */
  lemma RootIsDeadEnd(t: Tree, links: seq<Link>, n: nat)
    requires n < |t| && t[n].parent.None?
    ensures Greedy(t, links, n) == if links == [] then Some(n) else None
  {
    assert NodeOk(t, n);
  }

  /**
   The engine may keep a non-element, a parent that passed a filter; from there it
   finds nothing more, so what it keeps otherwise is what the declared links keep.
   */
  lemma {:induction false} GreedyDeclared(t: Tree, steps: seq<Step>, n: nat)
    requires n < |t| && StepsOk(t, steps)
    ensures var g, d := Greedy(t, LinksOf(t, steps), n), Greedy(t, DeclaredOf(t, steps), n);
            && (d.Some? ==> g == d)
            && (g.Some? && d.None? ==> !Leading(steps) && !IsElement(t, g.value))
    decreases |steps|
  {
    if steps != [] {
      StepsTail(t, steps);
      var c, d := Pick(t, LinkOf(t, steps[0]), n), Pick(t, DeclaredLink(t, steps[0]), n);
      PickDeclared(t, steps[0], n);
      if c == d {
        if c.Some? {
          GreedyDeclared(t, steps[1..], c.value);
        }
      } else {
        RootIsDeadEnd(t, LinksOf(t, steps)[1..], c.value);
      }
    }
  }

  lemma PickDeclared(t: Tree, s: Step, n: nat)
    requires n < |t| && StepOk(t, s)
    ensures var c, d := Pick(t, LinkOf(t, s), n), Pick(t, DeclaredLink(t, s), n);
            c == d || (d.None? && c.Some? && s.part.Selects? && !IsElement(t, c.value) && t[c.value].parent.None?)
  {
    if s.part.Selects? && !FilteredChild(s) {
      var a := AcceptSet(t, s.part.compound);
      if s.part.compound.Tag? {
        assert a * Elements(t) == a;
      }
    }
    assert NodeOk(t, n);
  }

  ghost function FoundAmong(t: Tree, steps: seq<Step>, context: nat, found: seq<nat>): (r: seq<nat>)
    requires context < |t| && (forall i :: 0 <= i < |found| ==> found[i] < |t|)
    ensures forall n :: n in r <==> n in found && QueryFinds(t, steps, context, n)
  {
    if found == [] then []
    else
      (if QueryFinds(t, steps, context, found[0]) then [found[0]] else [])
      + FoundAmong(t, steps, context, found[1..])
  }

  /** The position of the first candidate whose walk leaves the tree. */
  ghost function FirstLeaving(t: Tree, steps: seq<Step>, found: seq<nat>): (k: nat)
    requires forall i :: 0 <= i < |found| ==> found[i] < |t|
    ensures k <= |found| && (k < |found| ==> LeavesTree(t, steps, found[k]))
    ensures forall i :: 0 <= i < k ==> !LeavesTree(t, steps, found[i])
  {
    if found == [] || LeavesTree(t, steps, found[0]) then 0 else 1 + FirstLeaving(t, steps, found[1..])
  }

  lemma KeptIsFinds(t: Tree, steps: seq<Step>, context: nat, n: nat)
    requires context < |t| && n < |t| && StepsOk(t, steps)
    ensures Kept(t, context, RunEntry(t, steps, At(n))) <==> QueryFinds(t, steps, context, n)
  {
    RunEntryIsGreedy(t, steps, n);
    GreedyDeclared(t, steps, n);
  }

  lemma {:induction false} CollectedPrefix(
    t: Tree, steps: seq<Step>, context: nat, found: seq<nat>, cs: seq<Entry>, k: nat)
    requires |found| == |cs| && context < |t| && EntriesOk(t, cs) && StepsOk(t, steps) && k <= |cs|
    requires forall i :: 0 <= i < |found| ==> found[i] < |t|
    requires forall i :: 0 <= i < k ==> cs[i] != Null && cs[i] == RunEntry(t, steps, At(found[i]))
    requires k < |cs| ==> cs[k] == Null
    ensures Collected(t, context, found, cs) == FoundAmong(t, steps, context, found[..k])
    decreases k
  {
    if k > 0 {
      KeptIsFinds(t, steps, context, found[0]);
      assert found[..k][1..] == found[1..][..k - 1];
      CollectedPrefix(t, steps, context, found[1..], cs[1..], k - 1);
    }
  }

  /** In front of the first leaving candidate every entry ends as its candidate's own run. */
  lemma {:induction false} EndsApart(t: Tree, steps: seq<Step>, found: seq<nat>, i: nat)
    requires StepsOk(t, steps) && (forall j :: 0 <= j < |found| ==> found[j] < |t|)
    requires Run(t, steps, Candidates(found)).Some?
    requires i < |found| && i <= FirstLeaving(t, steps, found)
    ensures var out := Run(t, steps, Candidates(found)).value;
            out[i] == RunEntry(t, steps, At(found[i])) && (out[i] == Null <==> i == FirstLeaving(t, steps, found))
    decreases i
  {
    var out := Run(t, steps, Candidates(found)).value;
    forall j | 0 <= j < i ensures out[j] != Null {
      EndsApart(t, steps, found, j);
    }
    assert forall j :: 0 <= j < i ==> out[..i][j] == out[j];
    RunPointwise(t, steps, Candidates(found), i);
    LeavesTreeExact(t, steps, found[i]);
  }

  /**
   The results of a query that does not raise, on every tree: the candidates found,
   in candidate order, cut off at the first candidate whose walk leaves the tree.
   */
  lemma QueryExact(t: Tree, steps: seq<Step>, context: nat, found: seq<nat>)
    requires context < |t| && StepsOk(t, steps)
    requires forall i :: 0 <= i < |found| ==> found[i] < |t|
    requires Run(t, steps, Candidates(found)).Some?
    ensures Collected(t, context, found, Run(t, steps, Candidates(found)).value)
            == FoundAmong(t, steps, context, found[..FirstLeaving(t, steps, found)])
  {
    var out := Run(t, steps, Candidates(found)).value;
    var k := FirstLeaving(t, steps, found);
    forall i | 0 <= i < |out| && i <= k
      ensures out[i] == RunEntry(t, steps, At(found[i])) && (out[i] == Null <==> i == k)
    {
      EndsApart(t, steps, found, i);
    }
    CollectedPrefix(t, steps, context, found, out, k);
  }

  /** Candidates in document order give results in document order. */
  lemma ResultsInOrder(t: Tree, steps: seq<Step>, context: nat, found: seq<nat>)
    requires context < |t| && StepsOk(t, steps)
    requires (forall i :: 0 <= i < |found| ==> found[i] < |t|) && StrictlySorted(found)
    requires Run(t, steps, Candidates(found)).Some?
    ensures StrictlySorted(Collected(t, context, found, Run(t, steps, Candidates(found)).value))
  {
    QueryExact(t, steps, context, found);
    FoundInOrder(t, steps, context, found[..FirstLeaving(t, steps, found)]);
  }

  lemma FindsMatches(t: Tree, steps: seq<Step>, context: nat, n: nat)
    requires context < |t| && n < |t| && QueryFinds(t, steps, context, n)
    ensures QueryMatches(t, steps, context, n)
  {
    var links := DeclaredOf(t, steps);
    if Leading(steps) {
      GreedySound(t, links, n);
    } else {
      FoundMatches(t, links, context, n);
    }
  }

  /** Soundness on every tree: whatever is returned is a candidate that matches. */
  lemma QuerySound(t: Tree, steps: seq<Step>, context: nat, found: seq<nat>, r: nat)
    requires context < |t| && StepsOk(t, steps)
    requires forall i :: 0 <= i < |found| ==> found[i] < |t|
    requires Run(t, steps, Candidates(found)).Some?
    requires r in Collected(t, context, found, Run(t, steps, Candidates(found)).value)
    ensures r in found && QueryMatches(t, steps, context, r)
  {
    QueryExact(t, steps, context, found);
    FindsMatches(t, steps, context, r);
  }

  /**
   The witnesses of a match, spelled out: each stands in its combinator's relation to the
   one before and is an element that its compound selects, or the context of a leading
   combinator; without a leading combinator the last lies inside a context element.
   */
  ghost predicate Witnesses(t: Tree, steps: seq<Step>, context: nat, ws: seq<nat>)
    requires context < |t|
  {
    && |ws| == |steps| + 1 && (forall i :: 0 <= i < |ws| ==> ws[i] < |t|)
    && (forall i :: 0 <= i < |steps| ==> Related(t, steps[i].combinator, ws[i + 1], ws[i]))
    && (forall i :: 0 <= i < |steps| ==>
          match steps[i].part
          case ContextNode(c) => ws[i + 1] == c
          case Selects(Tag(name)) => IsElement(t, ws[i + 1]) && t[ws[i + 1]].name == name
          case Selects(Filter(tests)) =>
            IsElement(t, ws[i + 1]) && forall k :: 0 <= k < |tests| ==> TestHolds(t, tests[k], ws[i + 1]))
    && (!Leading(steps) ==>
          IsElement(t, ws[|steps|]) && (IsElement(t, context) ==> Beyond(t, ParentNode, ws[|steps|], context)))
  }

  /** A match is a candidate that heads such witnesses. */
  lemma MatchesSpelledOut(t: Tree, steps: seq<Step>, context: nat, n: nat)
    requires context < |t|
    ensures QueryMatches(t, steps, context, n) <==> exists ws :: Witnesses(t, steps, context, ws) && ws[0] == n
  {
    var links := DeclaredOf(t, steps);
    forall ws: seq<nat> | |ws| == |steps| + 1 && forall i :: 0 <= i < |ws| ==> ws[i] < |t|
      ensures Witnesses(t, steps, context, ws) <==>
              Chain(t, links, ws) && (!Leading(steps) ==> InScope(t, context, ws[|steps|]))
    {
      ChainSpelledOut(t, steps, ws);
    }
    if QueryMatches(t, steps, context, n) {
      var ws :| Chain(t, links, ws) && ws[0] == n && (!Leading(steps) ==> InScope(t, context, ws[|steps|]));
      assert Witnesses(t, steps, context, ws);
    }
  }

  lemma ChainSpelledOut(t: Tree, steps: seq<Step>, ws: seq<nat>)
    requires |ws| == |steps| + 1 && forall i :: 0 <= i < |ws| ==> ws[i] < |t|
    ensures Chain(t, DeclaredOf(t, steps), ws) <==>
            forall i :: 0 <= i < |steps| ==>
              Related(t, steps[i].combinator, ws[i + 1], ws[i]) && ws[i + 1] in DeclaredLink(t, steps[i]).accepted
  {
    var links := DeclaredOf(t, steps);
    assert forall i :: 0 <= i < |steps| ==> links[i] == DeclaredLink(t, steps[i]);
  }

  lemma PrependSorted(x: nat, rest: seq<nat>)
    requires StrictlySorted(rest) && forall y :: y in rest ==> x < y
    ensures StrictlySorted([x] + rest)
  {
    var r := [x] + rest;
    forall i, j | 0 <= i < j < |r| ensures r[i] < r[j] {
      assert r[j] == rest[j - 1] && rest[j - 1] in rest;
      assert i > 0 ==> r[i] == rest[i - 1];
    }
  }

  lemma {:induction false} FoundInOrder(t: Tree, steps: seq<Step>, context: nat, found: seq<nat>)
    requires context < |t| && (forall i :: 0 <= i < |found| ==> found[i] < |t|)
    requires StrictlySorted(found)
    ensures StrictlySorted(FoundAmong(t, steps, context, found))
    decreases |found|
  {
    if found != [] {
      var rest := FoundAmong(t, steps, context, found[1..]);
      assert StrictlySorted(found[1..]);
      FoundInOrder(t, steps, context, found[1..]);
      forall y | y in rest ensures found[0] < y {
        var k :| 0 <= k < |found[1..]| && found[1..][k] == y;
        assert found[k + 1] == y;
      }
      PrependSorted(found[0], rest);
      assert [] + rest == rest;
    }
  }

  /** On a safe pattern one candidate is found iff it matches, save for a leading combinator under a document. */
  lemma MatchesFinds(t: Tree, steps: seq<Step>, context: nat, n: nat)
    requires context < |t| && n < |t| && IsElement(t, n) && StepsOk(t, steps)
    requires Safe(CombinatorsOf(DeclaredOf(t, steps)))
    ensures QueryFinds(t, steps, context, n) <==>
            QueryMatches(t, steps, context, n) && (Leading(steps) ==> IsElement(t, context))
  {
    var links := DeclaredOf(t, steps);
    if QueryFinds(t, steps, context, n) {
      FindsMatches(t, steps, context, n);
    }
    if QueryMatches(t, steps, context, n) {
      if Leading(steps) {
        var ws :| Chain(t, links, ws) && ws[0] == n;
        GreedyDominates(t, links, None, n, ws);
      } else {
        MatchesFound(t, links, context, n);
      }
    }
  }

  /**
   Completeness on safe patterns, on every tree: all matching candidates are
   returned iff each of them comes in front of the first candidate whose walk leaves
   the tree, and the combinator does not lead under a document.
   */
  lemma QueryComplete(t: Tree, steps: seq<Step>, context: nat, found: seq<nat>)
    requires context < |t| && StepsOk(t, steps)
    requires forall i :: 0 <= i < |found| ==> found[i] < |t| && IsElement(t, found[i])
    requires Safe(CombinatorsOf(DeclaredOf(t, steps)))
    requires Run(t, steps, Candidates(found)).Some?
    ensures var results := Collected(t, context, found, Run(t, steps, Candidates(found)).value);
            var front := found[..FirstLeaving(t, steps, found)];
            && (forall n :: n in results <==>
                  n in front && QueryMatches(t, steps, context, n) && (Leading(steps) ==> IsElement(t, context)))
            && ((forall n :: n in found && QueryMatches(t, steps, context, n) ==> n in results) <==>
                (forall n :: n in found && QueryMatches(t, steps, context, n) ==>
                   n in front && (Leading(steps) ==> IsElement(t, context))))
  {
    QueryExact(t, steps, context, found);
    var front := found[..FirstLeaving(t, steps, found)];
    forall n | n in front
      ensures QueryFinds(t, steps, context, n) <==>
              QueryMatches(t, steps, context, n) && (Leading(steps) ==> IsElement(t, context))
    {
      MatchesFinds(t, steps, context, n);
    }
  }

  // ---- When a query raises ----------------------------------------------------

  /** The filters of step `j` reach position `i`: no candidate in front has left the tree by then. */
  ghost predicate FiltersReach(t: Tree, steps: seq<Step>, found: seq<nat>, i: nat, j: nat)
    requires (forall k :: 0 <= k < |found| ==> found[k] < |t|) && i <= |found| && j < |steps|
  {
    forall k :: 0 <= k < i ==> !LeavesTree(t, steps[..j + 1], found[k])
  }

  /** The links by which the entry at `i` goes: loose ones once the filters reach it no more. */
  ghost function LinksAt(t: Tree, steps: seq<Step>, found: seq<nat>, i: nat): (links: seq<Link>)
    requires (forall k :: 0 <= k < |found| ==> found[k] < |t|) && i <= |found|
    ensures |links| == |steps|
  {
    seq(|steps|, j requires 0 <= j < |steps| =>
      if FiltersReach(t, steps, found, i, j) then LinkOf(t, steps[j]) else LooseLink(t, steps[j]))
  }

  /** Step `j` raises on the witness that position `i` holds by then. */
  ghost predicate RaisesFor(t: Tree, steps: seq<Step>, found: seq<nat>, i: nat, j: nat)
    requires (forall k :: 0 <= k < |found| ==> found[k] < |t|) && i < |found| && j < |steps|
  {
    var w := Greedy(t, LinksAt(t, steps, found, i)[..j], found[i]);
    && w.Some? && StepRaises(t, steps[j], w.value)
    && (Filtered(steps[j]) ==> FiltersReach(t, steps, found, i, j))
  }

  lemma StepsPrefix(t: Tree, steps: seq<Step>, j: nat)
    requires StepsOk(t, steps) && j <= |steps|
    ensures StepsOk(t, steps[..j]) && (j < |steps| ==> !Leading(steps[..j]))
  {
    assert forall k :: 0 <= k < j ==> steps[..j][k] == steps[k];
  }

  lemma ReachIsClear(t: Tree, steps: seq<Step>, found: seq<nat>, i: nat, j: nat)
    requires StepsOk(t, steps) && (forall k :: 0 <= k < |found| ==> found[k] < |t|)
    requires i <= |found| && j < |steps|
    ensures FiltersReach(t, steps, found, i, j) <==> j < ClearSteps(t, steps, Candidates(found), i)
  {
    var cs := Candidates(found);
    StepsPrefix(t, steps, j + 1);
    ClearStepsExact(t, steps, cs, i, j + 1);
    forall k | 0 <= k < i
      ensures RunEntry(t, steps[..j + 1], cs[k]) == Null <==> LeavesTree(t, steps[..j + 1], found[k])
    {
      LeavesTreeExact(t, steps[..j + 1], found[k]);
    }
  }

  lemma RaisesForAt(t: Tree, steps: seq<Step>, found: seq<nat>, i: nat, j: nat)
    requires StepsOk(t, steps) && (forall k :: 0 <= k < |found| ==> found[k] < |t|)
    requires i < |found| && j < |steps|
    ensures RaisesAt(t, steps, Candidates(found), i, j) <==> RaisesFor(t, steps, found, i, j)
  {
    var clear := ClearSteps(t, steps, Candidates(found), i);
    forall m | 0 <= m <= j ensures FiltersReach(t, steps, found, i, m) <==> m < clear {
      ReachIsClear(t, steps, found, i, m);
    }
    assert LinksAt(t, steps, found, i)[..j] == HeldLinks(t, steps[..j], clear);
    StepsPrefix(t, steps, j);
    DriftIsGreedy(t, steps[..j], found[i], clear);
  }

  /**
   The query raises iff some step raises on a witness some candidate holds when it
   comes; behind a candidate that has left the tree, witnesses are held by loose links.
   */
  lemma QueryRaises(t: Tree, steps: seq<Step>, found: seq<nat>)
    requires StepsOk(t, steps) && forall i :: 0 <= i < |found| ==> found[i] < |t|
    ensures Run(t, steps, Candidates(found)) == None <==>
            exists i, j :: 0 <= i < |found| && 0 <= j < |steps| && RaisesFor(t, steps, found, i, j)
  {
    var cs := Candidates(found);
    RaisesExact(t, steps, cs);
    forall i, j | 0 <= i < |found| && 0 <= j < |steps|
      ensures RaisesAt(t, steps, cs, i, j) <==> RaisesFor(t, steps, found, i, j)
    {
      RaisesForAt(t, steps, found, i, j);
    }
  }

  lemma LeavesByPrefix(t: Tree, steps: seq<Step>, n: nat, m: nat)
    requires n < |t| && m <= |steps| && LeavesTree(t, steps[..m], n)
    ensures LeavesTree(t, steps, n)
  {
    var j :| 0 <= j < m && FilteredChild(steps[..m][j]) && AtRoot(t, steps[..m], n, j);
    assert steps[..m][..j] == steps[..j];
    assert FilteredChild(steps[j]) && AtRoot(t, steps, n, j);
  }

  /** When no candidate leaves the tree, the query raises iff some step raises on a witness kept for some candidate. */
  lemma RaisesWhenNoneLeaves(t: Tree, steps: seq<Step>, found: seq<nat>)
    requires StepsOk(t, steps) && forall i :: 0 <= i < |found| ==> found[i] < |t|
    requires forall i :: 0 <= i < |found| ==> !LeavesTree(t, steps, found[i])
    ensures Run(t, steps, Candidates(found)) == None <==>
            exists i :: 0 <= i < |found| && RaisesOn(t, steps, found[i])
  {
    QueryRaises(t, steps, found);
    if i, j :| 0 <= i < |found| && 0 <= j < |steps| && RaisesFor(t, steps, found, i, j) {
      RaisesForKept(t, steps, found, i, j);
      assert RaisesOn(t, steps, found[i]);
    }
    if i :| 0 <= i < |found| && RaisesOn(t, steps, found[i]) {
      var j :| 0 <= j < |steps| && RaisesOnAt(t, steps, found[i], j);
      RaisesForKept(t, steps, found, i, j);
    }
  }

  lemma RaisesForKept(t: Tree, steps: seq<Step>, found: seq<nat>, i: nat, j: nat)
    requires StepsOk(t, steps) && forall k :: 0 <= k < |found| ==> found[k] < |t|
    requires forall k :: 0 <= k < |found| ==> !LeavesTree(t, steps, found[k])
    requires i < |found| && j < |steps|
    ensures RaisesFor(t, steps, found, i, j) <==> RaisesOnAt(t, steps, found[i], j)
  {
    forall m | 0 <= m < |steps| ensures FiltersReach(t, steps, found, i, m) {
      forall k | 0 <= k < i ensures !LeavesTree(t, steps[..m + 1], found[k]) {
        if LeavesTree(t, steps[..m + 1], found[k]) {
          LeavesByPrefix(t, steps, found[k], m + 1);
        }
      }
    }
    assert LinksAt(t, steps, found, i)[..j] == LinksOf(t, steps[..j]);
  }

  /** Every test answers on every element, as attribute tests do; on a document they may raise. */
  ghost predicate Answering(t: Tree, steps: seq<Step>) {
    forall i, k, n :: 0 <= i < |steps| && steps[i].part.Selects? && steps[i].part.compound.Filter?
      && 0 <= k < |steps[i].part.compound.tests| && TestRaises(steps[i].part.compound.tests[k], n)
      ==> n !in Elements(t)
  }

  lemma {:induction false} WalksAnswered(t: Tree, d: Direction, tests: seq<Test>, from: Option<nat>)
    requires from.Some? ==> from.value < |t|
    requires forall k, n :: 0 <= k < |tests| && TestRaises(tests[k], n) ==> n !in Elements(t)
    ensures !WalkRaises(t, d, tests, from)
    decreases if from.Some? then from.value + 1 else 0
  {
    if from.Some? {
      WalksAnswered(t, d, tests, Go(t, d, from.value));
      assert IsElement(t, from.value) ==> from.value in Elements(t);
    }
  }

  /** A tag name is asked of a missing parent, or a parent that is no element is put to filters that raise. */
  ghost predicate RaisesAbove(t: Tree, s: Step, n: nat)
    requires n < |t|
  {
    var p := Go(t, ParentNode, n);
    if p.None? then TagChild(s)
    else FilteredChild(s) && !IsElement(t, p.value) && FiltersRaise(t, s.part.compound.tests, p.value)
  }

  /** When every test answers on every element, only child steps at the top of the tree raise. */
  lemma AnsweringRaises(t: Tree, steps: seq<Step>, n: nat)
    requires n < |t| && Answering(t, steps)
    ensures RaisesOn(t, steps, n) <==>
            exists j :: 0 <= j < |steps| && KeptAfter(t, steps, n, j).Some?
                        && RaisesAbove(t, steps[j], KeptAfter(t, steps, n, j).value)
  {
    forall j | 0 <= j < |steps| && KeptAfter(t, steps, n, j).Some?
      ensures RaisesOnAt(t, steps, n, j) <==> RaisesAbove(t, steps[j], KeptAfter(t, steps, n, j).value)
    {
      StepAnswered(t, steps, j, KeptAfter(t, steps, n, j).value);
    }
  }

  lemma StepAnswered(t: Tree, steps: seq<Step>, j: nat, w: nat)
    requires j < |steps| && w < |t| && Answering(t, steps)
    ensures StepRaises(t, steps[j], w) <==> RaisesAbove(t, steps[j], w)
  {
    if steps[j].part.Selects? && steps[j].part.compound.Filter? {
      var tests := steps[j].part.compound.tests;
      WalksAnswered(t, ParentNode, tests, Go(t, ParentNode, w));
      WalksAnswered(t, PreviousSibling, tests, Go(t, PreviousSibling, w));
      forall x: nat | x < |t| && IsElement(t, x) ensures !FiltersRaise(t, tests, x) {
        assert x in Elements(t);
      }
    }
  }

  // ---- Queries that run through -----------------------------------------------

  /** No candidate's walk leaves the tree, and no step raises on a witness kept. */
  ghost predicate RunsThrough(t: Tree, steps: seq<Step>, found: seq<nat>)
    requires forall i :: 0 <= i < |found| ==> found[i] < |t|
  {
    forall i :: 0 <= i < |found| ==> !LeavesTree(t, steps, found[i]) && !RaisesOn(t, steps, found[i])
  }

  lemma ThroughRuns(t: Tree, steps: seq<Step>, found: seq<nat>)
    requires StepsOk(t, steps) && (forall i :: 0 <= i < |found| ==> found[i] < |t|) && RunsThrough(t, steps, found)
    ensures Run(t, steps, Candidates(found)).Some? && FirstLeaving(t, steps, found) == |found|
  {
    RaisesWhenNoneLeaves(t, steps, found);
  }

  /**
   In a tree whose elements all have parents, a walk meets a root iff a filtered child
   step keeps a parent that is no element and the next step is a child step again.
   */
  lemma AttachedMeetsRoot(t: Tree, steps: seq<Step>, n: nat)
    requires n < |t| && IsElement(t, n) && Attached(t) && StepsOk(t, steps)
    ensures MeetsRoot(t, steps, n) <==>
            exists j :: 0 < j < |steps| && FilteredChild(steps[j - 1])
                        && (FilteredChild(steps[j]) || TagChild(steps[j]))
                        && KeptAfter(t, steps, n, j).Some? && !IsElement(t, KeptAfter(t, steps, n, j).value)
  {
    assert steps[..0] == [];
    forall j | 0 < j < |steps| && KeptAfter(t, steps, n, j).Some?
      ensures AtRoot(t, steps, n, j) <==> !IsElement(t, KeptAfter(t, steps, n, j).value)
      ensures AtRoot(t, steps, n, j) ==> FilteredChild(steps[j - 1])
    {
      if !IsElement(t, KeptAfter(t, steps, n, j).value) {
        KeptKind(t, steps, n, j);
      }
    }
    if MeetsRoot(t, steps, n) {
      var j :| 0 <= j < |steps| && (FilteredChild(steps[j]) || TagChild(steps[j])) && AtRoot(t, steps, n, j);
      assert j > 0 && KeptAfter(t, steps, n, j).Some?;
    }
  }

  /** A kept node that is no element is a parent kept by a filtered child step, and a root. */
  lemma {:induction false} KeptKind(t: Tree, steps: seq<Step>, n: nat, j: nat)
    requires n < |t| && IsElement(t, n) && StepsOk(t, steps) && 0 < j < |steps|
    requires KeptAfter(t, steps, n, j).Some? && !IsElement(t, KeptAfter(t, steps, n, j).value)
    ensures FilteredChild(steps[j - 1]) && AtRoot(t, steps, n, j)
    decreases j
  {
    StepsTail(t, steps);
    KeptAfterStep(t, steps, n, j);
    var w := Pick(t, LinkOf(t, steps[0]), n).value;
    PickDeclared(t, steps[0], n);
    if IsElement(t, w) {
      if j > 1 {
        KeptKind(t, steps[1..], w, j - 1);
        KeptAfterStep(t, steps, n, j);
      }
    } else {
      assert w in LinkOf(t, steps[0]).accepted;
      if j > 1 {
        assert NodeOk(t, n);
        RootIsDeadEnd(t, LinksOf(t, steps[1..][..j - 1]), w);
      }
    }
  }

  /** The query runs through, the pattern is safe, and no combinator leads under a document. */
  ghost predicate PlainQuery(t: Tree, steps: seq<Step>, context: nat, found: seq<nat>) {
    && IsContext(t, context) && Safe(CombinatorsOf(DeclaredOf(t, steps)))
    && (forall i :: 0 <= i < |found| ==> found[i] < |t| && IsElement(t, found[i]))
    && RunsThrough(t, steps, found)
    && (Leading(steps) ==> IsElement(t, context))
  }

  /** Soundness always, completeness for plain queries, of what the final loops collect. */
  lemma QueryAnswer(t: Tree, steps: seq<Step>, context: nat, found: seq<nat>)
    requires context < |t| && StepsOk(t, steps)
    requires forall i :: 0 <= i < |found| ==> found[i] < |t|
    ensures var out := Run(t, steps, Candidates(found));
            && (out.Some? ==> forall n :: n in Collected(t, context, found, out.value) ==>
                                n in found && QueryMatches(t, steps, context, n))
            && (PlainQuery(t, steps, context, found) ==>
                  out.Some? && forall n :: n in found && QueryMatches(t, steps, context, n) ==>
                                 n in Collected(t, context, found, out.value))
  {
    var out := Run(t, steps, Candidates(found));
    if out.Some? {
      forall n | n in Collected(t, context, found, out.value)
        ensures n in found && QueryMatches(t, steps, context, n)
      {
        QuerySound(t, steps, context, found, n);
      }
    }
    if PlainQuery(t, steps, context, found) {
      ThroughRuns(t, steps, found);
      QueryComplete(t, steps, context, found);
      assert found[..|found|] == found;
    }
  }

  // ---- Concrete failures --------------------------------------------------------

  const BLANK: NodeInfo := NodeInfo(ElementNode, "", None, None, None, None)

  lemma PassingSet(t: Tree, nodes: set<nat>)
    requires forall n :: n in nodes ==> n < |t|
    ensures AcceptSet(t, Filter([Passing(nodes, {})])) == nodes
    ensures forall n: nat :: n < |t| ==> !FiltersRaise(t, [Passing(nodes, {})], n)
  {
    var c := Filter([Passing(nodes, {})]);
    assert c.tests[0] == Passing(nodes, {});
    assert forall n: nat :: n < |t| ==> (Accepts(t, c, n) <==> n in nodes);
  }

  /** Document 0 > element 1 > element 2, and the detached element 3. */
  const DETACHED: Tree := [
    BLANK.(kind := DocumentNode, firstChild := Some(1)),
    BLANK.(parent := Some(0), firstChild := Some(2)),
    BLANK.(parent := Some(1)),
    BLANK]

  const TOP: Step := Step(Child, Selects(Filter([Passing({1}, {})])))

  lemma DetachedMatches()
    ensures StepsOk(DETACHED, [TOP]) && Safe(CombinatorsOf(DeclaredOf(DETACHED, [TOP])))
    ensures QueryMatches(DETACHED, [TOP], 0, 2)
  {
    PassingSet(DETACHED, {1});
    assert {1} * Elements(DETACHED) == {1};
    var ws := [2, 1];
    assert Chain(DETACHED, DeclaredOf(DETACHED, [TOP]), ws) && InScope(DETACHED, 0, ws[1]);
  }

  lemma DetachedRun()
    ensures var out := Run(DETACHED, [TOP], Candidates([3, 2])); out.Some? && out.value != [] && out.value[0] == Null
  {
    PassingSet(DETACHED, {1});
    var cs := Candidates([3, 2]);
    var out := Stepped(DETACHED, TOP, cs);
    assert Raw(DETACHED, TOP, cs)[0] == Null && out[0] == Null;
    assert Raw(DETACHED, TOP, cs)[..1][0] == Null;
    assert !ThrowsAt(DETACHED, TOP, cs, 0) && !ThrowsAt(DETACHED, TOP, cs, 1);
    assert [TOP][1..] == [] && Run(DETACHED, [], out) == Some(out);
  }

  /** Two candidates, the first one detached: its missing parent hides the second one's match. */
  lemma DetachedRootHidesMatch() returns (t: Tree, steps: seq<Step>, found: seq<nat>, n: nat)
    ensures StepsOk(t, steps) && Safe(CombinatorsOf(DeclaredOf(t, steps))) && 0 < |t|
    ensures forall i :: 0 <= i < |found| ==> found[i] < |t| && IsElement(t, found[i])
    ensures n in found && QueryMatches(t, steps, 0, n)
    ensures Run(t, steps, Candidates(found)).Some?
    ensures Collected(t, 0, found, Run(t, steps, Candidates(found)).value) == []
  {
    t, steps, found, n := DETACHED, [TOP], [3, 2], 2;
    DetachedMatches();
    DetachedRun();
  }

  /** Document 0 > element 1 > element 2 > element 3. */
  const NESTED: Tree := [
    BLANK.(kind := DocumentNode, firstChild := Some(1)),
    BLANK.(parent := Some(0), firstChild := Some(2)),
    BLANK.(parent := Some(1), firstChild := Some(3)),
    BLANK.(parent := Some(2))]

  /** A filter the document passes as well as the elements above others, as `:has(p)` can, then one of elements only. */
  const HAS: Step := Step(Child, Selects(Filter([Passing({0, 1, 2}, {})])))
  const ANY: Step := Step(Child, Selects(Filter([Passing({1, 2, 3}, {})])))

  lemma NestedMatches()
    ensures StepsOk(NESTED, [HAS, ANY]) && Safe(CombinatorsOf(DeclaredOf(NESTED, [HAS, ANY])))
    ensures QueryMatches(NESTED, [HAS, ANY], 0, 3)
  {
    PassingSet(NESTED, {0, 1, 2});
    PassingSet(NESTED, {1, 2, 3});
    var ws := [3, 2, 1];
    assert Chain(NESTED, DeclaredOf(NESTED, [HAS, ANY]), ws) && InScope(NESTED, 0, ws[2]);
  }

  lemma NestedRun()
    ensures var out := Run(NESTED, [HAS, ANY], Candidates([1, 2, 3]));
            out.Some? && out.value != [] && out.value[0] == Null
  {
    PassingSet(NESTED, {0, 1, 2});
    PassingSet(NESTED, {1, 2, 3});
    var one := Stepped(NESTED, HAS, Candidates([1, 2, 3]));
    assert Null !in Raw(NESTED, HAS, Candidates([1, 2, 3]))[..0] && one[0] == At(0);
    var two := Stepped(NESTED, ANY, one);
    assert two[0] == Null;
    assert !Throws(NESTED, HAS, Candidates([1, 2, 3])) && !Throws(NESTED, ANY, one);
    assert [HAS, ANY][1..] == [ANY] && [ANY][1..] == [];
    assert Run(NESTED, [ANY], one) == Run(NESTED, [], two) == Some(two);
  }

  /**
   An ordinary document and a filter the document node passes too: the walk of the
   topmost element ends above the document and hides the match of 3.
   */
  lemma DocumentHidesMatch() returns (t: Tree, steps: seq<Step>, found: seq<nat>, n: nat)
    ensures Attached(t) && OneRoot(t) && 0 < |t|
    ensures StepsOk(t, steps) && Safe(CombinatorsOf(DeclaredOf(t, steps)))
    ensures forall i :: 0 <= i < |found| ==> found[i] < |t| && IsElement(t, found[i])
    ensures n in found && QueryMatches(t, steps, 0, n)
    ensures Run(t, steps, Candidates(found)).Some?
    ensures Collected(t, 0, found, Run(t, steps, Candidates(found)).value) == []
  {
    t, steps, found, n := NESTED, [HAS, ANY], [1, 2, 3], 3;
    NestedMatches();
    NestedRun();
  }

  /** A child step on a tag name raises on a detached candidate. */
  lemma DetachedRootRaises() returns (t: Tree, steps: seq<Step>, found: seq<nat>)
    ensures StepsOk(t, steps) && found == [0] && |t| == 1
    ensures Run(t, steps, Candidates(found)) == None
  {
    t, found := [BLANK.(name := "div")], [0];
    steps := [Step(Child, Selects(Tag("div")))];
    assert ThrowsAt(t, steps[0], Candidates(found), 0);
  }

  /** An attribute test, which answers on elements and raises on the document, as a child step. */
  const LANG: Step := Step(Child, Selects(Filter([Passing({1}, {0})])))

  lemma LangMatches()
    ensures StepsOk(NESTED, [LANG]) && Safe(CombinatorsOf(DeclaredOf(NESTED, [LANG])))
    ensures QueryMatches(NESTED, [LANG], 0, 2)
  {
    var tests := [Passing({1}, {0})];
    assert forall m: nat :: m < |NESTED| ==> (Accepts(NESTED, Filter(tests), m) <==> TestHolds(NESTED, tests[0], m));
    var ws := [2, 1];
    assert Chain(NESTED, DeclaredOf(NESTED, [LANG]), ws) && InScope(NESTED, 0, ws[1]);
  }

  lemma LangAnswers()
    ensures Attached(NESTED) && OneRoot(NESTED) && Answering(NESTED, [LANG])
    ensures forall i :: 0 <= i < |[1, 2, 3]| ==> IsElement(NESTED, [1, 2, 3][i])
  {
  }

  lemma LangRaises()
    ensures Run(NESTED, [LANG], Candidates([1, 2, 3])) == None
  {
    var tests := [Passing({1}, {0})];
    assert TestRaises(tests[0], 0) && Accepts(NESTED, Filter(tests[..0]), 0);
    assert FiltersRaise(NESTED, tests, 0);
    assert ThrowsAt(NESTED, LANG, Candidates([1, 2, 3]), 0);
  }

  /**
   An ordinary document and an attribute test before ">", as in `[lang] > *`: the topmost
   element's parent is the document, on which the test raises, and the match of 2 is lost.
   */
  lemma AttributeRaisesOnDocument() returns (t: Tree, steps: seq<Step>, found: seq<nat>, n: nat)
    ensures Attached(t) && OneRoot(t) && 0 < |t| && StepsOk(t, steps) && Answering(t, steps)
    ensures Safe(CombinatorsOf(DeclaredOf(t, steps)))
    ensures forall i :: 0 <= i < |found| ==> found[i] < |t| && IsElement(t, found[i])
    ensures n in found && QueryMatches(t, steps, 0, n)
    ensures Run(t, steps, Candidates(found)) == None
  {
    t, steps, found, n := NESTED, [LANG], [1, 2, 3], 2;
    LangMatches();
    LangRaises();
    LangAnswers();
  }
}
