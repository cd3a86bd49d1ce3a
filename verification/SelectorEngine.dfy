/**
 The engine's loops over `checkSet`, with the expando properties they write
 (debian/missing-sources/jquery.js:2824-2896, 3113-3156, 3466-3533).
 `sizcache`, `sizset` and `nodeIndex` are arrays indexed by node; -1 and 0 stand
 for an absent `sizcache` and an absent `nodeIndex`.
 */
module SelectorEngine {
  import opened Wrappers
  import opened FiniteSets
  import opened Dom
  import opened Combinators
  import opened NthChild
  import opened Query
  import opened QueryAnswers
  import opened ResultSets

  /** The entry a walk leaves behind: its witness, or `true` when it looked for the context. */
  function Outcome(part: Part, w: Option<nat>): Entry {
    if w.None? then No else if part.ContextNode? then Yes else At(w.value)
  }

  /** The nodes at which a walk stops; filters are put to elements only. */
  ghost function AcceptedBy(t: Tree, part: Part): set<nat> {
    LinkOf(t, Step(General, part)).accepted
  }

  /** What a walk in direction `d` makes of one entry. */
  ghost function WalkedEntry(t: Tree, d: Direction, part: Part, e: Entry): Entry
    requires e.At? ==> e.node < |t|
  {
    if e.At? then Outcome(part, Nearest(t, d, AcceptedBy(t, part), Go(t, d, e.node))) else e
  }

  /** The walk for `part` from this node puts some element to filters that raise. */
  ghost predicate PartRaises(t: Tree, d: Direction, part: Part, from: Option<nat>)
    requires from.Some? ==> from.value < |t|
  {
    part.Selects? && part.compound.Filter? && WalkRaises(t, d, part.compound.tests, from)
  }

  /** A node of the walk: what it contributes, and what is left to the nodes after it. */
  ghost predicate ProbeRaises(t: Tree, part: Part, e: nat)
    requires e < |t|
  {
    IsElement(t, e) && part.Selects? && part.compound.Filter? && FiltersRaise(t, part.compound.tests, e)
  }

  lemma PartRaisesStep(t: Tree, d: Direction, part: Part, e: nat)
    requires e < |t|
    ensures PartRaises(t, d, part, Some(e)) <==>
            ProbeRaises(t, part, e) || (e !in AcceptedBy(t, part) && PartRaises(t, d, part, Go(t, d, e)))
    ensures ProbeRaises(t, part, e) ==> e !in AcceptedBy(t, part)
  {
    if ProbeRaises(t, part, e) {
      RaisingNotAccepted(t, part.compound.tests, e);
    }
  }

  /** The entry holds the outcome of a walk starting at `e`, on which no filter raises. */
  ghost predicate Remembers(t: Tree, d: Direction, part: Part, entry: Entry, e: nat)
    requires e < |t|
  {
    entry == Outcome(part, Nearest(t, d, AcceptedBy(t, part), Some(e))) && !PartRaises(t, d, part, Some(e))
  }

  /** A walk that has passed `e` and is to end at `target`; `trouble` says whether a filter may still raise on it. */
  ghost predicate Passed(t: Tree, d: Direction, part: Part, target: Option<nat>, trouble: bool, e: nat)
    requires e < |t|
  {
    Nearest(t, d, AcceptedBy(t, part), Some(e)) == target && (PartRaises(t, d, part, Some(e)) ==> trouble)
  }

  /** An entry in front of the first `null` raises in a test, or in one of several filters. */
  ghost predicate PassRaises(test: Test, cs: seq<Entry>) {
    exists i :: 0 <= i < |cs| && Null !in cs[..i] && cs[i].At? && TestRaises(test, cs[i].node)
  }

  ghost predicate InPlaceRaises(t: Tree, tests: seq<Test>, cs: seq<Entry>)
    requires EntriesOk(t, cs)
  {
    exists i :: 0 <= i < |cs| && Null !in cs[..i] && cs[i].At? && FiltersRaise(t, tests, cs[i].node)
  }

  /** Filters in place raise in the pass of one of them over the entries the others have left. */
  lemma PassOfInPlace(t: Tree, tests: seq<Test>, cs: seq<Entry>, k: nat)
    requires EntriesOk(t, cs) && k < |tests|
    requires PassRaises(tests[k], FilterSeq(AcceptSet(t, Filter(tests[..k])), cs))
    ensures InPlaceRaises(t, tests, cs)
  {
    var left := FilterSeq(AcceptSet(t, Filter(tests[..k])), cs);
    var i :| 0 <= i < |left| && Null !in left[..i] && left[i].At? && TestRaises(tests[k], left[i].node);
    SameNulls(AcceptSet(t, Filter(tests[..k])), cs, i);
    assert FiltersRaise(t, tests, cs[i].node);
  }

  lemma InPlaceByPass(t: Tree, tests: seq<Test>, cs: seq<Entry>)
    requires EntriesOk(t, cs) && InPlaceRaises(t, tests, cs)
    ensures exists k :: 0 <= k < |tests| && PassRaises(tests[k], FilterSeq(AcceptSet(t, Filter(tests[..k])), cs))
  {
    var i :| 0 <= i < |cs| && Null !in cs[..i] && cs[i].At? && FiltersRaise(t, tests, cs[i].node);
    var n := cs[i].node;
    var k :| 0 <= k < |tests| && TestRaises(tests[k], n) && Accepts(t, Filter(tests[..k]), n);
    var left := FilterSeq(AcceptSet(t, Filter(tests[..k])), cs);
    SameNulls(AcceptSet(t, Filter(tests[..k])), cs, i);
    assert left[i] == cs[i] && Null !in left[..i];
  }

  /** A filtered step raises in its filters in place. */
  lemma ThrowsInPlace(t: Tree, s: Step, cs: seq<Entry>)
    requires EntriesOk(t, cs) && Filtered(s)
    ensures Throws(t, s, cs) <==> InPlaceRaises(t, s.part.compound.tests, Raw(t, s, cs))
  {
    var raw := Raw(t, s, cs);
    forall i | 0 <= i < |cs|
      ensures ThrowsAt(t, s, cs, i) <==>
              Null !in raw[..i] && raw[i].At? && FiltersRaise(t, s.part.compound.tests, raw[i].node)
    {
    }
  }

  lemma WalkThrows(t: Tree, d: Direction, part: Part, cs: seq<Entry>)
    requires EntriesOk(t, cs)
    ensures var s := Step(if d.ParentNode? then Descendant else General, part);
            Throws(t, s, cs) <==>
            exists j :: 0 <= j < |cs| && cs[j].At? && PartRaises(t, d, part, Go(t, d, cs[j].node))
  {
    var s := Step(if d.ParentNode? then Descendant else General, part);
    forall j | 0 <= j < |cs|
      ensures ThrowsAt(t, s, cs, j) <==> cs[j].At? && PartRaises(t, d, part, Go(t, d, cs[j].node))
    {
    }
  }

  ghost function TestSet(t: Tree, test: Test): set<nat> {
    set n: nat | 0 <= n < |t| && TestHolds(t, test, n)
  }

  ghost function Reached(t: Tree, d: Direction, cs: seq<Entry>): set<nat>
    requires EntriesOk(t, cs)
  {
    set x: nat, i | 0 <= i < |cs| && 0 <= x < |t| && IsElement(t, x) && cs[i].At? && Beyond(t, d, cs[i].node, x) :: x
  }

  lemma AcceptOneMore(t: Tree, tests: seq<Test>, k: nat)
    requires k < |tests|
    ensures AcceptSet(t, Filter(tests[..k + 1])) == AcceptSet(t, Filter(tests[..k])) * TestSet(t, tests[k])
  {
    forall n: nat | n < |t|
      ensures Accepts(t, Filter(tests[..k + 1]), n) <==>
              Accepts(t, Filter(tests[..k]), n) && TestHolds(t, tests[k], n)
    {
      assert forall i :: 0 <= i < k ==> tests[..k + 1][i] == tests[..k][i];
      assert tests[..k + 1][k] == tests[k];
    }
  }

  /** A child not yet counted would have to come after the last sibling. */
  lemma LastSiblingCounted(t: Tree, p: nat, m: nat, c: nat)
    requires m < |t| && c < |t| && t[m].parent == Some(p) && t[c].parent == Some(p) && t[m].next.None?
    ensures Reaches(t, PreviousSibling, m, c)
  {
    SiblingsLinear(t, m, c);
    if Reaches(t, PreviousSibling, c, m) && c != m {
      ReachesThroughNext(t, c, m);
    }
  }

  lemma NoYes(t: Tree, s: Step, cs: seq<Entry>)
    requires EntriesOk(t, cs) && Yes !in cs && s.part.Selects?
    ensures Yes !in Raw(t, s, cs)
  {
    assert forall i :: 0 <= i < |cs| ==> cs[i] in cs;
  }

  lemma SteppedNoYes(t: Tree, s: Step, cs: seq<Entry>)
    requires EntriesOk(t, cs) && Yes !in cs && s.part.Selects?
    ensures Yes !in Stepped(t, s, cs)
  {
    NoYes(t, s, cs);
    FilterKeepsKinds(LinkOf(t, s).accepted, Raw(t, s, cs), t);
  }

  lemma ReachedByEntry(t: Tree, d: Direction, cs: seq<Entry>, i: nat, e: nat)
    requires EntriesOk(t, cs) && i < |cs| && cs[i].At? && e < |t| && Beyond(t, d, cs[i].node, e)
    ensures IsElement(t, e) ==> e in Reached(t, d, cs[i..i + 1])
  {
    assert cs[i..i + 1][0] == cs[i];
  }

  lemma ReachedWithin(t: Tree, d: Direction, cs: seq<Entry>, now: seq<Entry>, i: nat)
    requires EntriesOk(t, cs) && EntriesOk(t, now) && i < |cs| == |now| && cs[i] == now[i]
    ensures Reached(t, d, now[i..i + 1]) <= Reached(t, d, cs)
  {
  }

  lemma BeyondNext(t: Tree, d: Direction, n: nat, e: nat)
    requires n < |t| && e < |t| && Beyond(t, d, n, e)
    ensures Go(t, d, e).Some? ==> Beyond(t, d, n, Go(t, d, e).value)
  {
    if Go(t, d, e).Some? {
      var x := Go(t, d, e).value;
      assert Reaches(t, d, e, x);
      ReachesTransitive(t, d, Go(t, d, n).value, e, x);
    }
  }

  lemma SiblingHasParent(t: Tree, n: nat)
    requires n < |t|
    ensures Go(t, PreviousSibling, n).Some? ==> t[Go(t, PreviousSibling, n).value].parent.Some?
    ensures t[n].parent.Some? ==> !t[n].kind.DocumentNode?
  {
    assert NodeOk(t, n);
  }

  lemma FilterKeepsKinds(accepted: set<nat>, cs: seq<Entry>, t: Tree)
    requires EntriesOk(t, cs) && Yes !in cs
    ensures EntriesOk(t, FilterSeq(accepted, cs)) && Yes !in FilterSeq(accepted, cs)
  {
    assert forall i :: 0 <= i < |cs| ==> cs[i] in cs;
  }

  lemma FilterTwice(a: set<nat>, b: set<nat>, cs: seq<Entry>)
    ensures FilterSeq(b, FilterSeq(a, cs)) == FilterSeq(a * b, cs)
  {
    forall i | 0 <= i < |cs|
      ensures FilterSeq(b, FilterSeq(a, cs))[i] == FilterSeq(a * b, cs)[i]
    {
      SameNulls(a, cs, i);
    }
  }

  lemma FilterAll(t: Tree, cs: seq<Entry>)
    requires EntriesOk(t, cs)
    ensures FilterSeq(AcceptSet(t, Filter([])), cs) == cs
  {
  }

  lemma AcceptsFewer(t: Tree, tests: seq<Test>, k: nat, m: nat, n: nat)
    requires n < |t| && k <= m <= |tests|
    ensures Accepts(t, Filter(tests[..m]), n) ==> Accepts(t, Filter(tests[..k]), n)
  {
    assert forall j :: 0 <= j < k ==> tests[..k][j] == tests[..m][j];
  }

  /** Once no node is left before the first `null`, the remaining tests raise on none. */
  lemma SettledAnswers(t: Tree, tests: seq<Test>, k: nat, cs: seq<Entry>, m: nat)
    requires k < m < |tests| && EntriesOk(t, cs)
    requires forall j :: 0 <= j < |cs| && Null !in cs[..j] ==>
               !FilterSeq(AcceptSet(t, Filter(tests[..k + 1])), cs)[j].At?
    ensures !PassRaises(tests[m], FilterSeq(AcceptSet(t, Filter(tests[..m])), cs))
  {
    var left := FilterSeq(AcceptSet(t, Filter(tests[..m])), cs);
    forall i | 0 <= i < |left| && Null !in left[..i] ensures !left[i].At? {
      SameNulls(AcceptSet(t, Filter(tests[..m])), cs, i);
      if cs[i].At? {
        AcceptsFewer(t, tests, k + 1, m, cs[i].node);
      }
    }
  }

  /** Once no node is left before the first `null`, the remaining tests change nothing. */
  lemma FilterSettled(t: Tree, tests: seq<Test>, k: nat, cs: seq<Entry>)
    requires k < |tests| && EntriesOk(t, cs)
    requires forall j :: 0 <= j < |cs| && Null !in cs[..j] ==>
               !FilterSeq(AcceptSet(t, Filter(tests[..k + 1])), cs)[j].At?
    ensures FilterSeq(AcceptSet(t, Filter(tests)), cs) == FilterSeq(AcceptSet(t, Filter(tests[..k + 1])), cs)
  {
    forall n: nat | n < |t| && Accepts(t, Filter(tests), n)
      ensures Accepts(t, Filter(tests[..k + 1]), n)
    {
      assert forall i :: 0 <= i <= k ==> tests[..k + 1][i] == tests[i];
    }
    assert AcceptSet(t, Filter(tests)) <= AcceptSet(t, Filter(tests[..k + 1]));
  }

  lemma CollectedStep(t: Tree, context: nat, found: seq<nat>, cs: seq<Entry>, i: nat)
    requires |found| == |cs| && context < |t| && EntriesOk(t, cs) && i < |cs| && cs[i] != Null
    ensures Collected(t, context, found[i..], cs[i..]) ==
            (if Kept(t, context, cs[i]) then [found[i]] else []) + Collected(t, context, found[i + 1..], cs[i + 1..])
  {
    assert found[i..][1..] == found[i + 1..] && cs[i..][1..] == cs[i + 1..];
  }

  class Engine {
    const tree: Tree
    var done: nat
    const sizcache: array<int>
    const sizset: array<nat>
    const nodeIndex: array<nat>

    ghost predicate Valid()
      reads this, sizcache, nodeIndex
    {
      && sizcache.Length == sizset.Length == nodeIndex.Length == |tree|
      && sizset != nodeIndex && sizcache as object != sizset && sizcache as object != nodeIndex
      && (forall n :: 0 <= n < |tree| ==> sizcache[n] < done)
      && forall n :: 0 <= n < |tree| ==>
           (tree[n].parent.None? || !IsElement(tree, n)) ==> nodeIndex[n] == 0
    }

    /** A fresh page: nothing cached, the number counter at its start. */
    constructor (tree: Tree)
      ensures Valid() && this.tree == tree && done == 0
      ensures fresh(sizcache) && fresh(sizset) && fresh(nodeIndex)
    {
      this.tree := tree;
      done := 0;
      sizcache := new int[|tree|](_ => -1);
      sizset := new nat[|tree|](_ => 0);
      nodeIndex := new nat[|tree|](_ => 0);
    }

    /** `sizcache` gained no value other than numbers from `since` on. */
    twostate predicate OnlyFreshMarks(since: nat)
      reads sizcache
    {
      && sizcache.Length == |tree|
      && forall n :: 0 <= n < |tree| ==> sizcache[n] == old(sizcache[n]) || sizcache[n] >= since
    }

    // ---- nth-child ----------------------------------------------------------

    /** Below every parent stamped with this number the sibling indices are right. */
    ghost predicate Counted(doneName: nat)
      requires sizcache.Length == nodeIndex.Length == |tree|
      reads sizcache, nodeIndex
    {
      forall c :: 0 <= c < |tree| && IsElement(tree, c) && tree[c].parent.Some?
        && tree[c].parent.value < |tree| && sizcache[tree[c].parent.value] == doneName
        ==> nodeIndex[c] == CountThrough(tree, c)
    }

    /** Numbers the element children of `p` from 1 and stamps `p`. */
    method CountChildren(p: nat, doneName: nat)
      requires Valid() && p < |tree| && doneName < done
      modifies sizcache, nodeIndex
      ensures Valid() && sizcache[..] == old(sizcache[..])[p := doneName]
      ensures forall c :: 0 <= c < |tree| ==>
                nodeIndex[c] == if IsElement(tree, c) && tree[c].parent == Some(p)
                                then CountThrough(tree, c) else old(nodeIndex[c])
    {
      var count := 0;
      var node := tree[p].firstChild;
      assert NodeOk(tree, p);
      ghost var last: Option<nat> := None;
      while node.Some?
        invariant node.Some? ==> node.value < |tree| && tree[node.value].parent == Some(p)
                                 && tree[node.value].prev == last
        invariant last.Some? ==> last.value < |tree| && tree[last.value].parent == Some(p)
                                 && tree[last.value].next == node
        invariant last.None? ==> node == tree[p].firstChild
        invariant count == if last.Some? then CountThrough(tree, last.value) else 0
        invariant forall c :: 0 <= c < |tree| ==>
                    nodeIndex[c] == if IsElement(tree, c) && last.Some? && Reaches(tree, PreviousSibling, last.value, c)
                                    then CountThrough(tree, c) else old(nodeIndex[c])
        invariant unchanged(sizcache)
        decreases if node.Some? then |tree| - node.value else 0
      {
        var m := node.value;
        assert NodeOk(tree, m);
        if IsElement(tree, m) {
          count := count + 1;
          nodeIndex[m] := count;
        }
        if last.Some? {
          forall c | 0 <= c < |tree| && Reaches(tree, PreviousSibling, last.value, c)
            ensures c != m
          {
            ReachesBound(tree, PreviousSibling, last.value, c);
          }
        }
        last := node;
        node := tree[m].next;
        if node.Some? {
          SiblingsShareParent(tree, node.value, m);
        }
      }
      forall c | 0 <= c < |tree|
        ensures tree[c].parent == Some(p) <==> last.Some? && Reaches(tree, PreviousSibling, last.value, c)
      {
        if last.Some? && Reaches(tree, PreviousSibling, last.value, c) {
          SiblingsShareParent(tree, last.value, c);
        }
        if tree[c].parent == Some(p) {
          ReachesFirstChild(tree, c);
          LastSiblingCounted(tree, p, last.value, c);
        }
      }
      sizcache[p] := doneName;
    }

    /** `:nth-child(first n + last)` through the cached index, recounting when the cache is cold. */
    method TestNth(elem: nat, first: int, last: int, doneName: nat) returns (b: bool)
      requires Valid() && elem < |tree| && doneName < done && Counted(doneName)
      modifies sizcache, nodeIndex
      ensures Valid() && Counted(doneName)
      ensures b <==> IsNthChild(tree, elem, first, last)
      ensures tree[elem].parent.Some? && IsElement(tree, elem) ==>
                (b <==> InProgression(
                          |set x: nat | x < elem && Precedes(tree, x, elem) && IsElement(tree, x)| + 1, first, last))
      ensures tree[elem].parent.None? || !IsElement(tree, elem) ==> (b <==> first == 1 && last == 0)
      ensures forall n :: 0 <= n < |tree| ==> sizcache[n] == old(sizcache[n]) || sizcache[n] == doneName
    {
      AllChildren(elem);
      assert PrecedingElements(tree, elem) ==
             set x: nat | x < elem && Precedes(tree, x, elem) && IsElement(tree, x);
      if first == 1 && last == 0 {
        return true;
      }
      var parent := tree[elem].parent;
      assert NodeOk(tree, elem);
      if parent.Some? && (sizcache[parent.value] != doneName || nodeIndex[elem] == 0) {
        CountChildren(parent.value, doneName);
      }
      if nodeIndex[elem] == 0 {
        // undefined - last is NaN, which passes neither test
        return false;
      }
      CountThroughExact(tree, elem);
      IndexTestExact(nodeIndex[elem], first, last);
      b := IndexTest(nodeIndex[elem], first, last);
    }

    /** `n + 0` asks for every position. */
    lemma AllChildren(elem: nat)
      requires elem < |tree|
      ensures InProgression(|PrecedingElements(tree, elem)| + 1, 1, 0)
    {
      var k := |PrecedingElements(tree, elem)| + 1;
      assert k == 1 * k + 0;
    }

    // ---- Filters --------------------------------------------------------------

    /** An nth-child test runs under a number whose stamped parents are counted right. */
    ghost predicate Ready(test: Test, doneName: nat)
      requires sizcache.Length == nodeIndex.Length == |tree|
      reads this, sizcache, nodeIndex
    {
      test.Nth? ==> doneName < done && Counted(doneName)
    }

    /** The pre-filter of nth-child takes a fresh number; the other tests take none. */
    method PreFilter(test: Test) returns (doneName: nat)
      requires Valid()
      modifies this`done
      ensures Valid() && Ready(test, doneName) && doneName == old(done)
      ensures done == old(done) + if test.Nth? then 1 else 0
    {
      doneName := done;
      if test.Nth? {
        done := done + 1;
      }
    }

    method TestOne(test: Test, elem: nat, doneName: nat) returns (raised: bool, b: bool)
      requires Valid() && elem < |tree| && Ready(test, doneName)
      modifies sizcache, nodeIndex
      ensures Valid() && Ready(test, doneName)
      ensures raised == TestRaises(test, elem) && (b && !raised <==> TestHolds(tree, test, elem))
      ensures test.Passing? ==> (raised <==> elem in test.raising) && (!raised ==> (b <==> elem in test.nodes))
      ensures test.Nth? && tree[elem].parent.Some? && IsElement(tree, elem) ==>
                (b <==> InProgression(|PrecedingElements(tree, elem)| + 1, test.first, test.last))
      ensures forall n :: 0 <= n < |tree| ==> sizcache[n] == old(sizcache[n]) || sizcache[n] == doneName
    {
      match test
      case Passing(nodes, raising) =>
        raised, b := elem in raising, elem in nodes;
      case Nth(first, last) =>
        raised := false;
        AllChildren(elem);
        b := TestNth(elem, first, last, doneName);
    }

    /** `Sizzle.filter(cur, [elem]).length > 0`. */
    method FilterOne(tests: seq<Test>, elem: nat) returns (raised: bool, b: bool)
      requires Valid() && elem < |tree|
      modifies this`done, sizcache, nodeIndex
      ensures Valid() && done >= old(done)
      ensures raised <==> FiltersRaise(tree, tests, elem)
      ensures b <==> Accepts(tree, Filter(tests), elem)
      ensures b <==> forall k :: 0 <= k < |tests| ==> TestHolds(tree, tests[k], elem)
      ensures raised <==>
              exists k :: 0 <= k < |tests| && tests[k].Passing? && elem in tests[k].raising
                          && forall j :: 0 <= j < k ==> TestHolds(tree, tests[j], elem)
      ensures OnlyFreshMarks(old(done))
    {
      for k := 0 to |tests|
        invariant Valid() && done >= old(done)
        invariant forall j :: 0 <= j < k ==> TestHolds(tree, tests[j], elem)
        invariant OnlyFreshMarks(old(done))
      {
        var doneName := PreFilter(tests[k]);
        var raises, pass := TestOne(tests[k], elem, doneName);
        if raises {
          assert Accepts(tree, Filter(tests[..k]), elem);
          return true, false;
        }
        if !pass {
          assert forall m :: k < m < |tests| ==> tests[..m][k] == tests[k];
          return false, false;
        }
      }
      return false, true;
    }

    /** One filter over the array in place, up to the first `null`. */
    method FilterPass(test: Test, doneName: nat, checkSet: array<Entry>) returns (raised: bool, anyFound: bool)
      requires Valid() && Ready(test, doneName)
      requires EntriesOk(tree, checkSet[..]) && Yes !in checkSet[..]
      modifies sizcache, nodeIndex, checkSet
      ensures Valid() && OnlyFreshMarks(doneName)
      ensures raised == PassRaises(test, old(checkSet[..]))
      ensures !raised ==> checkSet[..] == FilterSeq(TestSet(tree, test), old(checkSet[..]))
      ensures !raised && !anyFound ==>
                forall j :: 0 <= j < checkSet.Length && Null !in old(checkSet[..j]) ==> !checkSet[j].At?
    {
      raised, anyFound := false, false;
      var i := 0;
      ghost var cs := checkSet[..];
      while i < checkSet.Length && checkSet[i] != Null
        invariant 0 <= i <= checkSet.Length && Null !in cs[..i]
        invariant Valid() && Ready(test, doneName) && OnlyFreshMarks(doneName)
        invariant forall j :: i <= j < checkSet.Length ==> checkSet[j] == cs[j]
        invariant forall j :: 0 <= j < i ==> checkSet[j] == FilterEntry(TestSet(tree, test), cs[j])
        invariant forall j :: 0 <= j < i && cs[j].At? ==> !TestRaises(test, cs[j].node)
        invariant !anyFound ==> forall j :: 0 <= j < i ==> !checkSet[j].At?
      {
        if checkSet[i].At? {
          assert checkSet[i] == cs[i];
          var raises, pass := TestOne(test, checkSet[i].node, doneName);
          if raises {
            return true, anyFound;
          }
          if pass {
            anyFound := true;
          } else {
            checkSet[i] := No;
          }
        }
        i := i + 1;
      }
      FrontOnly(cs, i);
    }

    /** The entries in front of the first `null` are those before `i`. */
    lemma FrontOnly(cs: seq<Entry>, i: nat)
      requires i <= |cs| && Null !in cs[..i] && (i < |cs| ==> cs[i] == Null)
      ensures forall j :: 0 <= j < |cs| ==> (Null in cs[..j] <==> j > i)
    {
      forall j | 0 <= j < |cs|
        ensures Null in cs[..j] <==> j > i
      {
        if j > i {
          assert cs[..j][i] == Null;
        } else {
          assert cs[..j] == cs[..i][..j];
        }
      }
    }

    /** `Sizzle.filter(part, checkSet, true)`: filter after filter, stopping early when nothing is left. */
    method FilterInPlace(tests: seq<Test>, checkSet: array<Entry>) returns (raised: bool)
      requires Valid() && EntriesOk(tree, checkSet[..]) && Yes !in checkSet[..]
      modifies this`done, sizcache, nodeIndex, checkSet
      ensures Valid() && done >= old(done) && OnlyFreshMarks(old(done))
      ensures raised == InPlaceRaises(tree, tests, old(checkSet[..]))
      ensures !raised ==> checkSet[..] == FilterSeq(AcceptSet(tree, Filter(tests)), old(checkSet[..]))
    {
      ghost var cs := checkSet[..];
      FilterAll(tree, cs);
      for k := 0 to |tests|
        invariant Valid() && done >= old(done) && OnlyFreshMarks(old(done))
        invariant checkSet[..] == FilterSeq(AcceptSet(tree, Filter(tests[..k])), cs)
        invariant EntriesOk(tree, checkSet[..]) && Yes !in checkSet[..]
        invariant forall m :: 0 <= m < k ==>
                    !PassRaises(tests[m], FilterSeq(AcceptSet(tree, Filter(tests[..m])), cs))
      {
        var raises, anyFound := FilterNext(tests, k, cs, checkSet);
        if raises {
          PassOfInPlace(tree, tests, cs, k);
          return true;
        }
        if !anyFound {
          NothingLeft(tests, k, cs);
          return false;
        }
      }
      assert tests[..|tests|] == tests;
      NoPassRaises(tests, cs);
      return false;
    }

    /** The next filter of several in place. */
    method FilterNext(tests: seq<Test>, k: nat, ghost cs: seq<Entry>, checkSet: array<Entry>)
      returns (raised: bool, anyFound: bool)
      requires Valid() && k < |tests| && EntriesOk(tree, cs)
      requires checkSet[..] == FilterSeq(AcceptSet(tree, Filter(tests[..k])), cs)
      requires EntriesOk(tree, checkSet[..]) && Yes !in checkSet[..]
      modifies this`done, sizcache, nodeIndex, checkSet
      ensures Valid() && done >= old(done) && OnlyFreshMarks(old(done))
      ensures raised == PassRaises(tests[k], FilterSeq(AcceptSet(tree, Filter(tests[..k])), cs))
      ensures !raised ==> checkSet[..] == FilterSeq(AcceptSet(tree, Filter(tests[..k + 1])), cs)
      ensures !raised ==> EntriesOk(tree, checkSet[..]) && Yes !in checkSet[..]
      ensures !raised && !anyFound ==> forall j :: 0 <= j < |cs| && Null !in cs[..j] ==> !checkSet[j].At?
    {
      ghost var before := checkSet[..];
      var doneName := PreFilter(tests[k]);
      raised, anyFound := FilterPass(tests[k], doneName, checkSet);
      AcceptOneMore(tree, tests, k);
      FilterTwice(AcceptSet(tree, Filter(tests[..k])), TestSet(tree, tests[k]), cs);
      FilterKeepsKinds(TestSet(tree, tests[k]), before, tree);
      forall j | 0 <= j < |cs| ensures Null in before[..j] <==> Null in cs[..j] {
        SameNulls(AcceptSet(tree, Filter(tests[..k])), cs, j);
      }
    }

    lemma NoPassRaises(tests: seq<Test>, cs: seq<Entry>)
      requires EntriesOk(tree, cs)
      requires forall m :: 0 <= m < |tests| ==>
                 !PassRaises(tests[m], FilterSeq(AcceptSet(tree, Filter(tests[..m])), cs))
      ensures !InPlaceRaises(tree, tests, cs)
    {
      if InPlaceRaises(tree, tests, cs) {
        InPlaceByPass(tree, tests, cs);
      }
    }

    /** With nothing left in front of the first `null`, stopping early is as good as going on. */
    lemma NothingLeft(tests: seq<Test>, k: nat, cs: seq<Entry>)
      requires EntriesOk(tree, cs) && k < |tests|
      requires forall m :: 0 <= m <= k ==>
                 !PassRaises(tests[m], FilterSeq(AcceptSet(tree, Filter(tests[..m])), cs))
      requires forall j :: 0 <= j < |cs| && Null !in cs[..j] ==>
                 !FilterSeq(AcceptSet(tree, Filter(tests[..k + 1])), cs)[j].At?
      ensures FilterSeq(AcceptSet(tree, Filter(tests)), cs) == FilterSeq(AcceptSet(tree, Filter(tests[..k + 1])), cs)
      ensures !InPlaceRaises(tree, tests, cs)
    {
      FilterSettled(tree, tests, k, cs);
      forall m | k < m < |tests|
        ensures !PassRaises(tests[m], FilterSeq(AcceptSet(tree, Filter(tests[..m])), cs))
      {
        SettledAnswers(tree, tests, k, cs, m);
      }
      NoPassRaises(tests, cs);
    }

    // ---- Memoised walks -------------------------------------------------------

    /**
     The memo: a node stamped with this number points at an entry that holds the
     outcome of a walk starting at that node, and no filter raises on that walk.
     */
    ghost predicate Memo(d: Direction, part: Part, doneName: nat, cs: seq<Entry>, i: nat)
      requires sizcache.Length == sizset.Length == |tree| && i <= |cs|
      reads sizcache, sizset
    {
      forall e :: 0 <= e < |tree| && sizcache[e] == doneName ==>
        sizset[e] < i && Remembers(tree, d, part, cs[sizset[e]], e)
    }

    /**
     The memo during a walk: nodes passed on this walk point at the entry still to be
     written; `trouble` says whether a filter is going to raise on the rest of the walk.
     */
    ghost predicate WalkMemo(d: Direction, part: Part, doneName: nat, cs: seq<Entry>, i: nat,
                             target: Option<nat>, trouble: bool, elem: Option<nat>)
      requires sizcache.Length == sizset.Length == |tree| && i <= |cs|
      reads sizcache, sizset
    {
      forall e :: 0 <= e < |tree| && sizcache[e] == doneName ==>
        if sizset[e] == i then Passed(tree, d, part, target, trouble, e) && (elem.Some? ==> elem.value < e)
        else sizset[e] < i && Remembers(tree, d, part, cs[sizset[e]], e)
    }

    ghost function Stamped(doneName: nat): set<nat>
      requires sizcache.Length == |tree|
      reads sizcache
    {
      set e: nat | 0 <= e < |tree| && sizcache[e] == doneName
    }

    /** Passing an unstamped node: elements get stamped unless the document is XML. */
    method Stamp(d: Direction, ghost part: Part, doneName: nat, ghost cs: seq<Entry>, isXML: bool,
                 i: nat, ghost target: Option<nat>, ghost trouble: bool, e: nat)
      requires Valid() && doneName < done && i < |cs| && e < |tree| && sizcache[e] != doneName
      requires WalkMemo(d, part, doneName, cs, i, target, trouble, Some(e))
      requires Nearest(tree, d, AcceptedBy(tree, part), Some(e)) == target
      requires PartRaises(tree, d, part, Some(e)) ==> trouble
      modifies sizcache, sizset
      ensures Valid() && OnlyFreshMarks(doneName)
      ensures WalkMemo(d, part, doneName, cs, i, target, trouble, Go(tree, d, e))
      ensures Stamped(doneName) <= old(Stamped(doneName)) + if IsElement(tree, e) then {e} else {}
      ensures !isXML ==> |Stamped(doneName)| == |old(Stamped(doneName))| + if IsElement(tree, e) then 1 else 0
    {
      ghost var before := Stamped(doneName);
      if IsElement(tree, e) && !isXML {
        sizcache[e] := doneName;
        sizset[e] := i;
        assert Stamped(doneName) == before + {e};
      } else {
        assert Stamped(doneName) == before;
      }
    }

    lemma WalkMemoEnds(d: Direction, part: Part, doneName: nat, cs: seq<Entry>, i: nat,
                       target: Option<nat>, trouble: bool, elem: Option<nat>)
      requires Valid() && i <= |cs| && WalkMemo(d, part, doneName, cs, i, target, trouble, elem)
      ensures WalkMemo(d, part, doneName, cs, i, target, trouble, None)
    {
    }

    /** The inner loop of `dirNodeCheck`; `visits` counts the element nodes it looks at. */
    method WalkToName(d: Direction, name: string, doneName: nat, checkSet: array<Entry>, isXML: bool,
                      i: nat, ghost reached: set<nat>)
      returns (found: Entry, ghost visits: nat)
      requires Valid() && doneName < done && i < checkSet.Length
      requires EntriesOk(tree, checkSet[..]) && checkSet[i].At?
      requires Memo(d, Selects(Tag(name)), doneName, checkSet[..], i)
      requires Stamped(doneName) <= reached && Reached(tree, d, checkSet[..][i..i + 1]) <= reached
      modifies sizcache, sizset
      ensures Valid()
      ensures found == WalkedEntry(tree, d, Selects(Tag(name)), checkSet[i])
      ensures WalkMemo(d, Selects(Tag(name)), doneName, checkSet[..], i,
                       Nearest(tree, d, AcceptedBy(tree, Selects(Tag(name))), Go(tree, d, checkSet[i].node)),
                       false, None)
      ensures Stamped(doneName) <= reached
      ensures !isXML ==> visits + |old(Stamped(doneName))| <= |Stamped(doneName)| + 1
    {
      ghost var part := Selects(Tag(name));
      ghost var cs := checkSet[..];
      ghost var n: nat := checkSet[i].node;
      var elem: Option<nat> := Go(tree, d, checkSet[i].node);
      ghost var target := Nearest(tree, d, AcceptedBy(tree, part), elem);
      found := No;
      visits := 0;
      while elem.Some?
        invariant elem.Some? ==> elem.value < |tree| && Beyond(tree, d, n, elem.value)
        invariant Nearest(tree, d, AcceptedBy(tree, part), elem) == target
        invariant Valid() && WalkMemo(d, part, doneName, cs, i, target, false, elem)
        invariant Stamped(doneName) <= reached
        invariant !isXML ==> visits + |old(Stamped(doneName))| <= |Stamped(doneName)|
        decreases if elem.Some? then elem.value + 1 else 0
      {
        var e := elem.value;
        if IsElement(tree, e) {
          visits := visits + 1;
        }
        if sizcache[e] == doneName {
          found := checkSet[sizset[e]];
          WalkMemoEnds(d, part, doneName, cs, i, target, false, elem);
          break;
        }
        ReachedByEntry(tree, d, cs, i, e);
        var stop := NameVisit(d, name, doneName, cs, isXML, i, target, e);
        if stop {
          found := At(e);
          WalkMemoEnds(d, part, doneName, cs, i, target, false, Go(tree, d, e));
          break;
        }
        BeyondNext(tree, d, n, e);
        elem := Go(tree, d, e);
      }
    }

    /** One unstamped node of that walk: stamp it if it is an element, and compare its name. */
    method NameVisit(d: Direction, name: string, doneName: nat, ghost cs: seq<Entry>, isXML: bool,
                     i: nat, ghost target: Option<nat>, e: nat) returns (stop: bool)
      requires Valid() && doneName < done && i < |cs| && e < |tree| && sizcache[e] != doneName
      requires WalkMemo(d, Selects(Tag(name)), doneName, cs, i, target, false, Some(e))
      requires Nearest(tree, d, AcceptedBy(tree, Selects(Tag(name))), Some(e)) == target
      modifies sizcache, sizset
      ensures Valid() && (stop <==> e in AcceptedBy(tree, Selects(Tag(name))))
      ensures WalkMemo(d, Selects(Tag(name)), doneName, cs, i, target, false, Go(tree, d, e))
      ensures Stamped(doneName) <= old(Stamped(doneName)) + if IsElement(tree, e) then {e} else {}
      ensures !isXML ==> |Stamped(doneName)| == |old(Stamped(doneName))| + if IsElement(tree, e) then 1 else 0
    {
      Stamp(d, Selects(Tag(name)), doneName, cs, isXML, i, target, false, e);
      stop := tree[e].name == name;
    }

    /** The entry is the nearest node of that name beyond `n`, or `false` if there is none. */
    ghost predicate IsNamed(d: Direction, name: string, n: nat, e: Entry)
      requires n < |tree|
    {
      if e.At? then
        && e.node < |tree| && Beyond(tree, d, n, e.node) && tree[e.node].name == name
        && forall x: nat :: x < |tree| && Beyond(tree, d, n, x) && tree[x].name == name ==> Reaches(tree, d, e.node, x)
      else
        e == No && forall x: nat :: x < |tree| && Beyond(tree, d, n, x) ==> tree[x].name != name
    }

    lemma WalkedIsNamed(d: Direction, name: string, n: nat)
      requires n < |tree|
      ensures IsNamed(d, name, n, WalkedEntry(tree, d, Selects(Tag(name)), At(n)))
    {
      if Go(tree, d, n).Some? {
        NearestIsNearest(tree, d, AcceptedBy(tree, Selects(Tag(name))), Go(tree, d, n).value);
      }
    }

    /**
     The walk for a bare tag name.  With the memo on, the element nodes looked at
     are no more than the distinct ones among them, which bear this walk's stamp,
     plus one per entry; all of them lie within reach of an entry.
     */
    method DirNodeCheck(d: Direction, name: string, doneName: nat, checkSet: array<Entry>, isXML: bool)
      returns (ghost visits: nat)
      requires Valid() && doneName < done && doneName !in sizcache[..]
      requires EntriesOk(tree, checkSet[..])
      modifies sizcache, sizset, checkSet
      ensures Valid() && EntriesOk(tree, checkSet[..])
      ensures forall j :: 0 <= j < checkSet.Length ==>
                checkSet[j] == WalkedEntry(tree, d, Selects(Tag(name)), old(checkSet[j]))
      ensures !isXML ==> visits <= |Stamped(doneName)| + checkSet.Length
      ensures Stamped(doneName) <= Reached(tree, d, old(checkSet[..]))
      ensures !isXML ==> visits <= |Reached(tree, d, old(checkSet[..]))| + checkSet.Length
      ensures forall j :: 0 <= j < checkSet.Length && old(checkSet[j]).At? ==>
                IsNamed(d, name, old(checkSet[j]).node, checkSet[j])
    {
      ghost var part := Selects(Tag(name));
      ghost var cs := checkSet[..];
      ghost var reached := Reached(tree, d, cs);
      visits := 0;
      var i := 0;
      NothingStamped(d, part, doneName, cs);
      while i < checkSet.Length
        invariant 0 <= i <= checkSet.Length && Valid() && EntriesOk(tree, checkSet[..])
        invariant forall j :: i <= j < checkSet.Length ==> checkSet[j] == cs[j]
        invariant forall j :: 0 <= j < i ==> checkSet[j] == WalkedEntry(tree, d, part, cs[j])
        invariant Memo(d, part, doneName, checkSet[..], i)
        invariant Stamped(doneName) <= reached
        invariant !isXML ==> visits <= |Stamped(doneName)| + i
      {
        ReachedWithin(tree, d, cs, checkSet[..], i);
        ghost var more := NameEntry(d, name, doneName, checkSet, isXML, i, reached);
        visits := visits + more;
        i := i + 1;
      }
      SubsetSize(Stamped(doneName), reached);
      forall j | 0 <= j < |cs| && cs[j].At? ensures IsNamed(d, name, cs[j].node, checkSet[j]) {
        WalkedIsNamed(d, name, cs[j].node);
      }
    }

    /** The body of the loop in `dirNodeCheck`. */
    method NameEntry(d: Direction, name: string, doneName: nat, checkSet: array<Entry>, isXML: bool,
                     i: nat, ghost reached: set<nat>) returns (ghost visits: nat)
      requires Valid() && doneName < done && i < checkSet.Length && EntriesOk(tree, checkSet[..])
      requires Memo(d, Selects(Tag(name)), doneName, checkSet[..], i)
      requires Stamped(doneName) <= reached && Reached(tree, d, checkSet[..][i..i + 1]) <= reached
      modifies sizcache, sizset, checkSet
      ensures Valid() && Memo(d, Selects(Tag(name)), doneName, checkSet[..], i + 1)
      ensures checkSet[..] ==
              old(checkSet[..])[i := WalkedEntry(tree, d, Selects(Tag(name)), old(checkSet[i]))]
      ensures EntriesOk(tree, checkSet[..]) && Stamped(doneName) <= reached
      ensures !isXML ==> visits + |old(Stamped(doneName))| <= |Stamped(doneName)| + 1
    {
      visits := 0;
      ghost var entries := checkSet[..];
      if checkSet[i].At? {
        var found;
        found, visits := WalkToName(d, name, doneName, checkSet, isXML, i, reached);
        checkSet[i] := found;
        MemoExtends(d, Selects(Tag(name)), doneName, entries, i, found);
        assert checkSet[..] == entries[i := found];
      } else {
        assert checkSet[..] == entries[i := entries[i]];
      }
    }

    lemma NothingStamped(d: Direction, part: Part, doneName: nat, cs: seq<Entry>)
      requires Valid() && doneName !in sizcache[..]
      ensures Stamped(doneName) == {} && Memo(d, part, doneName, cs, 0)
    {
      assert forall e :: 0 <= e < |tree| ==> sizcache[..][e] == sizcache[e];
    }

    /** Writing the walk's outcome turns the walk's memo into the memo of the next entry. */
    lemma MemoExtends(d: Direction, part: Part, doneName: nat, cs: seq<Entry>, i: nat, found: Entry)
      requires Valid() && i < |cs| && cs[i].At? && cs[i].node < |tree|
      requires found == WalkedEntry(tree, d, part, cs[i])
      requires WalkMemo(d, part, doneName, cs, i,
                        Nearest(tree, d, AcceptedBy(tree, part), Go(tree, d, cs[i].node)), false, None)
      ensures Memo(d, part, doneName, cs[i := found], i + 1)
    {
    }

    /** What a walk may be asked to look for: a filtered compound, or the context node itself. */
    ghost predicate WalkTarget(d: Direction, part: Part) {
      match part
      case Selects(c) => c.Filter?
      case ContextNode(c) =>
        c < |tree| && (IsElement(tree, c) || (d.PreviousSibling? && tree[c].kind.DocumentNode?))
    }

    /** Does the walk stop at this element, and with what?  The walk's memo survives the filter. */
    method Probe(part: Part, e: nat, ghost d: Direction, ghost doneName: nat, ghost cs: seq<Entry>,
                 ghost i: nat, ghost target: Option<nat>, ghost trouble: bool, ghost elem: Option<nat>)
      returns (raised: bool, stop: bool, found: Entry)
      requires Valid() && e < |tree| && IsElement(tree, e) && i <= |cs| && doneName < done
      requires part.Selects? ==> part.compound.Filter?
      requires WalkMemo(d, part, doneName, cs, i, target, trouble, elem)
      modifies this`done, sizcache, nodeIndex
      ensures Valid() && done >= old(done)
      ensures raised <==> ProbeRaises(tree, part, e)
      ensures stop <==> e in AcceptedBy(tree, part)
      ensures stop ==> found == Outcome(part, Some(e))
      ensures WalkMemo(d, part, doneName, cs, i, target, trouble, elem)
    {
      match part
      case ContextNode(c) =>
        raised, stop, found := false, e == c, Yes;
      case Selects(c) =>
        raised, stop := FilterOne(c.tests, e);
        found := At(e);
    }

    /** One unstamped node of the walk: stamp it if it is an element, and look at it. */
    method Visit(d: Direction, part: Part, doneName: nat, ghost cs: seq<Entry>, isXML: bool,
                 i: nat, ghost target: Option<nat>, ghost trouble: bool, e: nat)
      returns (raised: bool, stop: bool, found: Entry)
      requires Valid() && doneName < done && i < |cs| && e < |tree| && sizcache[e] != doneName
      requires WalkTarget(d, part) && (d.PreviousSibling? ==> tree[e].parent.Some?)
      requires WalkMemo(d, part, doneName, cs, i, target, trouble, Some(e))
      requires Nearest(tree, d, AcceptedBy(tree, part), Some(e)) == target
      requires PartRaises(tree, d, part, Some(e)) ==> trouble
      modifies this`done, sizcache, sizset, nodeIndex
      ensures Valid() && done >= old(done)
      ensures raised <==> ProbeRaises(tree, part, e)
      ensures stop <==> e in AcceptedBy(tree, part)
      ensures stop ==> found == Outcome(part, Some(e))
      ensures WalkMemo(d, part, doneName, cs, i, target, trouble, Go(tree, d, e))
    {
      Stamp(d, part, doneName, cs, isXML, i, target, trouble, e);
      raised, stop, found := false, false, No;
      if IsElement(tree, e) {
        raised, stop, found := Probe(part, e, d, doneName, cs, i, target, trouble, Go(tree, d, e));
      } else {
        SiblingHasParent(tree, e);
      }
    }

    /** The inner loop of `dirCheck`. */
    method WalkToPart(d: Direction, part: Part, doneName: nat, checkSet: array<Entry>, isXML: bool, i: nat)
      returns (raised: bool, found: Entry)
      requires Valid() && doneName < done && i < checkSet.Length
      requires EntriesOk(tree, checkSet[..]) && checkSet[i].At? && WalkTarget(d, part)
      requires Memo(d, part, doneName, checkSet[..], i)
      modifies this`done, sizcache, sizset, nodeIndex
      ensures Valid() && done >= old(done)
      ensures raised <==> PartRaises(tree, d, part, Go(tree, d, checkSet[i].node))
      ensures !raised ==> found == WalkedEntry(tree, d, part, checkSet[i])
      ensures !raised ==>
                WalkMemo(d, part, doneName, checkSet[..], i,
                         Nearest(tree, d, AcceptedBy(tree, part), Go(tree, d, checkSet[i].node)), false, None)
    {
      var elem: Option<nat> := Go(tree, d, checkSet[i].node);
      ghost var cs := checkSet[..];
      ghost var target := Nearest(tree, d, AcceptedBy(tree, part), elem);
      ghost var trouble := PartRaises(tree, d, part, elem);
      raised, found := false, No;
      SiblingHasParent(tree, checkSet[i].node);
      while elem.Some?
        invariant elem.Some? ==> elem.value < |tree|
        invariant elem.Some? && d.PreviousSibling? ==> tree[elem.value].parent.Some?
        invariant Nearest(tree, d, AcceptedBy(tree, part), elem) == target
        invariant PartRaises(tree, d, part, elem) == trouble
        invariant Valid() && done >= old(done)
        invariant WalkMemo(d, part, doneName, cs, i, target, trouble, elem)
        decreases if elem.Some? then elem.value + 1 else 0
      {
        var e := elem.value;
        if sizcache[e] == doneName {
          found := checkSet[sizset[e]];
          WalkMemoEnds(d, part, doneName, cs, i, target, trouble, elem);
          return;
        }
        SiblingHasParent(tree, e);
        PartRaisesStep(tree, d, part, e);
        var raises, stop, hit := Visit(d, part, doneName, cs, isXML, i, target, trouble, e);
        if raises {
          return true, No;
        }
        if stop {
          found := hit;
          WalkMemoEnds(d, part, doneName, cs, i, target, trouble, Go(tree, d, e));
          return;
        }
        elem := Go(tree, d, e);
      }
    }

    /**
     The walk for every other compound.  The filter it calls on the way may stamp
     parents with numbers of its own; those are newer than `doneName`, so stamps of
     this walk get lost but are never mistaken.  Skipping stamped nodes hides no raise.
     */
    method DirCheck(d: Direction, part: Part, doneName: nat, checkSet: array<Entry>, isXML: bool)
      returns (raised: bool)
      requires Valid() && doneName < done && doneName !in sizcache[..]
      requires EntriesOk(tree, checkSet[..]) && WalkTarget(d, part)
      modifies this`done, sizcache, sizset, nodeIndex, checkSet
      ensures Valid() && done >= old(done)
      ensures raised <==> exists j :: 0 <= j < checkSet.Length && old(checkSet[j]).At?
                                      && PartRaises(tree, d, part, Go(tree, d, old(checkSet[j]).node))
      ensures !raised ==> EntriesOk(tree, checkSet[..])
      ensures !raised ==> forall j :: 0 <= j < checkSet.Length ==>
                            checkSet[j] == WalkedEntry(tree, d, part, old(checkSet[j]))
    {
      ghost var cs := checkSet[..];
      var i := 0;
      NothingStamped(d, part, doneName, cs);
      while i < checkSet.Length
        invariant 0 <= i <= checkSet.Length && Valid() && done >= old(done) && EntriesOk(tree, checkSet[..])
        invariant forall j :: i <= j < checkSet.Length ==> checkSet[j] == cs[j]
        invariant forall j :: 0 <= j < i ==> checkSet[j] == WalkedEntry(tree, d, part, cs[j])
        invariant forall j :: 0 <= j < i && cs[j].At? ==> !PartRaises(tree, d, part, Go(tree, d, cs[j].node))
        invariant Memo(d, part, doneName, checkSet[..], i)
      {
        var raises := PartEntry(d, part, doneName, checkSet, isXML, i);
        if raises {
          assert cs[i].At?;
          return true;
        }
        i := i + 1;
      }
      return false;
    }

    /** The body of the loop in `dirCheck`. */
    method PartEntry(d: Direction, part: Part, doneName: nat, checkSet: array<Entry>, isXML: bool, i: nat)
      returns (raised: bool)
      requires Valid() && doneName < done && i < checkSet.Length
      requires EntriesOk(tree, checkSet[..]) && WalkTarget(d, part)
      requires Memo(d, part, doneName, checkSet[..], i)
      modifies this`done, sizcache, sizset, nodeIndex, checkSet
      ensures Valid() && done >= old(done)
      ensures raised <==>
              old(checkSet[i]).At? && PartRaises(tree, d, part, Go(tree, d, old(checkSet[i]).node))
      ensures !raised ==> checkSet[..] == old(checkSet[..])[i := WalkedEntry(tree, d, part, old(checkSet[i]))]
      ensures !raised ==> EntriesOk(tree, checkSet[..]) && Memo(d, part, doneName, checkSet[..], i + 1)
    {
      raised := false;
      ghost var entries := checkSet[..];
      if checkSet[i].At? {
        var found;
        raised, found := WalkToPart(d, part, doneName, checkSet, isXML, i);
        if !raised {
          checkSet[i] := found;
          MemoExtends(d, part, doneName, entries, i, found);
          assert checkSet[..] == entries[i := found];
        }
      } else {
        assert checkSet[..] == entries[i := entries[i]];
      }
    }

    // ---- The four combinators -------------------------------------------------

    /** `Expr.relative[""]` and `Expr.relative["~"]`: a walk under a fresh number. */
    method RelativeWalk(d: Direction, part: Part, checkSet: array<Entry>, isXML: bool) returns (raised: bool)
      requires Valid() && EntriesOk(tree, checkSet[..])
      requires StepOk(tree, Step(if d.ParentNode? then Descendant else General, part))
      modifies this`done, sizcache, sizset, nodeIndex, checkSet
      ensures Valid()
      ensures raised == Throws(tree, Step(if d.ParentNode? then Descendant else General, part), old(checkSet[..]))
      ensures !raised ==> EntriesOk(tree, checkSet[..])
      ensures !raised ==>
                checkSet[..] ==
                Stepped(tree, Step(if d.ParentNode? then Descendant else General, part), old(checkSet[..]))
    {
      var doneName := done;
      done := done + 1;
      WalkThrows(tree, d, part, checkSet[..]);
      if part.Selects? && part.compound.Tag? {
        ghost var visits := DirNodeCheck(d, part.compound.name, doneName, checkSet, isXML);
        raised := false;
      } else {
        raised := DirCheck(d, part, doneName, checkSet, isXML);
      }
    }

    /** The loop of `Expr.relative["+"]` back to the previous element. */
    method PreviousElementLoop(n: nat) returns (elem: Option<nat>)
      requires n < |tree|
      ensures elem == PreviousElementOf(tree, n)
    {
      elem := tree[n].prev;
      assert elem == Go(tree, PreviousSibling, n);
      while elem.Some? && !IsElement(tree, elem.value)
        invariant elem.Some? ==> elem.value < |tree|
        invariant Nearest(tree, PreviousSibling, Elements(tree), elem) == PreviousElementOf(tree, n)
        decreases if elem.Some? then elem.value + 1 else 0
      {
        elem := Go(tree, PreviousSibling, elem.value);
      }
    }

    /** `Expr.relative["+"]`; `raised` stands for an error thrown by a filter. */
    method RelativeAdjacent(part: Part, checkSet: array<Entry>) returns (raised: bool)
      requires Valid() && EntriesOk(tree, checkSet[..]) && Yes !in checkSet[..]
      requires StepOk(tree, Step(Adjacent, part))
      modifies this`done, sizcache, nodeIndex, checkSet
      ensures Valid() && raised == Throws(tree, Step(Adjacent, part), old(checkSet[..]))
      ensures !raised ==> EntriesOk(tree, checkSet[..])
      ensures !raised ==> checkSet[..] == Stepped(tree, Step(Adjacent, part), old(checkSet[..]))
    {
      var step := Step(Adjacent, part);
      ghost var cs := checkSet[..];
      for i := 0 to checkSet.Length
        invariant Valid()
        invariant forall j :: i <= j < checkSet.Length ==> checkSet[j] == cs[j]
        invariant forall j :: 0 <= j < i ==> checkSet[j] == RawEntry(tree, step, cs[j])
      {
        if checkSet[i].At? {
          var elem := PreviousElementLoop(checkSet[i].node);
          match part
          case Selects(c) =>
            checkSet[i] :=
              if elem.Some? && (c.Filter? || tree[elem.value].name == c.name) then At(elem.value) else No;
          case ContextNode(c) =>
            checkSet[i] := if elem == Some(c) then Yes else No;
        }
      }
      assert checkSet[..] == Raw(tree, step, cs);
      raised := FilterRaw(step, cs, checkSet);
    }

    /** `Sizzle.filter(part, checkSet, true)` at the end of "+" and ">", for a part that is no bare tag. */
    method FilterRaw(s: Step, ghost cs: seq<Entry>, checkSet: array<Entry>) returns (raised: bool)
      requires Valid() && EntriesOk(tree, cs) && Yes !in cs && checkSet[..] == Raw(tree, s, cs)
      requires s.combinator.Child? || s.combinator.Adjacent?
      requires TagChild(s) ==> !Throws(tree, s, cs)
      modifies this`done, sizcache, nodeIndex, checkSet
      ensures Valid() && raised == Throws(tree, s, cs)
      ensures !raised ==> EntriesOk(tree, checkSet[..]) && checkSet[..] == Stepped(tree, s, cs)
    {
      raised := false;
      if s.part.Selects? && s.part.compound.Filter? {
        NoYes(tree, s, cs);
        ThrowsInPlace(tree, s, cs);
        raised := FilterInPlace(s.part.compound.tests, checkSet);
        FilterKeepsKinds(LinkOf(tree, s).accepted, Raw(tree, s, cs), tree);
      }
    }

    /** `Expr.relative[">"]`; `raised` stands for the TypeError of `parent.nodeName` or an error thrown by a filter. */
    method RelativeChild(part: Part, checkSet: array<Entry>) returns (raised: bool)
      requires Valid() && EntriesOk(tree, checkSet[..]) && Yes !in checkSet[..]
      requires StepOk(tree, Step(Child, part))
      modifies this`done, sizcache, nodeIndex, checkSet
      ensures Valid() && raised == Throws(tree, Step(Child, part), old(checkSet[..]))
      ensures !raised ==> EntriesOk(tree, checkSet[..])
      ensures !raised ==> checkSet[..] == Stepped(tree, Step(Child, part), old(checkSet[..]))
      ensures !raised && part.Selects? && part.compound.Tag? ==>
                forall j :: 0 <= j < checkSet.Length && old(checkSet[j]).At? ==>
                  && var p := tree[old(checkSet[j]).node].parent;
                     && p.Some? && p.value < |tree|
                     && checkSet[j] == if tree[p.value].name == part.compound.name then At(p.value) else No
    {
      var step := Step(Child, part);
      ghost var cs := checkSet[..];
      for i := 0 to checkSet.Length
        invariant Valid()
        invariant forall j :: i <= j < checkSet.Length ==> checkSet[j] == cs[j]
        invariant forall j :: 0 <= j < i ==> checkSet[j] == RawEntry(tree, step, cs[j])
        invariant part.Selects? && part.compound.Tag? ==>
                    forall j :: 0 <= j < i && cs[j].At? ==> Go(tree, ParentNode, cs[j].node).Some?
      {
        if checkSet[i].At? {
          assert checkSet[i] == cs[i];
          var parent := Go(tree, ParentNode, checkSet[i].node);
          match part
          case Selects(Tag(name)) =>
            if parent.None? {
              assert ThrowsAt(tree, step, cs, i);
              return true;
            }
            checkSet[i] := if tree[parent.value].name == name then At(parent.value) else No;
          case Selects(Filter(_)) =>
            checkSet[i] := if parent.Some? then At(parent.value) else Null;
          case ContextNode(c) =>
            checkSet[i] := if parent == Some(c) then Yes else No;
        }
      }
      assert checkSet[..] == Raw(tree, step, cs);
      raised := FilterRaw(step, cs, checkSet);
    }

    // ---- The query ------------------------------------------------------------

    method Relative(s: Step, checkSet: array<Entry>, isXML: bool) returns (raised: bool)
      requires Valid() && EntriesOk(tree, checkSet[..]) && Yes !in checkSet[..] && StepOk(tree, s)
      modifies this`done, sizcache, sizset, nodeIndex, checkSet
      ensures Valid() && raised == Throws(tree, s, old(checkSet[..]))
      ensures !raised ==> EntriesOk(tree, checkSet[..]) && checkSet[..] == Stepped(tree, s, old(checkSet[..]))
    {
      match s.combinator
      case Descendant => raised := RelativeWalk(ParentNode, s.part, checkSet, isXML);
      case General => raised := RelativeWalk(PreviousSibling, s.part, checkSet, isXML);
      case Adjacent => raised := RelativeAdjacent(s.part, checkSet);
      case Child => raised := RelativeChild(s.part, checkSet);
    }

    /** The final loops over `checkSet`, which stop at `null` as they do at the end. */
    method Collect(context: nat, found: seq<nat>, checkSet: array<Entry>) returns (results: seq<nat>)
      requires context < |tree| && |found| == checkSet.Length && EntriesOk(tree, checkSet[..])
      ensures results == Collected(tree, context, found, checkSet[..])
    {
      results := [];
      var i := 0;
      ghost var cs := checkSet[..];
      while i < checkSet.Length && checkSet[i] != Null
        invariant 0 <= i <= checkSet.Length
        invariant results + Collected(tree, context, found[i..], cs[i..]) == Collected(tree, context, found, cs)
      {
        CollectedStep(tree, context, found, cs, i);
        if Kept(tree, context, checkSet[i]) {
          results := results + [found[i]];
        }
        i := i + 1;
      }
    }

    /**
     `Sizzle` from the point where the candidates `found` for the rightmost
     compound are known.  `steps` lists the rest of the selector right to left;
     the result None is an error thrown on the way.
     */
    method Evaluate(steps: seq<Step>, context: nat, found: seq<nat>, isXML: bool) returns (r: Option<seq<nat>>)
      requires Valid() && context < |tree| && StepsOk(tree, steps)
      requires forall i :: 0 <= i < |steps| && steps[i].part.ContextNode? ==> steps[i].part.node == context
      requires forall i :: 0 <= i < |found| ==> found[i] < |tree|
      modifies this`done, sizcache, sizset, nodeIndex
      ensures Valid()
      ensures r ==
              if !IsContext(tree, context) then Some([])
              else if steps == [] then Some(found)
              else match Run(tree, steps, Candidates(found))
                   case None => None
                   case Some(out) => Some(Collected(tree, context, found, out))
      ensures tree[context].kind.OtherNode? ==> r == Some([])
      ensures !tree[context].kind.OtherNode? && steps == [] ==> r == Some(found)
      ensures steps != [] && r.Some? ==>
                forall n :: n in r.value ==> n in found && QueryMatches(tree, steps, context, n)
      ensures steps != [] && r.Some? ==>
                forall n :: n in r.value ==> exists ws :: Witnesses(tree, steps, context, ws) && ws[0] == n
      ensures steps != [] && r.Some? && StrictlySorted(found) ==> StrictlySorted(r.value)
      ensures steps != [] && PlainQuery(tree, steps, context, found) ==>
                r.Some? && forall n :: n in found && QueryMatches(tree, steps, context, n) ==> n in r.value
    {
      if !IsContext(tree, context) {
        return Some([]);
      }
      if steps == [] {
        return Some(found);
      }
      QueryAnswer(tree, steps, context, found);
      if StrictlySorted(found) && Run(tree, steps, Candidates(found)).Some? {
        ResultsInOrder(tree, steps, context, found);
      }
      var checkSet := new Entry[|found|](i requires 0 <= i < |found| => At(found[i]));
      assert checkSet[..] == Candidates(found);
      ghost var all := Run(tree, steps, checkSet[..]);
      for k := 0 to |steps|
        invariant Valid() && EntriesOk(tree, checkSet[..])
        invariant k < |steps| ==> Yes !in checkSet[..]
        invariant Run(tree, steps[k..], checkSet[..]) == all
      {
        ghost var before := checkSet[..];
        assert steps[k..][0] == steps[k] && steps[k..][1..] == steps[k + 1..];
        var raised := Relative(steps[k], checkSet, isXML);
        if raised {
          return None;
        }
        if k + 1 < |steps| {
          SteppedNoYes(tree, steps[k], before);
        }
      }
      var results := Collect(context, found, checkSet);
      forall n | n in results ensures exists ws :: Witnesses(tree, steps, context, ws) && ws[0] == n {
        MatchesSpelledOut(tree, steps, context, n);
      }
      return Some(results);
    }
  }
}
