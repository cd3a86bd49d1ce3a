/**
 A selector query as the engine runs it: an array of entries, one per candidate,
 stepped right to left and read back at the end
 (debian/missing-sources/jquery.js:2596-2654, 2824-2896).
 */
module Query {
  import opened Wrappers
  import opened Dom
  import opened Combinators
  import opened NthChild

  /**
   A simple selector: an id, class, attribute or pseudo test, given by the nodes it
   passes and the nodes on which it raises instead of answering, or an nth-child.
   */
  datatype Test = Passing(nodes: set<nat>, raising: set<nat>) | Nth(first: int, last: int)

  /** A bare tag name is compared by nodeName; every other compound goes through the filters. */
  datatype Compound = Tag(name: string) | Filter(tests: seq<Test>)

  /** The left-hand side of a combinator: a compound, or the context of a leading combinator. */
  datatype Part = Selects(compound: Compound) | ContextNode(node: nat)

  datatype Step = Step(combinator: Combinator, part: Part)

  /** What an element of `checkSet` may hold: a node, `true`, `false` or `null`. */
  datatype Entry = At(node: nat) | Yes | No | Null

  ghost predicate TestHolds(t: Tree, test: Test, n: nat)
    requires n < |t|
  {
    match test
    case Passing(nodes, raising) => n in nodes && n !in raising
    case Nth(first, last) => IsNthChild(t, n, first, last)
  }

  predicate TestRaises(test: Test, n: nat) {
    test.Passing? && n in test.raising
  }

  ghost predicate Accepts(t: Tree, c: Compound, n: nat)
    requires n < |t|
  {
    match c
    case Tag(name) => t[n].name == name
    case Filter(tests) => forall i :: 0 <= i < |tests| ==> TestHolds(t, tests[i], n)
  }

  ghost function AcceptSet(t: Tree, c: Compound): set<nat> {
    set n: nat | 0 <= n < |t| && Accepts(t, c, n)
  }

  /** The filters are put to a node one after the other for as long as it passes; one of them raises. */
  ghost predicate FiltersRaise(t: Tree, tests: seq<Test>, n: nat)
    requires n < |t|
  {
    exists k :: 0 <= k < |tests| && TestRaises(tests[k], n) && Accepts(t, Filter(tests[..k]), n)
  }

  lemma RaisingNotAccepted(t: Tree, tests: seq<Test>, n: nat)
    requires n < |t| && FiltersRaise(t, tests, n)
    ensures !Accepts(t, Filter(tests), n)
  {
  }

  /**
   The nodes a step can keep.  Walks put only elements to the filters; the child step
   puts whatever the parent is, a document included.
   */
  ghost function LinkOf(t: Tree, s: Step): Link {
    Link(s.combinator,
      match s.part
      case ContextNode(c) => {c}
      case Selects(Filter(tests)) =>
        if s.combinator.Descendant? || s.combinator.General?
        then AcceptSet(t, Filter(tests)) * Elements(t)
        else AcceptSet(t, Filter(tests))
      case Selects(c) => AcceptSet(t, c))
  }

  /** What the selector means: compounds select elements only. */
  ghost function DeclaredLink(t: Tree, s: Step): Link {
    Link(s.combinator,
      match s.part case Selects(c) => AcceptSet(t, c) * Elements(t) case ContextNode(c) => {c})
  }

  ghost function DeclaredOf(t: Tree, steps: seq<Step>): (links: seq<Link>)
    ensures |links| == |steps|
  {
    seq(|steps|, i requires 0 <= i < |steps| => DeclaredLink(t, steps[i]))
  }

  ghost function LinksOf(t: Tree, steps: seq<Step>): (links: seq<Link>)
    ensures |links| == |steps|
  {
    seq(|steps|, i requires 0 <= i < |steps| => LinkOf(t, steps[i]))
  }

  /** A query can start from an element or a document. */
  predicate IsContext(t: seq<NodeInfo>, c: nat) {
    c < |t| && !t[c].kind.OtherNode?
  }

  /** Only elements bear a name that a bare tag can spell. */
  ghost predicate StepOk(t: Tree, s: Step) {
    match s.part
    case Selects(c) => c.Tag? ==> AcceptSet(t, c) <= Elements(t)
    case ContextNode(c) => IsContext(t, c) && !s.combinator.Descendant?
  }

  /** The context can stand only at the left end, and never left of a blank. */
  ghost predicate StepsOk(t: Tree, steps: seq<Step>) {
    forall i :: 0 <= i < |steps| ==>
      StepOk(t, steps[i]) && (steps[i].part.ContextNode? ==> i == |steps| - 1)
  }

  predicate EntriesOk(t: seq<NodeInfo>, cs: seq<Entry>) {
    forall i :: 0 <= i < |cs| ==> cs[i].At? ==> cs[i].node < |t|
  }

  predicate Filtered(s: Step) {
    && (s.combinator.Child? || s.combinator.Adjacent?)
    && s.part.Selects? && s.part.compound.Filter?
  }

  function PreviousElementOf(t: Tree, n: nat): (p: Option<nat>)
    requires n < |t|
    ensures p.Some? ==> p.value < |t|
  {
    Nearest(t, PreviousSibling, Elements(t), Go(t, PreviousSibling, n))
  }

  ghost function Walked(t: Tree, s: Step, n: nat): (e: Entry)
    requires n < |t|
    ensures e.At? ==> e.node < |t|
  {
    var w := Pick(t, LinkOf(t, s), n);
    if w.None? then No else if s.part.ContextNode? then Yes else At(w.value)
  }

  /** A walk puts each element it meets to the filters, up to the first that passes; one of them raises. */
  ghost predicate WalkRaises(t: Tree, d: Direction, tests: seq<Test>, from: Option<nat>)
    requires from.Some? ==> from.value < |t|
    decreases if from.Some? then from.value + 1 else 0
  {
    && from.Some?
    && ((IsElement(t, from.value) && FiltersRaise(t, tests, from.value))
        || (from.value !in AcceptSet(t, Filter(tests)) * Elements(t)
            && WalkRaises(t, d, tests, Go(t, d, from.value))))
  }

  /** The filters raise on some element on the way to the node at which the walk would stop. */
  lemma {:induction false} WalkRaisesExact(t: Tree, d: Direction, tests: seq<Test>, a: nat)
    requires a < |t|
    ensures var w := Nearest(t, d, AcceptSet(t, Filter(tests)) * Elements(t), Some(a));
            WalkRaises(t, d, tests, Some(a)) <==>
            exists x: nat :: x < |t| && IsElement(t, x) && FiltersRaise(t, tests, x)
                        && Reaches(t, d, a, x) && (w.Some? ==> Reaches(t, d, x, w.value))
    decreases a
  {
    var accepted := AcceptSet(t, Filter(tests)) * Elements(t);
    var w := Nearest(t, d, accepted, Some(a));
    NearestIsNearest(t, d, accepted, a);
    if IsElement(t, a) && FiltersRaise(t, tests, a) {
      assert Reaches(t, d, a, a);
    } else if a in accepted {
      forall x: nat | x < |t| && FiltersRaise(t, tests, x) && Reaches(t, d, a, x)
        ensures !Reaches(t, d, x, a)
      {
        RaisingNotAccepted(t, tests, x);
        ReachesBound(t, d, a, x);
        if Reaches(t, d, x, a) {
          ReachesBound(t, d, x, a);
        }
      }
    } else if Go(t, d, a).Some? {
      WalkRaisesExact(t, d, tests, Go(t, d, a).value);
    }
  }

  /** An entry right after the combinator's own loop, before the in-place filter. */
  ghost function RawEntry(t: Tree, s: Step, e: Entry): (r: Entry)
    requires e.At? ==> e.node < |t|
    ensures r.At? ==> r.node < |t|
  {
    if !e.At? then e
    else if !Filtered(s) then Walked(t, s, e.node)
    else if s.combinator.Child? then
      var p := Go(t, ParentNode, e.node);
      if p.None? then Null else At(p.value)
    else
      var p := PreviousElementOf(t, e.node);
      if p.None? then No else At(p.value)
  }

  ghost function FilterEntry(accepted: set<nat>, e: Entry): Entry {
    if e.At? && e.node !in accepted then No else e
  }

  /** The in-place filter stops at the first `null`. */
  ghost function FilterSeq(accepted: set<nat>, cs: seq<Entry>): (r: seq<Entry>)
    ensures |r| == |cs|
  {
    seq(|cs|, i requires 0 <= i < |cs| =>
      if Null in cs[..i] then cs[i] else FilterEntry(accepted, cs[i]))
  }

  ghost function Raw(t: Tree, s: Step, cs: seq<Entry>): (r: seq<Entry>)
    requires EntriesOk(t, cs)
    ensures |r| == |cs| && EntriesOk(t, r)
  {
    seq(|cs|, i requires 0 <= i < |cs| => RawEntry(t, s, cs[i]))
  }

  ghost function Stepped(t: Tree, s: Step, cs: seq<Entry>): (r: seq<Entry>)
    requires EntriesOk(t, cs)
    ensures |r| == |cs| && EntriesOk(t, r)
  {
    if Filtered(s) then FilterSeq(LinkOf(t, s).accepted, Raw(t, s, cs)) else Raw(t, s, cs)
  }

  /** A child step on a bare tag name or on a filtered compound. */
  predicate TagChild(s: Step) {
    s.combinator.Child? && s.part.Selects? && s.part.compound.Tag?
  }

  predicate FilteredChild(s: Step) {
    s.combinator.Child? && s.part.Selects? && s.part.compound.Filter?
  }

  /** Step `s` raises on node `n`: it asks a missing parent for its name, or puts a node to filters that raise. */
  ghost predicate StepRaises(t: Tree, s: Step, n: nat)
    requires n < |t|
  {
    match s.part
    case ContextNode(_) => false
    case Selects(Tag(_)) => s.combinator.Child? && Go(t, ParentNode, n).None?
    case Selects(Filter(tests)) =>
      match s.combinator
      case Descendant => WalkRaises(t, ParentNode, tests, Go(t, ParentNode, n))
      case General => WalkRaises(t, PreviousSibling, tests, Go(t, PreviousSibling, n))
      case Child =>
        var p := Go(t, ParentNode, n);
        p.Some? && FiltersRaise(t, tests, p.value)
      case Adjacent =>
        var p := PreviousElementOf(t, n);
        p.Some? && FiltersRaise(t, tests, p.value)
  }

  /** The entry at `i` makes the step raise; filters in place are put to entries in front of the first `null` only. */
  ghost predicate ThrowsAt(t: Tree, s: Step, cs: seq<Entry>, i: nat)
    requires EntriesOk(t, cs) && i < |cs|
  {
    cs[i].At? && StepRaises(t, s, cs[i].node) && (Filtered(s) ==> Null !in Raw(t, s, cs)[..i])
  }

  ghost predicate Throws(t: Tree, s: Step, cs: seq<Entry>)
    requires EntriesOk(t, cs)
  {
    exists i :: 0 <= i < |cs| && ThrowsAt(t, s, cs, i)
  }

  /** The whole array after all steps; None if a step raised. */
  ghost function Run(t: Tree, steps: seq<Step>, cs: seq<Entry>): (r: Option<seq<Entry>>)
    requires EntriesOk(t, cs)
    ensures r.Some? ==> |r.value| == |cs| && EntriesOk(t, r.value)
  {
    if steps == [] then Some(cs)
    else if Throws(t, steps[0], cs) then None
    else Run(t, steps[1..], Stepped(t, steps[0], cs))
  }

  function Candidates(found: seq<nat>): (cs: seq<Entry>)
    ensures |cs| == |found|
  {
    seq(|found|, i requires 0 <= i < |found| => At(found[i]))
  }

  /** The test the final loops put to an entry that is not `null`. */
  predicate Kept(t: Tree, context: nat, e: Entry)
    requires context < |t| && (e.At? ==> e.node < |t|)
  {
    if IsElement(t, context) then e.Yes? || (e.At? && IsElement(t, e.node) && Contains(t, context, e.node))
    else e.At? && IsElement(t, e.node)
  }

  /** The final loops: candidates whose entry is kept, up to the first `null`. */
  ghost function Collected(t: Tree, context: nat, found: seq<nat>, cs: seq<Entry>): seq<nat>
    requires |found| == |cs| && context < |t| && EntriesOk(t, cs)
  {
    if cs == [] || cs[0].Null? then []
    else (if Kept(t, context, cs[0]) then [found[0]] else []) + Collected(t, context, found[1..], cs[1..])
  }

  // ---- One candidate at a time ----------------------------------------------

  ghost function StepEntry(t: Tree, s: Step, e: Entry): (r: Entry)
    requires e.At? ==> e.node < |t|
    ensures r.At? ==> r.node < |t|
  {
    if !e.At? then e
    else if Filtered(s) && s.combinator.Child? && Go(t, ParentNode, e.node).None? then Null
    else Walked(t, s, e.node)
  }

  ghost function RunEntry(t: Tree, steps: seq<Step>, e: Entry): (r: Entry)
    requires e.At? ==> e.node < |t|
    ensures r.At? ==> r.node < |t|
  {
    if steps == [] then e else RunEntry(t, steps[1..], StepEntry(t, steps[0], e))
  }

  /** Behind a `null` an entry misses the filter; in front of it each entry is on its own. */
  lemma SteppedPointwise(t: Tree, s: Step, cs: seq<Entry>, i: nat)
    requires EntriesOk(t, cs) && i < |cs|
    ensures cs[i].Null? ==> Stepped(t, s, cs)[i].Null?
    ensures Stepped(t, s, cs)[i] ==
            if Null in Stepped(t, s, cs)[..i] then RawEntry(t, s, cs[i]) else StepEntry(t, s, cs[i])
  {
    var raw := Raw(t, s, cs);
    if Filtered(s) {
      SameNulls(LinkOf(t, s).accepted, raw, i);
    }
  }

  /** The null entries of a filtered array are those it started with. */
  lemma SameNulls(accepted: set<nat>, cs: seq<Entry>, i: nat)
    requires i <= |cs|
    ensures Null in FilterSeq(accepted, cs)[..i] <==> Null in cs[..i]
  {
    var r := FilterSeq(accepted, cs);
    if Null in r[..i] {
      var j :| 0 <= j < i && r[j] == Null;
      assert cs[..i][j] == Null;
    }
    if Null in cs[..i] {
      var j :| 0 <= j < i && cs[j] == Null;
      assert r[..i][j] == Null;
    }
  }

  lemma {:induction false} RunPointwise(t: Tree, steps: seq<Step>, cs: seq<Entry>, i: nat)
    requires EntriesOk(t, cs) && i < |cs| && Run(t, steps, cs).Some?
    ensures cs[i].Null? ==> Run(t, steps, cs).value[i].Null?
    ensures Null !in Run(t, steps, cs).value[..i] ==>
              Run(t, steps, cs).value[i] == RunEntry(t, steps, cs[i])
    decreases |steps|, i
  {
    if steps != [] {
      var next := Stepped(t, steps[0], cs);
      var out := Run(t, steps, cs).value;
      SteppedPointwise(t, steps[0], cs, i);
      RunPointwise(t, steps[1..], next, i);
      if Null in next[..i] {
        var j :| 0 <= j < i && next[j] == Null;
        RunPointwise(t, steps[1..], next, j);
        assert out[..i][j] == Null;
      }
    }
  }

  predicate Leading(steps: seq<Step>) {
    steps != [] && steps[|steps| - 1].part.ContextNode?
  }

  lemma StepsTail(t: Tree, steps: seq<Step>)
    requires steps != []
    ensures LinksOf(t, steps)[1..] == LinksOf(t, steps[1..])
    ensures DeclaredOf(t, steps)[1..] == DeclaredOf(t, steps[1..])
    ensures StepsOk(t, steps) ==> StepsOk(t, steps[1..])
  {
    assert forall i :: 0 <= i < |steps[1..]| ==> steps[1..][i] == steps[i + 1];
  }

  lemma {:induction false} RunEntrySettled(t: Tree, steps: seq<Step>, e: Entry)
    requires !e.At?
    ensures RunEntry(t, steps, e) == e
    decreases |steps|
  {
    if steps != [] {
      RunEntrySettled(t, steps[1..], e);
    }
  }

  /** One entry's run is the one-witness evaluation of its candidate. */
  lemma {:induction false} RunEntryIsGreedy(t: Tree, steps: seq<Step>, n: nat)
    requires n < |t| && StepsOk(t, steps)
    ensures var e, g := RunEntry(t, steps, At(n)), Greedy(t, LinksOf(t, steps), n);
            match e
            case At(w) => !Leading(steps) && g == Some(w)
            case Yes => Leading(steps) && g.Some?
            case _ => g == None
    decreases |steps|
  {
    if steps != [] {
      StepsTail(t, steps);
      var e := StepEntry(t, steps[0], At(n));
      if e.At? {
        RunEntryIsGreedy(t, steps[1..], e.node);
      } else {
        RunEntrySettled(t, steps[1..], e);
      }
    }
  }

  // ---- Walks that run out of parents ------------------------------------------

  /** The witness kept for a candidate after the first `j` steps. */
  ghost function KeptAfter(t: Tree, steps: seq<Step>, n: nat, j: nat): (w: Option<nat>)
    requires n < |t| && j <= |steps|
    ensures w.Some? ==> w.value < |t|
  {
    Greedy(t, LinksOf(t, steps[..j]), n)
  }

  /** Step `j` is put to a kept witness that has no parent. */
  ghost predicate AtRoot(t: Tree, steps: seq<Step>, n: nat, j: nat)
    requires n < |t| && j < |steps|
  {
    var w := KeptAfter(t, steps, n, j);
    w.Some? && Go(t, ParentNode, w.value).None?
  }

  /** Some filtered child step asks for the parent of a witness that has none. */
  ghost predicate LeavesTree(t: Tree, steps: seq<Step>, n: nat)
    requires n < |t|
  {
    exists j :: 0 <= j < |steps| && FilteredChild(steps[j]) && AtRoot(t, steps, n, j)
  }

  /** Step `j` raises on the witness kept when it comes. */
  ghost predicate RaisesOnAt(t: Tree, steps: seq<Step>, n: nat, j: nat)
    requires n < |t| && j < |steps|
  {
    var w := KeptAfter(t, steps, n, j);
    w.Some? && StepRaises(t, steps[j], w.value)
  }

  ghost predicate RaisesOn(t: Tree, steps: seq<Step>, n: nat)
    requires n < |t|
  {
    exists j :: 0 <= j < |steps| && RaisesOnAt(t, steps, n, j)
  }

  /** Some child step, filtered or on a tag name, asks for a parent that is not there. */
  ghost predicate MeetsRoot(t: Tree, steps: seq<Step>, n: nat)
    requires n < |t|
  {
    exists j :: 0 <= j < |steps| && (FilteredChild(steps[j]) || TagChild(steps[j])) && AtRoot(t, steps, n, j)
  }

  lemma KeptAfterStep(t: Tree, steps: seq<Step>, n: nat, j: nat)
    requires n < |t| && 0 < j <= |steps|
    ensures KeptAfter(t, steps, n, j) ==
            var w := Pick(t, LinkOf(t, steps[0]), n);
            if w.None? then None else KeptAfter(t, steps[1..], w.value, j - 1)
  {
    assert steps[..j][1..] == steps[1..][..j - 1];
    StepsTail(t, steps[..j]);
  }

  /** An entry ends as `null` exactly when its candidate's walk leaves the tree. */
  lemma {:induction false} LeavesTreeExact(t: Tree, steps: seq<Step>, n: nat)
    requires n < |t| && StepsOk(t, steps)
    ensures RunEntry(t, steps, At(n)) == Null <==> LeavesTree(t, steps, n)
    decreases |steps|
  {
    if steps != [] {
      StepsTail(t, steps);
      var e := StepEntry(t, steps[0], At(n));
      assert steps[..0] == [];
      forall j | 0 < j < |steps|
        ensures steps[1..][j - 1] == steps[j]
        ensures AtRoot(t, steps, n, j) <==> e.At? && AtRoot(t, steps[1..], e.node, j - 1)
      {
        KeptAfterStep(t, steps, n, j);
      }
      if e.At? {
        LeavesTreeExact(t, steps[1..], e.node);
        LeavesLater(t, steps, n, e.node);
      } else {
        RunEntrySettled(t, steps[1..], e);
        if e.Null? {
          assert FilteredChild(steps[0]) && AtRoot(t, steps, n, 0);
        }
      }
    }
  }

  lemma LeavesLater(t: Tree, steps: seq<Step>, n: nat, w: nat)
    requires n < |t| && w < |t| && steps != [] && StepEntry(t, steps[0], At(n)) == At(w)
    ensures LeavesTree(t, steps, n) <==> LeavesTree(t, steps[1..], w)
  {
    forall j | 0 < j < |steps|
      ensures AtRoot(t, steps, n, j) <==> AtRoot(t, steps[1..], w, j - 1)
    {
      KeptAfterStep(t, steps, n, j);
    }
    if LeavesTree(t, steps, n) {
      var j :| 0 <= j < |steps| && FilteredChild(steps[j]) && AtRoot(t, steps, n, j);
      assert steps[..0] == [];
      assert j > 0 && steps[1..][j - 1] == steps[j];
    }
    if LeavesTree(t, steps[1..], w) {
      var j :| 0 <= j < |steps[1..]| && FilteredChild(steps[1..][j]) && AtRoot(t, steps[1..], w, j);
      assert steps[j + 1] == steps[1..][j] && AtRoot(t, steps, n, j + 1);
    }
  }

  // ---- When the query raises --------------------------------------------------

  /** Every entry one step on, each on its own. */
  ghost function Apart(t: Tree, s: Step, cs: seq<Entry>): (r: seq<Entry>)
    requires EntriesOk(t, cs)
    ensures |r| == |cs| && EntriesOk(t, r)
  {
    seq(|cs|, i requires 0 <= i < |cs| => StepEntry(t, s, cs[i]))
  }

  /** How many steps pass before some entry in front of position `i` becomes `null`. */
  ghost function ClearSteps(t: Tree, steps: seq<Step>, cs: seq<Entry>, i: nat): (m: nat)
    requires EntriesOk(t, cs) && i <= |cs|
    decreases |steps|
  {
    if steps == [] || Null in Apart(t, steps[0], cs)[..i] then 0
    else 1 + ClearSteps(t, steps[1..], Apart(t, steps[0], cs), i)
  }

  /** An entry's run when the filters reach it during the first `clear` steps only. */
  ghost function Drift(t: Tree, steps: seq<Step>, e: Entry, clear: nat): (r: Entry)
    requires e.At? ==> e.node < |t|
    ensures r.At? ==> r.node < |t|
    decreases |steps|
  {
    if steps == [] then e
    else if clear == 0 then Drift(t, steps[1..], RawEntry(t, steps[0], e), 0)
    else Drift(t, steps[1..], StepEntry(t, steps[0], e), clear - 1)
  }

  /** What the entry at `i` holds when step `j` comes. */
  ghost function HeldAt(t: Tree, steps: seq<Step>, cs: seq<Entry>, i: nat, j: nat): (e: Entry)
    requires EntriesOk(t, cs) && i < |cs| && j < |steps|
    ensures e.At? ==> e.node < |t|
  {
    Drift(t, steps[..j], cs[i], ClearSteps(t, steps, cs, i))
  }

  /** Step `j` raises on it. */
  ghost predicate RaisesAt(t: Tree, steps: seq<Step>, cs: seq<Entry>, i: nat, j: nat)
    requires EntriesOk(t, cs) && i < |cs| && j < |steps|
  {
    var e := HeldAt(t, steps, cs, i, j);
    e.At? && StepRaises(t, steps[j], e.node) && (Filtered(steps[j]) ==> j < ClearSteps(t, steps, cs, i))
  }

  ghost predicate Raises(t: Tree, steps: seq<Step>, cs: seq<Entry>)
    requires EntriesOk(t, cs)
  {
    exists i, j :: 0 <= i < |cs| && 0 <= j < |steps| && RaisesAt(t, steps, cs, i, j)
  }

  lemma FrontStep(s: seq<Entry>, i: nat)
    requires 0 < i <= |s|
    ensures s[..i] == s[..i - 1] + [s[i - 1]]
    ensures Null in s[..i] <==> Null in s[..i - 1] || s[i - 1] == Null
  {
    assert s[..i] == s[..i - 1] + [s[i - 1]];
  }

  lemma {:induction false} NullInFront(t: Tree, s: Step, cs: seq<Entry>, i: nat)
    requires EntriesOk(t, cs) && i <= |cs|
    ensures Null in Stepped(t, s, cs)[..i] <==> Null in Apart(t, s, cs)[..i]
    ensures Null !in Apart(t, s, cs)[..i] ==> Stepped(t, s, cs)[..i] == Apart(t, s, cs)[..i]
    decreases i
  {
    if i > 0 {
      NullInFront(t, s, cs, i - 1);
      SteppedPointwise(t, s, cs, i - 1);
      FrontStep(Stepped(t, s, cs), i);
      FrontStep(Apart(t, s, cs), i);
    }
  }

  lemma {:induction false} ClearStepsPrefix(t: Tree, steps: seq<Step>, a: seq<Entry>, b: seq<Entry>, i: nat)
    requires EntriesOk(t, a) && EntriesOk(t, b) && i <= |a| && i <= |b| && a[..i] == b[..i]
    ensures ClearSteps(t, steps, a, i) == ClearSteps(t, steps, b, i)
    decreases |steps|
  {
    if steps != [] {
      var p, q := Apart(t, steps[0], a), Apart(t, steps[0], b);
      forall k | 0 <= k < i ensures p[k] == q[k] {
        assert a[k] == a[..i][k] && b[k] == b[..i][k];
      }
      assert p[..i] == q[..i];
      ClearStepsPrefix(t, steps[1..], p, q, i);
    }
  }

  /** The count in terms of single runs: no entry in front is `null` after `m` steps. */
  lemma {:induction false} ClearStepsExact(t: Tree, steps: seq<Step>, cs: seq<Entry>, i: nat, m: nat)
    requires EntriesOk(t, cs) && i <= |cs| && 0 < m <= |steps|
    ensures m <= ClearSteps(t, steps, cs, i) <==>
            forall k :: 0 <= k < i ==> RunEntry(t, steps[..m], cs[k]) != Null
    decreases m
  {
    var next := Apart(t, steps[0], cs);
    forall k | 0 <= k < i
      ensures RunEntry(t, steps[..m], cs[k]) == RunEntry(t, steps[1..][..m - 1], next[k])
      ensures next[k] == next[..i][k]
    {
      assert steps[..m][1..] == steps[1..][..m - 1];
    }
    if m > 1 {
      ClearStepsExact(t, steps[1..], next, i, m - 1);
    }
    if Null in next[..i] {
      var k :| 0 <= k < i && next[k] == Null;
      RunEntrySettled(t, steps[1..][..m - 1], Null);
    }
  }

  lemma ClearStepsStep(t: Tree, steps: seq<Step>, cs: seq<Entry>, i: nat)
    requires EntriesOk(t, cs) && i < |cs| && steps != []
    ensures var c, next := ClearSteps(t, steps, cs, i), Stepped(t, steps[0], cs);
            && ClearSteps(t, steps[1..], next, i) == (if c == 0 then 0 else c - 1)
            && next[i] == if c == 0 then RawEntry(t, steps[0], cs[i]) else StepEntry(t, steps[0], cs[i])
  {
    var next, apart := Stepped(t, steps[0], cs), Apart(t, steps[0], cs);
    NullInFront(t, steps[0], cs, i);
    SteppedPointwise(t, steps[0], cs, i);
    if Null in apart[..i] {
      var k :| 0 <= k < i && next[k] == Null;
      if |steps| > 1 {
        assert Apart(t, steps[1..][0], next)[..i][k] == Null;
      }
    } else {
      ClearStepsPrefix(t, steps[1..], next, apart, i);
    }
  }

  lemma DriftStep(t: Tree, steps: seq<Step>, e: Entry, clear: nat, j: nat)
    requires (e.At? ==> e.node < |t|) && 0 < j <= |steps|
    ensures Drift(t, steps[..j], e, clear) ==
            Drift(t, steps[1..][..j - 1], if clear == 0 then RawEntry(t, steps[0], e) else StepEntry(t, steps[0], e),
                  if clear == 0 then 0 else clear - 1)
  {
    assert steps[..j][1..] == steps[1..][..j - 1];
  }

  lemma HeldLater(t: Tree, steps: seq<Step>, cs: seq<Entry>, i: nat, j: nat)
    requires EntriesOk(t, cs) && i < |cs| && 0 < j < |steps|
    ensures var next := Stepped(t, steps[0], cs);
            && HeldAt(t, steps, cs, i, j) == HeldAt(t, steps[1..], next, i, j - 1)
            && (j < ClearSteps(t, steps, cs, i) <==> j - 1 < ClearSteps(t, steps[1..], next, i))
  {
    ClearStepsStep(t, steps, cs, i);
    DriftStep(t, steps, cs[i], ClearSteps(t, steps, cs, i), j);
  }

  lemma RaisesLater(t: Tree, steps: seq<Step>, cs: seq<Entry>, i: nat, j: nat)
    requires EntriesOk(t, cs) && i < |cs| && 0 < j < |steps|
    ensures RaisesAt(t, steps, cs, i, j) <==>
            RaisesAt(t, steps[1..], Stepped(t, steps[0], cs), i, j - 1)
  {
    HeldLater(t, steps, cs, i, j);
  }

  lemma RaisesNow(t: Tree, steps: seq<Step>, cs: seq<Entry>, i: nat)
    requires EntriesOk(t, cs) && i < |cs| && steps != []
    ensures RaisesAt(t, steps, cs, i, 0) <==> ThrowsAt(t, steps[0], cs, i)
  {
    assert steps[..0] == [];
    var raw, apart := Raw(t, steps[0], cs), Apart(t, steps[0], cs);
    forall k | 0 <= k < i ensures raw[..i][k] == Null <==> apart[..i][k] == Null {
    }
    if Null in raw[..i] {
      var k :| 0 <= k < i && raw[..i][k] == Null;
      assert apart[..i][k] == Null;
    }
    if Null in apart[..i] {
      var k :| 0 <= k < i && apart[..i][k] == Null;
      assert raw[..i][k] == Null;
    }
  }

  lemma RaisesEarlier(t: Tree, steps: seq<Step>, cs: seq<Entry>)
    requires EntriesOk(t, cs) && steps != [] && Raises(t, steps[1..], Stepped(t, steps[0], cs))
    ensures Raises(t, steps, cs)
  {
    var next := Stepped(t, steps[0], cs);
    var i, j :| 0 <= i < |next| && 0 <= j < |steps[1..]| && RaisesAt(t, steps[1..], next, i, j);
    RaisesLater(t, steps, cs, i, j + 1);
  }

  lemma RaisesAfter(t: Tree, steps: seq<Step>, cs: seq<Entry>)
    requires EntriesOk(t, cs) && steps != [] && !Throws(t, steps[0], cs) && Raises(t, steps, cs)
    ensures Raises(t, steps[1..], Stepped(t, steps[0], cs))
  {
    var i, j :| 0 <= i < |cs| && 0 <= j < |steps| && RaisesAt(t, steps, cs, i, j);
    RaisesNow(t, steps, cs, i);
    RaisesLater(t, steps, cs, i, j);
  }

  /** The query raises exactly when some step raises on what some entry holds by then. */
  lemma {:induction false} RaisesExact(t: Tree, steps: seq<Step>, cs: seq<Entry>)
    requires EntriesOk(t, cs)
    ensures Run(t, steps, cs) == None <==> Raises(t, steps, cs)
    decreases |steps|
  {
    if steps != [] {
      if Throws(t, steps[0], cs) {
        var i :| 0 <= i < |cs| && ThrowsAt(t, steps[0], cs, i);
        RaisesNow(t, steps, cs, i);
      } else {
        RaisesExact(t, steps[1..], Stepped(t, steps[0], cs));
        if Raises(t, steps, cs) {
          RaisesAfter(t, steps, cs);
        } else if Raises(t, steps[1..], Stepped(t, steps[0], cs)) {
          RaisesEarlier(t, steps, cs);
        }
      }
    }
  }

  // ---- What an entry holds, in terms of witnesses -----------------------------

  /** Behind a `null` the in-place filters are not reached: any parent, any previous element is kept. */
  ghost function LooseLink(t: Tree, s: Step): Link {
    if Filtered(s) then Link(s.combinator, AcceptSet(t, Filter([]))) else LinkOf(t, s)
  }

  /** The links by which an entry goes when the filters reach it during the first `clear` steps only. */
  ghost function HeldLinks(t: Tree, steps: seq<Step>, clear: nat): (links: seq<Link>)
    ensures |links| == |steps|
  {
    seq(|steps|, i requires 0 <= i < |steps| =>
      if i < clear then LinkOf(t, steps[i]) else LooseLink(t, steps[i]))
  }

  lemma HeldTail(t: Tree, steps: seq<Step>, clear: nat)
    requires steps != []
    ensures HeldLinks(t, steps, clear)[1..] == HeldLinks(t, steps[1..], if clear == 0 then 0 else clear - 1)
  {
    assert forall i :: 0 <= i < |steps[1..]| ==> steps[1..][i] == steps[i + 1];
  }

  /** An entry that the filters reach no more goes on as a one-witness evaluation too, by the loose links. */
  lemma {:induction false} DriftIsGreedy(t: Tree, steps: seq<Step>, n: nat, clear: nat)
    requires n < |t| && StepsOk(t, steps)
    ensures var e, g := Drift(t, steps, At(n), clear), Greedy(t, HeldLinks(t, steps, clear), n);
            match e
            case At(w) => !Leading(steps) && g == Some(w)
            case Yes => Leading(steps) && g.Some?
            case _ => g == None
    decreases |steps|
  {
    if steps != [] {
      StepsTail(t, steps);
      HeldTail(t, steps, clear);
      var e := if clear == 0 then RawEntry(t, steps[0], At(n)) else StepEntry(t, steps[0], At(n));
      var left := if clear == 0 then 0 else clear - 1;
      if e.At? {
        DriftIsGreedy(t, steps[1..], e.node, left);
      } else {
        DriftSettled(t, steps[1..], e, left);
      }
    }
  }

  lemma {:induction false} DriftSettled(t: Tree, steps: seq<Step>, e: Entry, clear: nat)
    requires !e.At?
    ensures Drift(t, steps, e, clear) == e
    decreases |steps|
  {
    if steps != [] {
      DriftSettled(t, steps[1..], e, if clear == 0 then 0 else clear - 1);
    }
  }
}
