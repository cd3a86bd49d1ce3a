/**
 Removing duplicates from result arrays in place: `Sizzle.uniqueSort`
 (debian/missing-sources/jquery.js:2664-2679, 3259-3272) and the splice loop of
 `jQuery.fn.find` (3618-3639).  A node is its position in document order.
 */
module ResultSets {
  ghost predicate Sorted(s: seq<nat>) {
    forall i, j :: 0 <= i < j < |s| ==> s[i] <= s[j]
  }

  ghost predicate StrictlySorted(s: seq<nat>) {
    forall i, j :: 0 <= i < j < |s| ==> s[i] < s[j]
  }

  ghost predicate Distinct(s: seq<nat>) {
    forall i, j :: 0 <= i < j < |s| ==> s[i] != s[j]
  }

  function Members(s: seq<nat>): set<nat> {
    set x | x in s
  }

  /** Array.prototype.splice(i, 1). */
  function Splice(s: seq<nat>, i: nat): seq<nat>
    requires i < |s|
  {
    s[..i] + s[i + 1..]
  }

  // ---- uniqueSort -----------------------------------------------------------

  /** The comparator raises `hasDuplicate` when it is called on one node twice. */
  predicate SawEqual(calls: seq<(nat, nat)>) {
    exists i :: 0 <= i < |calls| && calls[i].0 == calls[i].1
  }

  /** The splice loop alone. */
  method DropRepeats(sorted: seq<nat>) returns (results: seq<nat>)
    requires Sorted(sorted)
    ensures StrictlySorted(results) && Members(results) == Members(sorted)
  {
    results := sorted;
    var i := 1;
    while i < |results|
      invariant 1 <= i && (i <= |results| || |results| == 0)
      invariant Sorted(results) && Members(results) == Members(sorted)
      invariant forall j, k :: 0 <= j < k < i && k < |results| ==> results[j] < results[k]
      decreases |results| - i
    {
      if results[i] == results[i - 1] {
        ghost var before := results;
        results := Splice(results, i);
        forall x | x in before ensures x in results {
          var j :| 0 <= j < |before| && before[j] == x;
          if j == i {
            assert results[i - 1] == x;
          } else if j < i {
            assert results[j] == x;
          } else {
            assert results[j - 1] == x;
          }
        }
        i := i - 1;
      }
      i := i + 1;
    }
  }

  /**
   `uniqueSort`, given what the native sort left (`sorted`) and the pairs it passed
   to the comparator.  The same nodes come back; they come back strictly ordered
   iff the shortcut was not taken on an array with a repeat.
   */
  method UniqueSort(results: seq<nat>, sorted: seq<nat>, calls: seq<(nat, nat)>, baseHasDuplicate: bool)
    returns (r: seq<nat>)
    requires Sorted(sorted) && multiset(sorted) == multiset(results)
    ensures Members(r) == Members(results)
    ensures StrictlySorted(r) <==> baseHasDuplicate || SawEqual(calls) || Distinct(results)
    ensures StrictlySorted(r) || r == sorted
  {
    SameMembers(results, sorted);
    DistinctPermutation(results, sorted);
    var hasDuplicate := baseHasDuplicate || SawEqual(calls);
    if hasDuplicate {
      r := DropRepeats(sorted);
    } else {
      r := sorted;
    }
  }

  lemma SameMembers(a: seq<nat>, b: seq<nat>)
    requires multiset(a) == multiset(b)
    ensures Members(a) == Members(b)
  {
    forall x ensures x in a <==> x in b {
      assert x in a <==> x in multiset(a);
      assert x in b <==> x in multiset(b);
    }
  }

  lemma {:induction false} DistinctOnce(s: seq<nat>, x: nat)
    requires Distinct(s)
    ensures multiset(s)[x] <= 1
    decreases |s|
  {
    if s != [] {
      var rest := s[1..];
      assert s == [s[0]] + rest;
      assert s[0] !in multiset(rest);
      assert forall i, j :: 0 <= i < j < |rest| ==> rest[i] == s[i + 1] && rest[j] == s[j + 1];
      DistinctOnce(rest, x);
    }
  }

  lemma RepeatTwice(s: seq<nat>, i: nat, j: nat)
    requires i < j < |s| && s[i] == s[j]
    ensures multiset(s)[s[i]] >= 2
  {
    assert s == s[..j] + s[j..];
    assert s[i] == s[..j][i] && s[j] == s[j..][0];
    assert s[i] in multiset(s[..j]) && s[i] in multiset(s[j..]);
  }

  lemma DistinctMultiplicity(s: seq<nat>)
    ensures Distinct(s) <==> forall x :: multiset(s)[x] <= 1
  {
    if Distinct(s) {
      forall x ensures multiset(s)[x] <= 1 {
        DistinctOnce(s, x);
      }
    } else {
      var i, j :| 0 <= i < j < |s| && s[i] == s[j];
      RepeatTwice(s, i, j);
    }
  }

  lemma DistinctPermutation(a: seq<nat>, b: seq<nat>)
    requires multiset(a) == multiset(b)
    ensures Distinct(a) <==> Distinct(b)
    ensures Sorted(b) ==> (Distinct(b) <==> StrictlySorted(b))
  {
    DistinctMultiplicity(a);
    DistinctMultiplicity(b);
  }

  /**
   A sort that compares every two neighbours of its output raises the flag
   exactly when the array holds a node twice, so the shortcut never skips work.
   */
  lemma NeighboursFlagRepeats(results: seq<nat>, sorted: seq<nat>, calls: seq<(nat, nat)>)
    requires Sorted(sorted) && multiset(sorted) == multiset(results)
    requires forall i :: 0 < i < |sorted| ==>
               (sorted[i - 1], sorted[i]) in calls || (sorted[i], sorted[i - 1]) in calls
    ensures SawEqual(calls) || Distinct(results)
  {
    DistinctPermutation(results, sorted);
    if !Distinct(results) {
      var i, j :| 0 <= i < j < |sorted| && sorted[i] == sorted[j];
      assert sorted[i + 1] == sorted[i];
      var k :| 0 <= k < |calls| && calls[k] == (sorted[i], sorted[i]);
    }
  }

  // ---- jQuery.fn.find -------------------------------------------------------

  /** The elements of `batch` that `base` does not hold, in order. */
  function Fresh(base: seq<nat>, batch: seq<nat>): seq<nat> {
    if batch == [] then []
    else Fresh(base, batch[..|batch| - 1])
         + if batch[|batch| - 1] in base then [] else [batch[|batch| - 1]]
  }

  /** A batch in two parts keeps what is left of either, in order. */
  lemma {:induction false} FreshConcat(base: seq<nat>, a: seq<nat>, b: seq<nat>)
    ensures Fresh(base, a + b) == Fresh(base, a) + Fresh(base, b)
    decreases |b|
  {
    if b == [] {
      assert a + b == a;
    } else {
      var init, last := b[..|b| - 1], b[|b| - 1];
      var kept := if last in base then [] else [last];
      FreshConcat(base, a, init);
      assert (a + b)[..|a + b| - 1] == a + init;
      assert Fresh(base, a) + (Fresh(base, init) + kept) == Fresh(base, a) + Fresh(base, init) + kept;
    }
  }

  /** Each element of the batch is kept as often as it occurs there, unless `base` holds it. */
  lemma {:induction false} FreshCounts(base: seq<nat>, batch: seq<nat>, x: nat)
    ensures multiset(Fresh(base, batch))[x] == if x in base then 0 else multiset(batch)[x]
    decreases |batch|
  {
    if batch != [] {
      FreshCounts(base, batch[..|batch| - 1], x);
      assert batch == batch[..|batch| - 1] + [batch[|batch| - 1]];
    }
  }

  /** The result over all contexts: every batch after the first loses what came before. */
  function Merged(batches: seq<seq<nat>>): seq<nat> {
    if batches == [] then []
    else
      var base := Merged(batches[..|batches| - 1]);
      base + Fresh(base, batches[|batches| - 1])
  }

  function Flatten(batches: seq<seq<nat>>): seq<nat> {
    if batches == [] then [] else Flatten(batches[..|batches| - 1]) + batches[|batches| - 1]
  }

  /** Each element at its first occurrence only. */
  function FirstOccurrences(s: seq<nat>): seq<nat> {
    if s == [] then []
    else FirstOccurrences(s[..|s| - 1]) + if s[|s| - 1] in s[..|s| - 1] then [] else [s[|s| - 1]]
  }

  /** The inner loop: is `ret[n]` among the first `length` entries? */
  method AmongFirst(ret: seq<nat>, length: nat, n: nat) returns (known: bool)
    requires length <= n < |ret|
    ensures known <==> ret[n] in ret[..length]
  {
    for r := 0 to length
      invariant ret[n] !in ret[..r]
    {
      if ret[r] == ret[n] {
        assert ret[..length][r] == ret[n];
        return true;
      }
    }
    return false;
  }

  lemma FreshStep(base: seq<nat>, all: seq<nat>, length: nat, m: nat)
    requires length <= m < |all|
    ensures Fresh(base, all[length..m + 1]) ==
            Fresh(base, all[length..m]) + if all[m] in base then [] else [all[m]]
  {
    var batch := all[length..m + 1];
    assert batch[..|batch| - 1] == all[length..m];
  }

  lemma SpliceAfter(kept: seq<nat>, all: seq<nat>, m: nat)
    requires m < |all|
    ensures (kept + all[m..])[|kept|] == all[m]
    ensures Splice(kept + all[m..], |kept|) == kept + all[m + 1..]
    ensures kept + all[m..] == kept + [all[m]] + all[m + 1..]
  {
  }

  lemma UnseenStep(base: seq<nat>, unseen: seq<nat>, x: nat, rest: seq<nat>)
    ensures (base + unseen) + [x] + rest == (base + (unseen + [x])) + rest
  {
  }

  /** The outer loop with `splice(n--, 1)`; `m` counts the batch entries it has dealt with. */
  method DropKnown(all: seq<nat>, length: nat) returns (ret: seq<nat>)
    requires length <= |all|
    ensures ret == all[..length] + Fresh(all[..length], all[length..])
  {
    ret := all;
    ghost var base, unseen: seq<nat>, m: nat := all[..length], [], length;
    var n: int := length;
    while n < |ret|
      invariant length <= m <= |all| && n == length + |unseen|
      invariant unseen == Fresh(base, all[length..m])
      invariant ret == (base + unseen) + all[m..]
      decreases |all| - m
    {
      SpliceAfter(base + unseen, all, m);
      FreshStep(base, all, length, m);
      var known := AmongFirst(ret, length, n);
      assert ret[..length] == base;
      if known {
        ret := Splice(ret, n);
        n := n - 1;
      } else {
        UnseenStep(base, unseen, all[m], all[m + 1..]);
        unseen := unseen + [all[m]];
      }
      n := n + 1;
      m := m + 1;
    }
    assert all[length..m] == all[length..];
  }

  lemma {:induction false} FreshOfNothing(batch: seq<nat>)
    ensures Fresh([], batch) == batch
  {
    if batch != [] {
      FreshOfNothing(batch[..|batch| - 1]);
    }
  }

  /** `find` over several contexts; `batches[i]` is what the search from context `i` appends. */
  method Find(batches: seq<seq<nat>>) returns (ret: seq<nat>)
    ensures ret == Merged(batches)
  {
    ret := [];
    for i := 0 to |batches|
      invariant ret == Merged(batches[..i])
    {
      var length := |ret|;
      ghost var base := ret;
      assert batches[..i + 1][..i] == batches[..i];
      ret := ret + batches[i];
      if i > 0 {
        ret := DropKnown(ret, length);
      } else {
        FreshOfNothing(batches[i]);
      }
    }
    assert batches[..|batches|] == batches;
  }

  lemma {:induction false} FirstOccurrencesDistinct(s: seq<nat>)
    ensures Distinct(FirstOccurrences(s)) && forall x :: x in FirstOccurrences(s) <==> x in s
    decreases |s|
  {
    if s != [] {
      FirstOccurrencesDistinct(s[..|s| - 1]);
      assert s == s[..|s| - 1] + [s[|s| - 1]];
    }
  }

  lemma FirstOccurrencesStep(s: seq<nat>, x: nat)
    ensures FirstOccurrences(s + [x]) == FirstOccurrences(s) + if x in s then [] else [x]
  {
    assert (s + [x])[..|s + [x]| - 1] == s;
  }

  /** Dropping what came before from a duplicate-free batch leaves its first occurrences. */
  lemma {:induction false} FreshIsFirst(s: seq<nat>, batch: seq<nat>)
    requires Distinct(batch)
    ensures FirstOccurrences(s + batch) == FirstOccurrences(s) + Fresh(FirstOccurrences(s), batch)
    decreases |batch|
  {
    FirstOccurrencesDistinct(s);
    if batch == [] {
      assert s + batch == s;
    } else {
      var init, x := batch[..|batch| - 1], batch[|batch| - 1];
      FreshIsFirst(s, init);
      FirstOccurrencesStep(s + init, x);
      assert s + batch == s + init + [x];
      assert x !in init;
    }
  }

  /**
   Over duplicate-free batches the result is the union of the batches, each element
   once, in the order of first occurrence.
   */
  lemma {:induction false} MergedIsFirstOccurrences(batches: seq<seq<nat>>)
    requires forall i :: 0 <= i < |batches| ==> Distinct(batches[i])
    ensures Merged(batches) == FirstOccurrences(Flatten(batches)) && Distinct(Merged(batches))
    decreases |batches|
  {
    if batches != [] {
      var init := batches[..|batches| - 1];
      MergedIsFirstOccurrences(init);
      FreshIsFirst(Flatten(init), batches[|batches| - 1]);
    }
    FirstOccurrencesDistinct(Flatten(batches));
  }
}
