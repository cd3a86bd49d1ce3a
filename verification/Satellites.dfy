/**
 The satellite list of the signal-strength dialog
 (demos/lightmaps/satellitedialog.cpp:169-245): in-use and in-view satellites are
 merged, sorted for display, and the strongest signal is recorded.
 */
module Satellites {
  datatype Ordering = OrderBySignalStrength | OrderByPrnNumber

  /** A strength that was never reported is -1. */
  datatype Satellite = Satellite(prn: int, strength: int)

  datatype Shown = Shown(satellite: Satellite, inUse: bool)

  ghost predicate SortedBy<T(!new)>(s: seq<T>, key: T -> int) {
    forall i, j :: 0 <= i < j < |s| ==> key(s[i]) <= key(s[j])
  }

  method Insert<T(!new)>(r: seq<T>, x: T, key: T -> int) returns (out: seq<T>)
    requires SortedBy(r, key)
    ensures SortedBy(out, key) && multiset(out) == multiset(r) + multiset{x}
  {
    var k := |r|;
    while k > 0 && key(r[k - 1]) > key(x)
      invariant 0 <= k <= |r|
      invariant forall j :: k <= j < |r| ==> key(r[j]) > key(x)
    {
      k := k - 1;
    }
    InsertedSorted(r, k, x, key);
    InsertedElements(r, k, x);
    out := r[..k] + [x] + r[k..];
  }

  lemma InsertedSorted<T(!new)>(r: seq<T>, k: nat, x: T, key: T -> int)
    requires k <= |r| && SortedBy(r, key)
    requires k > 0 ==> key(r[k - 1]) <= key(x)
    requires forall j :: k <= j < |r| ==> key(r[j]) > key(x)
    ensures SortedBy(r[..k] + [x] + r[k..], key)
  {
    var out := r[..k] + [x] + r[k..];
    forall i, j | 0 <= i < j < |out| ensures key(out[i]) <= key(out[j]) {
      assert out[i] == if i < k then r[i] else if i == k then x else r[i - 1];
      assert out[j] == if j < k then r[j] else if j == k then x else r[j - 1];
      if i < k - 1 && j == k {
        assert key(r[i]) <= key(r[k - 1]);
      }
    }
  }

  lemma InsertedElements<T>(r: seq<T>, k: nat, x: T)
    requires k <= |r|
    ensures multiset(r[..k] + [x] + r[k..]) == multiset(r) + multiset{x}
  {
    assert r == r[..k] + r[k..];
  }

  /** qSort: some sorted permutation; callers rely on nothing else. */
  method QSort<T(==, !new)>(s: seq<T>, key: T -> int) returns (r: seq<T>)
    ensures SortedBy(r, key) && multiset(r) == multiset(s)
  {
    r := [];
    for i := 0 to |s|
      invariant SortedBy(r, key) && multiset(r) == multiset(s[..i])
    {
      r := Insert(r, s[i], key);
      assert s[..i + 1] == s[..i] + [s[i]];
    }
    assert s[..|s|] == s;
  }

  function Prn(s: Satellite): int { s.prn }

  function ShownKey(ordering: Ordering): Shown -> int {
    if ordering.OrderByPrnNumber? then (x: Shown) => x.satellite.prn else (x: Shown) => x.satellite.strength
  }

  /** qBinaryFind: an index holding the number, or the list's size. */
  method BinaryFind(list: seq<Satellite>, prn: int) returns (at: nat)
    requires SortedBy(list, Prn)
    ensures at <= |list|
    ensures at < |list| ==> list[at].prn == prn
    ensures at == |list| <==> forall i :: 0 <= i < |list| ==> list[i].prn != prn
  {
    var lo, hi := 0, |list|;
    while lo < hi
      invariant 0 <= lo <= hi <= |list|
      invariant forall i :: 0 <= i < lo ==> Prn(list[i]) < prn
      invariant forall i :: hi <= i < |list| ==> Prn(list[i]) >= prn
    {
      var mid := (lo + hi) / 2;
      if list[mid].prn < prn {
        forall i | 0 <= i <= mid ensures Prn(list[i]) < prn {
          assert i < mid ==> Prn(list[i]) <= Prn(list[mid]);
        }
        lo := mid + 1;
      } else {
        forall i | mid <= i < |list| ensures Prn(list[i]) >= prn {
          assert mid < i ==> Prn(list[mid]) <= Prn(list[i]);
        }
        hi := mid;
      }
    }
    at := if lo == |list| || prn < list[lo].prn then |list| else lo;
    if at == |list| && lo < |list| {
      forall i | 0 <= i < |list| ensures list[i].prn != prn {
        assert i >= lo ==> i == lo || Prn(list[lo]) <= Prn(list[i]);
      }
    }
  }

  // ---- What is to be shown ----------------------------------------------------

  ghost predicate InUse(use: seq<Satellite>, prn: int) {
    exists i :: 0 <= i < |use| && use[i].prn == prn
  }

  /** How often an entry is due: non-zero strengths only, in-view ones only if their number is not in use. */
  ghost function Due(use: seq<Satellite>, view: seq<Satellite>, x: Shown): nat {
    if x.satellite.strength == 0 then 0
    else if x.inUse then multiset(use)[x.satellite]
    else if InUse(use, x.satellite.prn) then 0
    else multiset(view)[x.satellite]
  }

  /** The list holds every entry exactly as often as it is due. */
  ghost predicate Merges(shown: seq<Shown>, use: seq<Satellite>, view: seq<Satellite>) {
    forall x :: multiset(shown)[x] == Due(use, view, x)
  }

  ghost predicate IsMaximum(m: int, shown: seq<Shown>) {
    && (exists i :: 0 <= i < |shown| && shown[i].satellite.strength == m)
    && forall i :: 0 <= i < |shown| ==> shown[i].satellite.strength <= m
  }

  /** All in-use strengths are zero, and each satellite in view has strength zero or is in use. */
  ghost predicate NoneDue(use: seq<Satellite>, view: seq<Satellite>) {
    && (forall i :: 0 <= i < |use| ==> use[i].strength == 0)
    && forall i :: 0 <= i < |view| ==> view[i].strength == 0 || InUse(use, view[i].prn)
  }

  /** Some strength in use is positive, or that of a satellite in view but not in use. */
  ghost predicate SomePositive(use: seq<Satellite>, view: seq<Satellite>) {
    || (exists i :: 0 <= i < |use| && use[i].strength > 0)
    || exists i :: 0 <= i < |view| && view[i].strength > 0 && !InUse(use, view[i].prn)
  }

  /** The strongest signal there is to show. */
  ghost predicate IsTop(m: int, use: seq<Satellite>, view: seq<Satellite>) {
    && (exists x :: Due(use, view, x) > 0 && x.satellite.strength == m)
    && forall x :: Due(use, view, x) > 0 ==> x.satellite.strength <= m
  }

  lemma NothingDue(use: seq<Satellite>, view: seq<Satellite>)
    ensures NoneDue(use, view) <==> forall x :: Due(use, view, x) == 0
  {
    if forall x :: Due(use, view, x) == 0 {
      forall i | 0 <= i < |use| ensures use[i].strength == 0 {
        assert Due(use, view, Shown(use[i], true)) == 0;
        assert use[i] in multiset(use);
      }
      forall i | 0 <= i < |view| ensures view[i].strength == 0 || InUse(use, view[i].prn) {
        assert Due(use, view, Shown(view[i], false)) == 0;
        assert view[i] in multiset(view);
      }
    }
  }

  lemma PositiveDue(use: seq<Satellite>, view: seq<Satellite>)
    ensures SomePositive(use, view) <==> exists x :: Due(use, view, x) > 0 && x.satellite.strength > 0
  {
    if SomePositive(use, view) {
      if i :| 0 <= i < |use| && use[i].strength > 0 {
        assert use[i] in multiset(use);
        assert Due(use, view, Shown(use[i], true)) > 0;
      } else {
        var i :| 0 <= i < |view| && view[i].strength > 0 && !InUse(use, view[i].prn);
        assert view[i] in multiset(view);
        assert Due(use, view, Shown(view[i], false)) > 0;
      }
    }
    if x :| Due(use, view, x) > 0 && x.satellite.strength > 0 {
      assert x.satellite in if x.inUse then multiset(use) else multiset(view);
    }
  }

  /** A merged list is empty iff nothing is due, and its maximum is the strongest signal due. */
  lemma MergedStrengths(shown: seq<Shown>, use: seq<Satellite>, view: seq<Satellite>)
    requires Merges(shown, use, view)
    ensures shown == [] <==> NoneDue(use, view)
    ensures forall m :: IsMaximum(m, shown) <==> IsTop(m, use, view)
    ensures (exists i :: 0 <= i < |shown| && shown[i].satellite.strength > 0) <==> SomePositive(use, view)
  {
    NothingDue(use, view);
    PositiveDue(use, view);
    forall x ensures Due(use, view, x) > 0 <==> exists i :: 0 <= i < |shown| && shown[i] == x {
      assert Due(use, view, x) > 0 <==> x in multiset(shown);
    }
    forall i | 0 <= i < |shown| ensures Due(use, view, shown[i]) > 0 {
      assert shown[i] in multiset(shown);
    }
  }

  /** Order does not matter. */
  lemma SameDue(use: seq<Satellite>, use2: seq<Satellite>, view: seq<Satellite>, view2: seq<Satellite>)
    requires multiset(use) == multiset(use2) && multiset(view) == multiset(view2)
    ensures forall x :: Due(use, view, x) == Due(use2, view2, x)
    ensures use == [] && view == [] <==> use2 == [] && view2 == []
    ensures NoneDue(use, view) <==> NoneDue(use2, view2)
    ensures SomePositive(use, view) <==> SomePositive(use2, view2)
  {
    forall prn ensures InUse(use, prn) <==> InUse(use2, prn) {
      if i :| 0 <= i < |use| && use[i].prn == prn {
        assert use[i] in multiset(use2);
      }
      if i :| 0 <= i < |use2| && use2[i].prn == prn {
        assert use2[i] in multiset(use);
      }
    }
    assert |multiset(use)| == |use| && |multiset(use2)| == |use2|;
    assert |multiset(view)| == |view| && |multiset(view2)| == |view2|;
    NothingDue(use, view);
    NothingDue(use2, view2);
    PositiveDue(use, view);
    PositiveDue(use2, view2);
  }

  /**
   What refreshing the list comes to: `shown` is the sorted merge.  Ordered by strength,
   position -1 is read iff satellites are known and none is due, and otherwise the maximum
   is the true one; ordered by number it is the true one iff some strength due is positive,
   and 0 if none is.  With no satellite known, or once -1 is read, it stays what it `was`.
   */
  ghost predicate Refreshed(use: seq<Satellite>, view: seq<Satellite>, ordering: Ordering,
                            ok: bool, shown: seq<Shown>, was: int, maximum: int) {
    && (forall s :: multiset(shown)[Shown(s, true)] == if s.strength == 0 then 0 else multiset(use)[s])
    && (forall s :: multiset(shown)[Shown(s, false)] ==
                    if s.strength == 0 || InUse(use, s.prn) then 0 else multiset(view)[s])
    && (forall i, j :: 0 <= i < j < |shown| ==>
          if ordering.OrderByPrnNumber? then shown[i].satellite.prn <= shown[j].satellite.prn
          else shown[i].satellite.strength <= shown[j].satellite.strength)
    && (!ok <==> (use != [] || view != []) && ordering.OrderBySignalStrength? && NoneDue(use, view))
    && ((use == [] && view == []) || !ok ==> maximum == was)
    && ((use != [] || view != []) && ok ==>
          if ordering.OrderBySignalStrength? then IsTop(maximum, use, view)
          else (IsTop(maximum, use, view) <==> SomePositive(use, view)) && (!SomePositive(use, view) ==> maximum == 0))
  }

  ghost predicate ShowsPositive(shown: seq<Shown>) {
    exists i :: 0 <= i < |shown| && shown[i].satellite.strength > 0
  }

  /** The maximum read off the sorted list. */
  ghost predicate Read(ordering: Ordering, shown: seq<Shown>, ok: bool, was: int, maximum: int) {
    && (!ok <==> ordering.OrderBySignalStrength? && shown == [])
    && (!ok ==> maximum == was)
    && (ok ==>
          if ordering.OrderBySignalStrength? then IsMaximum(maximum, shown)
          else (IsMaximum(maximum, shown) <==> ShowsPositive(shown)) && (!ShowsPositive(shown) ==> maximum == 0))
  }

  /** What is listed, flag by flag. */
  lemma RefreshedMerges(shown: seq<Shown>, use: seq<Satellite>, view: seq<Satellite>)
    requires forall s :: multiset(shown)[Shown(s, true)] == if s.strength == 0 then 0 else multiset(use)[s]
    requires forall s :: multiset(shown)[Shown(s, false)] ==
                         if s.strength == 0 || InUse(use, s.prn) then 0 else multiset(view)[s]
    ensures Merges(shown, use, view)
  {
    forall x ensures multiset(shown)[x] == Due(use, view, x) {
      assert x == Shown(x.satellite, x.inUse);
    }
  }

  lemma SortedShown(shown: seq<Shown>, ordering: Ordering)
    requires SortedBy(shown, ShownKey(ordering))
    ensures forall i, j :: 0 <= i < j < |shown| ==>
              if ordering.OrderByPrnNumber? then shown[i].satellite.prn <= shown[j].satellite.prn
              else shown[i].satellite.strength <= shown[j].satellite.strength
  {
    var key := ShownKey(ordering);
    forall i, j | 0 <= i < j < |shown| ensures key(shown[i]) <= key(shown[j]) {
    }
  }

  lemma ReadRefreshed(use: seq<Satellite>, view: seq<Satellite>, ordering: Ordering,
                      ok: bool, shown: seq<Shown>, was: int, maximum: int)
    requires Merges(shown, use, view) && SortedBy(shown, ShownKey(ordering)) && (use != [] || view != [])
    requires Read(ordering, shown, ok, was, maximum)
    ensures Refreshed(use, view, ordering, ok, shown, was, maximum)
  {
    MergedStrengths(shown, use, view);
    SortedShown(shown, ordering);
  }

  lemma SameRefreshed(use: seq<Satellite>, use2: seq<Satellite>, view: seq<Satellite>, view2: seq<Satellite>,
                      ordering: Ordering, ok: bool, shown: seq<Shown>, was: int, maximum: int)
    requires multiset(use) == multiset(use2) && multiset(view) == multiset(view2)
    requires Refreshed(use, view, ordering, ok, shown, was, maximum)
    ensures Refreshed(use2, view2, ordering, ok, shown, was, maximum)
  {
    SameDue(use, use2, view, view2);
    assert forall m :: IsTop(m, use, view) <==> IsTop(m, use2, view2);
  }

  /** One satellite in view with strength 0, ordered by strength: position -1 is read. */
  lemma LastOfNothing(ok: bool, shown: seq<Shown>, was: int, maximum: int)
    requires Refreshed([], [Satellite(1, 0)], OrderBySignalStrength, ok, shown, was, maximum)
    ensures !ok && shown == []
  {
    RefreshedMerges(shown, [], [Satellite(1, 0)]);
    MergedStrengths(shown, [], [Satellite(1, 0)]);
  }

  /** One satellite that never reported a strength, ordered by number: the maximum recorded is not its. */
  lemma MaximumMissed(ok: bool, shown: seq<Shown>, was: int, maximum: int)
    requires Refreshed([], [Satellite(1, -1)], OrderByPrnNumber, ok, shown, was, maximum)
    ensures ok && shown != [] && maximum == 0 && !IsMaximum(maximum, shown)
  {
    RefreshedMerges(shown, [], [Satellite(1, -1)]);
    MergedStrengths(shown, [], [Satellite(1, -1)]);
    assert [Satellite(1, -1)][0].strength != 0;
  }

  class SatelliteWidget {
    var ordering: Ordering
    var maximumSignalStrength: int
    var inView: seq<Satellite>
    var inUse: seq<Satellite>
    var satellites: seq<Shown>

    /** The in-use list stays sorted, which the binary search needs. */
    ghost predicate Valid()
      reads this
    {
      SortedBy(inUse, Prn)
    }

    /** The maximum is not initialised. */
    constructor (ordering: Ordering)
      ensures Valid() && this.ordering == ordering && inView == [] && inUse == [] && satellites == []
    {
      this.ordering := ordering;
      inView, inUse, satellites := [], [], [];
    }

    /** The first loop: the satellites in use. */
    method ListInUse() returns (shown: seq<Shown>)
      ensures Merges(shown, inUse, [])
    {
      shown := [];
      for i := 0 to |inUse|
        invariant forall x :: multiset(shown)[x] ==
                    if x.inUse && x.satellite.strength != 0 then multiset(inUse[..i])[x.satellite] else 0
      {
        assert inUse[..i + 1] == inUse[..i] + [inUse[i]];
        if inUse[i].strength != 0 {
          shown := shown + [Shown(inUse[i], true)];
        }
      }
      assert inUse[..|inUse|] == inUse;
    }

    /** The second loop: the satellites in view whose number is not in use. */
    method Merge() returns (shown: seq<Shown>)
      requires Valid()
      ensures Merges(shown, inUse, inView)
      ensures forall s :: multiset(shown)[Shown(s, true)] == if s.strength == 0 then 0 else multiset(inUse)[s]
      ensures forall s :: multiset(shown)[Shown(s, false)] ==
                          if s.strength == 0 || InUse(inUse, s.prn) then 0 else multiset(inView)[s]
    {
      shown := ListInUse();
      for i := 0 to |inView|
        invariant Merges(shown, inUse, inView[..i])
      {
        if inView[i].strength != 0 {
          var j := BinaryFind(inUse, inView[i].prn);
          if j == |inUse| {
            shown := shown + [Shown(inView[i], false)];
          } else {
            assert InUse(inUse, inView[i].prn);
          }
        }
        MergeStep(inUse, inView, i);
      }
      assert inView[..|inView|] == inView;
    }

    lemma MergeStep(use: seq<Satellite>, view: seq<Satellite>, i: nat)
      requires i < |view|
      ensures var due := view[i].strength != 0 && !InUse(use, view[i].prn);
              forall x :: Due(use, view[..i + 1], x) ==
                          Due(use, view[..i], x) + if !x.inUse && x.satellite == view[i] && due then 1 else 0
    {
      assert view[..i + 1] == view[..i] + [view[i]];
    }

    /** The strongest signal, looked for upwards from 0. */
    method RecordMaximum()
      modifies this`maximumSignalStrength
      ensures maximumSignalStrength >= 0
      ensures forall i :: 0 <= i < |satellites| ==> satellites[i].satellite.strength <= maximumSignalStrength
      ensures maximumSignalStrength == 0 || IsMaximum(maximumSignalStrength, satellites)
    {
      maximumSignalStrength := 0;
      for i := 0 to |satellites|
        invariant maximumSignalStrength >= 0
        invariant forall j :: 0 <= j < i ==> satellites[j].satellite.strength <= maximumSignalStrength
        invariant maximumSignalStrength == 0 ||
                  exists j :: 0 <= j < i && satellites[j].satellite.strength == maximumSignalStrength
      {
        if satellites[i].satellite.strength > maximumSignalStrength {
          maximumSignalStrength := satellites[i].satellite.strength;
        }
      }
    }

    /** The end of `updateSatelliteList`; false when `satellites.at(-1)` is evaluated. */
    method TakeMaximum() returns (ok: bool)
      requires Merges(satellites, inUse, inView) && SortedBy(satellites, ShownKey(ordering))
      modifies this`maximumSignalStrength
      ensures Read(ordering, satellites, ok, old(maximumSignalStrength), maximumSignalStrength)
    {
      if ordering.OrderByPrnNumber? {
        NoZeroShown(satellites, inUse, inView);
        RecordMaximum();
      } else {
        if satellites == [] {
          return false;
        }
        LastIsMaximum(satellites);
        maximumSignalStrength := satellites[|satellites| - 1].satellite.strength;
      }
      return true;
    }

    /** `updateSatelliteList`.  `ok` is false when `satellites.at(-1)` is evaluated. */
    method UpdateSatelliteList() returns (ok: bool)
      requires Valid()
      modifies this`satellites, this`maximumSignalStrength
      ensures Refreshed(inUse, inView, ordering, ok, satellites, old(maximumSignalStrength), maximumSignalStrength)
    {
      satellites := [];
      assert multiset(satellites) == multiset{};
      if inUse == [] && inView == [] {
        return true;
      }
      var shown := Merge();
      satellites := QSort(shown, ShownKey(ordering));
      MergesPermutation(shown, satellites, inUse, inView);
      ok := TakeMaximum();
      ReadRefreshed(inUse, inView, ordering, ok, satellites, old(maximumSignalStrength), maximumSignalStrength);
    }

    lemma MergesPermutation(a: seq<Shown>, b: seq<Shown>, use: seq<Satellite>, view: seq<Satellite>)
      requires multiset(a) == multiset(b) && Merges(a, use, view)
      ensures Merges(b, use, view)
    {
    }

    lemma NoZeroShown(shown: seq<Shown>, use: seq<Satellite>, view: seq<Satellite>)
      requires Merges(shown, use, view)
      ensures forall i :: 0 <= i < |shown| ==> shown[i].satellite.strength != 0
    {
      forall i | 0 <= i < |shown| ensures shown[i].satellite.strength != 0 {
        assert multiset(shown)[shown[i]] == Due(use, view, shown[i]);
        assert shown[i] in multiset(shown);
      }
    }

    lemma LastIsMaximum(shown: seq<Shown>)
      requires shown != [] && SortedBy(shown, ShownKey(OrderBySignalStrength))
      ensures IsMaximum(shown[|shown| - 1].satellite.strength, shown)
    {
      var key := ShownKey(OrderBySignalStrength);
      assert forall i :: 0 <= i < |shown| - 1 ==> key(shown[i]) <= key(shown[|shown| - 1]);
    }

    /** `satellitesInViewUpdated`. */
    method InViewUpdated(list: seq<Satellite>) returns (ok: bool)
      requires Valid()
      modifies this`inView, this`satellites, this`maximumSignalStrength
      ensures Valid() && multiset(inView) == multiset(list) && SortedBy(inView, Prn)
      ensures Refreshed(inUse, list, ordering, ok, satellites, old(maximumSignalStrength), maximumSignalStrength)
    {
      inView := QSort(list, Prn);
      ok := UpdateSatelliteList();
      SameRefreshed(inUse, inUse, inView, list, ordering, ok, satellites,
                    old(maximumSignalStrength), maximumSignalStrength);
    }

    /** `satellitesInUseUpdated`. */
    method InUseUpdated(list: seq<Satellite>) returns (ok: bool)
      modifies this`inUse, this`satellites, this`maximumSignalStrength
      ensures Valid() && multiset(inUse) == multiset(list)
      ensures Refreshed(list, inView, ordering, ok, satellites, old(maximumSignalStrength), maximumSignalStrength)
    {
      inUse := QSort(list, Prn);
      ok := UpdateSatelliteList();
      SameRefreshed(inUse, list, inView, inView, ordering, ok, satellites,
                    old(maximumSignalStrength), maximumSignalStrength);
    }

    method SetOrdering(o: Ordering) returns (ok: bool)
      requires Valid()
      modifies this`ordering, this`satellites, this`maximumSignalStrength
      ensures ordering == o
      ensures if o == old(ordering)
              then ok && satellites == old(satellites) && maximumSignalStrength == old(maximumSignalStrength)
              else Refreshed(inUse, inView, o, ok, satellites, old(maximumSignalStrength), maximumSignalStrength)
    {
      ok := true;
      if o != ordering {
        ordering := o;
        ok := UpdateSatelliteList();
      }
    }

    /** `clearSatellites`: nothing is shown, and the maximum stays. */
    method ClearSatellites() returns (ok: bool)
      modifies this`inView, this`inUse, this`satellites, this`maximumSignalStrength
      ensures Valid() && ok && inView == [] && inUse == [] && satellites == []
      ensures maximumSignalStrength == old(maximumSignalStrength)
    {
      inView, inUse := [], [];
      ok := UpdateSatelliteList();
      RefreshedMerges(satellites, inUse, inView);
      MergedStrengths(satellites, inUse, inView);
    }
  }
}
