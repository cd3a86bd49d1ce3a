/**
 The arithmetic and the sibling count behind `:nth-child(an+b)`
 (debian/missing-sources/jquery.js:3130-3155; Selectors Level 3, section 6.6.5.2).
 */
module NthChild {
  import opened Wrappers
  import opened Dom

  /** JavaScript `%` on integers: the remainder takes the sign of the dividend. */
  function JsRemainder(a: int, b: int): int
    requires b != 0
  {
    var m := (if a < 0 then -a else a) % (if b < 0 then -b else b);
    if a < 0 then -m else m
  }

  /** The test the engine applies to a cached sibling index. */
  predicate IndexTest(index: nat, first: int, last: int) {
    var diff := index - last;
    if first == 0 then diff == 0
    else JsRemainder(diff, first) == 0 && diff as real / first as real >= 0.0
  }

  /** What the standard asks: the index is the `k`-th value of the progression. */
  ghost predicate InProgression(index: int, first: int, last: int) {
    exists k: nat :: index == first * k + last
  }

  lemma QuotientSign(diff: int, first: int)
    requires first != 0
    ensures diff as real / first as real >= 0.0 <==> (diff == 0 || (diff > 0) == (first > 0))
  {
    var q := diff as real / first as real;
    assert q * first as real == diff as real;
  }

  lemma DivideExact(x: nat, y: nat) returns (d: int)
    requires y > 0 && x % y == 0
    ensures x == y * d
  {
    d := x / y;
  }

  lemma RemainderDivides(a: int, b: int) returns (q: int)
    requires b != 0 && JsRemainder(a, b) == 0
    ensures a == b * q
  {
    var d := DivideExact(if a < 0 then -a else a, if b < 0 then -b else b);
    q := if (a < 0) == (b < 0) then d else -d;
  }

  lemma MultipleHasNoRemainder(b: int, q: int)
    requires b != 0
    ensures JsRemainder(b * q, b) == 0
  {
    var a := b * q;
    var x, y := if a < 0 then -a else a, if b < 0 then -b else b;
    var r := if (a < 0) == (b < 0) then q else -q;
    assert b * -q == -(b * q) && -b * q == -(b * q) && -b * -q == b * q;
    assert x == y * r;
    MultipleModulo(y, r);
  }

  lemma ProductBound(y: int, k: int)
    requires y > 0
    ensures k >= 1 ==> y * k >= y
    ensures k <= -1 ==> y * k <= -y
  {
  }

  lemma MultipleModulo(y: int, r: int)
    requires y > 0
    ensures (y * r) % y == 0
  {
    var m := (y * r) % y;
    var d := (y * r) / y;
    assert y * r == y * d + m;
    assert y * (r - d) == m;
    ProductBound(y, r - d);
  }

  lemma FactorSign(first: int, q: int)
    requires first != 0
    ensures (first * q == 0 || (first * q > 0) == (first > 0)) <==> q >= 0
  {
    if q > 0 && first > 0 {
      assert first * q > 0;
    } else if q > 0 {
      assert first * q < 0;
    } else if q < 0 && first > 0 {
      assert first * q < 0;
    } else if q < 0 {
      assert first * q > 0;
    }
  }

  /** The remainder and quotient test decides membership for every pair of integers. */
  lemma IndexTestExact(index: nat, first: int, last: int)
    ensures IndexTest(index, first, last) <==> InProgression(index, first, last)
  {
    var diff := index - last;
    if first == 0 {
      if diff == 0 {
        assert index == first * 0 + last;
      }
    } else {
      QuotientSign(diff, first);
      if IndexTest(index, first, last) {
        var q := RemainderDivides(diff, first);
        FactorSign(first, q);
        assert index == first * q + last;
      }
      if InProgression(index, first, last) {
        var k: nat :| index == first * k + last;
        assert diff == first * k;
        FactorSign(first, k);
        MultipleHasNoRemainder(first, k);
      }
    }
  }

  /** Element siblings at or before `n`. */
  function CountThrough(t: Tree, n: nat): nat
    requires n < |t|
    decreases n
  {
    (if IsElement(t, n) then 1 else 0)
    + (if Go(t, PreviousSibling, n).Some? then CountThrough(t, Go(t, PreviousSibling, n).value) else 0)
  }

  ghost function PrecedingElements(t: Tree, n: nat): set<nat>
    requires n < |t|
  {
    set x: nat | 0 <= x < n && Precedes(t, x, n) && IsElement(t, x)
  }

  /** The count is one more than the number of element siblings in front, counted as a set. */
  lemma {:induction false} CountThroughExact(t: Tree, n: nat)
    requires n < |t|
    ensures CountThrough(t, n) == |PrecedingElements(t, n)| + if IsElement(t, n) then 1 else 0
    decreases n
  {
    var p := Go(t, PreviousSibling, n);
    forall x: nat | x < |t|
      ensures Precedes(t, x, n) <==> Beyond(t, PreviousSibling, n, x)
    {
      BeyondIsPrecedes(t, x, n);
    }
    if p.None? {
      assert PrecedingElements(t, n) == {};
    } else {
      CountThroughExact(t, p.value);
      forall x: nat | x < |t|
        ensures Precedes(t, x, p.value) <==> Beyond(t, PreviousSibling, p.value, x)
      {
        BeyondIsPrecedes(t, x, p.value);
      }
      var before := PrecedingElements(t, p.value);
      var here: set<nat> := if IsElement(t, p.value) then {p.value} else {};
      forall x: nat
        ensures x in PrecedingElements(t, n) <==> x in before + here
      {
        if x < |t| && Beyond(t, PreviousSibling, n, x) && x != p.value {
          ReachesBound(t, PreviousSibling, p.value, x);
        }
        if x < p.value && Beyond(t, PreviousSibling, p.value, x) {
          assert Beyond(t, PreviousSibling, n, x);
        }
      }
      assert PrecedingElements(t, n) == before + here;
    }
  }

  /** `n` is the child `:nth-child(first n + last)` asks for. */
  ghost predicate IsNthChild(t: Tree, n: nat, first: int, last: int)
    requires n < |t|
  {
    || (first == 1 && last == 0)
    || (t[n].parent.Some? && IsElement(t, n)
        && InProgression(|PrecedingElements(t, n)| + 1, first, last))
  }
}
