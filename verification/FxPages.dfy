/**
 The page: its elements share one list of timers, one interval and one clock
 (debian/missing-sources/jquery.js:5557, 5591-5609, 5704-5721).
 */
module FxPages {
  import opened FxTimers

  /** What one element keeps for itself. */
  datatype Row = Row(
    anims: Animations,
    busy: bool,
    queue: seq<Plan>,
    current: nat,
    strays: set<nat>,
    begun: seq<nat>,
    submitted: seq<nat>)

  const NEW_ROW: Row := Row(map[], false, [], 0, {}, [], [])

  /** `timers` is `jQuery.timers`; elements are told apart by their position in `rows`. */
  datatype Page = Page(readings: nat, timers: seq<Timer>, interval: bool, rows: seq<Row>, made: seq<Timer>)

  /** An element's own timers. */
  function Own(ts: seq<Timer>, e: nat): seq<Timer> {
    if ts == [] then [] else (if ts[0].elem == e then [ts[0]] else []) + Own(ts[1..], e)
  }

  /** The page as one element sees it. */
  function View(p: Page, e: nat): World
    requires e < |p.rows|
  {
    var r := p.rows[e];
    World(e, p.readings, Own(p.timers, e), p.interval, r.anims, r.busy, r.queue, r.current, r.strays,
          r.begun, r.submitted, Own(p.made, e))
  }

  function RowOf(w: World): Row {
    Row(w.anims, w.busy, w.queue, w.current, w.strays, w.begun, w.submitted)
  }

  /** The page after one element has gone on to `w`: what it has appended goes to the end of the shared list. */
  function Merge(p: Page, e: nat, w: World): Page
    requires e < |p.rows| && |Own(p.timers, e)| <= |w.timers|
  {
    var more := w.timers[|Own(p.timers, e)|..];
    Page(w.readings, p.timers + more, w.interval, p.rows[e := RowOf(w)], p.made + more)
  }

  lemma {:induction false} OwnConcat(a: seq<Timer>, b: seq<Timer>, e: nat)
    ensures Own(a + b, e) == Own(a, e) + Own(b, e)
    decreases |a|
  {
    if a == [] {
      assert a + b == b;
    } else {
      OwnConcat(a[1..], b, e);
      assert (a + b)[1..] == a[1..] + b && (a + b)[0] == a[0];
      var first := if a[0].elem == e then [a[0]] else [];
      assert first + (Own(a[1..], e) + Own(b, e)) == first + Own(a[1..], e) + Own(b, e);
    }
  }

  lemma {:induction false} OwnAll(ts: seq<Timer>, e: nat, f: nat)
    requires forall i :: 0 <= i < |ts| ==> ts[i].elem == e
    ensures Own(ts, f) == if f == e then ts else []
    decreases |ts|
  {
    if ts != [] {
      OwnAll(ts[1..], e, f);
    }
  }

  lemma {:induction false} OwnIn(ts: seq<Timer>, e: nat, t: Timer)
    ensures t in Own(ts, e) <==> t in ts && t.elem == e
    decreases |ts|
  {
    if ts != [] {
      OwnIn(ts[1..], e, t);
      assert t in ts <==> t == ts[0] || t in ts[1..];
    }
  }

  /** Where a timer of the shared list stands among those of its element. */
  function Place(ts: seq<Timer>, i: nat): nat
    requires i < |ts|
  {
    |Own(ts[..i], ts[i].elem)|
  }

  lemma SplitAt(ts: seq<Timer>, i: nat)
    requires i < |ts|
    ensures ts == ts[..i] + ([ts[i]] + ts[i + 1..]) && Without(ts, i) == ts[..i] + ts[i + 1..]
  {
  }

  lemma OwnAround(a: seq<Timer>, t: Timer, b: seq<Timer>, e: nat)
    ensures Own(a + ([t] + b), e) == Own(a, e) + ((if t.elem == e then [t] else []) + Own(b, e))
  {
    OwnConcat(a, [t] + b, e);
    OwnConcat([t], b, e);
  }

  lemma OwnWithout(ts: seq<Timer>, i: nat, f: nat)
    requires i < |ts|
    ensures var e, k := ts[i].elem, Place(ts, i);
            && k < |Own(ts, e)| && Own(ts, e)[k] == ts[i]
            && Own(Without(ts, i), f) == if f == e then Without(Own(ts, e), k) else Own(ts, f)
  {
    SplitAt(ts, i);
    OwnAround(ts[..i], ts[i], ts[i + 1..], ts[i].elem);
    OwnAround(ts[..i], ts[i], ts[i + 1..], f);
    OwnConcat(ts[..i], ts[i + 1..], f);
  }

  /** Merging leaves the element where it has gone on to. */
  lemma MergeView(p: Page, e: nat, w: World)
    requires e < |p.rows| && Grows(View(p, e), w)
    ensures View(Merge(p, e, w), e) == w
  {
    var own := Own(p.timers, e);
    var more := w.timers[|own|..];
    OwnConcat(p.timers, more, e);
    OwnConcat(p.made, more, e);
    OwnAll(more, e, e);
    assert w.timers == own + more;
  }

  /** The other elements keep their rows and their timers. */
  lemma MergeOthers(p: Page, e: nat, w: World, f: nat)
    requires e < |p.rows| && f < |p.rows| && f != e && Grows(View(p, e), w)
    ensures View(Merge(p, e, w), f) == View(p, f).(readings := w.readings, interval := w.interval)
  {
    var more := w.timers[|Own(p.timers, e)|..];
    OwnConcat(p.timers, more, f);
    OwnConcat(p.made, more, f);
    OwnAll(more, e, f);
  }

  // ---- The invariant of the page -----------------------------------------------------

  /** Every timer belongs to an animation of an element of the page. */
  ghost predicate PageRooted(p: Page) {
    forall i :: 0 <= i < |p.timers| ==>
      p.timers[i].elem < |p.rows| && p.timers[i].anim in p.rows[p.timers[i].elem].anims
  }

  ghost predicate PageValid(p: Page) {
    PageRooted(p) && forall e :: 0 <= e < |p.rows| ==> Valid(View(p, e))
  }

  lemma AsideKeeps(w: World, n: nat, on: bool)
    requires Valid(w) && (w.interval ==> on)
    ensures Valid(w.(readings := n, interval := on))
  {
    var r := w.(readings := n, interval := on);
    assert Listed(r) by {
      forall i | 0 <= i < |w.queue| ensures PlanOk(r, w.queue[i]) {
        assert PlanOk(w, w.queue[i]);
      }
    }
  }

  lemma ValidTimer(w: World, t: Timer)
    requires Placed(w, {}, {}) && t in w.timers
    ensures t.anim in w.anims
  {
    assert Pair(t) in Pairs(w.timers);
  }

  lemma MergeRooted(p: Page, e: nat, w: World)
    requires e < |p.rows| && PageRooted(p) && Grows(View(p, e), w) && Placed(w, {}, {})
    ensures PageRooted(Merge(p, e, w))
  {
    var q := Merge(p, e, w);
    forall i | 0 <= i < |q.timers|
      ensures q.timers[i].elem < |q.rows| && q.timers[i].anim in q.rows[q.timers[i].elem].anims
    {
      var t := q.timers[i];
      if i < |p.timers| {
        OwnIn(p.timers, e, t);
        if t.elem == e {
          assert t in Own(p.timers, e) && t in w.timers;
          ValidTimer(w, t);
        }
      } else {
        assert t == w.timers[|Own(p.timers, e)| + (i - |p.timers|)];
        ValidTimer(w, t);
      }
    }
  }

  lemma MergeValid(p: Page, e: nat, w: World)
    requires e < |p.rows| && PageValid(p) && Grows(View(p, e), w) && Valid(w)
    ensures PageValid(Merge(p, e, w))
  {
    MergeRooted(p, e, w);
    forall f | 0 <= f < |p.rows| ensures Valid(View(Merge(p, e, w), f)) {
      if f == e {
        MergeView(p, e, w);
      } else {
        MergeOthers(p, e, w, f);
        AsideKeeps(View(p, f), w.readings, w.interval);
      }
    }
  }

  /** A timer of the shared list is under way for its element. */
  lemma SharedLive(p: Page, i: nat)
    requires PageValid(p) && i < |p.timers|
    ensures var t := p.timers[i];
            && t.elem < |p.rows| && var w := View(p, t.elem);
            && t in w.timers && t.anim in w.anims && Pair(t) in (Pairs(w.timers) - {}) + {}
            && t.prop in w.anims[t.anim].done && !w.anims[t.anim].done[t.prop]
  {
    var t := p.timers[i];
    OwnIn(p.timers, t.elem, t);
    assert t in p.timers;
    assert Valid(View(p, t.elem));
    assert Pair(t) in Pairs(Own(p.timers, t.elem));
  }

  // ---- No property twice ---------------------------------------------------------------

  function Key(t: Timer): (nat, nat, string) {
    (t.elem, t.anim, t.prop)
  }

  ghost predicate DistinctKeys(ts: seq<Timer>) {
    forall i, j :: 0 <= i < j < |ts| ==> Key(ts[i]) != Key(ts[j])
  }

  lemma {:induction false} OwnDistinct(ts: seq<Timer>)
    requires forall e: nat :: DistinctPairs(Own(ts, e))
    ensures DistinctKeys(ts)
    decreases |ts|
  {
    if ts != [] {
      var t, rest := ts[0], ts[1..];
      forall e: nat ensures DistinctPairs(Own(rest, e)) {
        assert DistinctPairs(Own(ts, e));
        assert forall i :: 0 <= i < |Own(rest, e)| ==>
                 Own(rest, e)[i] == Own(ts, e)[if t.elem == e then i + 1 else i];
      }
      OwnDistinct(rest);
      forall j | 0 < j < |ts| ensures Key(t) != Key(ts[j]) {
        OwnIn(rest, t.elem, ts[j]);
        assert ts[j] == rest[j - 1];
        if ts[j].elem == t.elem {
          var k :| 0 <= k < |Own(rest, t.elem)| && Own(rest, t.elem)[k] == ts[j];
          assert Own(ts, t.elem)[0] == t && Own(ts, t.elem)[k + 1] == ts[j];
          assert DistinctPairs(Own(ts, t.elem));
        }
      }
      forall i, j | 0 < i < j < |ts| ensures Key(ts[i]) != Key(ts[j]) {
        assert rest[i - 1] == ts[i] && rest[j - 1] == ts[j];
      }
    }
  }
}
