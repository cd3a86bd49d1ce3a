/**
 Animations of one element (debian/missing-sources/jquery.js:5387-5470, 5528-5537,
 5591-5609, 5637-5701).  An animation runs one timer per property.  Queued animations
 wait on the element's fx queue (1101-1166): completing one takes the next off the
 queue and starts it, in the middle of a step.  Animations and elements are told apart
 by number.
 */
module FxTimers {
  datatype Timer = Timer(elem: nat, anim: nat, prop: string, start: int)

  /**
   `done` is `curAnim`, by whether the entry is `true`; `completed` counts the calls of
   `complete`; `queued` is false for an animation started with `queue: false`.
   */
  datatype Animation = Animation(duration: int, done: map<string, bool>, completed: nat, queued: bool)

  type Animations = map<nat, Animation>

  /** An animation waiting on the queue. */
  datatype Plan = Plan(anim: nat, duration: int, props: seq<string>)

  /**
   One element and what it sees of the page: `timers` are its own among all timers.
   `readings` counts the readings of the clock so far.  `busy` is the sentinel at the
   head of the queue, `queue` what follows it.  The rest is history: `current` is the
   animation behind the sentinel, `strays` are queued animations that run on although
   the queue has moved past them, `made` lists the timers ever put into the list.
   */
  datatype World = World(
    elem: nat,
    readings: nat,
    timers: seq<Timer>,
    interval: bool,
    anims: Animations,
    busy: bool,
    queue: seq<Plan>,
    current: nat,
    strays: set<nat>,
    begun: seq<nat>,
    submitted: seq<nat>,
    made: seq<Timer>)

  predicate AllDone(done: map<string, bool>) {
    forall p :: p in done ==> done[p]
  }

  /** A property ends; the last one to end completes its animation. */
  function Finish(anims: Animations, a: nat, p: string): Animations
    requires a in anims
  {
    var done := anims[a].done[p := true];
    anims[a := anims[a].(done := done,
                         completed := anims[a].completed + if AllDone(done) then 1 else 0)]
  }

  function Registered(duration: int, props: seq<string>, queued: bool): Animation {
    Animation(duration, map p | p in props :: false, if props == [] then 1 else 0, queued)
  }

  // ---- What the calls do -----------------------------------------------------------

  type Clock = nat -> int

  /** The test of `step`, which reads the clock. */
  predicate GoesOn(c: Clock, w: World, t: Timer)
    requires t.anim in w.anims
  {
    c(w.readings) < w.anims[t.anim].duration + t.start
  }

  /** The queued animations still under way, once the queue moves on. */
  function Left(w: World): set<nat> {
    set a | a in w.strays + (if w.busy then {w.current} else {}) && a in w.anims && !AllDone(w.anims[a].done)
  }

  /** The head of the queue begins, behind a sentinel. */
  function Begun(w: World): World
    requires w.queue != []
  {
    var p := w.queue[0];
    w.(anims := w.anims[p.anim := Registered(p.duration, p.props, true)], busy := true,
       queue := w.queue[1..], current := p.anim, strays := Left(w), begun := w.begun + [p.anim])
  }

  /** `step` without `gotoEnd`: the last property to end calls `complete`, which dequeues. */
  function Stepped(c: Clock, w: World, t: Timer): (r: World)
    requires t.anim in w.anims
    ensures Shifts(w, r) && (|r.queue| == |w.queue| ==> r.timers == w.timers)
    decreases |w.queue|, 2
  {
    var u := w.(readings := w.readings + 1);
    if GoesOn(c, w, t) then u
    else
      var v := u.(anims := Finish(w.anims, t.anim, t.prop));
      if v.anims[t.anim].queued && AllDone(v.anims[t.anim].done) then Dequeued(c, v) else v
  }

  /** `dequeue`: the sentinel goes, and the next animation begins behind a new one. */
  function Dequeued(c: Clock, w: World): (r: World)
    ensures Shifts(w, r) && (|r.queue| == |w.queue| ==> r.timers == w.timers)
    decreases |w.queue|, 1
  {
    if w.queue == [] then w.(busy := false, strays := Left(w))
    else Started(c, Begun(w), w.queue[0].anim, w.queue[0].props)
  }

  /** The loop of `animate` over its properties. */
  function Started(c: Clock, w: World, a: nat, props: seq<string>): (r: World)
    requires a in w.anims
    ensures Shifts(w, r)
    decreases |w.queue|, 4, |props|
  {
    if props == [] then w else Started(c, Opened(c, w, a, props[0]), a, props[1..])
  }

  /** A timer enters the list, and the interval runs. */
  function Pushed(w: World, t: Timer): World {
    w.(timers := w.timers + [t], made := w.made + [t], interval := true)
  }

  /** `custom`: the first step at once, then a timer if the property goes on. */
  function Opened(c: Clock, w: World, a: nat, p: string): (r: World)
    requires a in w.anims
    ensures Shifts(w, r)
    decreases |w.queue|, 3
  {
    var t := Timer(w.elem, a, p, c(w.readings));
    var v := w.(readings := w.readings + 1);
    var r := Stepped(c, v, t);
    if GoesOn(c, v, t) then Pushed(r, t) else r
  }

  ghost predicate Shifts(v: World, w: World) {
    |w.queue| <= |v.queue| && v.anims.Keys <= w.anims.Keys && |v.timers| <= |w.timers|
  }

  // ---- Properties under way -------------------------------------------------------

  /**
   `live` is the set of properties under way: exactly those not done.  Every
   animation has been completed once if all its properties are done, else not at all.
   */
  ghost predicate Consistent(anims: Animations, live: set<(nat, string)>) {
    && (forall x :: x in live ==> x.0 in anims && x.1 in anims[x.0].done && !anims[x.0].done[x.1])
    && (forall a, p :: a in anims && p in anims[a].done && !anims[a].done[p] ==> (a, p) in live)
    && forall a :: a in anims ==> anims[a].completed == if AllDone(anims[a].done) then 1 else 0
  }

  /** Ending one live property: complete fires iff it was its animation's last. */
  lemma FinishKeeps(anims: Animations, live: set<(nat, string)>, a: nat, p: string)
    requires Consistent(anims, live) && (a, p) in live
    ensures var after := Finish(anims, a, p);
            && after.Keys == anims.Keys && Consistent(after, live - {(a, p)})
            && (forall b :: b in anims && b != a ==> after[b] == anims[b])
            && after[a].duration == anims[a].duration && after[a].queued == anims[a].queued
            && (after[a].completed == 1 <==> forall x :: x in live && x.0 == a ==> x == (a, p))
            && anims[a].completed == 0
  {
    var after := Finish(anims, a, p);
    LastOne(anims, live, a, p);
    assert forall b, q :: b in after && q in after[b].done && !after[b].done[q] ==>
                            !anims[b].done[q] && (b, q) != (a, p);
    assert p in anims[a].done;
  }

  lemma LastOne(anims: Animations, live: set<(nat, string)>, a: nat, p: string)
    requires Consistent(anims, live) && (a, p) in live
    ensures AllDone(anims[a].done[p := true]) <==> forall x :: x in live && x.0 == a ==> x == (a, p)
  {
    var done := anims[a].done[p := true];
    if AllDone(done) {
      forall x | x in live && x.0 == a ensures x == (a, p) {
        assert x.1 in done;
      }
    } else {
      var q :| q in done && !done[q];
      assert (a, q) in live;
    }
  }

  // ---- Undefined target values ------------------------------------------------------

  /** `jQuery.extend({}, prop)`: a property with an undefined value has a timer, but no entry in `curAnim`. */
  function Listing(duration: int, defined: set<string>): Animation {
    Animation(duration, map p | p in defined :: false, 0, true)
  }

  /** The properties end in this order. */
  function EndAll(one: Animation, order: seq<string>): Animation {
    if order == [] then one
    else
      var before := EndAll(one, order[..|order| - 1]);
      Finish(map[0 := before], 0, order[|order| - 1])[0]
  }

  lemma {:induction false} EndAllDone(duration: int, defined: set<string>, order: seq<string>)
    ensures var one := EndAll(Listing(duration, defined), order);
            && (forall p :: p in one.done <==> p in defined || p in order)
            && (forall p :: p in one.done ==> (one.done[p] <==> p in order))
            && (one.completed == 0 <==> order == [] || exists p :: p in defined && p !in order)
    decreases |order|
  {
    if order != [] {
      var init, last := order[..|order| - 1], order[|order| - 1];
      EndAllDone(duration, defined, init);
      assert order == init + [last];
      var one := EndAll(Listing(duration, defined), order);
      assert forall p :: p in one.done <==> p in defined || p in order;
      assert forall p :: p in one.done ==> (one.done[p] <==> p in order);
      if p :| p in defined && p !in order {
        assert p in one.done && !one.done[p];
      }
    }
  }

  /**
   `complete` fires exactly once iff the last property to end has a defined value, or is
   the only one: an undefined one that ends after the defined ones fires it again.
   */
  lemma CompletesOnceExactly(duration: int, defined: set<string>, order: seq<string>)
    requires order != [] && DistinctProps(order) && forall p :: p in defined ==> p in order
    ensures EndAll(Listing(duration, defined), order).completed == 1 <==>
            |order| == 1 || order[|order| - 1] in defined
  {
    var init, last := order[..|order| - 1], order[|order| - 1];
    assert order == init + [last] && last !in init;
    EndAllDone(duration, defined, init);
    EndAllDone(duration, defined, order);
    EndLast(Listing(duration, defined), order);
  }

  lemma EndLast(one: Animation, order: seq<string>)
    requires order != [] && AllDone(EndAll(one, order).done)
    ensures EndAll(one, order).completed == EndAll(one, order[..|order| - 1]).completed + 1
  {
  }

  /** `{height: 100, width: undefined}`, of which `height` ends first: `complete` fires twice. */
  lemma UndefinedCompletesTwice(duration: int)
    ensures EndAll(Listing(duration, {"height"}), ["height", "width"]).completed == 2
  {
    var order := ["height", "width"];
    assert order[..1] == ["height"] && order[..1][..0] == [];
    EndAllDone(duration, {"height"}, order[..1]);
    EndAllDone(duration, {"height"}, order);
  }

  // ---- Timers and their properties ---------------------------------------------

  function Pair(t: Timer): (nat, string) {
    (t.anim, t.prop)
  }

  function Pairs(ts: seq<Timer>): set<(nat, string)> {
    set t | t in ts :: Pair(t)
  }

  ghost predicate DistinctPairs(ts: seq<Timer>) {
    forall i, j :: 0 <= i < j < |ts| ==> Pair(ts[i]) != Pair(ts[j])
  }

  function Without(ts: seq<Timer>, i: nat): seq<Timer>
    requires i < |ts|
  {
    ts[..i] + ts[i + 1..]
  }

  lemma DropPair(ts: seq<Timer>, k: nat)
    requires DistinctPairs(ts) && k < |ts|
    ensures Pairs(Without(ts, k)) == Pairs(ts) - {Pair(ts[k])}
    ensures DistinctPairs(Without(ts, k))
  {
    var less := Without(ts, k);
    assert forall i :: 0 <= i < |less| ==> less[i] == ts[if i < k then i else i + 1];
    forall x | x in Pairs(less) ensures x in Pairs(ts) && x != Pair(ts[k]) {
      var i :| 0 <= i < |less| && Pair(less[i]) == x;
      assert ts[if i < k then i else i + 1] == less[i];
    }
    forall x | x in Pairs(ts) && x != Pair(ts[k]) ensures x in Pairs(less) {
      var i :| 0 <= i < |ts| && Pair(ts[i]) == x;
      assert less[if i < k then i else i - 1] == ts[i];
    }
    forall i, j | 0 <= i < j < |less| ensures Pair(less[i]) != Pair(less[j]) {
      var m, n := if i < k then i else i + 1, if j < k then j else j + 1;
      assert Pair(ts[m]) != Pair(ts[n]);
    }
  }

  lemma AddPair(ts: seq<Timer>, t: Timer)
    requires DistinctPairs(ts) && Pair(t) !in Pairs(ts)
    ensures DistinctPairs(ts + [t]) && Pairs(ts + [t]) == Pairs(ts) + {Pair(t)}
  {
    forall i | 0 <= i < |ts| ensures Pair(ts[i]) != Pair(t) {
      assert ts[i] in ts;
    }
    forall x | x in Pairs(ts) + {Pair(t)} ensures x in Pairs(ts + [t]) {
      if x in Pairs(ts) {
        var u :| u in ts && Pair(u) == x;
        assert u in ts + [t];
      } else {
        assert t in ts + [t];
      }
    }
  }

  /** The properties from position `i` on, as pairs. */
  function PairsFrom(a: nat, props: seq<string>, i: nat): set<(nat, string)>
    requires i <= |props|
    decreases |props| - i
  {
    if i == |props| then {} else {(a, props[i])} + PairsFrom(a, props, i + 1)
  }

  lemma {:induction false} PairsFromMembers(a: nat, props: seq<string>, i: nat)
    requires i <= |props|
    ensures forall x :: x in PairsFrom(a, props, i) <==> x.0 == a && x.1 in props[i..]
    decreases |props| - i
  {
    if i < |props| {
      PairsFromMembers(a, props, i + 1);
      assert props[i..] == [props[i]] + props[i + 1..];
    }
  }

  ghost predicate DistinctProps(props: seq<string>) {
    forall i, j :: 0 <= i < j < |props| ==> props[i] != props[j]
  }

  lemma PairsFromStep(a: nat, props: seq<string>, i: nat)
    requires i < |props| && DistinctProps(props)
    ensures (a, props[i]) in PairsFrom(a, props, i)
    ensures PairsFrom(a, props, i) - {(a, props[i])} == PairsFrom(a, props, i + 1)
  {
    PairsFromMembers(a, props, i + 1);
    assert props[i] !in props[i + 1..];
  }

  // ---- The invariant ------------------------------------------------------------

  function Ids(q: seq<Plan>): seq<nat> {
    seq(|q|, i requires 0 <= i < |q| => q[i].anim)
  }

  ghost predicate PlanOk(w: World, p: Plan) {
    p.anim !in w.anims && p.props != [] && DistinctProps(p.props)
  }

  /** The queued animations under way are the strays and the one behind the sentinel. */
  ghost predicate Owed(w: World, over: bool) {
    && (forall a :: a in w.anims && w.anims[a].queued && !AllDone(w.anims[a].done) ==>
          a in w.strays || (w.busy && a == w.current))
    && (forall a :: a in w.strays ==> a in w.anims && w.anims[a].queued && (over || !AllDone(w.anims[a].done)))
    && (w.busy ==> w.current in w.anims && w.anims[w.current].queued && w.current !in w.strays)
    && (w.busy && !over ==> !AllDone(w.anims[w.current].done))
    && (w.busy ==> w.begun != [] && w.current == w.begun[|w.begun| - 1])
  }

  /** Queued animations are registered as they begin, each once and in order. */
  ghost predicate Listed(w: World) {
    && (forall i :: 0 <= i < |w.queue| ==> PlanOk(w, w.queue[i]))
    && (forall i, j :: 0 <= i < j < |w.queue| ==> w.queue[i].anim != w.queue[j].anim)
    && w.begun + Ids(w.queue) == w.submitted
    && (forall a :: a in w.begun <==> a in w.anims && w.anims[a].queued)
    && forall i, j :: 0 <= i < j < |w.begun| ==> w.begun[i] != w.begun[j]
  }

  /** `over` is the moment between the end of a queued animation and the dequeue its `complete` performs. */
  ghost predicate Chained(w: World, over: bool) {
    Owed(w, over) && Listed(w) && (!w.busy && !over ==> w.queue == [])
  }

  /**
   `off` are properties that have ended but whose timer is still in the list,
   `extra` those under way whose timer is still to be made.
   */
  ghost predicate Placed(w: World, off: set<(nat, string)>, extra: set<(nat, string)>) {
    && DistinctPairs(w.timers) && off <= Pairs(w.timers) && extra !! Pairs(w.timers)
    && (forall x :: x in Pairs(w.timers) ==> x.0 in w.anims)
    && Consistent(w.anims, (Pairs(w.timers) - off) + extra)
    && (w.timers != [] ==> w.interval)
  }

  ghost predicate Inv(w: World, off: set<(nat, string)>, extra: set<(nat, string)>, over: bool) {
    Placed(w, off, extra) && Chained(w, over)
  }

  ghost predicate Valid(w: World) {
    Inv(w, {}, {}, false)
  }

  // ---- How each change keeps it ---------------------------------------------------

  lemma FinishListed(w: World, a: nat, p: string)
    requires Listed(w) && a in w.anims
    ensures Listed(w.(anims := Finish(w.anims, a, p)))
  {
    var after := w.(anims := Finish(w.anims, a, p));
    forall i | 0 <= i < |w.queue| ensures PlanOk(after, w.queue[i]) {
      assert PlanOk(w, w.queue[i]);
    }
  }

  lemma FinishOwed(w: World, a: nat, p: string)
    requires Owed(w, false) && a in w.anims
    ensures var after := w.(anims := Finish(w.anims, a, p));
            Owed(after, w.anims[a].queued && AllDone(after.anims[a].done))
  {
    var after := w.(anims := Finish(w.anims, a, p));
    assert AllDone(w.anims[a].done) ==> AllDone(after.anims[a].done);
  }

  /** A property ends: the invariant is kept, up to the dequeue if it was the last of a queued animation. */
  lemma EndKeeps(w: World, off: set<(nat, string)>, extra: set<(nat, string)>, a: nat, p: string)
    requires Inv(w, off, extra, false) && (a, p) in (Pairs(w.timers) - off) + extra
    ensures a in w.anims
    ensures var after := w.(anims := Finish(w.anims, a, p));
            Inv(after, if (a, p) in extra then off else off + {(a, p)}, extra - {(a, p)},
                w.anims[a].queued && AllDone(after.anims[a].done))
  {
    var live := (Pairs(w.timers) - off) + extra;
    FinishKeeps(w.anims, live, a, p);
    FinishListed(w, a, p);
    FinishOwed(w, a, p);
    var offNow, extraNow := if (a, p) in extra then off else off + {(a, p)}, extra - {(a, p)};
    assert (Pairs(w.timers) - offNow) + extraNow == live - {(a, p)};
  }

  lemma RegisterConsistent(anims: Animations, live: set<(nat, string)>,
                           a: nat, duration: int, props: seq<string>, queued: bool)
    requires Consistent(anims, live) && a !in anims
    ensures Consistent(anims[a := Registered(duration, props, queued)], live + PairsFrom(a, props, 0))
    ensures props != [] <==> !AllDone(Registered(duration, props, queued).done)
  {
    PairsFromMembers(a, props, 0);
    assert props[0..] == props;
    var one := Registered(duration, props, queued);
    if props != [] {
      assert props[0] in one.done && !one.done[props[0]];
    }
  }

  /** A new animation has all its properties under way. */
  lemma RegisterPlaced(w: World, off: set<(nat, string)>, extra: set<(nat, string)>,
                       a: nat, duration: int, props: seq<string>, queued: bool)
    requires Placed(w, off, extra) && a !in w.anims
    ensures Placed(w.(anims := w.anims[a := Registered(duration, props, queued)]), off, extra + PairsFrom(a, props, 0))
    ensures extra !! PairsFrom(a, props, 0)
    ensures props != [] <==> !AllDone(Registered(duration, props, queued).done)
  {
    PairsFromMembers(a, props, 0);
    var live := (Pairs(w.timers) - off) + extra;
    assert (Pairs(w.timers) - off) + (extra + PairsFrom(a, props, 0)) == live + PairsFrom(a, props, 0);
    RegisterConsistent(w.anims, live, a, duration, props, queued);
  }

  lemma BeginListed(w: World)
    requires Listed(w) && w.queue != []
    ensures Listed(Begun(w)) && PlanOk(w, w.queue[0])
  {
    var p, after := w.queue[0], Begun(w);
    assert PlanOk(w, p);
    forall i | 0 <= i < |after.queue| ensures PlanOk(after, after.queue[i]) {
      assert after.queue[i] == w.queue[i + 1] && PlanOk(w, w.queue[i + 1]);
    }
    assert Ids(w.queue) == [p.anim] + Ids(after.queue);
    forall i, j | 0 <= i < j < |after.begun| ensures after.begun[i] != after.begun[j] {
      assert w.begun[i] in w.begun;
    }
  }

  /** The next animation off the queue becomes the current one, with all its properties under way. */
  lemma BeginKeeps(w: World, off: set<(nat, string)>, extra: set<(nat, string)>)
    requires Inv(w, off, extra, true) && w.queue != []
    ensures var p := w.queue[0];
            && Inv(Begun(w), off, extra + PairsFrom(p.anim, p.props, 0), false)
            && extra !! PairsFrom(p.anim, p.props, 0) && PlanOk(w, p)
  {
    var p, after := w.queue[0], Begun(w);
    BeginListed(w);
    RegisterPlaced(w, off, extra, p.anim, p.duration, p.props, true);
    assert Placed(after, off, extra + PairsFrom(p.anim, p.props, 0));
  }

  /** With nothing waiting, the dequeue removes the sentinel. */
  lemma RestKeeps(w: World, off: set<(nat, string)>, extra: set<(nat, string)>)
    requires Inv(w, off, extra, true) && w.queue == []
    ensures Inv(w.(busy := false, strays := Left(w)), off, extra, false)
  {
  }

  lemma PushKeeps(w: World, off: set<(nat, string)>, extra: set<(nat, string)>, t: Timer)
    requires Inv(w, off, extra, false) && Pair(t) in extra
    ensures Inv(Pushed(w, t), off, extra - {Pair(t)}, false)
  {
    AddPair(w.timers, t);
    var after := Pushed(w, t);
    assert (Pairs(after.timers) - off) + (extra - {Pair(t)}) == (Pairs(w.timers) - off) + extra;
    assert Listed(after) by {
      forall i | 0 <= i < |w.queue| ensures PlanOk(after, w.queue[i]) {
        assert PlanOk(w, w.queue[i]);
      }
    }
  }

  lemma SpliceKeeps(w: World, i: nat)
    requires i < |w.timers| && Inv(w, {Pair(w.timers[i])}, {}, false)
    ensures Valid(w.(timers := Without(w.timers, i)))
  {
    DropPair(w.timers, i);
    var after := w.(timers := Without(w.timers, i));
    assert (Pairs(after.timers) - {}) + {} == (Pairs(w.timers) - {Pair(w.timers[i])}) + {};
    forall j | 0 <= j < |w.queue| ensures PlanOk(after, w.queue[j]) {
      assert PlanOk(w, w.queue[j]);
    }
  }

  // ---- What a call leaves in place -------------------------------------------------

  ghost predicate Matches(one: Animation, p: Plan) {
    one.duration == p.duration && one.queued && one.done.Keys == (set q | q in p.props)
  }

  /** Plans leave the queue at its head, to be registered as they are; nothing is submitted. */
  ghost predicate QueueMoves(v: World, w: World) {
    && w.submitted == v.submitted && v.begun <= w.begun && |w.queue| <= |v.queue|
    && w.queue == v.queue[|v.queue| - |w.queue|..]
    && forall i :: 0 <= i < |v.queue| - |w.queue| ==>
         v.queue[i].anim in w.anims && Matches(w.anims[v.queue[i].anim], v.queue[i])
  }

  /** Properties only ever end, and only those of the animations `touched`. */
  ghost predicate AnimMoves(one: Animation, two: Animation) {
    && two.duration == one.duration && two.queued == one.queued && two.done.Keys == one.done.Keys
    && forall p :: p in one.done && one.done[p] ==> two.done[p]
  }

  ghost predicate AnimsMove(v: Animations, w: Animations, touched: set<nat>) {
    && v.Keys <= w.Keys
    && (forall a :: a in v ==> AnimMoves(v[a], w[a]) && (a !in touched ==> w[a] == v[a]))
    && forall a :: a in w && a !in v ==> w[a].queued
  }

  /** The element's own timers are appended, the clock is read on, the interval is not stopped. */
  ghost predicate Grows(v: World, w: World) {
    && w.elem == v.elem && v.readings <= w.readings && (v.interval ==> w.interval)
    && v.timers <= w.timers && w.made == v.made + w.timers[|v.timers|..]
    && forall i :: |v.timers| <= i < |w.timers| ==> w.timers[i].elem == v.elem
  }

  /** Timers are appended only for the animations `own` and those that begin meanwhile. */
  ghost predicate TimersMove(v: World, w: World, own: set<nat>) {
    && Grows(v, w)
    && forall i :: |v.timers| <= i < |w.timers| ==> w.timers[i].anim in own || w.timers[i].anim !in v.anims
  }

  ghost predicate Extends(v: World, w: World, own: set<nat>, touched: set<nat>) {
    && QueueMoves(v, w) && AnimsMove(v.anims, w.anims, touched) && TimersMove(v, w, own)
    && (|w.queue| == |v.queue| ==> w.anims.Keys == v.anims.Keys && w.begun == v.begun)
  }

  lemma SplitTail(a: seq<Timer>, b: seq<Timer>, c: seq<Timer>)
    requires a <= b <= c
    ensures b[|a|..] + c[|b|..] == c[|a|..]
  {
  }

  lemma SplitQueue(a: seq<Plan>, b: seq<Plan>, c: seq<Plan>)
    requires |c| <= |b| <= |a| && b == a[|a| - |b|..] && c == b[|b| - |c|..]
    ensures c == a[|a| - |c|..]
  {
  }

  lemma QueueMovesTransitive(u: World, v: World, w: World, touched: set<nat>)
    requires QueueMoves(u, v) && QueueMoves(v, w) && AnimsMove(v.anims, w.anims, touched)
    ensures QueueMoves(u, w)
  {
    SplitQueue(u.queue, v.queue, w.queue);
    forall i | 0 <= i < |u.queue| - |w.queue|
      ensures u.queue[i].anim in w.anims && Matches(w.anims[u.queue[i].anim], u.queue[i])
    {
      if i >= |u.queue| - |v.queue| {
        assert v.queue[i - (|u.queue| - |v.queue|)] == u.queue[i];
      } else {
        assert AnimMoves(v.anims[u.queue[i].anim], w.anims[u.queue[i].anim]);
      }
    }
  }

  lemma GrowsTransitive(u: World, v: World, w: World)
    requires Grows(u, v) && Grows(v, w)
    ensures Grows(u, w)
  {
    SplitTail(u.timers, v.timers, w.timers);
    assert w.made == u.made + (v.timers[|u.timers|..] + w.timers[|v.timers|..]);
    forall i | |u.timers| <= i < |w.timers| ensures w.timers[i].elem == u.elem {
      assert i < |v.timers| ==> w.timers[i] == v.timers[i];
    }
  }

  lemma TimersMoveTransitive(u: World, v: World, w: World, own: set<nat>, own2: set<nat>)
    requires TimersMove(u, v, own) && TimersMove(v, w, own2) && u.anims.Keys <= v.anims.Keys
    requires forall a :: a in own2 && a in u.anims ==> a in own
    ensures TimersMove(u, w, own)
  {
    GrowsTransitive(u, v, w);
    forall i | |u.timers| <= i < |w.timers| ensures w.timers[i].anim in own || w.timers[i].anim !in u.anims {
      if i < |v.timers| {
        assert w.timers[i] == v.timers[i];
      }
    }
  }

  lemma AnimsMoveTransitive(u: Animations, v: Animations, w: Animations, touched: set<nat>, touched2: set<nat>)
    requires AnimsMove(u, v, touched) && AnimsMove(v, w, touched2)
    requires forall a :: a in touched2 && a in u ==> a in touched
    ensures AnimsMove(u, w, touched)
  {
    forall a | a in u ensures AnimMoves(u[a], w[a]) && (a !in touched ==> w[a] == u[a]) {
      assert AnimMoves(u[a], v[a]) && AnimMoves(v[a], w[a]);
    }
    forall a | a in w && a !in u ensures w[a].queued {
      if a in v {
        assert AnimMoves(v[a], w[a]);
      }
    }
  }

  lemma ExtendsTransitive(u: World, v: World, w: World,
                          own: set<nat>, touched: set<nat>, own2: set<nat>, touched2: set<nat>)
    requires Extends(u, v, own, touched) && Extends(v, w, own2, touched2)
    requires forall a :: a in own2 && a in u.anims ==> a in own
    requires forall a :: a in touched2 && a in u.anims ==> a in touched
    ensures Extends(u, w, own, touched)
  {
    QueueMovesTransitive(u, v, w, touched2);
    TimersMoveTransitive(u, v, w, own, own2);
    AnimsMoveTransitive(u.anims, v.anims, w.anims, touched, touched2);
  }

  lemma BeginExtends(w: World)
    requires w.queue != [] && PlanOk(w, w.queue[0])
    ensures Extends(w, Begun(w), {}, {})
  {
  }

  lemma FinishExtends(w: World, a: nat, p: string)
    requires a in w.anims && p in w.anims[a].done
    ensures Extends(w, w.(readings := w.readings + 1, anims := Finish(w.anims, a, p)), {}, {a})
  {
    var after := Finish(w.anims, a, p);
    assert after[a].done.Keys == w.anims[a].done.Keys;
    assert AnimMoves(w.anims[a], after[a]);
  }

  // ---- The invariant over whole calls ----------------------------------------------

  ghost predicate SameQueue(v: World, w: World) {
    && w.busy == v.busy && w.queue == v.queue && w.current == v.current && w.strays == v.strays
    && w.begun == v.begun && w.submitted == v.submitted
  }

  lemma ReadKeeps(w: World, n: nat, off: set<(nat, string)>, extra: set<(nat, string)>, over: bool)
    requires Inv(w, off, extra, over)
    ensures Inv(w.(readings := n), off, extra, over)
  {
    var r := w.(readings := n);
    assert Listed(r) by {
      forall i | 0 <= i < |w.queue| ensures PlanOk(r, w.queue[i]) {
        assert PlanOk(w, w.queue[i]);
      }
    }
  }

  lemma ReadExtends(w: World, own: set<nat>, touched: set<nat>)
    ensures Extends(w, w.(readings := w.readings + 1), own, touched)
  {
    assert w.made == w.made + w.timers[|w.timers|..];
  }

  /** The end of a property, before the dequeue if any. */
  function Ended(w: World, t: Timer): World
    requires t.anim in w.anims
  {
    w.(readings := w.readings + 1, anims := Finish(w.anims, t.anim, t.prop))
  }

  /** The property is the last of a queued animation. */
  predicate IsLast(w: World, t: Timer)
    requires t.anim in w.anims
  {
    w.anims[t.anim].queued && AllDone(w.anims[t.anim].done[t.prop := true])
  }

  lemma EndedPlaced(w: World, t: Timer, off: set<(nat, string)>, extra: set<(nat, string)>)
    requires Inv(w, off, extra, false) && Pair(t) in (Pairs(w.timers) - off) + extra
    ensures t.anim in w.anims
    ensures Inv(Ended(w, t), if Pair(t) in extra then off else off + {Pair(t)}, extra - {Pair(t)}, IsLast(w, t))
  {
    EndKeeps(w, off, extra, t.anim, t.prop);
    var after := w.(anims := Finish(w.anims, t.anim, t.prop));
    var ended := if Pair(t) in extra then off else off + {Pair(t)};
    ReadKeeps(after, w.readings + 1, ended, extra - {Pair(t)}, IsLast(w, t));
  }

  lemma EndedKeeps(w: World, t: Timer, off: set<(nat, string)>, extra: set<(nat, string)>)
    requires Inv(w, off, extra, false) && Pair(t) in (Pairs(w.timers) - off) + extra
    ensures t.anim in w.anims && t.prop in w.anims[t.anim].done && !w.anims[t.anim].done[t.prop]
    ensures Inv(Ended(w, t), if Pair(t) in extra then off else off + {Pair(t)}, extra - {Pair(t)}, IsLast(w, t))
    ensures Extends(w, Ended(w, t), {}, {t.anim})
  {
    EndedPlaced(w, t, off, extra);
    FinishExtends(w, t.anim, t.prop);
  }

  /** The property has ended; a queued animation that is complete has made way for the next. */
  ghost predicate EndsWell(w: World, t: Timer, r: World, off: set<(nat, string)>, extra: set<(nat, string)>) {
    && Inv(r, if Pair(t) in extra then off else off + {Pair(t)}, extra - {Pair(t)}, false)
    && Extends(w, r, {}, {t.anim}) && r.readings > w.readings
    && t.anim in w.anims && r.anims[t.anim] == Ended(w, t).anims[t.anim]
    && if IsLast(w, t) then r.strays == Left(Ended(w, t)) else SameQueue(w, r) && r.readings == w.readings + 1
  }

  lemma EndedWell(w: World, t: Timer, off: set<(nat, string)>, extra: set<(nat, string)>)
    requires Inv(w, off, extra, false) && Pair(t) in (Pairs(w.timers) - off) + extra
    requires t.anim in w.anims && !IsLast(w, t)
    ensures EndsWell(w, t, Ended(w, t), off, extra)
  {
    EndedKeeps(w, t, off, extra);
  }

  lemma DequeuedWell(w: World, t: Timer, r: World, off: set<(nat, string)>, extra: set<(nat, string)>)
    requires t.anim in w.anims && Extends(w, Ended(w, t), {}, {t.anim}) && IsLast(w, t)
    requires Inv(r, if Pair(t) in extra then off else off + {Pair(t)}, extra - {Pair(t)}, false)
    requires Extends(Ended(w, t), r, {}, {}) && r.strays == Left(Ended(w, t))
    ensures EndsWell(w, t, r, off, extra)
  {
    ExtendsTransitive(w, Ended(w, t), r, {}, {t.anim}, {}, {});
  }

  /** A step ends its property if its time is up. */
  lemma StepEnds(c: Clock, w: World, t: Timer, r: World, off: set<(nat, string)>, extra: set<(nat, string)>)
    requires Inv(w, off, extra, false) && Pair(t) in (Pairs(w.timers) - off) + extra
    requires t.anim in w.anims && !GoesOn(c, w, t) && r == Stepped(c, w, t)
    ensures EndsWell(w, t, r, off, extra)
    decreases |w.queue|, 2
  {
    if IsLast(w, t) {
      EndedKeeps(w, t, off, extra);
      DequeueKeeps(c, Ended(w, t), r, if Pair(t) in extra then off else off + {Pair(t)}, extra - {Pair(t)});
      DequeuedWell(w, t, r, off, extra);
    } else {
      EndedWell(w, t, off, extra);
    }
  }

  lemma Rests(w: World, own: set<nat>, touched: set<nat>)
    ensures Extends(w, w, own, touched)
  {
    assert w.made == w.made + w.timers[|w.timers|..];
  }

  lemma StartStep(a: nat, props: seq<string>, extra: set<(nat, string)>)
    requires props != [] && DistinctProps(props) && extra !! PairsFrom(a, props, 0)
    ensures (a, props[0]) in extra + PairsFrom(a, props, 0)
    ensures extra + PairsFrom(a, props, 0) - {(a, props[0])} == extra + PairsFrom(a, props[1..], 0)
    ensures extra !! PairsFrom(a, props[1..], 0) && DistinctProps(props[1..])
    ensures |props| > 1 ==> (a, props[1]) in PairsFrom(a, props[1..], 0)
  {
    PairsFromStep(a, props, 0);
    PairsFromMembers(a, props, 1);
    PairsFromMembers(a, props[1..], 0);
    assert PairsFrom(a, props[1..], 0) == PairsFrom(a, props, 1);
  }

  /** The strays after a dequeue are the animations under way before it. */
  ghost predicate DequeuesWell(w: World, r: World, off: set<(nat, string)>, extra: set<(nat, string)>) {
    Inv(r, off, extra, false) && Extends(w, r, {}, {}) && r.strays == Left(w)
  }

  /** Unless all properties ended, which may complete the animation, the queue is as it was. */
  ghost predicate StartsWell(w: World, a: nat, r: World, off: set<(nat, string)>, extra: set<(nat, string)>)
    requires a in w.anims
  {
    && Inv(r, off, extra, false) && Extends(w, r, {a}, {a}) && r.strays == w.strays
    && (!w.anims[a].queued || !AllDone(r.anims[a].done) ==> SameQueue(w, r))
  }

  lemma RestDequeues(w: World, off: set<(nat, string)>, extra: set<(nat, string)>)
    requires Inv(w, off, extra, true) && w.queue == []
    ensures DequeuesWell(w, w.(busy := false, strays := Left(w)), off, extra)
  {
    RestKeeps(w, off, extra);
    assert w.timers[|w.timers|..] == [];
  }

  lemma BegunDequeues(w: World, r: World, off: set<(nat, string)>, extra: set<(nat, string)>)
    requires w.queue != [] && PlanOk(w, w.queue[0]) && StartsWell(Begun(w), w.queue[0].anim, r, off, extra)
    ensures DequeuesWell(w, r, off, extra)
  {
    var a := w.queue[0].anim;
    BeginExtends(w);
    ExtendsTransitive(w, Begun(w), r, {}, {}, {a}, {a});
  }

  /** A dequeue keeps the invariant and touches no animation there was. */
  lemma DequeueKeeps(c: Clock, w: World, r: World, off: set<(nat, string)>, extra: set<(nat, string)>)
    requires Inv(w, off, extra, true) && r == Dequeued(c, w)
    ensures DequeuesWell(w, r, off, extra)
    decreases |w.queue|, 1
  {
    if w.queue == [] {
      RestDequeues(w, off, extra);
    } else {
      BeginKeeps(w, off, extra);
      StartKeeps(c, Begun(w), w.queue[0].anim, w.queue[0].props, r, off, extra);
      BegunDequeues(w, r, off, extra);
    }
  }

  lemma StartRests(w: World, a: nat, off: set<(nat, string)>, extra: set<(nat, string)>)
    requires a in w.anims && Inv(w, off, extra + {}, false)
    ensures StartsWell(w, a, w, off, extra)
  {
    Rests(w, {a}, {a});
    assert extra + {} == extra;
  }

  lemma StartsThen(w: World, a: nat, p: string, v: World, r: World,
                   off: set<(nat, string)>, more: set<(nat, string)>, extra: set<(nat, string)>)
    requires a in w.anims && OpenedWell(w, a, p, v, off, more) && a in v.anims && StartsWell(v, a, r, off, extra)
    ensures StartsWell(w, a, r, off, extra)
  {
    ExtendsTransitive(w, v, r, {a}, {a}, {a}, {a});
    assert AnimMoves(w.anims[a], v.anims[a]) && AnimMoves(v.anims[a], r.anims[a]);
    assert AllDone(v.anims[a].done) ==> AllDone(r.anims[a].done);
  }

  /** While a property is still to be opened, its animation has not ended. */
  lemma OpenedRest(w: World, a: nat, props: seq<string>, v: World,
                   off: set<(nat, string)>, extra: set<(nat, string)>)
    requires a in w.anims && props != [] && DistinctProps(props) && extra !! PairsFrom(a, props, 0)
    requires w.anims[a].queued ==> w.busy && w.current == a
    requires OpenedWell(w, a, props[0], v, off, extra + PairsFrom(a, props, 0))
    ensures Inv(v, off, extra + PairsFrom(a, props[1..], 0), false)
    ensures a in v.anims && (props[1..] != [] && v.anims[a].queued ==> v.busy && v.current == a)
  {
    StartStep(a, props, extra);
    assert AnimMoves(w.anims[a], v.anims[a]);
    if |props| > 1 {
      assert (a, props[1]) in (Pairs(v.timers) - off) + (extra + PairsFrom(a, props[1..], 0));
      assert !AllDone(v.anims[a].done);
    }
  }

  /** Starting the properties of an animation leaves each of them ended or with its own timer. */
  lemma StartKeeps(c: Clock, w: World, a: nat, props: seq<string>, r: World,
                   off: set<(nat, string)>, extra: set<(nat, string)>)
    requires Inv(w, off, extra + PairsFrom(a, props, 0), false)
    requires a in w.anims && extra !! PairsFrom(a, props, 0) && DistinctProps(props)
    requires props != [] && w.anims[a].queued ==> w.busy && w.current == a
    requires r == Started(c, w, a, props)
    ensures StartsWell(w, a, r, off, extra)
    decreases |w.queue|, 5, |props|
  {
    if props == [] {
      StartRests(w, a, off, extra);
    } else {
      var v := Opened(c, w, a, props[0]);
      StartStep(a, props, extra);
      OpenKeeps(c, w, a, props[0], v, off, extra + PairsFrom(a, props, 0));
      OpenedRest(w, a, props, v, off, extra);
      StartKeeps(c, v, a, props[1..], r, off, extra);
      StartsThen(w, a, props[0], v, r, off, extra + PairsFrom(a, props, 0), extra);
    }
  }

  ghost predicate OpenedWell(w: World, a: nat, p: string, r: World,
                             off: set<(nat, string)>, extra: set<(nat, string)>)
    requires a in w.anims
  {
    && Inv(r, off, extra - {(a, p)}, false) && Extends(w, r, {a}, {a}) && r.strays == w.strays
    && (!w.anims[a].queued || !AllDone(r.anims[a].done) ==> SameQueue(w, r))
  }

  lemma PushExtends(w: World, t: Timer, n: nat)
    requires n >= w.readings && t.elem == w.elem
    ensures Extends(w, Pushed(w.(readings := n), t), {t.anim}, {t.anim})
  {
    assert (w.timers + [t])[|w.timers|..] == [t];
  }

  /** Completing the current animation leaves the strays as they are. */
  lemma OneLeft(w: World, t: Timer)
    requires Owed(w, false) && w.busy && t.anim == w.current
    requires t.anim in w.anims && IsLast(w, t)
    ensures Left(Ended(w, t)) == w.strays
  {
  }

  /** A property that goes on gets its timer. */
  lemma OpenPushed(w: World, t: Timer, n: nat, off: set<(nat, string)>, extra: set<(nat, string)>)
    requires Inv(w, off, extra, false) && Pair(t) in extra && t.anim in w.anims && t.elem == w.elem
    requires n >= w.readings
    ensures OpenedWell(w, t.anim, t.prop, Pushed(w.(readings := n), t), off, extra)
  {
    ReadKeeps(w, n, off, extra, false);
    PushKeeps(w.(readings := n), off, extra, t);
    PushExtends(w, t, n);
  }

  lemma OpenGoesOn(c: Clock, w: World, t: Timer, r: World, off: set<(nat, string)>, extra: set<(nat, string)>)
    requires Inv(w, off, extra, false) && Pair(t) in extra && t.anim in w.anims
    requires t == Timer(w.elem, t.anim, t.prop, c(w.readings)) && GoesOn(c, w.(readings := w.readings + 1), t)
    requires r == Opened(c, w, t.anim, t.prop)
    ensures OpenedWell(w, t.anim, t.prop, r, off, extra)
  {
    assert r == Pushed(w.(readings := w.readings + 2), t);
    OpenPushed(w, t, w.readings + 2, off, extra);
  }

  lemma OpenEnded(w: World, t: Timer, r: World, off: set<(nat, string)>, extra: set<(nat, string)>)
    requires Owed(w, false) && Pair(t) in extra && t.anim in w.anims
    requires w.anims[t.anim].queued ==> w.busy && w.current == t.anim
    requires EndsWell(w.(readings := w.readings + 1), t, r, off, extra)
    ensures OpenedWell(w, t.anim, t.prop, r, off, extra)
  {
    var v := w.(readings := w.readings + 1);
    ReadExtends(w, {t.anim}, {t.anim});
    ExtendsTransitive(w, v, r, {t.anim}, {t.anim}, {}, {t.anim});
    if IsLast(v, t) {
      OneLeft(v, t);
    }
  }

  lemma OpenStops(c: Clock, w: World, t: Timer, r: World, off: set<(nat, string)>, extra: set<(nat, string)>)
    requires Inv(w, off, extra, false) && Pair(t) in extra && t.anim in w.anims
    requires w.anims[t.anim].queued ==> w.busy && w.current == t.anim
    requires !GoesOn(c, w.(readings := w.readings + 1), t) && r == Stepped(c, w.(readings := w.readings + 1), t)
    ensures OpenedWell(w, t.anim, t.prop, r, off, extra)
    decreases |w.queue|, 3
  {
    ReadKeeps(w, w.readings + 1, off, extra, false);
    StepEnds(c, w.(readings := w.readings + 1), t, r, off, extra);
    OpenEnded(w, t, r, off, extra);
  }

  /** A property opened has ended, or goes on with a timer of its own. */
  lemma OpenKeeps(c: Clock, w: World, a: nat, p: string, r: World,
                  off: set<(nat, string)>, extra: set<(nat, string)>)
    requires Inv(w, off, extra, false) && (a, p) in extra && a in w.anims
    requires w.anims[a].queued ==> w.busy && w.current == a
    requires r == Opened(c, w, a, p)
    ensures OpenedWell(w, a, p, r, off, extra)
    decreases |w.queue|, 4
  {
    var t, v := Timer(w.elem, a, p, c(w.readings)), w.(readings := w.readings + 1);
    if GoesOn(c, v, t) {
      OpenGoesOn(c, w, t, r, off, extra);
    } else {
      OpenStops(c, w, t, r, off, extra);
    }
  }
}
