/**
 What `animate` does to an element: an animation through the queue, beside it, or with
 no property at all (debian/missing-sources/jquery.js:5387-5470, 1101-1166).
 */
module FxActions {
  import opened FxTimers

  // ---- Beginning an animation ------------------------------------------------------

  /** A property opened at this reading of the clock outlasts its first step. */
  predicate Outlasts(c: Clock, reading: nat, duration: int) {
    c(reading + 1) < duration + c(reading)
  }

  /** Property `i` is opened at the `2 * i`-th reading from the first on; it ends at once, or has its own timer. */
  ghost predicate OnTime(c: Clock, first: nat, a: nat, props: seq<string>, w: World)
    requires a in w.anims
  {
    forall i :: 0 <= i < |props| ==>
      && props[i] in w.anims[a].done
      && (w.anims[a].done[props[i]] <==> !Outlasts(c, first + 2 * i, w.anims[a].duration))
      && (!w.anims[a].done[props[i]] ==> Timer(w.elem, a, props[i], c(first + 2 * i)) in w.timers)
  }

  /** The property has ended if its time is up, or else has its timer. */
  ghost predicate OpensOnTime(c: Clock, w: World, a: nat, p: string, r: World) {
    && a in w.anims && a in r.anims && p in r.anims[a].done
    && (r.anims[a].done[p] <==> !Outlasts(c, w.readings, w.anims[a].duration))
    && (!r.anims[a].done[p] ==> Timer(w.elem, a, p, c(w.readings)) in r.timers)
    && (!AllDone(r.anims[a].done) ==> r.readings == w.readings + 2)
  }

  /** A property that outlasts its opening has its timer. */
  lemma OutlastsOpens(c: Clock, w: World, t: Timer, r: World)
    requires t.anim in w.anims && t.prop in w.anims[t.anim].done && !w.anims[t.anim].done[t.prop]
    requires t == Timer(w.elem, t.anim, t.prop, c(w.readings)) && Outlasts(c, w.readings, w.anims[t.anim].duration)
    requires r == Opened(c, w, t.anim, t.prop)
    ensures OpensOnTime(c, w, t.anim, t.prop, r)
  {
    assert r == Pushed(w.(readings := w.readings + 2), t);
    assert t in w.timers + [t];
  }

  lemma EndsOnTime(c: Clock, w: World, t: Timer, r: World, off: set<(nat, string)>, extra: set<(nat, string)>)
    requires t.anim in w.anims && EndsWell(w.(readings := w.readings + 1), t, r, off, extra)
    requires t.start == c(w.readings) && !Outlasts(c, w.readings, w.anims[t.anim].duration)
    ensures OpensOnTime(c, w, t.anim, t.prop, r)
  {
  }

  lemma NotDone(w: World, off: set<(nat, string)>, extra: set<(nat, string)>, a: nat, p: string)
    requires Placed(w, off, extra) && (a, p) in extra
    ensures a in w.anims && p in w.anims[a].done && !w.anims[a].done[p]
  {
    assert (a, p) in (Pairs(w.timers) - off) + extra;
  }

  lemma TimeUpOpens(c: Clock, w: World, t: Timer, r: World, off: set<(nat, string)>, extra: set<(nat, string)>)
    requires Inv(w, off, extra, false) && Pair(t) in extra && t.anim in w.anims
    requires t == Timer(w.elem, t.anim, t.prop, c(w.readings)) && !Outlasts(c, w.readings, w.anims[t.anim].duration)
    requires r == Opened(c, w, t.anim, t.prop)
    ensures OpensOnTime(c, w, t.anim, t.prop, r)
  {
    ReadKeeps(w, w.readings + 1, off, extra, false);
    StepEnds(c, w.(readings := w.readings + 1), t, r, off, extra);
    EndsOnTime(c, w, t, r, off, extra);
  }

  lemma OpenOnTime(c: Clock, w: World, a: nat, p: string, r: World,
                   off: set<(nat, string)>, extra: set<(nat, string)>)
    requires Inv(w, off, extra, false) && (a, p) in extra && a in w.anims && r == Opened(c, w, a, p)
    ensures OpensOnTime(c, w, a, p, r)
  {
    NotDone(w, off, extra, a, p);
    if Outlasts(c, w.readings, w.anims[a].duration) {
      OutlastsOpens(c, w, Timer(w.elem, a, p, c(w.readings)), r);
    } else {
      TimeUpOpens(c, w, Timer(w.elem, a, p, c(w.readings)), r, off, extra);
    }
  }

  /** Each property either ends with its first step, exactly if its time is up by then, or goes on with its timer. */
  lemma StartOnTime(c: Clock, w: World, a: nat, props: seq<string>, r: World,
                    off: set<(nat, string)>, extra: set<(nat, string)>)
    requires Inv(w, off, extra + PairsFrom(a, props, 0), false)
    requires a in w.anims && extra !! PairsFrom(a, props, 0) && DistinctProps(props)
    requires props != [] && w.anims[a].queued ==> w.busy && w.current == a
    requires r == Started(c, w, a, props)
    ensures a in r.anims && OnTime(c, w.readings, a, props, r)
    decreases |props|
  {
    if props != [] {
      var v, rest := Opened(c, w, a, props[0]), props[1..];
      StartStep(a, props, extra);
      OpenKeeps(c, w, a, props[0], v, off, extra + PairsFrom(a, props, 0));
      OpenOnTime(c, w, a, props[0], v, off, extra + PairsFrom(a, props, 0));
      OpenedRest(w, a, props, v, off, extra);
      StartKeeps(c, v, a, rest, r, off, extra);
      StartOnTime(c, v, a, rest, r, off, extra);
      OpenedMore(v, a, props, off, extra);
      FirstOnTime(c, w, v, r, a, props, off, extra);
    }
  }

  lemma OpenedMore(v: World, a: nat, props: seq<string>, off: set<(nat, string)>, extra: set<(nat, string)>)
    requires props != [] && DistinctProps(props) && extra !! PairsFrom(a, props, 0)
    requires a in v.anims && Inv(v, off, extra + PairsFrom(a, props[1..], 0), false)
    ensures |props| > 1 ==> !AllDone(v.anims[a].done)
  {
    StartStep(a, props, extra);
    assert |props| > 1 ==> (a, props[1]) in (Pairs(v.timers) - off) + (extra + PairsFrom(a, props[1..], 0));
  }

  /** The first property stays as its opening left it. */
  lemma FirstOnTime(c: Clock, w: World, v: World, r: World, a: nat, props: seq<string>,
                    off: set<(nat, string)>, extra: set<(nat, string)>)
    requires props != [] && OpensOnTime(c, w, a, props[0], v) && v.elem == w.elem
    requires v.anims[a].duration == w.anims[a].duration && (|props| > 1 ==> !AllDone(v.anims[a].done))
    requires Extends(v, r, {a}, {a}) && Inv(r, off, extra, false) && (a, props[0]) !in off
    requires OnTime(c, v.readings, a, props[1..], r)
    ensures OnTime(c, w.readings, a, props, r)
  {
    assert AnimMoves(v.anims[a], r.anims[a]);
    var t := Timer(w.elem, a, props[0], c(w.readings));
    if !v.anims[a].done[props[0]] {
      assert t in r.timers;
      assert Pair(t) in (Pairs(r.timers) - off) + extra;
    }
    forall i | 0 < i < |props|
      ensures && props[i] in r.anims[a].done
              && (r.anims[a].done[props[i]] <==> !Outlasts(c, w.readings + 2 * i, r.anims[a].duration))
              && (!r.anims[a].done[props[i]] ==> Timer(w.elem, a, props[i], c(w.readings + 2 * i)) in r.timers)
    {
      assert props[i] == props[1..][i - 1];
      assert v.readings + 2 * (i - 1) == w.readings + 2 * i;
    }
  }

  // ---- The three ways to call it -----------------------------------------------------

  /** `animate` through the queue, beside it, or with no property at all. */
  datatype Action = Queue(plan: Plan) | Beside(plan: Plan) | Empty

  /** A new animation has a number of its own, and no property twice. */
  ghost predicate Allowed(w: World, e: Action) {
    match e
    case Queue(p) => PlanOk(w, p) && p.anim !in Ids(w.queue)
    case Beside(p) => p.anim !in w.anims && p.anim !in Ids(w.queue) && DistinctProps(p.props)
    case Empty => true
  }

  function Submit(w: World, p: Plan): World {
    w.(queue := w.queue + [p], submitted := w.submitted + [p.anim])
  }

  /** `queue`: without the sentinel at its head, the fx queue is dequeued at once. */
  function Enqueued(c: Clock, w: World, p: Plan): World {
    if w.busy then Submit(w, p) else Dequeued(c, Submit(w, p))
  }

  function Register(w: World, p: Plan): World {
    w.(anims := w.anims[p.anim := Registered(p.duration, p.props, false)])
  }

  function Acted(c: Clock, w: World, e: Action): World {
    match e
    case Queue(p) => Enqueued(c, w, p)
    case Beside(p) => Started(c, Register(w, p), p.anim, p.props)
    case Empty => Dequeued(c, w)
  }

  lemma Weakens(w: World, off: set<(nat, string)>, extra: set<(nat, string)>)
    requires Inv(w, off, extra, false)
    ensures Inv(w, off, extra, true)
  {
  }

  lemma LeftAll(w: World)
    requires Owed(w, false)
    ensures Left(w) == w.strays + if w.busy then {w.current} else {}
  {
  }

  lemma SubmitKeeps(w: World, p: Plan)
    requires Valid(w) && Allowed(w, Queue(p))
    ensures Inv(Submit(w, p), {}, {}, !w.busy) && Left(Submit(w, p)) == Left(w)
  {
    var after := Submit(w, p);
    assert Listed(after) by {
      forall i | 0 <= i < |after.queue| ensures PlanOk(after, after.queue[i]) {
        if i < |w.queue| {
          assert PlanOk(w, w.queue[i]);
        }
      }
      forall i, j | 0 <= i < j < |after.queue| ensures after.queue[i].anim != after.queue[j].anim {
        assert Ids(w.queue)[i] == w.queue[i].anim;
      }
      assert Ids(after.queue) == Ids(w.queue) + [p.anim];
      assert w.begun + (Ids(w.queue) + [p.anim]) == w.begun + Ids(w.queue) + [p.anim];
    }
  }

  lemma DequeueOnTime(c: Clock, w: World, r: World, off: set<(nat, string)>, extra: set<(nat, string)>)
    requires Inv(w, off, extra, true) && w.queue != [] && r == Dequeued(c, w)
    ensures var p := w.queue[0]; p.anim in r.anims && OnTime(c, w.readings, p.anim, p.props, r)
  {
    var p := w.queue[0];
    BeginKeeps(w, off, extra);
    StartOnTime(c, Begun(w), p.anim, p.props, r, off, extra);
  }

  /** Only this animation is new; the others, and the timers there were, stay as they are. */
  ghost predicate Joins(c: Clock, w: World, p: Plan, r: World) {
    && r.anims.Keys == w.anims.Keys + {p.anim} && (forall a :: a in w.anims ==> r.anims[a] == w.anims[a])
    && TimersMove(w, r, {p.anim}) && r.strays == w.strays
    && r.anims[p.anim].duration == p.duration && r.anims[p.anim].done.Keys == (set q | q in p.props)
    && OnTime(c, w.readings, p.anim, p.props, r)
  }

  /** The one animation waiting has begun, so nothing waits any more. */
  lemma FirstBegins(w: World, p: Plan, r: World)
    requires Listed(w) && w.queue == [] && Listed(r) && Extends(Submit(w, p), r, {}, {}) && p.anim in r.anims
    requires p.anim !in w.anims
    ensures r.queue == [] && r.begun == w.begun + [p.anim] && Matches(r.anims[p.anim], p)
  {
    var v := Submit(w, p);
    assert v.queue == [p] && w.begun + [] == w.submitted;
    assert |r.queue| == 1 ==> r.anims.Keys == v.anims.Keys;
    assert r.queue == [] && r.begun + [] == r.submitted;
    assert v.queue[0] == p;
  }

  lemma FirstJoins(c: Clock, w: World, p: Plan, r: World)
    requires Listed(w) && Listed(r) && r.begun == w.begun + [p.anim] && Matches(r.anims[p.anim], p)
    requires p.anim !in w.anims && Extends(Submit(w, p), r, {}, {}) && r.strays == w.strays
    requires OnTime(c, w.readings, p.anim, p.props, r)
    ensures Joins(c, w, p, r)
  {
    forall a | a in r.anims && a !in w.anims ensures a == p.anim {
      assert a in r.begun;
      assert a !in w.begun;
    }
  }

  lemma FirstRuns(w: World, a: nat)
    requires Valid(w) && w.begun != [] && a == w.begun[|w.begun| - 1] && a in w.anims && a !in w.strays
    ensures w.busy <==> !AllDone(w.anims[a].done)
  {
    assert a in w.begun;
  }

  /** On an idle element the animation is the next to begin, and nothing waits. */
  ghost predicate BeginsAtOnce(c: Clock, w: World, p: Plan, r: World) {
    && Joins(c, w, p, r) && r.anims[p.anim].queued && r.queue == [] && r.begun == w.begun + [p.anim]
    && (r.busy <==> !AllDone(r.anims[p.anim].done))
  }

  lemma IdleBegins(c: Clock, w: World, p: Plan, r: World)
    requires Valid(w) && Allowed(w, Queue(p)) && !w.busy
    requires Valid(r) && Extends(Submit(w, p), r, {}, {}) && r.strays == Left(w)
    requires p.anim in r.anims && OnTime(c, w.readings, p.anim, p.props, r)
    ensures BeginsAtOnce(c, w, p, r)
  {
    LeftAll(w);
    FirstBegins(w, p, r);
    FirstJoins(c, w, p, r);
    FirstRuns(r, p.anim);
  }

  lemma EnqueueIdle(c: Clock, w: World, p: Plan, r: World)
    requires Valid(w) && Allowed(w, Queue(p)) && !w.busy && r == Dequeued(c, Submit(w, p))
    ensures Valid(r) && r.submitted == w.submitted + [p.anim] && BeginsAtOnce(c, w, p, r)
  {
    SubmitKeeps(w, p);
    DequeueKeeps(c, Submit(w, p), r, {}, {});
    DequeueOnTime(c, Submit(w, p), r, {}, {});
    IdleBegins(c, w, p, r);
  }

  /** An animation queued on an idle element begins at once; on a busy one it waits. */
  lemma EnqueueKeeps(c: Clock, w: World, p: Plan, r: World)
    requires Valid(w) && Allowed(w, Queue(p)) && r == Enqueued(c, w, p)
    ensures Valid(r) && r.submitted == w.submitted + [p.anim]
    ensures w.busy ==> r == w.(queue := w.queue + [p], submitted := w.submitted + [p.anim])
    ensures !w.busy ==> BeginsAtOnce(c, w, p, r)
  {
    if w.busy {
      SubmitKeeps(w, p);
    } else {
      EnqueueIdle(c, w, p, r);
    }
  }

  /** An animation with `queue: false` begins beside whatever runs, and the queue goes on as it was. */
  lemma BesideKeeps(c: Clock, w: World, p: Plan, r: World)
    requires Valid(w) && Allowed(w, Beside(p)) && r == Started(c, Register(w, p), p.anim, p.props)
    ensures Valid(r) && SameQueue(w, r) && Joins(c, w, p, r) && !r.anims[p.anim].queued
  {
    RegisterKeeps(w, p);
    StartKeeps(c, Register(w, p), p.anim, p.props, r, {}, {});
    StartOnTime(c, Register(w, p), p.anim, p.props, r, {}, {});
    BesideJoins(c, w, p, r);
  }

  lemma RegisterListed(w: World, p: Plan)
    requires Listed(w) && Allowed(w, Beside(p))
    ensures Listed(Register(w, p))
  {
    var after := Register(w, p);
    forall i | 0 <= i < |w.queue| ensures PlanOk(after, w.queue[i]) {
      assert PlanOk(w, w.queue[i]) && Ids(w.queue)[i] == w.queue[i].anim;
    }
  }

  lemma RegisterKeeps(w: World, p: Plan)
    requires Valid(w) && Allowed(w, Beside(p))
    ensures Inv(Register(w, p), {}, {} + PairsFrom(p.anim, p.props, 0), false)
  {
    RegisterPlaced(w, {}, {}, p.anim, p.duration, p.props, false);
    RegisterListed(w, p);
  }

  lemma BesideJoins(c: Clock, w: World, p: Plan, r: World)
    requires p.anim !in w.anims && p.anim in r.anims && Extends(Register(w, p), r, {p.anim}, {p.anim})
    requires SameQueue(Register(w, p), r) && OnTime(c, w.readings, p.anim, p.props, r)
    ensures SameQueue(w, r) && Joins(c, w, p, r) && !r.anims[p.anim].queued
  {
    var v := Register(w, p);
    assert AnimMoves(v.anims[p.anim], r.anims[p.anim]);
  }

  // ---- animate({}) -------------------------------------------------------------------

  ghost predicate UnderWay(w: World, a: nat) {
    a in w.anims && w.anims[a].queued && !AllDone(w.anims[a].done)
  }

  /** Two queued animations run at once. */
  ghost predicate Overlapping(w: World) {
    exists a, b :: a != b && UnderWay(w, a) && UnderWay(w, b)
  }

  /** Without strays no two queued animations overlap; a stray overlaps with any other animation under way. */
  lemma OverlapExact(w: World)
    requires Valid(w)
    ensures w.strays == {} ==> !Overlapping(w)
    ensures w.busy ==> (Overlapping(w) <==> w.strays != {})
  {
    if w.busy && w.strays != {} {
      var a :| a in w.strays;
      assert UnderWay(w, a) && UnderWay(w, w.current);
    }
  }

  lemma AloneStray(w: World, a: nat)
    requires Valid(w) && !w.busy && w.strays <= {a}
    ensures !Overlapping(w)
  {
    assert forall b :: UnderWay(w, b) ==> b in w.strays;
  }

  /**
   With no property at all, `animate` calls `complete` at once, before its turn: on a
   busy element the running animation becomes a stray, and the next one, if any, begins.
   */
  lemma EmptyKeeps(c: Clock, w: World, r: World)
    requires Valid(w) && r == Dequeued(c, w)
    ensures Valid(r) && Extends(w, r, {}, {}) && r.strays == w.strays + if w.busy then {w.current} else {}
    ensures w.queue == [] ==> r == w.(busy := false, strays := r.strays)
    ensures w.queue != [] ==>
              w.busy && var p := w.queue[0];
              p.anim in r.anims && OnTime(c, w.readings, p.anim, p.props, r)
  {
    Weakens(w, {}, {});
    DequeueKeeps(c, w, r, {}, {});
    LeftAll(w);
    if w.queue != [] {
      DequeueOnTime(c, w, r, {}, {});
    }
  }

  lemma BegunOverlaps(w: World)
    requires Valid(w) && w.queue != []
    ensures w.busy && Overlapping(Begun(w))
  {
    var p, begun := w.queue[0], Begun(w);
    assert PlanOk(w, p);
    assert p.props[0] in begun.anims[p.anim].done && !begun.anims[p.anim].done[p.props[0]];
    assert UnderWay(begun, p.anim) && UnderWay(begun, w.current);
  }

  /**
   At the moment of that dequeue two queued animations are under way iff one was running
   and one waiting, and they still are when `animate` returns iff the sentinel is there.
   */
  lemma EmptyOverlaps(c: Clock, w: World)
    requires Valid(w) && w.strays == {}
    ensures Overlapping(if w.queue == [] then Dequeued(c, w) else Begun(w)) <==> w.busy && w.queue != []
    ensures Overlapping(Dequeued(c, w)) <==> w.busy && Dequeued(c, w).busy
    ensures Dequeued(c, w).busy ==> w.queue != []
  {
    EmptyKeeps(c, w, Dequeued(c, w));
    if Dequeued(c, w).busy {
      OverlapExact(Dequeued(c, w));
    } else {
      AloneStray(Dequeued(c, w), w.current);
    }
    if w.queue != [] {
      BegunOverlaps(w);
    }
  }

  /** An animation that outlasts its opening keeps an idle element busy. */
  lemma OutlastingRuns(c: Clock, w: World, p: Plan, r: World)
    requires Valid(w) && Allowed(w, Queue(p)) && !w.busy && Outlasts(c, w.readings, p.duration)
    requires r == Enqueued(c, w, p)
    ensures Valid(r) && r.busy && r.current == p.anim && r.queue == [] && r.anims.Keys == w.anims.Keys + {p.anim}
  {
    EnqueueKeeps(c, w, p, r);
    assert p.props[0] in r.anims[p.anim].done && !r.anims[p.anim].done[p.props[0]];
  }

  /** With one animation running and one waiting that outlasts its opening, `animate({})` makes both run. */
  lemma EmptyRunsBoth(c: Clock, w: World, r: World)
    requires Valid(w) && w.queue != [] && Outlasts(c, w.readings, w.queue[0].duration) && r == Dequeued(c, w)
    ensures w.busy && UnderWay(r, w.current) && UnderWay(r, w.queue[0].anim)
  {
    EmptyKeeps(c, w, r);
    var p := w.queue[0];
    assert PlanOk(w, p);
    assert w.current in r.strays;
    assert |r.queue| < |w.queue| && Matches(r.anims[p.anim], p);
    assert p.props[0] in r.anims[p.anim].done && !r.anims[p.anim].done[p.props[0]];
  }

  // ---- What they keep ------------------------------------------------------------------

  /** Nothing that has happened is undone. */
  ghost predicate Progress(v: World, w: World) {
    && v.begun <= w.begun && v.submitted <= w.submitted
    && forall a :: a in v.anims ==> a in w.anims && AnimMoves(v.anims[a], w.anims[a])
  }

  /** An action keeps the invariant, undoes nothing, and submits the plan it queues. */
  ghost predicate Advances(w: World, e: Action, r: World) {
    && Valid(r) && Progress(w, r) && Grows(w, r)
    && r.submitted == w.submitted + if e.Queue? then [e.plan.anim] else []
  }

  lemma WaitingAdvances(w: World, p: Plan)
    requires Valid(Submit(w, p))
    ensures Advances(w, Queue(p), Submit(w, p))
  {
    assert w.made == w.made + w.timers[|w.timers|..];
  }

  lemma JoinAdvances(c: Clock, w: World, p: Plan, e: Action, r: World)
    requires Valid(r) && Joins(c, w, p, r) && w.begun <= r.begun
    requires r.submitted == w.submitted + if e.Queue? then [e.plan.anim] else []
    ensures Advances(w, e, r)
  {
  }

  lemma EnqueueAdvances(c: Clock, w: World, p: Plan, r: World)
    requires Valid(w) && Allowed(w, Queue(p)) && r == Enqueued(c, w, p)
    ensures Advances(w, Queue(p), r)
  {
    EnqueueKeeps(c, w, p, r);
    if w.busy {
      WaitingAdvances(w, p);
    } else {
      JoinAdvances(c, w, p, Queue(p), r);
    }
  }

  lemma RegisteredAdvances(w: World, p: Plan, r: World)
    requires p.anim !in w.anims && Valid(r) && SameQueue(Register(w, p), r)
    requires Extends(Register(w, p), r, {p.anim}, {p.anim})
    ensures Advances(w, Beside(p), r)
  {
  }

  lemma BesideAdvances(c: Clock, w: World, p: Plan, r: World)
    requires Valid(w) && Allowed(w, Beside(p)) && r == Started(c, Register(w, p), p.anim, p.props)
    ensures Advances(w, Beside(p), r)
  {
    RegisterKeeps(w, p);
    StartKeeps(c, Register(w, p), p.anim, p.props, r, {}, {});
    RegisteredAdvances(w, p, r);
  }

  lemma ExtendsAdvances(w: World, r: World)
    requires Valid(r) && Extends(w, r, {}, {})
    ensures Advances(w, Empty, r)
  {
  }

  lemma EmptyAdvances(c: Clock, w: World, r: World)
    requires Valid(w) && r == Dequeued(c, w)
    ensures Advances(w, Empty, r)
  {
    Weakens(w, {}, {});
    DequeueKeeps(c, w, r, {}, {});
    ExtendsAdvances(w, r);
  }

  lemma ActKeeps(c: Clock, w: World, e: Action, r: World)
    requires Valid(w) && Allowed(w, e) && r == Acted(c, w, e)
    ensures Advances(w, e, r)
  {
    match e
    case Queue(p) => EnqueueAdvances(c, w, p, r);
    case Beside(p) => BesideAdvances(c, w, p, r);
    case Empty => EmptyAdvances(c, w, r);
  }

  /** Each action but `animate({})` on a busy element leaves the strays as they are. */
  lemma ActStrays(c: Clock, w: World, e: Action, r: World)
    requires Valid(w) && Allowed(w, e) && r == Acted(c, w, e) && w.strays == {}
    ensures r.strays == {} <==> !(e.Empty? && w.busy)
  {
    match e
    case Queue(p) => EnqueueKeeps(c, w, p, r);
    case Beside(p) => BesideKeeps(c, w, p, r);
    case Empty => EmptyKeeps(c, w, r);
  }

  /** With no timer left every animation begun has completed exactly once, and none waits. */
  lemma IdleMeansCompleted(w: World)
    requires Valid(w) && w.timers == []
    ensures forall a :: a in w.anims ==> w.anims[a].completed == 1
    ensures !w.busy && w.queue == [] && w.strays == {} && w.begun == w.submitted
  {
    assert Pairs(w.timers) == {};
    forall b, p | b in w.anims && p in w.anims[b].done ensures w.anims[b].done[p] {
      assert !w.anims[b].done[p] ==> (b, p) in (Pairs(w.timers) - {}) + {};
    }
    assert w.begun + [] == w.begun;
  }

  /** Of the animations begun through the queue, all but the strays and the current one have completed. */
  lemma BegunInOrder(w: World, i: nat)
    requires Valid(w) && i < |w.begun|
    ensures var a := w.begun[i];
            && a in w.anims && a == w.submitted[i] && w.anims[a].completed <= 1
            && (w.anims[a].completed == 0 <==> a in w.strays || (w.busy && i == |w.begun| - 1))
  {
    assert w.begun[i] in w.begun;
  }
}
