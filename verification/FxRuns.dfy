/**
 Whole runs of a page: `animate` on any of its elements (debian/missing-sources/
 jquery.js:5387-5470), and the ticks in between.
 */
module FxRuns {
  import opened FxActions
  import opened FxPages
  import opened FxTicks
  import opened FxTimers

  /** A tick of the interval, or `animate` on one element. */
  datatype Event = Tick | Act(elem: nat, action: Action)

  predicate On(e: Event, n: nat) {
    e.Act? ==> e.elem < n
  }

  ghost predicate Permitted(p: Page, e: Event) {
    On(e, |p.rows|) && (e.Act? ==> Allowed(View(p, e.elem), e.action))
  }

  lemma ActRooted(c: Clock, w: World, a: Action)
    requires Rooted(w)
    ensures var r := Acted(c, w, a);
            Rooted(r) && w.timers <= r.timers && r.elem == w.elem && w.anims.Keys <= r.anims.Keys
  {
    match a
    case Queue(p) => DequeueRooted(c, Submit(w, p));
    case Beside(p) => StartRooted(c, Register(w, p), p.anim, p.props);
    case Empty => DequeueRooted(c, w);
  }

  function After(c: Clock, p: Page, e: Event): (q: Page)
    requires PageRooted(p) && On(e, |p.rows|)
    ensures PageRooted(q) && |q.rows| == |p.rows|
  {
    match e
    case Tick => if p.interval then Ticked(c, p) else p
    case Act(elem, a) =>
      ViewRooted(p, elem);
      ActRooted(c, View(p, elem), a);
      MergedRooted(p, elem, Acted(c, View(p, elem), a));
      Merge(p, elem, Acted(c, View(p, elem), a))
  }

  /** A page of `n` elements on which nothing has happened yet. */
  function Blank(n: nat): (p: Page)
    ensures PageRooted(p) && |p.rows| == n
  {
    Page(0, [], false, seq(n, _ => NEW_ROW), [])
  }

  function Run(c: Clock, n: nat, events: seq<Event>): (p: Page)
    requires forall i :: 0 <= i < |events| ==> On(events[i], n)
    ensures PageRooted(p) && |p.rows| == n
  {
    if events == [] then Blank(n) else After(c, Run(c, n, events[..|events| - 1]), events[|events| - 1])
  }

  ghost predicate Fits(c: Clock, n: nat, events: seq<Event>) {
    && (forall i :: 0 <= i < |events| ==> On(events[i], n))
    && (events == [] ||
        var before := events[..|events| - 1];
        Fits(c, n, before) && Permitted(Run(c, n, before), events[|events| - 1]))
  }

  /** Everything queued on an element by a run, in order. */
  function Submitted(events: seq<Event>, e: nat): seq<nat> {
    if events == [] then []
    else Submitted(events[..|events| - 1], e) + Queues(events[|events| - 1], e)
  }

  function Queues(ev: Event, e: nat): seq<nat> {
    if ev.Act? && ev.elem == e && ev.action.Queue? then [ev.action.plan.anim] else []
  }

  // ---- One event ---------------------------------------------------------------------

  /** The invariant is kept, and nothing is undone on any element. */
  ghost predicate PageAdvances(p: Page, ev: Event, q: Page) {
    && PageValid(q) && |q.rows| == |p.rows|
    && forall e :: 0 <= e < |p.rows| ==>
         Progress(View(p, e), View(q, e)) && q.rows[e].submitted == p.rows[e].submitted + Queues(ev, e)
  }

  lemma TicksAdvance(c: Clock, p: Page, q: Page, log: seq<Call>)
    requires PageValid(q) && Steady(p, q, log)
    ensures PageAdvances(p, Tick, q)
  {
    forall e | 0 <= e < |p.rows|
      ensures Progress(View(p, e), View(q, e)) && q.rows[e].submitted == p.rows[e].submitted
    {
      assert Moves(View(p, e), View(q, e), Touched(log, e));
    }
  }

  lemma NothingAdvances(p: Page)
    requires PageValid(p)
    ensures PageAdvances(p, Tick, p)
  {
  }

  /** An action on one element leaves the rows and the timers of the others as they are. */
  lemma ActApart(c: Clock, p: Page, e: nat, a: Action, q: Page, f: nat)
    requires PageValid(p) && Permitted(p, Act(e, a)) && q == After(c, p, Act(e, a)) && f < |p.rows| && f != e
    ensures View(q, f) == View(p, f).(readings := q.readings, interval := q.interval)
  {
    assert Valid(View(p, e));
    ActKeeps(c, View(p, e), a, Acted(c, View(p, e), a));
    MergeOthers(p, e, Acted(c, View(p, e), a), f);
  }

  lemma ActAdvances(p: Page, e: nat, a: Action, w: World)
    requires PageValid(p) && e < |p.rows| && Advances(View(p, e), a, w)
    ensures PageAdvances(p, Act(e, a), Merge(p, e, w))
  {
    MergeValid(p, e, w);
    var q := Merge(p, e, w);
    forall f | 0 <= f < |p.rows|
      ensures Progress(View(p, f), View(q, f)) && q.rows[f].submitted == p.rows[f].submitted + Queues(Act(e, a), f)
    {
      ElementAdvances(p, e, a, w, f);
    }
  }

  lemma ElementAdvances(p: Page, e: nat, a: Action, w: World, f: nat)
    requires e < |p.rows| && f < |p.rows| && Advances(View(p, e), a, w)
    ensures Progress(View(p, f), View(Merge(p, e, w), f))
    ensures Merge(p, e, w).rows[f].submitted == p.rows[f].submitted + Queues(Act(e, a), f)
  {
    if f == e {
      MergeView(p, e, w);
    } else {
      MergeOthers(p, e, w, f);
    }
  }

  lemma AfterKeeps(c: Clock, p: Page, ev: Event, q: Page)
    requires PageValid(p) && Permitted(p, ev) && q == After(c, p, ev)
    ensures PageAdvances(p, ev, q)
  {
    match ev
    case Tick =>
      if p.interval {
        TickKeeps(c, p, q);
        TicksAdvance(c, p, q, TickLog(c, p));
      } else {
        NothingAdvances(p);
      }
    case Act(e, a) =>
      var w := Acted(c, View(p, e), a);
      assert Valid(View(p, e));
      ActKeeps(c, View(p, e), a, w);
      ActAdvances(p, e, a, w);
  }

  // ---- Whole runs --------------------------------------------------------------------

  lemma BlankValid(n: nat)
    ensures PageValid(Blank(n))
  {
    forall e | 0 <= e < n ensures Valid(View(Blank(n), e)) {
      assert View(Blank(n), e) == World(e, 0, [], false, map[], false, [], 0, {}, [], [], []);
    }
  }

  /** On every element, what was queued is what has begun and then what waits, in order. */
  ghost predicate InOrder(p: Page, events: seq<Event>) {
    forall e :: 0 <= e < |p.rows| ==>
      && p.rows[e].submitted == Submitted(events, e)
      && p.rows[e].begun + Ids(p.rows[e].queue) == Submitted(events, e)
  }

  /** Over every run the invariant holds, and every element begins its animations in the order queued. */
  lemma {:induction false} RunKeeps(c: Clock, n: nat, events: seq<Event>)
    requires Fits(c, n, events)
    ensures PageValid(Run(c, n, events)) && InOrder(Run(c, n, events), events)
    decreases |events|
  {
    if events == [] {
      BlankValid(n);
    } else {
      var init, last := events[..|events| - 1], events[|events| - 1];
      var p, q := Run(c, n, init), Run(c, n, events);
      RunKeeps(c, n, init);
      AfterKeeps(c, p, last, q);
      OrderStep(p, last, q, init, events);
    }
  }

  lemma OrderStep(p: Page, ev: Event, q: Page, before: seq<Event>, events: seq<Event>)
    requires events == before + [ev] && PageAdvances(p, ev, q) && InOrder(p, before)
    ensures InOrder(q, events)
  {
    assert events[..|events| - 1] == before;
    forall e | 0 <= e < |q.rows|
      ensures q.rows[e].submitted == Submitted(events, e)
      ensures q.rows[e].begun + Ids(q.rows[e].queue) == Submitted(events, e)
    {
      assert Progress(View(p, e), View(q, e));
      assert Valid(View(q, e));
    }
  }

  lemma ProgressTransitive(u: World, v: World, w: World)
    requires Progress(u, v) && Progress(v, w)
    ensures Progress(u, w)
  {
    forall a | a in u.anims ensures a in w.anims && AnimMoves(u.anims[a], w.anims[a]) {
      assert AnimMoves(u.anims[a], v.anims[a]) && AnimMoves(v.anims[a], w.anims[a]);
    }
  }

  lemma {:induction false} FitsPrefix(c: Clock, n: nat, events: seq<Event>, k: nat)
    requires Fits(c, n, events) && k <= |events|
    ensures Fits(c, n, events[..k])
    decreases |events|
  {
    if k == |events| {
      assert events[..k] == events;
    } else {
      FitsPrefix(c, n, events[..|events| - 1], k);
      assert events[..|events| - 1][..k] == events[..k];
    }
  }

  lemma {:induction false} RunAdvances(c: Clock, n: nat, events: seq<Event>, k: nat, e: nat)
    requires Fits(c, n, events) && k <= |events| && e < n
    ensures Progress(View(Run(c, n, events[..k]), e), View(Run(c, n, events), e))
    decreases |events|
  {
    if k == |events| {
      assert events[..k] == events;
    } else {
      var init := events[..|events| - 1];
      assert init[..k] == events[..k];
      var p, q := Run(c, n, init), Run(c, n, events);
      RunAdvances(c, n, init, k, e);
      RunKeeps(c, n, init);
      AfterKeeps(c, p, events[|events| - 1], q);
      ProgressTransitive(View(Run(c, n, events[..k]), e), View(p, e), View(q, e));
    }
  }

  lemma CompletedOnce(v: World, w: World)
    requires Valid(v) && Valid(w) && Progress(v, w)
    ensures forall a :: a in v.anims ==> v.anims[a].completed <= w.anims[a].completed <= 1
  {
    forall a | a in v.anims ensures v.anims[a].completed <= w.anims[a].completed <= 1 {
      assert AnimMoves(v.anims[a], w.anims[a]);
    }
  }

  /**
   From any moment of a run to its end, on every element, animations stay, ended
   properties stay ended, and none completes twice.
   */
  lemma RunProgresses(c: Clock, n: nat, events: seq<Event>, k: nat, e: nat)
    requires Fits(c, n, events) && k <= |events| && e < n
    ensures var v, w := View(Run(c, n, events[..k]), e), View(Run(c, n, events), e);
            && Progress(v, w)
            && forall a :: a in v.anims ==> v.anims[a].completed <= w.anims[a].completed <= 1
  {
    RunAdvances(c, n, events, k, e);
    FitsPrefix(c, n, events, k);
    RunKeeps(c, n, events[..k]);
    RunKeeps(c, n, events);
    assert Valid(View(Run(c, n, events[..k]), e)) && Valid(View(Run(c, n, events), e));
    CompletedOnce(View(Run(c, n, events[..k]), e), View(Run(c, n, events), e));
  }

  ghost predicate Known(w: World, a: nat) {
    a in w.anims || a in w.submitted
  }

  lemma ActKnows(c: Clock, w: World, a: Action, r: World)
    requires Valid(w) && Allowed(w, a) && r == Acted(c, w, a) && !a.Empty?
    ensures Known(r, a.plan.anim)
  {
    if a.Beside? {
      BesideKeeps(c, w, a.plan, r);
    } else {
      EnqueueKeeps(c, w, a.plan, r);
      assert r.submitted[|w.submitted|] == a.plan.anim;
    }
  }

  lemma AfterKnows(c: Clock, p: Page, e: nat, a: Action, q: Page)
    requires PageValid(p) && Permitted(p, Act(e, a)) && q == After(c, p, Act(e, a)) && !a.Empty?
    ensures Known(View(q, e), a.plan.anim)
  {
    var w := Acted(c, View(p, e), a);
    assert Valid(View(p, e));
    ActKeeps(c, View(p, e), a, w);
    ActKnows(c, View(p, e), a, w);
    MergeView(p, e, w);
  }

  lemma KnownCompletes(v: World, w: World, a: nat)
    requires Known(v, a) && Progress(v, w) && Valid(w) && w.timers == []
    ensures a in w.anims && w.anims[a].completed == 1
  {
    IdleMeansCompleted(w);
    assert a !in v.anims ==> a in w.submitted;
  }

  lemma RunNext(c: Clock, n: nat, events: seq<Event>, k: nat)
    requires Fits(c, n, events) && k < |events|
    ensures Fits(c, n, events[..k]) && Permitted(Run(c, n, events[..k]), events[k])
    ensures Fits(c, n, events[..k + 1])
    ensures Run(c, n, events[..k + 1]) == After(c, Run(c, n, events[..k]), events[k])
  {
    FitsPrefix(c, n, events, k + 1);
    assert events[..k + 1][..k] == events[..k];
    RunLast(c, n, events[..k + 1], k);
  }

  lemma RunLast(c: Clock, n: nat, events: seq<Event>, k: nat)
    requires Fits(c, n, events) && |events| == k + 1
    ensures Fits(c, n, events[..k]) && Permitted(Run(c, n, events[..k]), events[k])
    ensures Run(c, n, events) == After(c, Run(c, n, events[..k]), events[k])
  {
  }

  /** Once an element has no timer left, every animation it was ever asked for has completed exactly once. */
  lemma RunCompletes(c: Clock, n: nat, events: seq<Event>, k: nat)
    requires Fits(c, n, events) && k < |events| && events[k].Act? && !events[k].action.Empty?
    requires Own(Run(c, n, events).timers, events[k].elem) == []
    ensures var row := Run(c, n, events).rows[events[k].elem];
            var a := events[k].action.plan.anim;
            a in row.anims && row.anims[a].completed == 1
  {
    var e := events[k].elem;
    RunNext(c, n, events, k);
    RunKeeps(c, n, events[..k]);
    AfterKnows(c, Run(c, n, events[..k]), e, events[k].action, Run(c, n, events[..k + 1]));
    RunAdvances(c, n, events, k + 1, e);
    RunKeeps(c, n, events);
    assert Valid(View(Run(c, n, events), e));
    KnownCompletes(View(Run(c, n, events[..k + 1]), e), View(Run(c, n, events), e), events[k].action.plan.anim);
  }

  // ---- When exclusion holds ------------------------------------------------------------

  lemma EndsStrays(w: World, t: Timer, r: World, off: set<(nat, string)>, extra: set<(nat, string)>)
    requires Owed(w, false) && EndsWell(w, t, r, off, extra) && w.strays == {}
    requires t.anim in w.anims && t.prop in w.anims[t.anim].done && !w.anims[t.anim].done[t.prop]
    ensures r.strays == {}
  {
    if IsLast(w, t) {
      OneLeft(w, t);
    }
  }

  lemma StepStrays(c: Clock, w: World, t: Timer, r: World)
    requires Valid(w) && Pair(t) in (Pairs(w.timers) - {}) + {} && w.strays == {}
    requires t.anim in w.anims && t.prop in w.anims[t.anim].done && !w.anims[t.anim].done[t.prop]
    requires r == Stepped(c, w, t)
    ensures r.strays == {}
  {
    if !GoesOn(c, w, t) {
      StepEnds(c, w, t, r, {}, {});
      EndsStrays(w, t, r, {}, {});
    }
  }

  lemma CallStrays(c: Clock, p: Page, i: nat, q: Page, e: nat)
    requires PageValid(p) && i < |p.timers| && q == CallAt(c, p, i) && e < |p.rows| && p.rows[e].strays == {}
    ensures PageValid(q) && q.rows[e].strays == {}
  {
    var t := p.timers[i];
    SharedLive(p, i);
    CallKeeps(c, p, i, q);
    CallWithin(p, i, Again(c, p, i), q);
    if t.elem == e {
      StepStrays(c, View(p, e), t, Stepped(c, View(p, e), t));
    }
  }

  lemma TickStrays(c: Clock, p: Page, i: nat, r: (Page, seq<Call>), e: nat)
    requires PageValid(p) && r == TickFrom(c, p, i) && e < |p.rows| && p.rows[e].strays == {}
    ensures r.0.rows[e].strays == {}
    decreases Waiting(p.rows), |p.timers| - i
  {
    if i < |p.timers| {
      var q, k := CallAt(c, p, i), if Again(c, p, i) then i + 1 else i;
      CallStrays(c, p, i, q, e);
      TickStrays(c, q, k, TickFrom(c, q, k), e);
    }
  }

  /** `animate({})` on this element while a queued animation of it runs. */
  predicate Early(p: Page, ev: Event, e: nat)
    requires e < |p.rows|
  {
    ev == Act(e, Empty) && p.rows[e].busy
  }

  lemma AfterStrays(c: Clock, p: Page, ev: Event, q: Page, e: nat)
    requires PageValid(p) && Permitted(p, ev) && q == After(c, p, ev) && e < |p.rows| && p.rows[e].strays == {}
    ensures q.rows[e].strays == {} <==> !Early(p, ev, e)
  {
    match ev
    case Tick =>
      if p.interval {
        TickStrays(c, p, 0, TickFrom(c, p, 0), e);
      }
    case Act(f, a) =>
      if f == e {
        assert Valid(View(p, e));
        ActStrays(c, View(p, e), a, Acted(c, View(p, e), a));
      }
  }

  /** `animate({})` is only called on this element while no queued animation of it runs. */
  predicate Patient(c: Clock, n: nat, events: seq<Event>, e: nat)
    requires e < n && forall i :: 0 <= i < |events| ==> On(events[i], n)
  {
    events == [] ||
    var before := events[..|events| - 1];
    Patient(c, n, before, e) && !Early(Run(c, n, before), events[|events| - 1], e)
  }

  /** At no point of the run does a queued animation of this element run outside its turn. */
  ghost predicate NeverStray(c: Clock, n: nat, events: seq<Event>, e: nat)
    requires e < n && forall i :: 0 <= i < |events| ==> On(events[i], n)
  {
    Run(c, n, events).rows[e].strays == {} && (events == [] || NeverStray(c, n, events[..|events| - 1], e))
  }

  /**
   No queued animation of an element ever runs outside its turn iff `animate({})` is only
   called on it while none runs, whatever happens to the other elements.
   */
  lemma {:induction false} RunExclusive(c: Clock, n: nat, events: seq<Event>, e: nat)
    requires Fits(c, n, events) && e < n
    ensures NeverStray(c, n, events, e) <==> Patient(c, n, events, e)
    decreases |events|
  {
    if events != [] {
      var init := events[..|events| - 1];
      RunExclusive(c, n, init, e);
      if NeverStray(c, n, init, e) {
        RunKeeps(c, n, init);
        AfterStrays(c, Run(c, n, init), events[|events| - 1], Run(c, n, events), e);
      }
    }
  }

  /** And then no two of them overlap. */
  lemma PatientNeverOverlaps(c: Clock, n: nat, events: seq<Event>, e: nat)
    requires Fits(c, n, events) && e < n && Patient(c, n, events, e)
    ensures !Overlapping(View(Run(c, n, events), e))
  {
    RunExclusive(c, n, events, e);
    RunKeeps(c, n, events);
    assert Valid(View(Run(c, n, events), e));
    OverlapExact(View(Run(c, n, events), e));
  }

  // ---- A run in which two animations overlap -------------------------------------------

  lemma RunStep(c: Clock, n: nat, events: seq<Event>, ev: Event)
    requires Fits(c, n, events) && Permitted(Run(c, n, events), ev)
    ensures Fits(c, n, events + [ev]) && Run(c, n, events + [ev]) == After(c, Run(c, n, events), ev)
  {
    assert (events + [ev])[..|events + [ev]| - 1] == events;
  }

  ghost predicate Proper(p: Plan) {
    p.props != [] && DistinctProps(p.props)
  }

  lemma ActView(c: Clock, p: Page, e: nat, a: Action, w: World, q: Page)
    requires PageValid(p) && Permitted(p, Act(e, a)) && q == After(c, p, Act(e, a)) && w == Acted(c, View(p, e), a)
    ensures PageValid(q) && View(q, e) == w
  {
    assert Valid(View(p, e));
    ActKeeps(c, View(p, e), a, w);
    MergeValid(p, e, w);
    MergeView(p, e, w);
  }

  /** The page of one element after one more action. */
  lemma OneMore(c: Clock, events: seq<Event>, v: World, a: Action, w: World)
    requires Fits(c, 1, events) && v == View(Run(c, 1, events), 0)
    requires Allowed(v, a) && w == Acted(c, v, a)
    ensures Fits(c, 1, events + [Act(0, a)]) && View(Run(c, 1, events + [Act(0, a)]), 0) == w && Valid(w)
  {
    RunKeeps(c, 1, events);
    RunStep(c, 1, events, Act(0, a));
    ActView(c, Run(c, 1, events), 0, a, w, Run(c, 1, events + [Act(0, a)]));
    assert Valid(View(Run(c, 1, events + [Act(0, a)]), 0));
  }

  ghost predicate Occupied(w: World, p: Plan) {
    Valid(w) && w.busy && w.queue == [] && w.current == p.anim && w.anims.Keys == {p.anim}
  }

  lemma FirstOutlasts(c: Clock, v: World, p: Plan, w: World)
    requires Valid(v) && !v.busy && v.queue == [] && v.anims == map[] && Proper(p)
    requires Outlasts(c, v.readings, p.duration) && w == Enqueued(c, v, p)
    ensures Allowed(v, Queue(p)) && Occupied(w, p)
  {
    assert Ids(v.queue) == [];
    OutlastingRuns(c, v, p, w);
  }

  lemma FirstQueued(c: Clock, events: seq<Event>, v: World, p: Plan)
    requires Fits(c, 1, events) && v == View(Run(c, 1, events), 0) && Valid(v)
    requires !v.busy && v.queue == [] && v.anims == map[] && Proper(p) && Outlasts(c, v.readings, p.duration)
    ensures Fits(c, 1, events + [Act(0, Queue(p))])
    ensures Occupied(View(Run(c, 1, events + [Act(0, Queue(p))]), 0), p)
  {
    FirstOutlasts(c, v, p, Enqueued(c, v, p));
    OneMore(c, events, v, Queue(p), Enqueued(c, v, p));
  }

  lemma BlankQueued(c: Clock, p: Plan)
    requires Proper(p) && Outlasts(c, 0, p.duration)
    ensures Fits(c, 1, [] + [Act(0, Queue(p))]) && Occupied(View(Run(c, 1, [] + [Act(0, Queue(p))]), 0), p)
  {
    BlankValid(1);
    assert Valid(View(Blank(1), 0));
    FirstQueued(c, [], View(Blank(1), 0), p);
  }

  lemma ThenQueued(c: Clock, events: seq<Event>, v: World, p: Plan, q: Plan)
    requires Fits(c, 1, events) && v == View(Run(c, 1, events), 0) && Occupied(v, p)
    requires Proper(q) && p.anim != q.anim
    ensures Fits(c, 1, events + [Act(0, Queue(q))])
    ensures View(Run(c, 1, events + [Act(0, Queue(q))]), 0) == Submit(v, q) && Valid(Submit(v, q))
  {
    OneMore(c, events, v, Queue(q), Submit(v, q));
  }

  lemma ThenEmpty(c: Clock, events: seq<Event>, v: World)
    requires Fits(c, 1, events) && v == View(Run(c, 1, events), 0) && Valid(v) && v.queue != []
    requires Outlasts(c, v.readings, v.queue[0].duration)
    ensures Fits(c, 1, events + [Act(0, Empty)])
    ensures var w := View(Run(c, 1, events + [Act(0, Empty)]), 0);
            UnderWay(w, v.current) && UnderWay(w, v.queue[0].anim)
  {
    OneMore(c, events, v, Empty, Dequeued(c, v));
    EmptyRunsBoth(c, v, Dequeued(c, v));
  }

  /** Two animations queued, then `animate({})` while the first runs: both are under way. */
  lemma OverlapReached(c: Clock, p: Plan, q: Plan)
    requires Proper(p) && Proper(q) && p.anim != q.anim
    requires forall n :: Outlasts(c, n, p.duration) && Outlasts(c, n, q.duration)
    ensures var events := [] + [Act(0, Queue(p))] + [Act(0, Queue(q))] + [Act(0, Empty)];
            Fits(c, 1, events) && var w := View(Run(c, 1, events), 0); UnderWay(w, p.anim) && UnderWay(w, q.anim)
  {
    var one := [] + [Act(0, Queue(p))];
    BlankQueued(c, p);
    var v := View(Run(c, 1, one), 0);
    ThenQueued(c, one, v, p, q);
    ThenEmpty(c, one + [Act(0, Queue(q))], Submit(v, q));
  }
}
