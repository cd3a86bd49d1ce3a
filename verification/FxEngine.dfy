/**
 The animations of a page as the code keeps them (debian/missing-sources/jquery.js:
 1101-1166, 5387-5470, 5528-5537, 5591-5609, 5637-5721): fields updated in place, one
 list of timers for all elements, and calls that nest, as `complete` begins the next
 animation from within a step.
 */
module FxEngine {
  import opened FxActions
  import opened FxPages
  import opened FxRuns
  import opened FxTicks
  import opened FxTimers

  // ---- Changes one after the other -------------------------------------------------

  lemma StepGrows(c: Clock, w: World, t: Timer)
    requires t.anim in w.anims
    ensures Grows(w, Stepped(c, w, t))
    decreases |w.queue|, 2
  {
    var v := Ended(w, t);
    DequeueGrows(c, v);
    assert w.timers + v.timers[|w.timers|..] == w.timers;
    if !GoesOn(c, w, t) && IsLast(w, t) {
      GrowsTransitive(w, v, Dequeued(c, v));
    }
  }

  lemma DequeueGrows(c: Clock, w: World)
    ensures Grows(w, Dequeued(c, w))
    decreases |w.queue|, 1
  {
    if w.queue != [] {
      var v := Begun(w);
      StartGrows(c, v, w.queue[0].anim, w.queue[0].props);
      GrowsTransitive(w, v, Dequeued(c, w));
    }
  }

  lemma OpenGrows(c: Clock, w: World, a: nat, p: string)
    requires a in w.anims
    ensures Grows(w, Opened(c, w, a, p))
    decreases |w.queue|, 3
  {
    var v, t := w.(readings := w.readings + 1), Timer(w.elem, a, p, c(w.readings));
    var r := Stepped(c, v, t);
    StepGrows(c, v, t);
    GrowsTransitive(w, v, r);
    if GoesOn(c, v, t) {
      PushGrows(r, t);
      GrowsTransitive(w, r, Pushed(r, t));
    }
  }

  lemma PushGrows(w: World, t: Timer)
    requires t.elem == w.elem
    ensures Grows(w, Pushed(w, t))
  {
    assert (w.timers + [t])[|w.timers|..] == [t];
  }

  lemma StartGrows(c: Clock, w: World, a: nat, props: seq<string>)
    requires a in w.anims
    ensures Grows(w, Started(c, w, a, props))
    decreases |w.queue|, 4, |props|
  {
    if props != [] {
      var v := Opened(c, w, a, props[0]);
      OpenGrows(c, w, a, props[0]);
      StartGrows(c, v, a, props[1..]);
      GrowsTransitive(w, v, Started(c, w, a, props));
    }
  }

  lemma JoinTails(ts: seq<Timer>, a: seq<Timer>, b: seq<Timer>, c: seq<Timer>)
    requires a <= b <= c
    ensures ts + b[|a|..] + c[|b|..] == ts + c[|a|..]
  {
    SplitTail(a, b, c);
    assert ts + b[|a|..] + c[|b|..] == ts + (b[|a|..] + c[|b|..]);
  }

  /** An element that goes on twice. */
  lemma MergeTwice(p: Page, e: nat, v: World, w: World)
    requires e < |p.rows| && Grows(View(p, e), v) && Grows(v, w)
    ensures Grows(View(p, e), w) && View(Merge(p, e, v), e) == v
    ensures Merge(Merge(p, e, v), e, w) == Merge(p, e, w)
  {
    MergeView(p, e, v);
    GrowsTransitive(View(p, e), v, w);
    MergeAgain(p, e, v, w, Merge(p, e, v));
  }

  lemma MergeAgain(p: Page, e: nat, v: World, w: World, q: Page)
    requires e < |p.rows| && Own(p.timers, e) <= v.timers <= w.timers
    requires q == Merge(p, e, v) && Own(q.timers, e) == v.timers
    ensures Merge(q, e, w) == Merge(p, e, w)
  {
    JoinTails(p.timers, Own(p.timers, e), v.timers, w.timers);
    JoinTails(p.made, Own(p.timers, e), v.timers, w.timers);
    assert p.rows[e := RowOf(v)][e := RowOf(w)] == p.rows[e := RowOf(w)];
  }

  /** A change to the clock and to the row of one element. */
  lemma MergeRow(p: Page, e: nat, w: World)
    requires e < |p.rows| && w.readings >= p.readings
    requires View(p, e).(readings := w.readings, anims := w.anims, busy := w.busy, queue := w.queue,
                         current := w.current, strays := w.strays, begun := w.begun, submitted := w.submitted) == w
    ensures Merge(p, e, w) == p.(readings := w.readings, rows := p.rows[e := RowOf(w)]) && Grows(View(p, e), w)
  {
    assert w.timers[|Own(p.timers, e)|..] == [];
  }

  /** One timer for the element. */
  lemma MergePush(p: Page, e: nat, t: Timer)
    requires e < |p.rows| && t.elem == e
    ensures Merge(p, e, Pushed(View(p, e), t)) ==
            p.(timers := p.timers + [t], made := p.made + [t], interval := true)
    ensures Grows(View(p, e), Pushed(View(p, e), t))
  {
    PushGrows(View(p, e), t);
    assert Pushed(View(p, e), t).timers[|Own(p.timers, e)|..] == [t];
    assert p.rows[e := p.rows[e]] == p.rows;
  }

  /** The clock is read. */
  lemma MergeRead(p: Page, e: nat)
    requires e < |p.rows|
    ensures var v := View(p, e).(readings := p.readings + 1);
            && Merge(p, e, v) == p.(readings := p.readings + 1) && View(Merge(p, e, v), e) == v
            && Grows(View(p, e), v)
  {
    var v := View(p, e).(readings := p.readings + 1);
    MergeRow(p, e, v);
    assert p.rows[e := RowOf(v)] == p.rows;
  }

  /** A step after the clock is read. */
  lemma MergeStep(c: Clock, p: Page, t: Timer, v: World, r: World)
    requires t.elem < |p.rows| && t.anim in p.rows[t.elem].anims
    requires v == View(p, t.elem).(readings := p.readings + 1) && r == Stepped(c, v, t)
    ensures Grows(View(p, t.elem), r) && View(p.(readings := p.readings + 1), t.elem) == v
    ensures Merge(p.(readings := p.readings + 1), t.elem, r) == Merge(p, t.elem, r)
  {
    MergeRead(p, t.elem);
    StepGrows(c, v, t);
    MergeTwice(p, t.elem, v, r);
  }

  /** And the timer of a property that goes on. */
  lemma MergeOpened(p: Page, e: nat, r: World, t: Timer)
    requires e < |p.rows| && Grows(View(p, e), r) && t.elem == e
    ensures Merge(p, e, Pushed(r, t)) ==
            var q := Merge(p, e, r); q.(timers := q.timers + [t], made := q.made + [t], interval := true)
  {
    var q := Merge(p, e, r);
    MergeView(p, e, r);
    PushGrows(r, t);
    MergeTwice(p, e, r, Pushed(r, t));
    MergePush(q, e, t);
  }

  class Effects {
    /** Successive readings of the clock. */
    const clock: Clock
    var readings: nat
    /** `jQuery.timers`. */
    var timers: seq<Timer>
    /** `timerId` is set: the interval is running. */
    var interval: bool
    var rows: seq<Row>
    /** History, like the last four fields of a row: nothing else depends on it. */
    var made: seq<Timer>

    function State(): Page
      reads this
    {
      Page(readings, timers, interval, rows, made)
    }

    constructor (clock: Clock, n: nat)
      ensures State() == Blank(n) && PageValid(State()) && this.clock == clock
    {
      this.clock := clock;
      readings, timers, interval, made := 0, [], false, [];
      rows := seq(n, _ => NEW_ROW);
      new;
      BlankValid(n);
    }

    /** `now()`. */
    method Now() returns (t: int)
      modifies this`readings
      ensures t == clock(old(readings)) && readings == old(readings) + 1
    {
      t := clock(readings);
      readings := readings + 1;
    }

    /** `step` without `gotoEnd`; the last property to end calls `complete`. */
    method Step(t: Timer) returns (again: bool)
      requires t.elem < |rows| && t.anim in rows[t.elem].anims
      modifies this
      ensures State() == Merge(old(State()), t.elem, Stepped(clock, View(old(State()), t.elem), t))
      ensures again == GoesOn(clock, View(old(State()), t.elem), t)
      decreases |rows[t.elem].queue|, 2
    {
      ghost var p, w := State(), View(State(), t.elem);
      var now := Now();
      if now >= rows[t.elem].anims[t.anim].duration + t.start {
        var done := MarkDone(t.elem, t.anim, t.prop);
        MergeRow(p, t.elem, Ended(w, t));
        if done && rows[t.elem].anims[t.anim].queued {
          DequeueGrows(clock, Ended(w, t));
          MergeTwice(p, t.elem, Ended(w, t), Dequeued(clock, Ended(w, t)));
          Dequeue(t.elem);
        }
        return false;
      }
      MergeRead(p, t.elem);
      return true;
    }

    /** `curAnim[prop] = true`, and the loop that asks whether every entry is `true` by now. */
    method MarkDone(e: nat, a: nat, p: string) returns (done: bool)
      requires e < |rows| && a in rows[e].anims
      modifies this`rows
      ensures rows == old(rows)[e := old(rows)[e].(anims := Finish(old(rows)[e].anims, a, p))]
      ensures done == AllDone(rows[e].anims[a].done)
    {
      var curAnim := rows[e].anims[a].done[p := true];
      done := true;
      var names := curAnim.Keys;
      while names != {}
        invariant names <= curAnim.Keys
        invariant done <==> forall q :: q in curAnim.Keys - names ==> curAnim[q]
        invariant rows == old(rows)
        decreases names
      {
        var i :| i in names;
        if !curAnim[i] {
          done := false;
        }
        names := names - {i};
      }
      var was := rows[e].anims[a];
      var now := was.(done := curAnim, completed := was.completed + if done then 1 else 0);
      rows := rows[e := rows[e].(anims := rows[e].anims[a := now])];
    }

    /** `dequeue`: the sentinel goes, and the next animation begins behind a new one. */
    method Dequeue(e: nat)
      requires e < |rows|
      modifies this
      ensures State() == Merge(old(State()), e, Dequeued(clock, View(old(State()), e)))
      decreases |rows[e].queue|, 1
    {
      ghost var p, w := State(), View(State(), e);
      if rows[e].queue == [] {
        rows := rows[e := rows[e].(busy := false, strays := Left(View(State(), e)))];
        MergeRow(p, e, Dequeued(clock, w));
      } else {
        var plan := Shift(e);
        StartGrows(clock, Begun(w), plan.anim, plan.props);
        MergeTwice(p, e, Begun(w), Dequeued(clock, w));
        Start(e, plan.anim, plan.props);
      }
    }

    /** The next animation leaves the queue and gets its own `curAnim`. */
    method Shift(e: nat) returns (plan: Plan)
      requires e < |rows| && rows[e].queue != []
      modifies this`rows
      ensures State() == Merge(old(State()), e, Begun(View(old(State()), e))) && plan == old(rows)[e].queue[0]
      ensures Grows(View(old(State()), e), Begun(View(old(State()), e)))
    {
      ghost var p, w := State(), View(State(), e);
      var row := rows[e];
      plan := row.queue[0];
      var anims := row.anims[plan.anim := Registered(plan.duration, plan.props, true)];
      rows := rows[e := Row(anims, true, row.queue[1..], plan.anim, Left(View(State(), e)),
                            row.begun + [plan.anim], row.submitted)];
      MergeRow(p, e, Begun(w));
    }

    /** The loop of `animate` over its properties. */
    method Start(e: nat, a: nat, props: seq<string>)
      requires e < |rows| && a in rows[e].anims
      modifies this
      ensures State() == Merge(old(State()), e, Started(clock, View(old(State()), e), a, props))
      decreases |rows[e].queue|, 4
    {
      ghost var p, w := State(), View(State(), e);
      ghost var v := w;
      MergeRow(p, e, w);
      assert rows[e := RowOf(w)] == rows;
      for i := 0 to |props|
        invariant Grows(w, v) && State() == Merge(p, e, v)
        invariant a in v.anims && |v.queue| <= |w.queue|
        invariant Started(clock, w, a, props) == Started(clock, v, a, props[i..])
      {
        ghost var u := Opened(clock, v, a, props[i]);
        OpenGrows(clock, v, a, props[i]);
        MergeTwice(p, e, v, u);
        Custom(e, a, props[i]);
        assert props[i..][1..] == props[i + 1..];
        v := u;
      }
    }

    /** `custom`: the first step at once, then a timer if the property goes on. */
    method Custom(e: nat, a: nat, prop: string)
      requires e < |rows| && a in rows[e].anims
      modifies this
      ensures State() == Merge(old(State()), e, Opened(clock, View(old(State()), e), a, prop))
      decreases |rows[e].queue|, 3
    {
      ghost var p, w := State(), View(State(), e);
      var startTime := Now();
      var t := Timer(e, a, prop, startTime);
      ghost var r := Stepped(clock, w.(readings := w.readings + 1), t);
      MergeStep(clock, p, t, w.(readings := w.readings + 1), r);
      MergeOpened(p, e, r, t);
      var again := Step(t);
      assert State() == Merge(p, e, r);
      if again {
        Push(t);
      }
    }

    /** `jQuery.timers.push`, and the interval if it does not run yet. */
    method Push(t: Timer)
      modifies this`timers, this`made, this`interval
      ensures timers == old(timers) + [t] && made == old(made) + [t] && interval
    {
      timers, made := timers + [t], made + [t];
      if !interval {
        interval := true;
      }
    }

    /** `queue` with a function: without the sentinel at its head, the queue is dequeued at once. */
    method Enqueue(e: nat, plan: Plan)
      requires e < |rows|
      modifies this
      ensures State() == Merge(old(State()), e, Enqueued(clock, View(old(State()), e), plan))
    {
      ghost var p, w := State(), View(State(), e);
      rows := rows[e := rows[e].(queue := rows[e].queue + [plan], submitted := rows[e].submitted + [plan.anim])];
      MergeRow(p, e, Submit(w, plan));
      if !rows[e].busy {
        DequeueGrows(clock, Submit(w, plan));
        MergeTwice(p, e, Submit(w, plan), Dequeued(clock, Submit(w, plan)));
        Dequeue(e);
      }
    }

    /** `animate` with the queue: the animation waits its turn, or begins at once on an idle element. */
    method AnimateQueued(e: nat, plan: Plan)
      requires PageValid(State()) && Permitted(State(), Act(e, Queue(plan)))
      modifies this
      ensures State() == After(clock, old(State()), Act(e, Queue(plan)))
      ensures PageValid(State()) && rows[e].submitted == old(rows)[e].submitted + [plan.anim]
      ensures old(rows)[e].busy ==> View(State(), e) == Submit(View(old(State()), e), plan)
      ensures !old(rows)[e].busy ==> BeginsAtOnce(clock, View(old(State()), e), plan, View(State(), e))
      ensures Apart(old(State()), State(), e)
    {
      ghost var p, w := State(), Enqueued(clock, View(State(), e), plan);
      assert Valid(View(p, e));
      EnqueueKeeps(clock, View(p, e), plan, w);
      ActLeaves(clock, p, e, Queue(plan), w);
      Enqueue(e, plan);
    }

    /** `doAnimation` without the queue. */
    method StartBeside(e: nat, plan: Plan)
      requires e < |rows|
      modifies this
      ensures State() == Merge(old(State()), e, Acted(clock, View(old(State()), e), Beside(plan)))
    {
      ghost var p, v := State(), Register(View(State(), e), plan);
      MergeRow(p, e, v);
      StartGrows(clock, v, plan.anim, plan.props);
      MergeTwice(p, e, v, Started(clock, v, plan.anim, plan.props));
      rows := rows[e := rows[e].(anims := rows[e].anims[plan.anim := Registered(plan.duration, plan.props, false)])];
      Start(e, plan.anim, plan.props);
    }

    /** `animate` with `queue: false`: the animation begins beside whatever runs. */
    method AnimateBeside(e: nat, plan: Plan)
      requires PageValid(State()) && Permitted(State(), Act(e, Beside(plan)))
      modifies this
      ensures State() == After(clock, old(State()), Act(e, Beside(plan)))
      ensures PageValid(State()) && SameQueue(View(old(State()), e), View(State(), e))
      ensures Joins(clock, View(old(State()), e), plan, View(State(), e))
      ensures Apart(old(State()), State(), e)
    {
      ghost var p, w := State(), Acted(clock, View(State(), e), Beside(plan));
      assert Valid(View(p, e));
      BesideKeeps(clock, View(p, e), plan, w);
      ActLeaves(clock, p, e, Beside(plan), w);
      StartBeside(e, plan);
    }

    /** `animate({})`: `complete` is called at once, whatever runs or waits. */
    method AnimateEmpty(e: nat)
      requires PageValid(State()) && e < |rows|
      modifies this
      ensures State() == After(clock, old(State()), Act(e, Empty))
      ensures PageValid(State())
      ensures rows[e].strays == old(rows)[e].strays + if old(rows)[e].busy then {old(rows)[e].current} else {}
      ensures Apart(old(State()), State(), e)
    {
      ghost var p, w := State(), Dequeued(clock, View(State(), e));
      assert Valid(View(p, e));
      EmptyKeeps(clock, View(p, e), w);
      ActLeaves(clock, p, e, Empty, w);
      Dequeue(e);
    }

    /** One round of the loop: `timers[i]()`, then `timers.splice(i--, 1)` if it returned false, and `i++`. */
    method CallNext(at: nat) returns (i: int)
      requires at < |timers| && PageRooted(State())
      modifies this
      ensures State() == CallAt(clock, old(State()), at)
      ensures i == if Again(clock, old(State()), at) then at + 1 else at
    {
      i := at;
      ghost var q := Told(clock, State(), at);
      var again := Step(timers[i]);
      assert State() == q;
      if !again {
        timers := timers[..i] + timers[i + 1..];
        i := i - 1;
      }
      i := i + 1;
    }

    /** The loop of `tick`. */
    method CallAll() returns (ghost log: seq<Call>)
      requires PageRooted(State())
      modifies this
      ensures State() == TickFrom(clock, old(State()), 0).0 && log == TickFrom(clock, old(State()), 0).1
    {
      ghost var before := State();
      var i: int := 0;
      log := [];
      LogStart(TickFrom(clock, before, 0).1);
      while i < |timers|
        invariant 0 <= i && PageRooted(State()) && PageRooted(before)
        invariant TickFrom(clock, before, 0).0 == TickFrom(clock, State(), i).0
        invariant TickFrom(clock, before, 0).1 == log + TickFrom(clock, State(), i).1
        decreases Waiting(rows), |timers| - i
      {
        ghost var call := Call(timers[i], readings, Again(clock, State(), i));
        i := CallNext(i);
        LogStep(log, call, TickFrom(clock, State(), i).1);
        log := log + [call];
      }
    }

    lemma LogStart(rest: seq<Call>)
      ensures [] + rest == rest
    {
    }

    lemma LogStep(log: seq<Call>, call: Call, rest: seq<Call>)
      ensures log + ([call] + rest) == log + [call] + rest
    {
    }

    /** `tick`: the interval stops when no timer is left. */
    method TickOnce() returns (ghost log: seq<Call>)
      requires PageRooted(State())
      modifies this
      ensures State() == Ticked(clock, old(State())) && log == TickLog(clock, old(State()))
    {
      log := CallAll();
      if timers == [] {
        interval := false;
      }
    }

    /** What the interval runs; `log` lists the calls it makes. */
    method Tick() returns (ghost log: seq<Call>)
      requires PageValid(State()) && interval
      modifies this
      ensures State() == Ticked(clock, old(State())) && log == TickLog(clock, old(State()))
      ensures Ticks(clock, old(State()), 0, State(), log) && (interval <==> timers != [])
    {
      ghost var before := State();
      TickKeeps(clock, before, Ticked(clock, before));
      log := TickOnce();
    }
  }

  /** An action on one element, and what the page is for it and for the others afterwards. */
  lemma ActLeaves(c: Clock, p: Page, e: nat, a: Action, w: World)
    requires PageValid(p) && Permitted(p, Act(e, a)) && w == Acted(c, View(p, e), a)
    ensures Grows(View(p, e), w) && Merge(p, e, w) == After(c, p, Act(e, a))
    ensures PageValid(Merge(p, e, w)) && View(Merge(p, e, w), e) == w && Apart(p, Merge(p, e, w), e)
  {
    assert Valid(View(p, e));
    ActKeeps(c, View(p, e), a, w);
    MergeValid(p, e, w);
    MergeView(p, e, w);
    MergeApart(p, e, w);
  }
}
