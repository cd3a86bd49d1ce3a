/**
 One tick of the page (debian/missing-sources/jquery.js:5704-5721).  Completing a queued
 animation begins the next one of its element while the loop over the timers runs, so
 timers are appended to the list being walked.
 */
module FxTicks {
  import opened FxPages
  import opened FxTimers

  /** Every timer the element sees is its own, and belongs to one of its animations. */
  ghost predicate Rooted(w: World) {
    forall i :: 0 <= i < |w.timers| ==> w.timers[i].elem == w.elem && w.timers[i].anim in w.anims
  }

  lemma StepRooted(c: Clock, w: World, t: Timer)
    requires Rooted(w) && t.anim in w.anims
    ensures var r := Stepped(c, w, t); Rooted(r) && w.timers <= r.timers && r.elem == w.elem
    decreases |w.queue|, 2
  {
    var v := w.(readings := w.readings + 1, anims := Finish(w.anims, t.anim, t.prop));
    DequeueRooted(c, v);
  }

  lemma DequeueRooted(c: Clock, w: World)
    requires Rooted(w)
    ensures var r := Dequeued(c, w); Rooted(r) && w.timers <= r.timers && r.elem == w.elem
    decreases |w.queue|, 1
  {
    if w.queue != [] {
      StartRooted(c, Begun(w), w.queue[0].anim, w.queue[0].props);
    }
  }

  lemma StartRooted(c: Clock, w: World, a: nat, props: seq<string>)
    requires Rooted(w) && a in w.anims
    ensures var r := Started(c, w, a, props); Rooted(r) && w.timers <= r.timers && r.elem == w.elem
    decreases |w.queue|, 3, |props|
  {
    if props != [] {
      StepRooted(c, w.(readings := w.readings + 1), Timer(w.elem, a, props[0], c(w.readings)));
      StartRooted(c, Opened(c, w, a, props[0]), a, props[1..]);
    }
  }

  lemma ViewRooted(p: Page, e: nat)
    requires PageRooted(p) && e < |p.rows|
    ensures Rooted(View(p, e))
  {
    var own := Own(p.timers, e);
    forall i | 0 <= i < |own| ensures own[i].elem == e && own[i].anim in p.rows[e].anims {
      OwnIn(p.timers, e, own[i]);
    }
  }

  /** Merging a world that has kept its rooted timers. */
  lemma MergedRooted(p: Page, e: nat, w: World)
    requires PageRooted(p) && e < |p.rows| && Rooted(w) && w.elem == e
    requires Own(p.timers, e) <= w.timers && p.rows[e].anims.Keys <= w.anims.Keys
    ensures PageRooted(Merge(p, e, w))
  {
    var q := Merge(p, e, w);
    forall i | |p.timers| <= i < |q.timers| ensures q.timers[i].elem == e && q.timers[i].anim in w.anims {
      assert q.timers[i] == w.timers[|Own(p.timers, e)| + (i - |p.timers|)];
    }
  }

  // ---- The loop --------------------------------------------------------------------

  /** How many animations wait, on all elements together. */
  function Waiting(rows: seq<Row>): nat {
    if rows == [] then 0 else |rows[0].queue| + Waiting(rows[1..])
  }

  lemma {:induction false} WaitingUpdate(rows: seq<Row>, e: nat, r: Row)
    requires e < |rows|
    ensures Waiting(rows[e := r]) == Waiting(rows) - |rows[e].queue| + |r.queue|
    decreases |rows|
  {
    if e == 0 {
      assert rows[0 := r][1..] == rows[1..];
    } else {
      WaitingUpdate(rows[1..], e - 1, r);
      assert rows[e := r][1..] == rows[1..][e - 1 := r];
    }
  }

  /** One call made by a tick: the timer, the reading of the clock it used, what it returned. */
  datatype Call = Call(timer: Timer, reading: nat, again: bool)

  predicate Again(c: Clock, p: Page, i: nat)
    requires i < |p.timers| && PageRooted(p)
  {
    GoesOn(c, View(p, p.timers[i].elem), p.timers[i])
  }

  /** `timers[i]()`: the step of its element, which may begin that element's next animation. */
  function Told(c: Clock, p: Page, i: nat): (q: Page)
    requires i < |p.timers| && PageRooted(p)
    ensures PageRooted(q) && |q.rows| == |p.rows| && Waiting(q.rows) <= Waiting(p.rows)
    ensures |q.timers| >= |p.timers| && (Waiting(q.rows) == Waiting(p.rows) ==> |q.timers| == |p.timers|)
  {
    var t := p.timers[i];
    ViewRooted(p, t.elem);
    StepRooted(c, View(p, t.elem), t);
    var w := Stepped(c, View(p, t.elem), t);
    MergedRooted(p, t.elem, w);
    WaitingUpdate(p.rows, t.elem, RowOf(w));
    Merge(p, t.elem, w)
  }

  /** And `splice` if it returned false. */
  function CallAt(c: Clock, p: Page, i: nat): (q: Page)
    requires i < |p.timers| && PageRooted(p)
    ensures PageRooted(q) && |q.rows| == |p.rows| && Waiting(q.rows) <= Waiting(p.rows)
    ensures Waiting(q.rows) == Waiting(p.rows) ==> |q.timers| == |p.timers| - if Again(c, p, i) then 0 else 1
  {
    var q := Told(c, p, i);
    if Again(c, p, i) then q else q.(timers := Without(q.timers, i))
  }

  /** The loop of `tick` from `i` on, and the calls it makes. */
  function TickFrom(c: Clock, p: Page, i: nat): (r: (Page, seq<Call>))
    requires PageRooted(p)
    ensures PageRooted(r.0) && |r.0.rows| == |p.rows|
    decreases Waiting(p.rows), |p.timers| - i
  {
    if i >= |p.timers| then (p, [])
    else
      var r := TickFrom(c, CallAt(c, p, i), if Again(c, p, i) then i + 1 else i);
      (r.0, [Call(p.timers[i], p.readings, Again(c, p, i))] + r.1)
  }

  function Ticked(c: Clock, p: Page): (r: Page)
    requires PageRooted(p)
    ensures PageRooted(r) && |r.rows| == |p.rows|
  {
    var r := TickFrom(c, p, 0).0;
    if r.timers == [] then r.(interval := false) else r
  }

  /** The calls of a whole tick. */
  function TickLog(c: Clock, p: Page): seq<Call>
    requires PageRooted(p)
  {
    TickFrom(c, p, 0).1
  }

  function Called(log: seq<Call>): seq<Timer> {
    seq(|log|, i requires 0 <= i < |log| => log[i].timer)
  }

  /** The timers whose call returned true. */
  function Going(log: seq<Call>): seq<Timer> {
    if log == [] then [] else (if log[0].again then [log[0].timer] else []) + Going(log[1..])
  }

  // ---- One call --------------------------------------------------------------------

  /** Timers are made only for animations that begin meanwhile. */
  ghost predicate Moves(v: World, w: World, touched: set<nat>) {
    && QueueMoves(v, w) && AnimsMove(v.anims, w.anims, touched) && v.made <= w.made
    && forall i :: |v.made| <= i < |w.made| ==> w.made[i].anim !in v.anims
  }

  lemma MovesTransitive(u: World, v: World, w: World, touched: set<nat>, touched2: set<nat>)
    requires Moves(u, v, touched) && Moves(v, w, touched2)
    ensures Moves(u, w, touched + touched2)
  {
    QueueMovesTransitive(u, v, w, touched2);
    assert AnimsMove(u.anims, v.anims, touched + touched2);
    AnimsMoveTransitive(u.anims, v.anims, w.anims, touched + touched2, touched2);
    forall i | |u.made| <= i < |w.made| ensures w.made[i].anim !in u.anims {
      if i < |v.made| {
        assert w.made[i] == v.made[i];
      }
    }
  }

  lemma ExtendsMoves(v: World, w: World, touched: set<nat>)
    requires Extends(v, w, {}, touched)
    ensures Moves(v, w, touched)
  {
    forall i | |v.made| <= i < |w.made| ensures w.made[i].anim !in v.anims {
      assert w.made[i] == w.timers[|v.timers|..][i - |v.made|];
    }
  }

  /** The rows, the readings and the timers of other elements as they were. */
  ghost predicate Apart(p: Page, q: Page, e: nat) {
    && |q.rows| == |p.rows| && p.made <= q.made
    && (forall f :: 0 <= f < |p.rows| && f != e ==> q.rows[f] == p.rows[f] && Own(q.timers, f) == Own(p.timers, f))
    && forall j :: |p.made| <= j < |q.made| ==> q.made[j].elem == e
  }

  /** Timers are made only for animations that were not there. */
  ghost predicate Fresh(p: Page, q: Page) {
    && p.made <= q.made
    && forall j :: |p.made| <= j < |q.made| ==>
         q.made[j].elem < |p.rows| && q.made[j].anim !in p.rows[q.made[j].elem].anims
  }

  /** What one call in the loop does, by what it returned: other elements are left as they were. */
  ghost predicate CallsOne(p: Page, i: nat, again: bool, q: Page)
    requires i < |p.timers| && p.timers[i].elem < |p.rows|
  {
    var t := p.timers[i];
    && PageValid(q) && Apart(p, q, t.elem) && Moves(View(p, t.elem), View(q, t.elem), {t.anim})
    && q.readings > p.readings
    && q.timers == p.timers[..i] + (if again then [t] else []) + (p.timers[i + 1..] + q.made[|p.made|..])
    && t.anim in q.rows[t.elem].anims && t.prop in q.rows[t.elem].anims[t.anim].done
    && q.rows[t.elem].anims[t.anim].done[t.prop] == !again && Fresh(p, q)
    && (!again ==> t !in q.timers && Pair(t) !in Pairs(Own(q.timers, t.elem)))
  }

  lemma SpliceShape(ts: seq<Timer>, more: seq<Timer>, i: nat)
    requires i < |ts|
    ensures Without(ts + more, i) == ts[..i] + [] + (ts[i + 1..] + more)
    ensures ts + more == ts[..i] + [ts[i]] + (ts[i + 1..] + more)
  {
  }

  lemma MergeApart(p: Page, e: nat, w: World)
    requires e < |p.rows| && Grows(View(p, e), w)
    ensures Apart(p, Merge(p, e, w), e)
    ensures Merge(p, e, w).timers == p.timers + Merge(p, e, w).made[|p.made|..]
  {
    var q := Merge(p, e, w);
    forall f | 0 <= f < |p.rows| && f != e
      ensures q.rows[f] == p.rows[f] && Own(q.timers, f) == Own(p.timers, f)
    {
      MergeOthers(p, e, w, f);
      assert View(q, f).timers == View(p, f).timers;
    }
    var more := w.timers[|Own(p.timers, e)|..];
    assert q.made == p.made + more;
    forall j | |p.made| <= j < |q.made| ensures q.made[j].elem == e {
      assert q.made[j] == w.timers[|Own(p.timers, e)| + (j - |p.made|)];
    }
  }

  function Read(p: Page, e: nat): World
    requires e < |p.rows|
  {
    View(p, e).(readings := p.readings + 1)
  }

  lemma ReadValid(p: Page, e: nat)
    requires PageValid(p) && e < |p.rows|
    ensures PageValid(Merge(p, e, Read(p, e)))
  {
    assert Valid(View(p, e));
    ReadKeeps(View(p, e), p.readings + 1, {}, {}, false);
    ReadExtends(View(p, e), {}, {});
    MergeValid(p, e, Read(p, e));
  }

  lemma ReadMoves(p: Page, e: nat, a: nat)
    requires e < |p.rows|
    ensures var q := Merge(p, e, Read(p, e));
            && Apart(p, q, e) && Moves(View(p, e), View(q, e), {a})
            && q.timers == p.timers && q.made == p.made && q.rows == p.rows
  {
    ReadExtends(View(p, e), {}, {a});
    ExtendsMoves(View(p, e), Read(p, e), {a});
    MergeView(p, e, Read(p, e));
    MergeApart(p, e, Read(p, e));
    assert Read(p, e).timers[|Own(p.timers, e)|..] == [];
  }

  /** A call that returns true has read the clock. */
  lemma CallStays(p: Page, i: nat, q: Page)
    requires PageValid(p) && i < |p.timers| && p.timers[i].elem < |p.rows|
    requires q == Merge(p, p.timers[i].elem, Read(p, p.timers[i].elem))
    ensures CallsOne(p, i, true, q)
  {
    var t := p.timers[i];
    SharedLive(p, i);
    ReadValid(p, t.elem);
    ReadMoves(p, t.elem, t.anim);
    SpliceShape(p.timers, [], i);
    assert p.timers + [] == p.timers && q.made[|p.made|..] == [];
  }

  /** Taking a timer out of the shared list takes it out of its element's own timers. */
  lemma SpliceView(q: Page, i: nat)
    requires i < |q.timers| && q.timers[i].elem < |q.rows|
    ensures var e, k := q.timers[i].elem, Place(q.timers, i);
            && k < |Own(q.timers, e)| && Own(q.timers, e)[k] == q.timers[i]
            && (forall f :: 0 <= f < |q.rows| ==>
                  View(q.(timers := Without(q.timers, i)), f) ==
                  if f == e then View(q, e).(timers := Without(Own(q.timers, e), k)) else View(q, f))
  {
    OwnWithout(q.timers, i, q.timers[i].elem);
    forall f | 0 <= f < |q.rows|
      ensures var e, k := q.timers[i].elem, Place(q.timers, i);
              View(q.(timers := Without(q.timers, i)), f) ==
              if f == e then View(q, e).(timers := Without(Own(q.timers, e), k)) else View(q, f)
    {
      OwnWithout(q.timers, i, f);
    }
  }

  /** The page without a timer whose property has just ended. */
  lemma SplicedValid(q: Page, i: nat)
    requires i < |q.timers| && q.timers[i].elem < |q.rows| && PageRooted(q)
    requires Inv(View(q, q.timers[i].elem), {Pair(q.timers[i])}, {}, false)
    requires forall f :: 0 <= f < |q.rows| && f != q.timers[i].elem ==> Valid(View(q, f))
    ensures var u := q.(timers := Without(q.timers, i));
            PageValid(u) && Pair(q.timers[i]) !in Pairs(Own(u.timers, q.timers[i].elem))
  {
    var e, k := q.timers[i].elem, Place(q.timers, i);
    SpliceView(q, i);
    SpliceKeeps(View(q, e), k);
    DropPair(Own(q.timers, e), k);
    var u := q.(timers := Without(q.timers, i));
    assert View(u, e).timers == Without(Own(q.timers, e), k);
    forall f | 0 <= f < |u.rows| ensures Valid(View(u, f)) {
      assert f == e ==> View(u, f) == View(q, e).(timers := Without(Own(q.timers, e), k));
      assert f != e ==> View(u, f) == View(q, f);
    }
    SplicedRooted(q, i);
  }

  lemma SplicedRooted(q: Page, i: nat)
    requires i < |q.timers| && PageRooted(q)
    ensures PageRooted(q.(timers := Without(q.timers, i)))
  {
    var u := q.(timers := Without(q.timers, i));
    assert forall j :: 0 <= j < |u.timers| ==> u.timers[j] == q.timers[if j < i then j else j + 1];
  }

  lemma GrownRooted(v: World, w: World)
    requires Rooted(v) && Grows(v, w) && v.anims.Keys <= w.anims.Keys
    requires forall x :: x in Pairs(w.timers) ==> x.0 in w.anims
    ensures Rooted(w)
  {
    forall i | 0 <= i < |w.timers| ensures w.timers[i].elem == w.elem && w.timers[i].anim in w.anims {
      assert w.timers[i] in w.timers && Pair(w.timers[i]) in Pairs(w.timers);
      assert i < |v.timers| ==> w.timers[i] == v.timers[i];
    }
  }

  /** The page once a property has ended, its timer still in the list: the other elements are as before. */
  lemma EndedElsewhere(p: Page, e: nat, w: World, off: set<(nat, string)>)
    requires PageValid(p) && e < |p.rows| && Inv(w, off, {}, false)
    requires Grows(View(p, e), w) && p.rows[e].anims.Keys <= w.anims.Keys
    ensures var q := Merge(p, e, w);
            && View(q, e) == w && PageRooted(q)
            && forall f :: 0 <= f < |q.rows| && f != e ==> Valid(View(q, f))
  {
    MergeView(p, e, w);
    ViewRooted(p, e);
    GrownRooted(View(p, e), w);
    MergedRooted(p, e, w);
    forall f | 0 <= f < |p.rows| && f != e ensures Valid(View(Merge(p, e, w), f)) {
      MergeOthers(p, e, w, f);
      AsideKeeps(View(p, f), w.readings, w.interval);
    }
  }

  lemma EndedSplices(p: Page, i: nat, w: World, q: Page)
    requires PageValid(p) && i < |p.timers| && p.timers[i].elem < |p.rows|
    requires var t := p.timers[i];
             && Inv(w, {Pair(t)}, {}, false) && Grows(View(p, t.elem), w)
             && p.rows[t.elem].anims.Keys <= w.anims.Keys && q == Merge(p, t.elem, w)
    ensures i < |q.timers| && q.timers[i] == p.timers[i] && PageValid(q.(timers := Without(q.timers, i)))
    ensures Pair(p.timers[i]) !in Pairs(Own(Without(q.timers, i), p.timers[i].elem))
    ensures p.timers[i] !in Without(q.timers, i)
  {
    var t := p.timers[i];
    EndedElsewhere(p, t.elem, w, {Pair(t)});
    assert q.timers[i] == t;
    SplicedValid(q, i);
    NotOwned(Without(q.timers, i), t);
  }

  lemma NotOwned(ts: seq<Timer>, t: Timer)
    requires Pair(t) !in Pairs(Own(ts, t.elem))
    ensures t !in ts
  {
    OwnIn(ts, t.elem, t);
  }

  lemma SpliceApart(p: Page, q: Page, i: nat)
    requires i < |q.timers| && q.timers[i].elem < |q.rows| && Apart(p, q, q.timers[i].elem)
    ensures var u, e := q.(timers := Without(q.timers, i)), q.timers[i].elem;
            && Apart(p, u, e) && View(u, e) == View(q, e).(timers := Own(u.timers, e))
  {
    forall f | 0 <= f < |q.rows| && f != q.timers[i].elem
      ensures Own(Without(q.timers, i), f) == Own(q.timers, f)
    {
      OwnWithout(q.timers, i, f);
    }
  }

  lemma SplicedMoves(v: World, w: World, u: World, touched: set<nat>)
    requires Moves(v, w, touched) && u == w.(timers := u.timers)
    ensures Moves(v, u, touched)
  {
  }

  lemma EndedMoves(p: Page, i: nat, w: World, q: Page)
    requires i < |p.timers| && p.timers[i].elem < |p.rows|
    requires Extends(View(p, p.timers[i].elem), w, {}, {p.timers[i].anim})
    requires q == Merge(p, p.timers[i].elem, w) && i < |q.timers| && q.timers[i] == p.timers[i]
    ensures var u, t := q.(timers := Without(q.timers, i)), p.timers[i];
            && Apart(p, u, t.elem) && Moves(View(p, t.elem), View(u, t.elem), {t.anim})
            && u.rows[t.elem].anims == w.anims
            && u.timers == p.timers[..i] + [] + (p.timers[i + 1..] + u.made[|p.made|..]) && Fresh(p, u)
  {
    var t := p.timers[i];
    forall j | |p.made| <= j < |q.made| ensures q.made[j].elem == t.elem && q.made[j].anim !in p.rows[t.elem].anims {
      assert q.made[j] == w.timers[|Own(p.timers, t.elem)| + (j - |p.made|)];
    }
    MergeView(p, t.elem, w);
    MergeApart(p, t.elem, w);
    SpliceApart(p, q, i);
    ExtendsMoves(View(p, t.elem), w, {t.anim});
    SplicedMoves(View(p, t.elem), w, View(q.(timers := Without(q.timers, i)), t.elem), {t.anim});
    SpliceShape(p.timers, q.made[|p.made|..], i);
  }

  lemma OffOne(w: World, x: (nat, string))
    requires Inv(w, if x in {} then {} else {} + {x}, {} - {x}, false)
    ensures Inv(w, {x}, {}, false)
  {
    assert (if x in {} then {} else {} + {x}) == {x};
    assert {} - {x} == {};
  }

  /** What is needed of a step that has ended a property whose timer is in the list. */
  lemma EndedParts(v: World, t: Timer, w: World)
    requires EndsWell(v, t, w, {}, {}) && t in v.timers && t.prop in v.anims[t.anim].done
    ensures Inv(w, {Pair(t)}, {}, false) && Extends(v, w, {}, {t.anim}) && w.readings > v.readings
    ensures t.anim in w.anims && t.prop in w.anims[t.anim].done && w.anims[t.anim].done[t.prop]
  {
    OffOne(w, Pair(t));
  }

  /** A call that returns false has ended its property, and its timer leaves the list. */
  lemma CallEnds(p: Page, i: nat, w: World, q: Page)
    requires PageValid(p) && i < |p.timers| && p.timers[i].elem < |p.rows|
    requires var t := p.timers[i];
             && Inv(w, {Pair(t)}, {}, false) && Extends(View(p, t.elem), w, {}, {t.anim})
             && w.readings > p.readings && q == Merge(p, t.elem, w)
             && t.anim in w.anims && t.prop in w.anims[t.anim].done && w.anims[t.anim].done[t.prop]
    ensures i < |q.timers| && CallsOne(p, i, false, q.(timers := Without(q.timers, i)))
  {
    EndedSplices(p, i, w, q);
    EndedMoves(p, i, w, q);
  }

  /** One round of the loop. */
  lemma CallKeeps(c: Clock, p: Page, i: nat, q: Page)
    requires PageValid(p) && i < |p.timers| && q == CallAt(c, p, i)
    ensures CallsOne(p, i, Again(c, p, i), q)
  {
    var t := p.timers[i];
    SharedLive(p, i);
    if Again(c, p, i) {
      CallStays(p, i, q);
    } else {
      var w := Stepped(c, View(p, t.elem), t);
      StepEnds(c, View(p, t.elem), t, w, {}, {});
      EndedParts(View(p, t.elem), t, w);
      CallEnds(p, i, w, Merge(p, t.elem, w));
    }
  }

  // ---- The whole tick --------------------------------------------------------------

  function Touched(log: seq<Call>, e: nat): set<nat> {
    set j | 0 <= j < |log| && log[j].timer.elem == e :: log[j].timer.anim
  }

  /** The call returned false iff the deadline of its timer had come, and then its property has ended. */
  ghost predicate Answered(c: Clock, w: World, call: Call) {
    && call.timer.anim in w.anims
    && var one := w.anims[call.timer.anim];
       && call.again == (c(call.reading) < one.duration + call.timer.start)
       && call.timer.prop in one.done && one.done[call.timer.prop] == !call.again
  }

  ghost predicate ReadBetween(log: seq<Call>, low: nat, high: nat) {
    && low <= high && (forall j :: 0 <= j < |log| ==> low <= log[j].reading < high)
    && forall j, k :: 0 <= j < k < |log| ==> log[j].reading < log[k].reading
  }

  /** No call returned false before its deadline, or true after it, and the clock was read call after call. */
  ghost predicate Answers(c: Clock, p: Page, r: Page, log: seq<Call>) {
    && (forall j :: 0 <= j < |log| ==>
          log[j].timer.elem < |r.rows| && Answered(c, View(r, log[j].timer.elem), log[j]))
    && ReadBetween(log, p.readings, r.readings)
  }

  /** Each element's queue and animations move on, and only animations of its own called timers are touched. */
  ghost predicate Steady(p: Page, r: Page, log: seq<Call>) {
    |r.rows| == |p.rows| && forall e :: 0 <= e < |p.rows| ==> Moves(View(p, e), View(r, e), Touched(log, e))
  }

  /**
   The calls are one for every timer from `i` on, in order, then one for every timer
   made meanwhile; no property of an animation occurs twice, and exactly the timers
   whose call returned true are left, in order, behind the first `i`.
   */
  ghost predicate Lists(p: Page, i: nat, r: Page, log: seq<Call>) {
    && i <= |p.timers| && p.made <= r.made
    && r.timers == p.timers[..i] + Going(log) && Called(log) == p.timers[i..] + r.made[|p.made|..]
    && DistinctKeys(p.timers[..i] + Called(log))
  }

  ghost predicate Ticks(c: Clock, p: Page, i: nat, r: Page, log: seq<Call>) {
    && PageValid(r) && Steady(p, r, log) && Fresh(p, r) && Lists(p, i, r, log) && Answers(c, p, r, log)
  }

  lemma CalledStep(call: Call, log: seq<Call>)
    ensures Called([call] + log) == [call.timer] + Called(log)
    ensures Going([call] + log) == (if call.again then [call.timer] else []) + Going(log)
  {
    assert ([call] + log)[1..] == log;
  }

  lemma TouchedStep(call: Call, log: seq<Call>, e: nat)
    ensures Touched([call] + log, e) == (if call.timer.elem == e then {call.timer.anim} else {}) + Touched(log, e)
  {
    var all := [call] + log;
    forall a | a in (if call.timer.elem == e then {call.timer.anim} else {}) + Touched(log, e)
      ensures a in Touched(all, e)
    {
      if a in Touched(log, e) {
        var j :| 0 <= j < |log| && log[j].timer.elem == e && log[j].timer.anim == a;
        assert all[j + 1].timer.anim == a;
      } else {
        assert all[0].timer.anim == a;
      }
    }
    forall a | a in Touched(all, e)
      ensures a in (if call.timer.elem == e then {call.timer.anim} else {}) + Touched(log, e)
    {
      var j :| 0 <= j < |all| && all[j].timer.elem == e && all[j].timer.anim == a;
      assert j > 0 ==> log[j - 1].timer.anim == a;
    }
  }

  /** An element that a call leaves apart has not moved. */
  lemma ApartMoves(p: Page, q: Page, e: nat, f: nat)
    requires Apart(p, q, e) && f < |p.rows| && f != e
    ensures Moves(View(p, f), View(q, f), {})
  {
    var more := q.made[|p.made|..];
    assert q.made == p.made + more;
    OwnConcat(p.made, more, f);
    OwnAll(more, e, f);
    assert View(q, f).made == View(p, f).made;
    assert View(q, f).queue == View(p, f).queue[0..];
  }

  lemma SteadyStep(p: Page, u: Page, r: Page, call: Call, log: seq<Call>)
    requires call.timer.elem < |p.rows| && Apart(p, u, call.timer.elem)
    requires Moves(View(p, call.timer.elem), View(u, call.timer.elem), {call.timer.anim}) && Steady(u, r, log)
    ensures Steady(p, r, [call] + log)
  {
    forall e | 0 <= e < |p.rows| ensures Moves(View(p, e), View(r, e), Touched([call] + log, e)) {
      TouchedStep(call, log, e);
      if e == call.timer.elem {
        MovesTransitive(View(p, e), View(u, e), View(r, e), {call.timer.anim}, Touched(log, e));
      } else {
        ApartMoves(p, u, call.timer.elem, e);
        MovesTransitive(View(p, e), View(u, e), View(r, e), {}, Touched(log, e));
      }
    }
  }

  lemma FreshStep(p: Page, u: Page, r: Page, log: seq<Call>)
    requires Fresh(p, u) && Fresh(u, r) && |u.rows| == |p.rows|
    requires forall e :: 0 <= e < |p.rows| ==> p.rows[e].anims.Keys <= u.rows[e].anims.Keys
    ensures Fresh(p, r)
  {
    forall j | |p.made| <= j < |r.made|
      ensures r.made[j].elem < |p.rows| && r.made[j].anim !in p.rows[r.made[j].elem].anims
    {
      if j < |u.made| {
        assert r.made[j] == u.made[j];
      } else {
        assert p.rows[r.made[j].elem].anims.Keys <= u.rows[r.made[j].elem].anims.Keys;
      }
    }
  }

  lemma MadeTail(u: seq<Timer>, v: seq<Timer>, w: seq<Timer>)
    requires u <= v <= w
    ensures w[|u|..] == v[|u|..] + w[|v|..]
  {
  }

  lemma ShapeStep(ts: seq<Timer>, i: nat, more: seq<Timer>, after: seq<Timer>, again: bool, k: nat, us: seq<Timer>)
    requires i < |ts| && k == (if again then i + 1 else i)
    requires us == ts[..i] + (if again then [ts[i]] else []) + (ts[i + 1..] + more)
    ensures k <= |us| && us[..k] == ts[..i] + if again then [ts[i]] else []
    ensures [ts[i]] + (us[k..] + after) == ts[i..] + (more + after)
    ensures us[k..] == ts[i + 1..] + more
  {
  }

  /** The property of a timer taken out does not come back. */
  lemma KeyGone(u: Page, r: Page, k: nat, x: Timer, rest: seq<Timer>)
    requires k <= |u.timers| && x.elem < |u.rows| && x.anim in u.rows[x.elem].anims && Fresh(u, r)
    requires Pair(x) !in Pairs(Own(u.timers, x.elem))
    requires rest == u.timers[..k] + (u.timers[k..] + r.made[|u.made|..])
    ensures forall j :: 0 <= j < |rest| ==> Key(rest[j]) != Key(x)
  {
    forall j | 0 <= j < |rest| ensures Key(rest[j]) != Key(x) {
      if j < |u.timers| {
        assert rest[j] == u.timers[j];
        OwnIn(u.timers, x.elem, rest[j]);
      } else {
        assert rest[j] == r.made[|u.made| + (j - |u.timers|)];
      }
    }
  }

  lemma DistinctInsert(a: seq<Timer>, x: Timer, b: seq<Timer>)
    requires DistinctKeys(a + b) && forall j :: 0 <= j < |a + b| ==> Key((a + b)[j]) != Key(x)
    ensures DistinctKeys(a + ([x] + b))
  {
    var s := a + ([x] + b);
    forall j, k | 0 <= j < k < |s| ensures Key(s[j]) != Key(s[k]) {
      var m, n := if j < |a| then j else j - 1, if k < |a| then k else k - 1;
      if j != |a| && k != |a| {
        assert s[j] == (a + b)[m] && s[k] == (a + b)[n];
      } else if j == |a| {
        assert s[k] == (a + b)[n];
      } else {
        assert s[j] == (a + b)[m];
      }
    }
  }

  lemma DistinctStep(p: Page, i: nat, u: Page, k: nat, r: Page, log: seq<Call>, again: bool)
    requires i < |p.timers| && k <= |u.timers| && p.timers[i].elem < |u.rows|
    requires p.timers[i].anim in u.rows[p.timers[i].elem].anims && Fresh(u, r)
    requires u.timers[..k] == p.timers[..i] + if again then [p.timers[i]] else []
    requires DistinctKeys(u.timers[..k] + Called(log)) && Called(log) == u.timers[k..] + r.made[|u.made|..]
    requires !again ==> Pair(p.timers[i]) !in Pairs(Own(u.timers, p.timers[i].elem))
    ensures DistinctKeys(p.timers[..i] + ([p.timers[i]] + Called(log)))
  {
    if again {
      assert p.timers[..i] + ([p.timers[i]] + Called(log)) == u.timers[..k] + Called(log);
    } else {
      KeyGone(u, r, k, p.timers[i], u.timers[..k] + Called(log));
      assert u.timers[..k] == p.timers[..i];
      DistinctInsert(p.timers[..i], p.timers[i], Called(log));
    }
  }

  lemma ListsStep(p: Page, i: nat, again: bool, u: Page, r: Page, log: seq<Call>, call: Call)
    requires i < |p.timers| && call.timer == p.timers[i] && call.again == again && p.made <= u.made
    requires u.timers ==
             p.timers[..i] + (if again then [p.timers[i]] else []) + (p.timers[i + 1..] + u.made[|p.made|..])
    requires p.timers[i].elem < |u.rows| && p.timers[i].anim in u.rows[p.timers[i].elem].anims && Fresh(u, r)
    requires !again ==> Pair(p.timers[i]) !in Pairs(Own(u.timers, p.timers[i].elem))
    requires Lists(u, if again then i + 1 else i, r, log)
    ensures Lists(p, i, r, [call] + log) && (again ==> p.timers[i] in r.timers)
  {
    var k := if again then i + 1 else i;
    CalledStep(call, log);
    MadeTail(p.made, u.made, r.made);
    ShapeStep(p.timers, i, u.made[|p.made|..], r.made[|u.made|..], again, k, u.timers);
    DistinctStep(p, i, u, k, r, log, again);
    assert r.timers == p.timers[..i] + Going([call] + log);
    assert again ==> r.timers[i] == p.timers[i];
  }

  lemma AnswersStep(c: Clock, p: Page, u: Page, r: Page, log: seq<Call>, call: Call)
    requires call.timer.elem < |r.rows| && Answered(c, View(r, call.timer.elem), call) && Answers(c, u, r, log)
    requires call.reading == p.readings < u.readings
    ensures Answers(c, p, r, [call] + log)
  {
    var all := [call] + log;
    assert forall j :: 0 < j < |all| ==> all[j] == log[j - 1];
  }

  /** The timer that goes on is still in the list at the end, so its property is still under way. */
  lemma AnsweredStep(c: Clock, v: World, u: World, w: World, call: Call, again: bool, one: set<nat>, two: set<nat>)
    requires call.timer.anim in v.anims && Moves(v, u, one) && Moves(u, w, two)
    requires call.again == (c(call.reading) < v.anims[call.timer.anim].duration + call.timer.start)
    requires call.timer.prop in u.anims[call.timer.anim].done
    requires u.anims[call.timer.anim].done[call.timer.prop] == !call.again
    requires call.again ==> call.timer.anim in w.anims && call.timer.prop in w.anims[call.timer.anim].done
                            && !w.anims[call.timer.anim].done[call.timer.prop]
    ensures Answered(c, w, call)
  {
    var a := call.timer.anim;
    assert AnimMoves(v.anims[a], u.anims[a]) && AnimMoves(u.anims[a], w.anims[a]);
  }

  lemma StillLive(r: Page, t: Timer)
    requires PageValid(r) && t in r.timers
    ensures t.elem < |r.rows| && t.anim in r.rows[t.elem].anims
    ensures t.prop in r.rows[t.elem].anims[t.anim].done && !r.rows[t.elem].anims[t.anim].done[t.prop]
  {
    var i :| 0 <= i < |r.timers| && r.timers[i] == t;
    SharedLive(r, i);
  }

  lemma TicksStep(c: Clock, p: Page, i: nat, u: Page, r: Page, log: seq<Call>, call: Call)
    requires PageRooted(p) && i < |p.timers| && CallsOne(p, i, call.again, u)
    requires call == Call(p.timers[i], p.readings, Again(c, p, i))
    requires Ticks(c, u, if call.again then i + 1 else i, r, log)
    ensures Ticks(c, p, i, r, [call] + log)
  {
    var e := call.timer.elem;
    SteadyStep(p, u, r, call, log);
    GrowingAnims(p, u, call);
    FreshStep(p, u, r, log);
    ListsStep(p, i, call.again, u, r, log, call);
    if call.again {
      StillLive(r, call.timer);
    }
    AnsweredStep(c, View(p, e), View(u, e), View(r, e), call, call.again, {call.timer.anim}, Touched(log, e));
    AnswersStep(c, p, u, r, log, call);
  }

  lemma GrowingAnims(p: Page, u: Page, call: Call)
    requires call.timer.elem < |p.rows| && Apart(p, u, call.timer.elem)
    requires Moves(View(p, call.timer.elem), View(u, call.timer.elem), {call.timer.anim})
    ensures forall e :: 0 <= e < |p.rows| ==> p.rows[e].anims.Keys <= u.rows[e].anims.Keys
  {
    forall e | 0 <= e < |p.rows| ensures p.rows[e].anims.Keys <= u.rows[e].anims.Keys {
      assert e == call.timer.elem ==> View(p, e).anims.Keys <= View(u, e).anims.Keys;
    }
  }

  lemma TickRests(c: Clock, p: Page)
    requires PageValid(p)
    ensures Ticks(c, p, |p.timers|, p, [])
  {
    assert Called([]) == [] && p.timers[..|p.timers|] + [] == p.timers;
    forall e: nat ensures DistinctPairs(Own(p.timers, e)) {
      OwnPage(p, e);
    }
    OwnDistinct(p.timers);
    forall e | 0 <= e < |p.rows| ensures Moves(View(p, e), View(p, e), Touched([], e)) {
      Rests(View(p, e), {}, {});
      ExtendsMoves(View(p, e), View(p, e), {});
      assert Touched([], e) == {};
    }
  }

  lemma OwnPage(p: Page, e: nat)
    requires PageValid(p)
    ensures DistinctPairs(Own(p.timers, e))
  {
    if e < |p.rows| {
      assert Valid(View(p, e));
    } else if Own(p.timers, e) != [] {
      OwnIn(p.timers, e, Own(p.timers, e)[0]);
    }
  }

  lemma TickFromKeeps(c: Clock, p: Page, i: nat, r: (Page, seq<Call>))
    requires PageValid(p) && i <= |p.timers| && r == TickFrom(c, p, i)
    ensures Ticks(c, p, i, r.0, r.1)
    decreases Waiting(p.rows), |p.timers| - i
  {
    if i == |p.timers| {
      TickRests(c, p);
    } else {
      var call, u := Call(p.timers[i], p.readings, Again(c, p, i)), CallAt(c, p, i);
      var k := if call.again then i + 1 else i;
      var rest := TickFrom(c, u, k);
      CallKeeps(c, p, i, u);
      CallWithin(p, i, call.again, u);
      TickFromKeeps(c, u, k, rest);
      TicksStep(c, p, i, u, rest.0, rest.1, call);
    }
  }

  lemma CallWithin(p: Page, i: nat, again: bool, u: Page)
    requires i < |p.timers| && p.timers[i].elem < |p.rows| && CallsOne(p, i, again, u)
    ensures PageValid(u) && (if again then i + 1 else i) <= |u.timers|
  {
  }

  lemma StoppedKeeps(w: World)
    requires Valid(w) && w.timers == []
    ensures Valid(w.(interval := false))
  {
    assert forall j :: 0 <= j < |w.queue| ==> PlanOk(w, w.queue[j]);
  }

  lemma StopValid(r: Page)
    requires PageValid(r) && r.timers == []
    ensures PageValid(r.(interval := false))
  {
    var s := r.(interval := false);
    forall e | 0 <= e < |s.rows| ensures Valid(View(s, e)) {
      assert Valid(View(r, e)) && View(s, e) == View(r, e).(interval := false);
      StoppedKeeps(View(r, e));
    }
  }

  lemma StopSteady(p: Page, r: Page, log: seq<Call>)
    requires Steady(p, r, log)
    ensures Steady(p, r.(interval := false), log)
  {
    var s := r.(interval := false);
    forall e | 0 <= e < |r.rows| ensures Moves(View(p, e), View(s, e), Touched(log, e)) {
      assert Moves(View(p, e), View(r, e), Touched(log, e));
      assert View(s, e) == View(r, e).(interval := false);
    }
  }

  lemma StopAnswers(c: Clock, p: Page, r: Page, log: seq<Call>)
    requires Answers(c, p, r, log)
    ensures Answers(c, p, r.(interval := false), log)
  {
    var s := r.(interval := false);
    forall j | 0 <= j < |log| ensures Answered(c, View(s, log[j].timer.elem), log[j]) {
      assert Answered(c, View(r, log[j].timer.elem), log[j]);
    }
  }

  lemma StopKeeps(c: Clock, p: Page, r: Page, log: seq<Call>)
    requires Ticks(c, p, 0, r, log) && r.timers == []
    ensures Ticks(c, p, 0, r.(interval := false), log)
  {
    StopValid(r);
    StopSteady(p, r, log);
    StopAnswers(c, p, r, log);
  }

  /**
   A tick calls every timer there was once, in order, then once every timer of the
   animations that begin meanwhile.  A call returns false iff its deadline has come;
   the timers left are, in order, those whose call returned true, and the interval
   runs on iff there are any.
   */
  lemma TickKeeps(c: Clock, p: Page, r: Page)
    requires PageValid(p) && r == Ticked(c, p)
    ensures Ticks(c, p, 0, r, TickLog(c, p))
    ensures p.interval ==> (r.interval <==> r.timers != [])
  {
    var all := TickFrom(c, p, 0);
    TickFromKeeps(c, p, 0, all);
    if all.0.timers == [] {
      StopKeeps(c, p, all.0, all.1);
    } else {
      IntervalRuns(all.0);
    }
  }

  lemma IntervalRuns(r: Page)
    requires PageValid(r) && r.timers != []
    ensures r.interval
  {
    SharedLive(r, 0);
    assert Valid(View(r, r.timers[0].elem));
  }
}
