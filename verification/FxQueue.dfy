/**
 One element's function queue (debian/missing-sources/jquery.js:1101-1166).  On the
 "fx" queue the head "inprogress" keeps a second function from starting while one
 runs; a function ends by calling the continuation it was given.
 */
module FxQueue {
  import opened Wrappers

  /** Functions are told apart by number; `InProgress` is the sentinel string. */
  datatype Item = InProgress | Fn(id: nat)

  /**
   `started` lists the functions called so far; `ended` holds the positions in
   `started` whose continuation has been called.
   */
  datatype QueueState = QueueState(queue: seq<Item>, started: seq<nat>, ended: set<nat>)

  const EMPTY: QueueState := QueueState([], [], {})

  /** What happens to the queue from outside: a function is queued, or a continuation is called. */
  datatype Event = Queue(id: nat) | Continue(position: nat)

  function Dequeued(s: QueueState, fx: bool): QueueState {
    var q := if s.queue != [] && s.queue[0] == InProgress then s.queue[1..] else s.queue;
    if q == [] then s.(queue := [])
    else if q[0].InProgress? then s.(queue := q)
    else s.(queue := (if fx then [InProgress] else []) + q[1..], started := s.started + [q[0].id])
  }

  function Queued(s: QueueState, fx: bool, id: nat): QueueState {
    var t := s.(queue := s.queue + [Fn(id)]);
    if fx && t.queue[0] != InProgress then Dequeued(t, fx) else t
  }

  function After(s: QueueState, fx: bool, e: Event): QueueState {
    match e
    case Queue(id) => Queued(s, fx, id)
    case Continue(p) => Dequeued(s, fx).(ended := s.ended + {p})
  }

  function Run(fx: bool, events: seq<Event>): QueueState {
    if events == [] then EMPTY
    else After(Run(fx, events[..|events| - 1]), fx, events[|events| - 1])
  }

  /** Everything queued by a run, in order. */
  function Submitted(events: seq<Event>): seq<nat> {
    if events == [] then []
    else
      var e := events[|events| - 1];
      Submitted(events[..|events| - 1]) + if e.Queue? then [e.id] else []
  }

  function Ids(q: seq<Item>): seq<nat> {
    if q == [] then [] else (if q[0].Fn? then [q[0].id] else []) + Ids(q[1..])
  }

  /** The functions waiting behind the sentinel. */
  function Pending(s: QueueState): seq<nat> {
    Ids(s.queue)
  }

  /** The sentinel occurs at the head only, and on the fx queue a non-empty queue has it there. */
  ghost predicate Headed(s: QueueState, fx: bool) {
    && (forall i :: 0 < i < |s.queue| ==> s.queue[i].Fn?)
    && (s.queue != [] ==> s.queue[0].InProgress? == fx)
  }

  ghost function Running(s: QueueState): set<nat> {
    set p: nat | 0 <= p < |s.started| && p !in s.ended
  }

  lemma {:induction false} IdsAppend(q: seq<Item>, id: nat)
    ensures Ids(q + [Fn(id)]) == Ids(q) + [id]
    decreases |q|
  {
    var r := q + [Fn(id)];
    if q == [] {
      assert r == [Fn(id)] && r[1..] == [];
    } else {
      var h := if q[0].Fn? then [q[0].id] else [];
      IdsAppend(q[1..], id);
      assert r[0] == q[0] && r[1..] == q[1..] + [Fn(id)];
      assert Ids(r) == h + (Ids(q[1..]) + [id]);
    }
  }

  lemma DequeueConserves(s: QueueState, fx: bool)
    requires Headed(s, fx)
    ensures var r := Dequeued(s, fx);
            && Headed(r, fx) && r.started + Pending(r) == s.started + Pending(s)
            && |r.started| == |s.started| + (if Pending(s) == [] then 0 else 1)
            && (fx ==> (r.queue == [] <==> Pending(s) == []))
  {
    var q := if s.queue != [] && s.queue[0] == InProgress then s.queue[1..] else s.queue;
    assert Ids(q) == Ids(s.queue);
    if q != [] {
      assert q[0].Fn? && Ids(q) == [q[0].id] + Ids(q[1..]);
      if fx {
        assert ([InProgress] + q[1..])[1..] == q[1..];
      } else {
        assert [] + q[1..] == q[1..];
      }
    }
  }

  /** Queueing either lets the function wait or starts it at once, on an idle fx queue. */
  lemma QueueConserves(s: QueueState, fx: bool, id: nat)
    requires Headed(s, fx)
    ensures var r := Queued(s, fx, id);
            && Headed(r, fx) && r.started + Pending(r) == s.started + Pending(s) + [id]
            && (fx ==> r.queue != [])
            && |r.started| == |s.started| + if fx && s.queue == [] then 1 else 0
  {
    IdsAppend(s.queue, id);
    if fx && s.queue == [] {
      var q := [Fn(id)];
      assert s.queue + [Fn(id)] == q && q[1..] == [];
      assert [InProgress] + q[1..] == [InProgress] && [InProgress][1..] == [];
      assert Ids([InProgress]) == [];
    }
  }

  /**
   Conservation, over every run whatsoever: started functions followed by waiting
   ones are the functions queued, in order, so each starts at most once and none is lost.
   */
  lemma {:induction false} RunConserves(fx: bool, events: seq<Event>)
    ensures var s := Run(fx, events);
            Headed(s, fx) && s.started + Pending(s) == Submitted(events)
    decreases |events|
  {
    if events != [] {
      var before := Run(fx, events[..|events| - 1]);
      RunConserves(fx, events[..|events| - 1]);
      match events[|events| - 1]
      case Queue(id) =>
        QueueConserves(before, fx, id);
      case Continue(p) =>
        DequeueConserves(before, fx);
    }
  }

  /** Each function calls its continuation once, after it was started. */
  predicate Disciplined(fx: bool, events: seq<Event>) {
    events == [] ||
    var before := events[..|events| - 1];
    && Disciplined(fx, before)
    && var e := events[|events| - 1];
       e.Continue? ==> e.position < |Run(fx, before).started| && e.position !in Run(fx, before).ended
  }

  /** At most one function runs: the last one started, exactly while the queue is not empty. */
  ghost predicate Exclusive(s: QueueState) {
    && Headed(s, true)
    && (forall p :: p in s.ended ==> p < |s.started|)
    && (s.queue != [] ==> s.started != [])
    && Running(s) == (if s.queue == [] then {} else {|s.started| - 1})
  }

  lemma QueueKeepsExclusive(s: QueueState, id: nat)
    requires Exclusive(s)
    ensures Exclusive(Queued(s, true, id))
  {
    var r := Queued(s, true, id);
    QueueConserves(s, true, id);
    if s.queue == [] {
      forall p: nat ensures p in Running(r) <==> p == |s.started| {
        assert p in Running(s) <==> p < |s.started| && p !in s.ended;
      }
    } else {
      assert Running(r) == Running(s);
    }
  }

  lemma ContinueKeepsExclusive(s: QueueState, p: nat)
    requires Exclusive(s) && p in Running(s)
    ensures Exclusive(After(s, true, Continue(p)))
  {
    var r := After(s, true, Continue(p));
    DequeueConserves(s, true);
    assert p == |s.started| - 1;
    forall q: nat ensures q in Running(r) <==> q == |s.started| < |r.started| {
      assert q in Running(s) <==> q < |s.started| && q !in s.ended;
    }
  }

  /**
   Exclusion: on the fx queue at most one function runs, it is the last one
   started, and the sentinel is present exactly while one runs.
   */
  lemma {:induction false} RunExcludes(events: seq<Event>)
    requires Disciplined(true, events)
    ensures var s := Run(true, events);
            Exclusive(s) && (InProgress in s.queue <==> Running(s) != {})
    decreases |events|
  {
    if events != [] {
      var init := events[..|events| - 1];
      RunExcludes(init);
      match events[|events| - 1]
      case Queue(id) => QueueKeepsExclusive(Run(true, init), id);
      case Continue(p) => ContinueKeepsExclusive(Run(true, init), p);
    }
  }

  /** A continuation can only be called by a function that was started; it may be called again. */
  predicate Issued(events: seq<Event>) {
    events == [] ||
    var before, e := events[..|events| - 1], events[|events| - 1];
    Issued(before) && (e.Continue? ==> e.position < |Run(true, before).started|)
  }

  /**
   A continuation called again does no harm while nothing waits; but if a function was
   running then, nothing may be queued before that function's own continuation.
   */
  ghost predicate Harmless(s: QueueState, e: Event) {
    match e
    case Queue(_) => s.queue != [] || Running(s) == {}
    case Continue(p) => p in s.ended ==> Pending(s) == []
  }

  ghost predicate Solo(s: QueueState) {
    forall p, q :: p in Running(s) && q in Running(s) ==> p == q
  }

  /** At most the last function started runs, and it does while the sentinel is there. */
  ghost predicate LastOnly(s: QueueState) {
    && Headed(s, true) && (forall p :: p in s.ended ==> p < |s.started|)
    && (forall p :: p in Running(s) ==> p == |s.started| - 1)
    && (s.queue != [] ==> s.started != [] && |s.started| - 1 in Running(s))
  }

  lemma HarmlessQueue(s: QueueState, id: nat)
    requires LastOnly(s)
    ensures var r := After(s, true, Queue(id));
            if Harmless(s, Queue(id)) then LastOnly(r) else !Solo(r)
  {
    var r := After(s, true, Queue(id));
    QueueConserves(s, true, id);
    if s.queue != [] {
      assert Running(r) == Running(s);
    } else {
      assert forall p :: p in Running(r) <==> p in Running(s) || p == |s.started|;
      if Running(s) != {} {
        var p :| p in Running(s);
        assert p in Running(r) && |s.started| in Running(r);
      }
    }
  }

  lemma HarmlessContinue(s: QueueState, p: nat)
    requires LastOnly(s) && p < |s.started|
    ensures var r := After(s, true, Continue(p));
            if Harmless(s, Continue(p)) then LastOnly(r) else !Solo(r)
  {
    var r := After(s, true, Continue(p));
    DequeueConserves(s, true);
    assert p in s.ended || p in Running(s);
    assert forall q :: q in Running(r) <==> (q in Running(s) && q != p) || q == |s.started| < |r.started|;
    if !Harmless(s, Continue(p)) {
      assert |s.started| - 1 in Running(r) && |s.started| in Running(r);
    }
  }

  ghost predicate SoloThroughout(events: seq<Event>) {
    Solo(Run(true, events)) && (events == [] || SoloThroughout(events[..|events| - 1]))
  }

  ghost predicate HarmlessThroughout(events: seq<Event>) {
    events == [] ||
    var before := events[..|events| - 1];
    HarmlessThroughout(before) && Harmless(Run(true, before), events[|events| - 1])
  }

  /** Whatever continuations are called again, at most one function runs throughout iff each event does no harm. */
  lemma {:induction false} SoloExactly(events: seq<Event>)
    requires Issued(events)
    ensures SoloThroughout(events) <==> HarmlessThroughout(events)
    ensures HarmlessThroughout(events) ==> LastOnly(Run(true, events))
    decreases |events|
  {
    if events != [] {
      var init := events[..|events| - 1];
      SoloExactly(init);
      if HarmlessThroughout(init) {
        match events[|events| - 1]
        case Queue(id) => HarmlessQueue(Run(true, init), id);
        case Continue(p) => HarmlessContinue(Run(true, init), p);
      }
    }
  }

  /** Calling one continuation twice lets two functions run at once. */
  lemma DoubleContinuationOverlaps()
    ensures var s := Run(true, [Queue(1), Queue(2), Continue(0), Continue(0), Queue(3)]);
            s.started == [1, 2, 3] && Running(s) == {1, 2}
  {
    var events := [Queue(1), Queue(2), Continue(0), Continue(0), Queue(3)];
    assert Run(true, []) == EMPTY;
    assert events[..1] == [Queue(1)] && [Queue(1)][..0] == [];
    assert events[..2][..1] == events[..1] && events[..3][..2] == events[..2];
    assert events[..4][..3] == events[..3] && events[..5] == events && events[..5][..4] == events[..4];
    var s1, s2 := Run(true, events[..1]), Run(true, events[..2]);
    var s3, s4 := Run(true, events[..3]), Run(true, events[..4]);
    assert s1 == QueueState([InProgress], [1], {});
    assert s2 == QueueState([InProgress, Fn(2)], [1], {});
    assert s3 == QueueState([InProgress], [1, 2], {0});
    assert s4 == QueueState([], [1, 2], {0});
  }

  class ElementQueue {
    const fx: bool
    var queue: seq<Item>
    ghost var started: seq<nat>
    ghost var ended: set<nat>

    ghost function State(): QueueState
      reads this
    {
      QueueState(queue, started, ended)
    }

    constructor (fx: bool)
      ensures State() == EMPTY && this.fx == fx
    {
      this.fx := fx;
      queue, started, ended := [], [], {};
    }

    /** `jQuery.dequeue`; the result is the function called, if any. */
    method Dequeue() returns (fn: Option<nat>)
      requires Headed(State(), fx) || (fx && queue != [] && forall i :: 0 <= i < |queue| ==> queue[i].Fn?)
      modifies this`queue, this`started
      ensures State() == Dequeued(old(State()), fx)
      ensures started == old(started) + if fn.Some? then [fn.value] else []
    {
      var head: Option<Item> := None;
      if queue != [] {
        head, queue := Some(queue[0]), queue[1..];
      }
      if head == Some(InProgress) {
        head := None;
        if queue != [] {
          head, queue := Some(queue[0]), queue[1..];
        }
      }
      fn := None;
      if head.Some? {
        if fx {
          queue := [InProgress] + queue;
        }
        fn := Some(head.value.id);
        started := started + [head.value.id];
      }
    }

    /** `jQuery.fn.queue` with a function. */
    method Enqueue(id: nat) returns (fn: Option<nat>)
      requires Headed(State(), fx)
      modifies this`queue, this`started
      ensures State() == Queued(old(State()), fx, id)
      ensures Headed(State(), fx)
      ensures started == old(started) + if fn.Some? then [fn.value] else []
    {
      QueueConserves(State(), fx, id);
      queue := queue + [Fn(id)];
      fn := None;
      if fx && queue[0] != InProgress {
        fn := Dequeue();
      }
    }

    /** The continuation handed to the function at `position` of `started`. */
    method CallContinuation(ghost position: nat) returns (fn: Option<nat>)
      requires Headed(State(), fx)
      modifies this`queue, this`started, this`ended
      ensures State() == After(old(State()), fx, Continue(position))
      ensures Headed(State(), fx)
      ensures started == old(started) + if fn.Some? then [fn.value] else []
    {
      DequeueConserves(State(), fx);
      fn := Dequeue();
      ended := ended + {position};
    }
  }
}
