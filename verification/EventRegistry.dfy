/**
 One element's event registry: `jQuery.event.add` and `jQuery.event.remove`
 (debian/missing-sources/jquery.js:1542-1749) on ordinary event types.  Handlers
 are told apart by their guid; a native listener is a type together with the
 handle function that was attached for it.
 */
module EventRegistry {
  import opened Wrappers

  /** The handlers bound for one type. */
  datatype Handlers = Handlers(guids: set<nat>)

  type Events = map<string, Handlers>

  datatype Registry = Registry(events: Events, listening: map<string, nat>, handle: Option<nat>, made: nat)

  const EMPTY: Registry := Registry(map[], map[], None, 0)

  /** A type has a native listener iff it has an entry, and the listener is the current handle; no type is blank. */
  ghost predicate Valid(r: Registry) {
    && r.listening.Keys == r.events.Keys && "" !in r.events
    && (forall t :: t in r.listening ==> r.handle == Some(r.listening[t]))
  }

  /** A type has a native listener iff a handler is bound for it. */
  ghost predicate Balanced(r: Registry) {
    forall t :: t in r.listening <==> t in r.events && r.events[t].guids != {}
  }

  /** The types a call acts on: the loops over the list stop at the first blank one. */
  function Named(types: seq<string>): seq<string> {
    if types == [] || types[0] == "" then [] else [types[0]] + Named(types[1..])
  }

  predicate NamedAt(types: seq<string>, i: int, t: string) {
    0 <= i < |types| && types[i] == t && "" !in types[..i + 1]
  }

  /** A type is acted on iff it is listed with no blank up to it. */
  lemma {:induction false} NamedExact(types: seq<string>, t: string)
    ensures t in Named(types) <==> exists i :: NamedAt(types, i, t)
    ensures "" !in Named(types)
    decreases |types|
  {
    if types != [] && types[0] != "" {
      var rest := types[1..];
      NamedExact(rest, t);
      assert NamedAt(types, 0, types[0]);
      if i :| NamedAt(types, i, t) && i > 0 {
        assert types[..i + 1] == [types[0]] + rest[..i];
        assert NamedAt(rest, i - 1, t);
      }
      if i :| NamedAt(rest, i, t) {
        assert types[..i + 2] == [types[0]] + rest[..i + 1];
        assert NamedAt(types, i + 1, t);
      }
    } else {
      forall i ensures !NamedAt(types, i, t) {
        assert 0 <= i < |types| ==> types[..i + 1][0] == types[0];
      }
    }
  }

  /** The list of types from position `i` on, as the loops walk it. */
  lemma NamedFrom(types: seq<string>, i: nat)
    requires i <= |types|
    ensures i < |types| && types[i] != "" ==> Named(types[i..]) == [types[i]] + Named(types[i + 1..])
    ensures i == |types| || types[i] == "" ==> Named(types[i..]) == []
  {
    if i < |types| {
      assert types[i..][1..] == types[i + 1..];
    }
  }

  // ---- add --------------------------------------------------------------------

  function AddOne(r: Registry, t: string, guid: nat): Registry
    requires r.handle.Some?
  {
    if t in r.events then
      r.(events := r.events[t := Handlers(r.events[t].guids + {guid})])
    else
      r.(events := r.events[t := Handlers({guid})], listening := r.listening[t := r.handle.value])
  }

  function AddAll(r: Registry, types: seq<string>, guid: nat): (s: Registry)
    requires r.handle.Some?
    ensures s.handle == r.handle
    decreases |types|
  {
    if types == [] then r else AddAll(AddOne(r, types[0], guid), types[1..], guid)
  }

  function WithHandle(r: Registry): Registry {
    if r.handle.Some? then r else r.(handle := Some(r.made), made := r.made + 1)
  }

  // ---- remove -----------------------------------------------------------------

  /** What is left of a type's handlers: all but the given one, or nothing. */
  function Remaining(events: Events, t: string, handler: Option<nat>): set<nat>
    requires t in events
  {
    if handler.None? then {} else events[t].guids - {handler.value}
  }

  /** `ret` is set once some type has kept a handler, and then stays set for the types after it. */
  datatype Pass = Pass(registry: Registry, ret: bool)

  function RemoveOne(p: Pass, t: string, handler: Option<nat>): Pass {
    var r := p.registry;
    if t !in r.events then p
    else
      var left := Remaining(r.events, t, handler);
      if p.ret || left != {} then Pass(r.(events := r.events[t := Handlers(left)]), true)
      else Pass(r.(events := r.events - {t},
                   listening := if t in r.listening && r.handle == Some(r.listening[t])
                                then r.listening - {t} else r.listening), false)
  }

  function RemoveEach(p: Pass, types: seq<string>, handler: Option<nat>): Pass
    decreases |types|
  {
    if types == [] then p else RemoveEach(RemoveOne(p, types[0], handler), types[1..], handler)
  }

  /** Dropping the handle once nothing is bound. */
  function Cleaned(r: Registry): Registry {
    if r.events == map[] then r.(handle := None) else r
  }

  function RemoveAll(r: Registry, types: seq<string>, handler: Option<nat>): Registry {
    Cleaned(RemoveEach(Pass(r, false), types, handler).registry)
  }

  // ---- Invariants over every run ----------------------------------------------

  lemma {:induction false} AddKeeps(r: Registry, types: seq<string>, guid: nat)
    requires r.handle.Some? && Valid(r) && "" !in types
    ensures Valid(AddAll(r, types, guid))
    ensures Balanced(r) ==> Balanced(AddAll(r, types, guid))
    decreases |types|
  {
    if types != [] {
      AddKeeps(AddOne(r, types[0], guid), types[1..], guid);
    }
  }

  lemma {:induction false} AddBinds(r: Registry, types: seq<string>, guid: nat, t: string, g: nat)
    requires r.handle.Some?
    ensures var s := AddAll(r, types, guid);
            Bound(s, t, g) <==> Bound(r, t, g) || (t in types && g == guid)
    decreases |types|
  {
    if types != [] {
      var s := AddOne(r, types[0], guid);
      AddBinds(s, types[1..], guid, t, g);
      assert t in types <==> t == types[0] || t in types[1..];
    }
  }

  /** Whatever the types and the handler: afterwards each type still has a listener iff it has an entry. */
  lemma {:induction false} RemoveKeepsValid(p: Pass, types: seq<string>, handler: Option<nat>)
    requires Valid(p.registry)
    ensures Valid(RemoveEach(p, types, handler).registry)
    decreases |types|
  {
    if types != [] {
      RemoveKeepsValid(RemoveOne(p, types[0], handler), types[1..], handler);
    }
  }

  predicate Bound(r: Registry, t: string, g: nat) {
    t in r.events && g in r.events[t].guids
  }

  lemma RemoveOneUnbinds(p: Pass, u: string, handler: Option<nat>, t: string, g: nat)
    ensures Bound(RemoveOne(p, u, handler).registry, t, g) <==>
            Bound(p.registry, t, g) && !(t == u && (handler.None? || handler.value == g))
  {
    if u in p.registry.events && handler.Some? && handler.value != g && g in p.registry.events[u].guids {
      assert g in Remaining(p.registry.events, u, handler);
    }
  }

  /** Removal unbinds exactly the named handlers. */
  lemma {:induction false} RemoveUnbinds(p: Pass, types: seq<string>, handler: Option<nat>, t: string, g: nat)
    ensures var s := RemoveEach(p, types, handler).registry;
            Bound(s, t, g) <==>
              Bound(p.registry, t, g) && !(t in types && (handler.None? || handler.value == g))
    decreases |types|
  {
    if types != [] {
      RemoveOneUnbinds(p, types[0], handler, t, g);
      RemoveUnbinds(RemoveOne(p, types[0], handler), types[1..], handler, t, g);
      assert t in types <==> t == types[0] || t in types[1..];
    }
  }

  // ---- When a removal keeps the balance ---------------------------------------

  predicate Empties(events: Events, t: string, handler: Option<nat>) {
    t in events && Remaining(events, t, handler) == {}
  }

  predicate Keeps(events: Events, t: string, handler: Option<nat>) {
    t in events && Remaining(events, t, handler) != {}
  }

  /** Position `j` is the first mention of a type that loses its last handler after `ret` was set. */
  predicate LeakAt(events: Events, types: seq<string>, handler: Option<nat>, ret: bool, j: nat)
    requires j < |types|
  {
    && Empties(events, types[j], handler) && types[j] !in types[..j]
    && (ret || exists i :: 0 <= i < j && Keeps(events, types[i], handler))
  }

  predicate Leaks(events: Events, types: seq<string>, handler: Option<nat>, ret: bool) {
    exists j :: 0 <= j < |types| && LeakAt(events, types, handler, ret, j)
  }

  /** An entry emptied while `ret` is set stays, without handlers, to the end of the call. */
  lemma {:induction false} EmptyStays(p: Pass, types: seq<string>, handler: Option<nat>, t: string)
    requires p.ret && t in p.registry.events && p.registry.events[t].guids == {}
    ensures var s := RemoveEach(p, types, handler).registry; t in s.events && s.events[t].guids == {}
    decreases |types|
  {
    if types != [] {
      EmptyStays(RemoveOne(p, types[0], handler), types[1..], handler, t);
    }
  }

  ghost predicate NoneEmpty(events: Events) {
    forall t :: t in events ==> events[t].guids != {}
  }

  /** Leaks of the whole list, told from its head and the leaks of its tail. */
  lemma LeaksHead(p: Pass, types: seq<string>, handler: Option<nat>)
    requires types != []
    requires !(p.ret && Empties(p.registry.events, types[0], handler))
    ensures var q := RemoveOne(p, types[0], handler);
            Leaks(p.registry.events, types, handler, p.ret) <==>
              Leaks(q.registry.events, types[1..], handler, q.ret)
  {
    var e, rest := p.registry.events, types[1..];
    var q := RemoveOne(p, types[0], handler);
    var f := q.registry.events;
    forall t | t != types[0]
      ensures Empties(e, t, handler) == Empties(f, t, handler) && Keeps(e, t, handler) == Keeps(f, t, handler)
    {
    }
    assert Keeps(e, types[0], handler) == Keeps(f, types[0], handler);
    assert !Empties(f, types[0], handler);
    assert q.ret == (p.ret || Keeps(e, types[0], handler));
    if Leaks(e, types, handler, p.ret) {
      var j :| 0 <= j < |types| && LeakAt(e, types, handler, p.ret, j);
      LeakShift(p, types, handler, j);
      assert LeakAt(f, rest, handler, q.ret, j - 1);
    }
    if Leaks(f, rest, handler, q.ret) {
      var j :| 0 <= j < |rest| && LeakAt(f, rest, handler, q.ret, j);
      LeakUnshift(p, types, handler, j);
      assert LeakAt(e, types, handler, p.ret, j + 1);
    }
  }

  lemma LeakShift(p: Pass, types: seq<string>, handler: Option<nat>, j: nat)
    requires types != [] && j < |types| && LeakAt(p.registry.events, types, handler, p.ret, j)
    requires !(p.ret && Empties(p.registry.events, types[0], handler))
    ensures j > 0
    ensures var q := RemoveOne(p, types[0], handler);
            LeakAt(q.registry.events, types[1..], handler, q.ret, j - 1)
  {
    var q := RemoveOne(p, types[0], handler);
    var e, f := p.registry.events, q.registry.events;
    assert j > 0;
    assert types[0] in types[..j];
    assert types[1..][..j - 1] == types[..j][1..];
    if !q.ret {
      var i :| 0 <= i < j && Keeps(e, types[i], handler);
      assert types[1..][i - 1] == types[i];
      assert Keeps(f, types[1..][i - 1], handler);
    }
  }

  lemma LeakUnshift(p: Pass, types: seq<string>, handler: Option<nat>, j: nat)
    requires types != [] && j + 1 < |types|
    requires !(p.ret && Empties(p.registry.events, types[0], handler))
    requires var q := RemoveOne(p, types[0], handler);
             LeakAt(q.registry.events, types[1..], handler, q.ret, j)
    ensures LeakAt(p.registry.events, types, handler, p.ret, j + 1)
  {
    var q := RemoveOne(p, types[0], handler);
    var e, f := p.registry.events, q.registry.events;
    assert !Empties(f, types[0], handler);
    assert types[..j + 1] == [types[0]] + types[1..][..j];
    if !p.ret {
      if q.ret {
        assert Keeps(e, types[0], handler);
      } else {
        var i :| 0 <= i < j && Keeps(f, types[1..][i], handler);
        assert Keeps(e, types[i + 1], handler);
      }
    }
  }

  lemma {:induction false} RemoveEachBalance(p: Pass, types: seq<string>, handler: Option<nat>)
    requires NoneEmpty(p.registry.events)
    ensures NoneEmpty(RemoveEach(p, types, handler).registry.events) <==>
            !Leaks(p.registry.events, types, handler, p.ret)
    decreases |types|
  {
    if types != [] {
      var q := RemoveOne(p, types[0], handler);
      if p.ret && Empties(p.registry.events, types[0], handler) {
        assert LeakAt(p.registry.events, types, handler, p.ret, 0);
        EmptyStays(q, types[1..], handler, types[0]);
      } else {
        LeaksHead(p, types, handler);
        RemoveEachBalance(q, types[1..], handler);
      }
    }
  }

  /**
   A removal keeps the balance iff, in the list of types given, no type that would
   lose its last handler comes after one that keeps some.
   */
  lemma RemoveBalance(r: Registry, types: seq<string>, handler: Option<nat>)
    requires Valid(r) && Balanced(r)
    ensures Valid(RemoveAll(r, types, handler))
    ensures Balanced(RemoveAll(r, types, handler)) <==> !Leaks(r.events, types, handler, false)
  {
    RemoveKeepsValid(Pass(r, false), types, handler);
    RemoveEachBalance(Pass(r, false), types, handler);
  }

  /** One type per call, or no particular handler: always balanced. */
  lemma SingleTypeBalance(r: Registry, types: seq<string>, handler: Option<nat>)
    requires Valid(r) && Balanced(r) && (|types| <= 1 || handler.None?)
    ensures Balanced(RemoveAll(r, types, handler))
  {
    RemoveBalance(r, types, handler);
  }

  /** Two types, one handler: the second type's listener is left behind with nothing bound. */
  lemma ListenerLeftBehind()
    ensures var r := AddAll(AddAll(WithHandle(EMPTY), ["click"], 1), ["click", "keyup"], 2);
            var s := RemoveAll(r, ["click", "keyup"], Some(2));
            Balanced(r) && "keyup" in s.listening && "keyup" in s.events && s.events["keyup"] == Handlers({})
  {
    var r0 := WithHandle(EMPTY);
    AddKeeps(r0, ["click"], 1);
    var r1 := AddAll(r0, ["click"], 1);
    AddKeeps(r1, ["click", "keyup"], 2);
    var types := ["click", "keyup"];
    assert types[1..] == ["keyup"] && ["keyup"][1..] == [] && ["click"][1..] == [];
    var r := AddAll(r1, types, 2);
    assert r1 == AddAll(AddOne(r0, "click", 1), [], 1) == AddOne(r0, "click", 1);
    var r2 := AddOne(r1, "click", 2);
    assert r == AddAll(r2, ["keyup"], 2) == AddAll(AddOne(r2, "keyup", 2), [], 2);
    assert r.events["click"].guids == {1, 2} && r.events["keyup"].guids == {2};
    var p := RemoveOne(Pass(r, false), "click", Some(2));
    assert p.ret && p.registry.events["click"] == Handlers({1});
    var q := RemoveOne(p, "keyup", Some(2));
    assert q.registry.events["keyup"].guids == {};
    assert RemoveEach(Pass(r, false), types, Some(2)) == RemoveEach(p, ["keyup"], Some(2));
    assert RemoveEach(p, ["keyup"], Some(2)) == RemoveEach(q, [], Some(2));
  }

  // ---- The object -------------------------------------------------------------

  class ElementEvents {
    var events: Events
    var listening: map<string, nat>
    var handle: Option<nat>
    var made: nat

    ghost function State(): Registry
      reads this
    {
      Registry(events, listening, handle, made)
    }

    constructor ()
      ensures State() == EMPTY && Valid(State()) && Balanced(State())
    {
      events, listening, handle, made := map[], map[], None, 0;
    }

    /** `add` of one handler for a list of types, up to a blank one. */
    method Add(types: seq<string>, guid: nat)
      requires Valid(State())
      modifies this
      ensures Valid(State()) && (old(Balanced(State())) ==> Balanced(State()))
      ensures State() == AddAll(WithHandle(old(State())), Named(types), guid)
    {
      if handle.None? {
        handle, made := Some(made), made + 1;
      }
      ghost var start := State();
      NamedExact(types, "");
      AddKeeps(start, Named(types), guid);
      var i := 0;
      while i < |types| && types[i] != ""
        invariant 0 <= i <= |types| && handle == start.handle
        invariant AddAll(State(), Named(types[i..]), guid) == AddAll(start, Named(types), guid)
      {
        AddFrom(State(), types, i, guid);
        Bind(types[i], guid);
        i := i + 1;
      }
      NamedFrom(types, i);
    }

    lemma AddFrom(r: Registry, types: seq<string>, i: nat, guid: nat)
      requires r.handle.Some? && i < |types| && types[i] != ""
      ensures AddAll(r, Named(types[i..]), guid) == AddAll(AddOne(r, types[i], guid), Named(types[i + 1..]), guid)
    {
      NamedFrom(types, i);
      assert ([types[i]] + Named(types[i + 1..]))[1..] == Named(types[i + 1..]);
    }

    /** The body of the loop in `add`. */
    method Bind(t: string, guid: nat)
      requires handle.Some?
      modifies this`events, this`listening
      ensures State() == AddOne(old(State()), t, guid)
    {
      ghost var before := State();
      if t !in events {
        events := events[t := Handlers({})];
        listening := listening[t := handle.value];
      }
      events := events[t := Handlers(events[t].guids + {guid})];
      assert events[t].guids == AddOne(before, t, guid).events[t].guids;
      assert events == AddOne(before, t, guid).events;
    }

    /** `remove` for a list of types, up to a blank one, of one handler or of all. */
    method Remove(types: seq<string>, handler: Option<nat>)
      requires Valid(State())
      modifies this
      ensures Valid(State()) && State() == RemoveAll(old(State()), Named(types), handler)
      ensures handle == if events == map[] then None else old(handle)
      ensures old(Balanced(State())) ==>
                (Balanced(State()) <==> !Leaks(old(events), Named(types), handler, false))
    {
      ghost var start := Pass(State(), false);
      RemoveKeepsValid(start, Named(types), handler);
      if Balanced(State()) {
        RemoveBalance(State(), Named(types), handler);
      }
      var ret, i := false, 0;
      while i < |types| && types[i] != ""
        invariant 0 <= i <= |types| && handle == old(handle)
        invariant RemoveEach(Pass(State(), ret), Named(types[i..]), handler) ==
                  RemoveEach(start, Named(types), handler)
      {
        NamedFrom(types, i);
        ret := Unbind(types[i], handler, ret);
        i := i + 1;
      }
      NamedFrom(types, i);
      if events == map[] {
        handle := None;
      }
    }

    /** The body of the loop in `remove`; `ret` is what earlier types left in it. */
    method Unbind(t: string, handler: Option<nat>, ret: bool) returns (now: bool)
      modifies this`events, this`listening
      ensures Pass(State(), now) == RemoveOne(Pass(old(State()), ret), t, handler)
    {
      ghost var before := Pass(State(), ret);
      now := ret;
      if t in events {
        if handler.Some? {
          events := events[t := Handlers(events[t].guids - {handler.value})];
        } else {
          events := events[t := Handlers({})];
        }
        if events[t].guids != {} {
          now := true;
        }
        if !now {
          if t in listening && handle == Some(listening[t]) {
            listening := listening - {t};
          }
          events := events - {t};
        }
      }
      assert events == RemoveOne(before, t, handler).registry.events;
    }

    /** `remove` without a type: every type in turn. */
    method RemoveEverything()
      requires Valid(State())
      modifies this
      ensures Valid(State()) && Balanced(State())
      ensures events == map[] && listening == map[] && handle == None
    {
      while events != map[]
        invariant Valid(State())
        decreases events.Keys
      {
        var t :| t in events;
        RemoveOneType(State(), t);
        assert Named([t]) == [t] by {
          assert [t][1..] == [];
        }
        Remove([t], None);
      }
      handle := None;
    }

    lemma RemoveOneType(r: Registry, t: string)
      requires t in r.events
      ensures RemoveAll(r, [t], None).events == r.events - {t}
    {
      assert [t][1..] == [];
      var p := RemoveOne(Pass(r, false), t, None);
      assert RemoveEach(Pass(r, false), [t], None) == RemoveEach(p, [], None);
    }
  }
}
