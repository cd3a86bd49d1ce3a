/**
 `jQuery.data` and `jQuery.removeData` (debian/missing-sources/jquery.js:980-1062):
 an element carries an id in its expando property, and a global cache maps ids to
 records.  Elements and values are told apart by number, an absent argument is None.
 */
module DataStore {
  import opened Wrappers

  /** The properties of one cache record. */
  datatype Record = Record(entries: map<string, nat>)

  const EMPTY: Record := Record(map[])

  /** The second argument of `data`: nothing, a string, or an object whose entries replace the record. */
  datatype Name = NoName | Key(key: string) | Object(record: Record)

  datatype Reply = Undefined | NullReply | Value(value: nat) | Contents(record: Record)

  /** The store a caller sees: each element with data, and its record. */
  type View = map<nat, Record>

  datatype Store = Store(uuid: nat, ids: map<nat, nat>, cache: map<nat, Record>)

  /** Ids are positive, issued, unique, and in use exactly when they have a record. */
  ghost predicate Valid(s: Store) {
    && (forall e :: e in s.ids ==> 1 <= s.ids[e] <= s.uuid && s.ids[e] in s.cache)
    && (forall e, f :: e in s.ids && f in s.ids && s.ids[e] == s.ids[f] ==> e == f)
    && forall i {:trigger Owned(s, i)} :: i in s.cache ==> Owned(s, i)
  }

  ghost predicate Owned(s: Store, i: nat) {
    exists e :: e in s.ids && s.ids[e] == i
  }

  ghost function ViewOf(s: Store): View
    requires Valid(s)
  {
    map e | e in s.ids :: s.cache[s.ids[e]]
  }

  /** Property names are strings; this is what a missing or object name turns into. */
  function KeyOf(name: Name): string {
    match name
    case NoName => "undefined"
    case Key(k) => k
    case Object(_) => "[object Object]"
  }

  /** JavaScript's `!name`. */
  predicate Falsy(name: Name) {
    name.NoName? || (name.Key? && name.key == "")
  }

  /** The record a call works on, before `data` is written. */
  function RecordFor(view: View, e: nat, name: Name): Record {
    match name
    case Object(m) => m
    case _ => if e in view then view[e] else EMPTY
  }

  function Written(view: View, e: nat, name: Name, data: Option<nat>): Record {
    var r := RecordFor(view, e, name);
    if data.Some? then Record(r.entries[KeyOf(name) := data.value]) else r
  }

  /** `data`, seen from outside. */
  function DataView(view: View, e: nat, name: Name, data: Option<nat>): View {
    if Falsy(name) && e !in view then view
    else if name.Object? || data.Some? then view[e := Written(view, e, name, data)]
    else view
  }

  function DataReply(view: View, e: nat, name: Name, data: Option<nat>): Reply {
    if Falsy(name) && e !in view then NullReply
    else
      var r := Written(view, e, name, data);
      match name
      case Key(k) => if k in r.entries then Value(r.entries[k]) else Undefined
      case _ => Contents(r)
  }

  function Without(r: Record, k: string): Record {
    Record(r.entries - {k})
  }

  /** `removeData`, seen from outside. */
  function RemoveView(view: View, e: nat, name: Option<string>): View {
    if e !in view then view
    else if name.Some? && name.value != "" && Without(view[e], name.value) != EMPTY then
      view[e := Without(view[e], name.value)]
    else view - {e}
  }

  // ---- What a caller can rely on --------------------------------------------

  /** A value written is read back iff the key is not empty or the element already has data. */
  lemma ReadAfterWrite(view: View, e: nat, k: string, v: nat)
    ensures DataReply(DataView(view, e, Key(k), Some(v)), e, Key(k), None) == Value(v)
            <==> k != "" || e in view
  {
  }

  /** One key's write or removal leaves every other element and every other key alone. */
  lemma KeyFrame(view: View, e: nat, k: string, v: nat, f: nat, j: string)
    requires k != "" && j != "" && (f != e || j != k)
    ensures DataReply(DataView(view, e, Key(k), Some(v)), f, Key(j), None) == DataReply(view, f, Key(j), None)
    ensures DataReply(RemoveView(view, e, Some(k)), f, Key(j), None) == DataReply(view, f, Key(j), None)
  {
    if f == e && e in view && j in view[e].entries {
      assert j in Without(view[e], k).entries;
    }
  }

  /** An object argument replaces the whole record of its element and nothing else. */
  lemma ObjectReplaces(view: View, e: nat, r: Record, f: nat, k: string)
    requires k != ""
    ensures DataReply(DataView(view, e, Object(r), None), f, Key(k), None) ==
            if f != e then DataReply(view, f, Key(k), None)
            else if k in r.entries then Value(r.entries[k]) else Undefined
  {
  }

  /** Removing the last key frees the element; any other removal takes exactly that key. */
  lemma RemoveKey(view: View, e: nat, k: string)
    requires k != "" && e in view
    ensures e !in RemoveView(view, e, Some(k)) <==> view[e].entries.Keys <= {k}
    ensures e in RemoveView(view, e, Some(k)) ==> RemoveView(view, e, Some(k))[e] == Without(view[e], k)
  {
    var r := view[e].entries - {k};
    assert r == map[] <==> r.Keys == {};
  }

  /** The empty key names no key: removing it removes everything. */
  lemma RemoveEmptyKey(view: View, e: nat)
    ensures RemoveView(view, e, Some("")) == RemoveView(view, e, None) == view - {e}
  {
  }

  lemma RemoveWhole(view: View, e: nat, name: Option<string>)
    requires name.None? || name.value == "" || e !in view
    ensures RemoveView(view, e, name) == view - {e}
    ensures e !in view ==> view - {e} == view
  {
  }

  lemma UpdateThenDrop(view: View, e: nat, r: Record)
    ensures view[e := r] - {e} == view - {e}
  {
  }

  // ---- Ids over a run -------------------------------------------------------

  /** Every call keeps the store valid, keeps live ids, and gives new ones above all issued before. */
  ghost predicate Step(s: Store, t: Store) {
    && Valid(t) && s.uuid <= t.uuid
    && forall e :: e in t.ids ==> (e in s.ids && t.ids[e] == s.ids[e]) || t.ids[e] > s.uuid
  }

  lemma StepTransitive(s: Store, t: Store, u: Store)
    requires Step(s, t) && Step(t, u)
    ensures Step(s, u)
  {
  }

  ghost predicate Trace(ts: seq<Store>) {
    && (forall i :: 0 <= i < |ts| ==> Valid(ts[i]))
    && forall i :: 0 <= i < |ts| - 1 ==> Step(ts[i], ts[i + 1])
  }

  lemma {:induction false} IdKeptOrNew(ts: seq<Store>, i: nat, j: nat, e: nat)
    requires Trace(ts) && i <= j < |ts| && e in ts[j].ids
    ensures ts[i].uuid <= ts[j].uuid
    ensures (e in ts[i].ids && ts[i].ids[e] == ts[j].ids[e]) || ts[j].ids[e] > ts[i].uuid
    decreases j - i
  {
    if i < j {
      assert Step(ts[j - 1], ts[j]);
      UuidGrows(ts, i, j - 1);
      if e in ts[j - 1].ids && ts[j - 1].ids[e] == ts[j].ids[e] {
        IdKeptOrNew(ts, i, j - 1, e);
      }
    }
  }

  lemma {:induction false} UuidGrows(ts: seq<Store>, i: nat, j: nat)
    requires Trace(ts) && i <= j < |ts|
    ensures ts[i].uuid <= ts[j].uuid
    decreases j - i
  {
    if i < j {
      assert Step(ts[j - 1], ts[j]);
      UuidGrows(ts, i, j - 1);
    }
  }

  /** Over any run, an id its element has lost is never given to any element again. */
  lemma IdNeverReused(ts: seq<Store>, i: nat, j: nat, k: nat, e: nat, f: nat)
    requires Trace(ts) && i < j <= k < |ts|
    requires e in ts[i].ids && f in ts[k].ids && ts[k].ids[f] == ts[i].ids[e]
    ensures f == e && e in ts[j].ids && ts[j].ids[e] == ts[i].ids[e]
  {
    IdKeptOrNew(ts, i, k, f);
    UuidGrows(ts, i, j);
    IdKeptOrNew(ts, j, k, f);
  }

  // ---- Single updates -------------------------------------------------------

  /** `id` is the element's own id, or the number just issued. */
  ghost predicate IdFor(s: Store, uuid: nat, e: nat, id: nat) {
    if e in s.ids then id == s.ids[e] && uuid == s.uuid else id == uuid == s.uuid + 1
  }

  lemma OwnerOf(s: Store, uuid: nat, e: nat, id: nat)
    requires Valid(s) && IdFor(s, uuid, e, id)
    ensures id in s.cache <==> e in s.ids
    ensures forall f :: f in s.ids && f != e ==> s.ids[f] != id
  {
    assert id in s.cache ==> Owned(s, id);
  }

  ghost function PutStore(s: Store, uuid: nat, e: nat, id: nat, r: Record): Store {
    Store(uuid, s.ids[e := id], s.cache[id := r])
  }

  lemma PutValid(s: Store, uuid: nat, e: nat, id: nat, r: Record)
    requires Valid(s) && IdFor(s, uuid, e, id)
    ensures Valid(PutStore(s, uuid, e, id, r))
  {
    var t := PutStore(s, uuid, e, id, r);
    OwnerOf(s, uuid, e, id);
    forall i | i in t.cache ensures Owned(t, i) {
      if i == id {
        assert e in t.ids && t.ids[e] == id;
      } else {
        assert Owned(s, i);
        var f :| f in s.ids && s.ids[f] == i;
        assert f in t.ids && t.ids[f] == i;
      }
    }
  }

  lemma PutLookup(s: Store, uuid: nat, e: nat, id: nat, r: Record, f: nat)
    requires Valid(s) && IdFor(s, uuid, e, id) && (f == e || f in s.ids)
    ensures var t := PutStore(s, uuid, e, id, r);
            t.ids[f] in t.cache && t.cache[t.ids[f]] == if f == e then r else s.cache[s.ids[f]]
  {
    OwnerOf(s, uuid, e, id);
  }

  ghost predicate Agree(v: View, w: View, f: nat) {
    (f in v <==> f in w) && (f in v ==> v[f] == w[f])
  }

  lemma SameView(v: View, w: View)
    requires forall f: nat :: Agree(v, w, f)
    ensures v == w
  {
    forall f: nat ensures f in v <==> f in w {
      assert Agree(v, w, f);
    }
    forall f: nat | f in v ensures v[f] == w[f] {
      assert Agree(v, w, f);
    }
  }

  lemma PutView(s: Store, uuid: nat, e: nat, id: nat, r: Record)
    requires Valid(s) && IdFor(s, uuid, e, id) && Valid(PutStore(s, uuid, e, id, r))
    ensures ViewOf(PutStore(s, uuid, e, id, r)) == ViewOf(s)[e := r]
  {
    var v, w := ViewOf(PutStore(s, uuid, e, id, r)), ViewOf(s)[e := r];
    forall f: nat ensures Agree(v, w, f) {
      if f == e || f in s.ids {
        PutLookup(s, uuid, e, id, r, f);
      }
    }
    SameView(v, w);
  }

  /** Writing a record under the element's id. */
  lemma Put(s: Store, uuid: nat, e: nat, id: nat, r: Record)
    requires Valid(s) && IdFor(s, uuid, e, id)
    ensures Step(s, PutStore(s, uuid, e, id, r))
    ensures ViewOf(PutStore(s, uuid, e, id, r)) == ViewOf(s)[e := r]
  {
    PutValid(s, uuid, e, id, r);
    PutView(s, uuid, e, id, r);
  }

  /** Deleting the element's expando and its record. */
  lemma Drop(s: Store, e: nat)
    requires Valid(s) && e in s.ids
    ensures var t := Store(s.uuid, s.ids - {e}, s.cache - {s.ids[e]});
            Step(s, t) && ViewOf(t) == ViewOf(s) - {e}
  {
    var t := Store(s.uuid, s.ids - {e}, s.cache - {s.ids[e]});
    forall i | i in t.cache ensures Owned(t, i) {
      assert Owned(s, i);
      var f :| f in s.ids && s.ids[f] == i;
      assert f in t.ids;
    }
    assert Valid(t);
    var v, w := ViewOf(t), ViewOf(s) - {e};
    assert v.Keys == w.Keys;
    forall f | f in v ensures v[f] == w[f] {
    }
  }

  /** Using up a number without storing anything. */
  lemma Issue(s: Store, uuid: nat)
    requires Valid(s) && s.uuid <= uuid
    ensures Step(s, s.(uuid := uuid)) && ViewOf(s.(uuid := uuid)) == ViewOf(s)
  {
    var t := s.(uuid := uuid);
    forall i | i in t.cache ensures Owned(t, i) {
      assert Owned(s, i);
    }
  }

  // ---- The object -----------------------------------------------------------

  class JQueryData {
    var uuid: nat
    var ids: map<nat, nat>
    var cache: map<nat, Record>
    /** Elements that refuse expando properties (`embed`, `object`, `applet`). */
    const noData: set<nat>

    ghost function State(): Store
      reads this
    {
      Store(uuid, ids, cache)
    }

    constructor (noData: set<nat>)
      ensures Valid(State()) && ViewOf(State()) == map[] && this.noData == noData
    {
      this.noData := noData;
      uuid, ids, cache := 0, map[], map[];
    }

    /** The element's id, or the next number; the number is used up even if nothing is stored. */
    method TakeId(e: nat) returns (id: nat)
      requires Valid(State())
      modifies this`uuid
      ensures Step(old(State()), State()) && ViewOf(State()) == old(ViewOf(State()))
      ensures (id in cache <==> e in ids) && (e in ids ==> id == ids[e] && cache[id] == ViewOf(State())[e])
      ensures IdFor(old(State()), uuid, e, id)
    {
      ghost var before := State();
      if e in ids {
        id := ids[e];
      } else {
        uuid := uuid + 1;
        id := uuid;
      }
      OwnerOf(before, uuid, e, id);
      Issue(before, uuid);
    }

    /** `elem[expando] = id; cache[id] = r`. */
    method Save(e: nat, id: nat, r: Record, ghost before: Store)
      requires Valid(before) && IdFor(before, uuid, e, id)
      requires State() == before.(uuid := uuid)
      modifies this`ids, this`cache
      ensures Step(before, State()) && ViewOf(State()) == ViewOf(before)[e := r]
    {
      ids, cache := ids[e := id], cache[id := r];
      Put(before, uuid, e, id, r);
    }

    /** `data`: a read leaves the store as it was, whatever is asked for. */
    method Data(e: nat, name: Name, data: Option<nat>) returns (r: Reply)
      requires Valid(State())
      modifies this
      ensures Step(old(State()), State())
      ensures !name.Object? && data.None? ==> ViewOf(State()) == old(ViewOf(State()))
      ensures e !in noData && name.NoName? && data.None? ==>
                r == if e in old(ViewOf(State())) then Contents(old(ViewOf(State()))[e]) else NullReply
      ensures e !in noData && name.Key? && data.None? ==>
                r == if e !in old(ViewOf(State())) then if name.key == "" then NullReply else Undefined
                     else if name.key in old(ViewOf(State()))[e].entries
                     then Value(old(ViewOf(State()))[e].entries[name.key]) else Undefined
      ensures e !in noData && data.Some? && e in old(ViewOf(State())) && !name.Object? ==>
                ViewOf(State()) == old(ViewOf(State()))[e := Record(old(ViewOf(State()))[e].entries[
                                     (if name.Key? then name.key else "undefined") := data.value])]
      ensures e !in noData && data.Some? && e !in old(ViewOf(State())) && !name.Object? ==>
                ViewOf(State()) == if name.NoName? || name.key == "" then old(ViewOf(State()))
                                   else old(ViewOf(State()))[e := Record(map[name.key := data.value])]
      ensures e !in noData && name.Object? ==>
                && r == Contents(if data.None? then name.record
                                 else Record(name.record.entries["[object Object]" := data.value]))
                && ViewOf(State()) == old(ViewOf(State()))[e := r.record]
      ensures e in noData ==> State() == old(State()) && r == Undefined
      ensures e !in noData ==> ViewOf(State()) == DataView(old(ViewOf(State())), e, name, data)
      ensures e !in noData ==> r == DataReply(old(ViewOf(State())), e, name, data)
    {
      if e in noData {
        return Undefined;
      }
      var known := e in ids;
      if Falsy(name) && !known {
        return NullReply;
      }
      ghost var before := State();
      var id := TakeId(e);
      var thisCache := EMPTY;
      if name.Object? {
        thisCache := name.record;
      } else if id in cache {
        thisCache := cache[id];
      }
      if data.Some? {
        thisCache := Record(thisCache.entries[KeyOf(name) := data.value]);
      }
      // the record is shared by reference, so one write stands for both assignments
      if name.Object? || data.Some? {
        Save(e, id, thisCache, before);
      }
      r := match name
           case Key(k) => if k in thisCache.entries then Value(thisCache.entries[k]) else Undefined
           case _ => Contents(thisCache);
    }

    /** `delete elem[expando]; delete cache[id]`. */
    method Clear(e: nat)
      requires Valid(State())
      modifies this`ids, this`cache
      ensures Step(old(State()), State()) && ViewOf(State()) == old(ViewOf(State())) - {e}
    {
      if e in ids {
        Drop(State(), e);
        ids, cache := ids - {e}, cache - {ids[e]};
      }
    }

    /** `removeData`: one key, and with the last one the element, or everything. */
    method RemoveData(e: nat, name: Option<string>)
      requires Valid(State())
      modifies this`ids, this`cache
      ensures Step(old(State()), State())
      ensures e !in noData && (name.None? || name.value == "") ==> ViewOf(State()) == old(ViewOf(State())) - {e}
      ensures e !in noData && name.Some? && name.value != "" && e in old(ViewOf(State())) ==>
                if old(ViewOf(State()))[e].entries.Keys <= {name.value}
                then ViewOf(State()) == old(ViewOf(State())) - {e}
                else ViewOf(State()) == old(ViewOf(State()))[
                                          e := Record(old(ViewOf(State()))[e].entries - {name.value})]
      ensures e in noData ==> State() == old(State())
      ensures e !in noData ==> ViewOf(State()) == RemoveView(old(ViewOf(State())), e, name)
    {
      if e in noData {
        return;
      }
      if name.None? || name.value == "" {
        RemoveWhole(ViewOf(State()), e, name);
        Clear(e);
      } else if e in ids {
        RemoveKey(ViewOf(State()), e, name.value);
        RemoveKeyOf(e, name.value);
      }
    }

    /** Delete one property; an emptied record goes together with the element's id. */
    method RemoveKeyOf(e: nat, k: string)
      requires Valid(State()) && e in ids && k != ""
      modifies this`ids, this`cache
      ensures Step(old(State()), State())
      ensures ViewOf(State()) == RemoveView(old(ViewOf(State())), e, Some(k))
    {
      ghost var before := State();
      var thisCache := Without(cache[ids[e]], k);
      Save(e, ids[e], thisCache, before);
      if thisCache == EMPTY {
        ghost var middle := State();
        Clear(e);
        StepTransitive(before, middle, State());
        UpdateThenDrop(ViewOf(before), e, thisCache);
      }
    }
  }
}
