/**
 The data store of jQuery for DOM nodes: ids taken from a free list or from the counter, the global cache,
 and the freeing of ids by `removeData` and `cleanData`, which can happen inside one another.
 */
module DataIds {
  import opened Dom

  type Elem = nat
  type Id = nat
  type Value = int

  /** The cache entry of a node: the public data object, and of the private data the event types, the
      handle and the rest. */
  datatype Entry = Entry(data: Option<map<string, Value>>, events: Option<seq<string>>, handle: bool,
                         rest: map<string, Value>)

  const BLANK := Entry(None, None, false, map[])

  /** `isEmptyDataObject` */
  predicate IsEmpty(e: Entry) {
    (e.data.None? || e.data.value == map[]) && e.events.None? && !e.handle && e.rest == map[]
  }

  function DropAll(m: map<string, Value>, names: seq<string>): (r: map<string, Value>)
    ensures forall k :: k in r <==> k in m && k !in names
    ensures forall k :: k in r ==> r[k] == m[k]
  {
    map k | k in m && k !in names :: m[k]
  }

  function DropPrivate(e: Entry, names: seq<string>): Entry {
    Entry(if "data" in names then None else e.data,
          if "events" in names then None else e.events,
          if "handle" in names then false else e.handle,
          DropAll(e.rest, names))
  }

  /** What `removeData` leaves of an entry; `None` when it is destroyed. */
  function AfterRemoval(e: Entry, names: Option<seq<string>>, pvt: bool): Option<Entry> {
    if pvt then
      if names.None? then None
      else
        var left := DropPrivate(e, names.value);
        if IsEmpty(left) then None else Some(left)
    else
      var left := if names.Some? && e.data.Some? then DropAll(e.data.value, names.value) else map[];
      if left != map[] then Some(e.(data := Some(left)))
      else
        var bare := e.(data := None);
        if IsEmpty(bare) then None else Some(bare)
  }

  // ----- what can be read -----

  /** What `data` without a value finds in an entry, among the public or the private values. */
  function Reads(e: Option<Entry>, name: string, pvt: bool): Option<Value> {
    match e
    case None => None
    case Some(e) =>
      var m := if pvt then Some(e.rest) else e.data;
      if m.Some? && name in m.value then Some(m.value[name]) else None
  }

  predicate HasType(e: Option<Entry>, t: string) {
    e.Some? && e.value.events.Some? && t in e.value.events.value
  }

  predicate HasHandle(e: Option<Entry>) {
    e.Some? && e.value.handle
  }

  /** Whether a removal is meant to remove this value: without names everything of its side, and the private side holds
      the public one under the name `data`. */
  predicate Removes(names: Option<seq<string>>, pvt: bool, name: string, private: bool) {
    if !pvt then !private && (names.None? || name in names.value)
    else names.None? || (if private then name else "data") in names.value
  }

  predicate RemovesPrivate(names: Option<seq<string>>, pvt: bool, name: string) {
    pvt && (names.None? || name in names.value)
  }

  /** A removal removes exactly what it is meant to. */
  lemma RemovalReads(e: Entry, names: Option<seq<string>>, pvt: bool)
    ensures forall name, private ::
              Reads(AfterRemoval(e, names, pvt), name, private) ==
              if Removes(names, pvt, name, private) then None else Reads(Some(e), name, private)
    ensures forall t :: HasType(AfterRemoval(e, names, pvt), t) <==>
                        HasType(Some(e), t) && !RemovesPrivate(names, pvt, "events")
    ensures HasHandle(AfterRemoval(e, names, pvt)) <==> e.handle && !RemovesPrivate(names, pvt, "handle")
  {
  }

  function WithoutType(types: seq<string>, t: string): (r: seq<string>)
    ensures |r| <= |types| && (t in types ==> |r| < |types|) && (t !in types ==> r == types)
    ensures t !in r
  {
    if types == [] then []
    else
      var n := |types| - 1;
      WithoutType(types[..n], t) + if types[n] == t then [] else [types[n]]
  }

  lemma {:induction false} OthersStay(types: seq<string>, t: string, u: string)
    ensures u in WithoutType(types, t) <==> u in types && u != t
    decreases |types|
  {
    if types != [] {
      var n := |types| - 1;
      OthersStay(types[..n], t, u);
      assert types == types[..n] + [types[n]];
    }
  }

  /** What taking a type off leaves: without types the private data is cleared of them. */
  function AfterTakeOff(e: Entry, t: Option<string>): Option<Entry>
    requires e.events.Some?
  {
    var types := if t.Some? then WithoutType(e.events.value, t.value) else e.events.value;
    if types == [] then AfterRemoval(e.(events := Some([]), handle := false), Some(["events"]), true)
    else Some(e.(events := Some(types)))
  }

  /** Only the type is taken off, and no data. */
  lemma TakeOffReads(e: Entry, t: Option<string>)
    requires e.events.Some?
    ensures forall u :: HasType(AfterTakeOff(e, t), u) <==> u in e.events.value && t != Some(u)
    ensures forall name, private :: !(private && name == "events") ==>
              Reads(AfterTakeOff(e, t), name, private) == Reads(Some(e), name, private)
  {
    var types := if t.Some? then WithoutType(e.events.value, t.value) else e.events.value;
    forall u ensures u in types <==> u in e.events.value && t != Some(u) {
      if t.Some? {
        OthersStay(e.events.value, t.value, u);
      }
    }
    if types == [] {
      RemovalReads(e.(events := Some([]), handle := false), Some(["events"]), true);
    }
  }

  /** Live ids are distinct; the free list has no repeats and no live id; all are below the counter, and
      none is zero, which would be falsy. */
  ghost predicate GoodIds(expando: map<Elem, Id>, deletedIds: seq<Id>, guid: nat) {
    guid > 0 &&
    (forall x, y :: x in expando && y in expando && x != y ==> expando[x] != expando[y]) &&
    (forall i, j :: 0 <= i < j < |deletedIds| ==> deletedIds[i] != deletedIds[j]) &&
    (forall x :: x in expando ==> 0 < expando[x] < guid && expando[x] !in deletedIds) &&
    (forall id :: id in deletedIds ==> 0 < id < guid)
  }

  /** Taking the last free id, or else the number of the counter, for a node that has none. */
  lemma TakeFree(expando: map<Elem, Id>, deletedIds: seq<Id>, guid: nat, elem: Elem)
    requires GoodIds(expando, deletedIds, guid) && elem !in expando && deletedIds != []
    ensures var n := |deletedIds| - 1;
            deletedIds[n] !in expando.Values && GoodIds(expando[elem := deletedIds[n]], deletedIds[..n], guid)
  {
    var n := |deletedIds| - 1;
    assert deletedIds[n] in deletedIds;
    assert forall id :: id in deletedIds[..n] ==> id in deletedIds;
    assert deletedIds[n] !in deletedIds[..n];
  }

  lemma TakeNumber(expando: map<Elem, Id>, deletedIds: seq<Id>, guid: nat, elem: Elem)
    requires GoodIds(expando, deletedIds, guid) && elem !in expando
    ensures guid !in expando.Values && GoodIds(expando[elem := guid], deletedIds, guid + 1)
  {
  }

  lemma AddValue(expando: map<Elem, Id>, elem: Elem, id: Id)
    requires elem !in expando
    ensures expando[elem := id].Values == expando.Values + {id}
  {
    var m := expando[elem := id];
    forall v | v in expando.Values + {id} ensures v in m.Values {
      if v in expando.Values {
        var x :| x in expando && expando[x] == v;
        assert m[x] == v;
      } else {
        assert m[elem] == v;
      }
    }
  }

  /** Giving back the id of a node. */
  lemma GiveId(expando: map<Elem, Id>, deletedIds: seq<Id>, guid: nat, elem: Elem)
    requires GoodIds(expando, deletedIds, guid) && elem in expando
    ensures GoodIds(expando - {elem}, deletedIds + [expando[elem]], guid)
    ensures (expando - {elem}).Values == expando.Values - {expando[elem]}
  {
    var rest := expando - {elem};
    forall id | id in expando.Values - {expando[elem]} ensures id in rest.Values {
      var x :| x in expando && expando[x] == id;
      assert rest[x] == id;
    }
  }

  class DataStore {
    var guid: nat
    var deletedIds: seq<Id>
    var cache: map<Id, Entry>
    var expando: map<Elem, Id>

    ghost predicate Valid()
      reads this
    {
      GoodIds(expando, deletedIds, guid) && cache.Keys == expando.Values
    }

    /** What the store holds for a node. */
    ghost function EntryOf(x: Elem): Option<Entry>
      reads this
    {
      if x in expando && expando[x] in cache then Some(cache[expando[x]]) else None
    }

    constructor ()
      ensures Valid() && forall x :: EntryOf(x) == None
    {
      guid, deletedIds, cache, expando := 1, [], map[], map[];
    }

    /** Handlers take numbers from the same counter. */
    method TakeGuid() returns (n: nat)
      requires Valid()
      modifies this`guid
      ensures Valid() && guid == n + 1 == old(guid) + 1
    {
      n := guid;
      guid := guid + 1;
    }

    /** The id of a node, taken from the free list or the counter if it has none yet; a reused id brings
        nothing of its former owner. */
    method IdOf(elem: Elem) returns (id: Id)
      requires Valid()
      modifies this
      ensures Valid() && elem in expando && expando[elem] == id
      ensures EntryOf(elem) == if old(EntryOf(elem)).Some? then old(EntryOf(elem)) else Some(BLANK)
      ensures forall x :: x != elem ==> EntryOf(x) == old(EntryOf(x))
      ensures elem in old(expando) ==> id == old(expando)[elem] && guid == old(guid) && deletedIds == old(deletedIds)
      ensures elem !in old(expando) && old(deletedIds) != [] ==>
              deletedIds + [id] == old(deletedIds) && guid == old(guid)
      ensures elem !in old(expando) && old(deletedIds) == [] ==>
              id == old(guid) && guid == old(guid) + 1 && deletedIds == []
    {
      if elem in expando {
        assert expando[elem] in expando.Values;
        return expando[elem];
      }
      id := TakeId(elem);
      if id !in cache {
        cache := cache[id := BLANK];
      }
    }

    /** `elem[ internalKey ] = id = jQuery.deletedIds.pop() || jQuery.guid++` */
    method TakeId(elem: Elem) returns (id: Id)
      requires Valid() && elem !in expando
      modifies this`guid, this`deletedIds, this`expando
      ensures GoodIds(expando, deletedIds, guid) && expando == old(expando)[elem := id]
      ensures id !in cache && expando.Values == cache.Keys + {id}
      ensures old(deletedIds) != [] ==> deletedIds + [id] == old(deletedIds) && guid == old(guid)
      ensures old(deletedIds) == [] ==> id == old(guid) && guid == old(guid) + 1 && deletedIds == []
    {
      if |deletedIds| > 0 {
        TakeFree(expando, deletedIds, guid, elem);
        id := deletedIds[|deletedIds| - 1];
        deletedIds := deletedIds[..|deletedIds| - 1];
      } else {
        TakeNumber(expando, deletedIds, guid, elem);
        id := guid;
        guid := guid + 1;
      }
      AddValue(expando, elem, id);
      expando := expando[elem := id];
    }

    method SetEntry(elem: Elem, e: Entry)
      requires Valid() && elem in expando
      modifies this`cache
      ensures Valid() && EntryOf(elem) == Some(e)
      ensures forall x :: x != elem ==> EntryOf(x) == old(EntryOf(x))
    {
      assert expando[elem] in expando.Values;
      cache := cache[expando[elem] := e];
    }

    /** `data` with a value. */
    method SetData(elem: Elem, name: string, value: Value, pvt: bool)
      requires Valid()
      requires pvt ==> name !in {"data", "events", "handle"}
      modifies this
      ensures Valid()
      ensures var before := if old(EntryOf(elem)).Some? then old(EntryOf(elem)).value else BLANK;
              var data := if before.data.Some? then before.data.value else map[];
              EntryOf(elem) == Some(if pvt then before.(rest := before.rest[name := value])
                                    else before.(data := Some(data[name := value])))
      ensures forall x :: x != elem ==> EntryOf(x) == old(EntryOf(x))
    {
      var id := IdOf(elem);
      var e := cache[id];
      if pvt {
        SetEntry(elem, e.(rest := e.rest[name := value]));
      } else {
        var thisCache := if e.data.Some? then e.data.value else map[];
        SetEntry(elem, e.(data := Some(thisCache[name := value])));
      }
    }

    /** `data` without a value: reading never allocates. */
    method GetData(elem: Elem, name: string, pvt: bool) returns (r: Option<Value>)
      requires Valid() && (pvt ==> name !in {"data", "events", "handle"})
      ensures r == Reads(EntryOf(elem), name, pvt)
    {
      if elem !in expando || expando[elem] !in cache || (!pvt && cache[expando[elem]].data.None?) {
        return None;
      }
      var e := cache[expando[elem]];
      var thisCache := if pvt then e.rest else e.data.value;
      r := if name in thisCache then Some(thisCache[name]) else None;
    }

    /** The part of `jQuery.event.add` that touches the store. */
    method AddEventType(elem: Elem, t: string)
      requires Valid()
      modifies this
      ensures Valid()
      ensures forall u :: HasType(EntryOf(elem), u) <==> u == t || old(HasType(EntryOf(elem), u))
      ensures HasHandle(EntryOf(elem))
      ensures forall name, private :: Reads(EntryOf(elem), name, private) == old(Reads(EntryOf(elem), name, private))
      ensures forall x :: x != elem ==> EntryOf(x) == old(EntryOf(x))
    {
      var id := IdOf(elem);
      var e := cache[id];
      var types := if e.events.Some? then e.events.value else [];
      SetEntry(elem, e.(events := Some(if t in types then types else types + [t]), handle := true));
    }

    // ----- freeing -----

    /** The event types still to be taken off bound how deep removals can nest. */
    ghost function Depth(elem: Elem): nat
      reads this
    {
      if EntryOf(elem).Some? && EntryOf(elem).value.events.Some? then 1 + |EntryOf(elem).value.events.value| else 0
    }

    /** The id of `elem` was given back once, or is kept; every other node is as it was. */
    twostate predicate FreedOrKept(elem: Elem)
      reads this
    {
      guid == old(guid) && (forall x :: x != elem ==> EntryOf(x) == old(EntryOf(x))) &&
      if elem in expando then elem in old(expando) && expando == old(expando) && deletedIds == old(deletedIds)
      else expando == old(expando) - {elem} &&
           deletedIds == old(deletedIds) + if elem in old(expando) then [old(expando)[elem]] else []
    }

    /** The end of the body of `cleanData`: the entry and the id are given up together. */
    method Release(elem: Elem)
      requires Valid() && elem in expando
      modifies this`cache, this`expando, this`deletedIds
      ensures Valid() && FreedOrKept(elem) && elem !in expando
    {
      GiveId(expando, deletedIds, guid, elem);
      var id := expando[elem];
      cache := cache - {id};
      expando := expando - {elem};
      deletedIds := deletedIds + [id];
    }

    /** The body of `cleanData` for one node.  Taking off a special event type may free the node on the
        way; the id is given back once all the same. */
    method CleanOne(elem: Elem, special: string -> bool, emptied: string -> Option<string>)
      requires Valid()
      modifies this
      ensures Valid() && FreedOrKept(elem) && elem !in expando
      decreases Depth(elem), 2
    {
      if elem in expando && expando[elem] in cache {
        var id := expando[elem];
        var data := cache[id];
        if data.events.Some? {
          var types := data.events.value;
          var i := 0;
          while i < |types|
            invariant Valid() && FreedOrKept(elem) && Depth(elem) <= old(Depth(elem))
          {
            if special(types[i]) {
              EventRemove(elem, types[i], special, emptied);
            }
            i := i + 1;
          }
        }
        if id in cache {
          StillThere(elem, id, old(expando), old(deletedIds));
          Release(elem);
        }
      }
    }

    /** An id in the cache is live, so its node has not been freed. */
    lemma StillThere(elem: Elem, id: Id, before: map<Elem, Id>, free: seq<Id>)
      requires Valid() && id in cache && elem in before && before[elem] == id
      requires elem in expando ==> expando == before
      requires elem !in expando ==> deletedIds == free + [id]
      ensures elem in expando
    {
      assert id in expando.Values;
      var x :| x in expando && expando[x] == id;
      assert id !in deletedIds && id in free + [id];
    }

    /** No type is left: the handle goes, and then the list of types. */
    method TakeOffHandle(elem: Elem, e: Entry, special: string -> bool, emptied: string -> Option<string>)
      requires Valid() && EntryOf(elem) == Some(e) && e.events.Some?
      modifies this
      ensures Valid() && FreedOrKept(elem) && Depth(elem) == 0
      ensures EntryOf(elem) == AfterRemoval(e.(events := Some([]), handle := false), Some(["events"]), true)
      decreases Depth(elem), 0
    {
      SetEntry(elem, e.(events := Some([]), handle := false));
      RemoveData(elem, Some(["events"]), true, special, emptied);
    }

    /** `jQuery.event.remove( elem, type )`.  `emptied` says which type it leaves without handlers and takes off: the
        one asked for, the one that is bound in its place, or none when handlers of another original type remain. */
    method EventRemove(elem: Elem, t: string, special: string -> bool, emptied: string -> Option<string>)
      requires Valid()
      modifies this
      ensures Valid() && FreedOrKept(elem) && Depth(elem) <= old(Depth(elem))
      ensures EntryOf(elem) == if old(EntryOf(elem)).Some? && old(EntryOf(elem)).value.events.Some?
              then AfterTakeOff(old(EntryOf(elem)).value, emptied(t)) else old(EntryOf(elem))
      decreases Depth(elem), 1
    {
      if elem in expando && expando[elem] in cache && !IsEmpty(cache[expando[elem]]) {
        var e := cache[expando[elem]];
        if e.events.Some? {
          var types := if emptied(t).Some? then WithoutType(e.events.value, emptied(t).value) else e.events.value;
          if types == [] {
            TakeOffHandle(elem, e, special, emptied);
          } else {
            SetEntry(elem, e.(events := Some(types)));
          }
        }
      }
    }

    /** What may still be taken off after `removeData` has deleted what it was asked to. */
    ghost function DepthAfter(elem: Elem, names: Option<seq<string>>, pvt: bool): nat
      reads this
    {
      if pvt && names.Some? && "events" in names.value then 0 else Depth(elem)
    }

    method RemoveData(elem: Elem, names: Option<seq<string>>, pvt: bool, special: string -> bool,
        emptied: string -> Option<string>)
      requires Valid()
      modifies this
      ensures Valid() && FreedOrKept(elem)
      ensures EntryOf(elem) == if old(EntryOf(elem)).None? then None
              else AfterRemoval(old(EntryOf(elem)).value, names, pvt)
      ensures forall name, private ::
                Reads(EntryOf(elem), name, private) ==
                if Removes(names, pvt, name, private) then None else old(Reads(EntryOf(elem), name, private))
      ensures forall t :: HasType(EntryOf(elem), t) <==>
                          old(HasType(EntryOf(elem), t)) && !RemovesPrivate(names, pvt, "events")
      decreases DepthAfter(elem, names, pvt), 3
    {
      if elem !in expando || expando[elem] !in cache {
        return;
      }
      var e := cache[expando[elem]];
      RemovalReads(e, names, pvt);
      if names.Some? {
        if pvt {
          e := DropPrivate(e, names.value);
          SetEntry(elem, e);
          if !IsEmpty(e) {
            return;
          }
        } else if e.data.Some? {
          var left := DropAll(e.data.value, names.value);
          e := e.(data := Some(left));
          SetEntry(elem, e);
          if left != map[] {
            return;
          }
        }
      }
      if !pvt {
        e := e.(data := None);
        SetEntry(elem, e);
        if !IsEmpty(e) {
          return;
        }
      }
      CleanOne(elem, special, emptied);
    }

    /** `cleanData`: afterwards none of the nodes has an id or data; all other nodes keep theirs. */
    method CleanData(elems: seq<Elem>, special: string -> bool, emptied: string -> Option<string>)
      requires Valid()
      modifies this
      ensures Valid() && guid == old(guid)
      ensures forall x :: x in elems ==> x !in expando
      ensures forall x :: x !in elems ==> EntryOf(x) == old(EntryOf(x))
    {
      var i := 0;
      while i < |elems|
        invariant 0 <= i <= |elems| && Valid() && guid == old(guid)
        invariant forall k :: 0 <= k < i ==> elems[k] !in expando
        invariant forall x :: x !in elems ==> EntryOf(x) == old(EntryOf(x))
      {
        CleanOne(elems[i], special, emptied);
        i := i + 1;
      }
    }
  }
}
