/** The hash table with its rings is a plain map from key and process to value. */
module TsdProofs {
  import opened Seqs
  import opened TsdSpec

  // ---------------------------------------------------------------- bins

  /** Each entry is in the bin of its hash, once, and the bins hold nothing else. */
  ghost predicate BinsOk(c: Config, bins: seq<seq<Id>>, ids: set<Id>) {
    && (forall id: Id :: c.hash(id) < |bins|)
    && (forall b :: 0 <= b < |bins| ==> Distinct(bins[b]))
    && (forall b, id: Id :: 0 <= b < |bins| ==> (id in bins[b] <==> id in ids && c.hash(id) == b))
  }

  lemma SearchExact(c: Config, s: State, id: Id)
    requires BinsOk(c, s.bins, s.heap.Keys)
    ensures Search(c, s, id) <==> id in s.heap
  {
    assert id in s.bins[c.hash(id)] <==> id in s.heap.Keys;
  }

  lemma BinsAdd(c: Config, bins: seq<seq<Id>>, ids: set<Id>, id: Id)
    requires BinsOk(c, bins, ids) && id !in ids
    ensures BinsOk(c, BinAdd(bins, c.hash(id), id), ids + {id})
  {
    assert id !in bins[c.hash(id)];
    DistinctAppend(bins[c.hash(id)], id);
  }

  lemma BinsDel(c: Config, bins: seq<seq<Id>>, ids: set<Id>, id: Id)
    requires BinsOk(c, bins, ids)
    ensures BinsOk(c, BinDel(bins, c.hash(id), id), ids - {id})
  {
    RemoveDistinct(bins[c.hash(id)], id);
  }

  // ---------------------------------------------------------------- rings

  /** The two kinds of ring: by key and by process. */
  datatype Kind = ByKey | ByPid

  function Of(d: Kind, id: Id): nat { if d == ByKey then id.key else id.pid }

  function Anchor(c: Config, d: Kind, k: nat): Id {
    if d == ByKey then KeyAnchor(c, k) else PidAnchor(c, k)
  }

  /** DTOR_PID is no process: the entry at PID_KEY and DTOR_PID is a key's anchor. */
  predicate CanAnchor(c: Config, d: Kind, k: nat) { d == ByKey || k != c.dtorPid }

  /** A ring exists where its anchor does, and holds each entry that belongs there once. */
  ghost predicate RingsOk(c: Config, d: Kind, rings: Rings, ids: set<Id>) {
    && (forall k: nat :: k in rings <==> CanAnchor(c, d, k) && Anchor(c, d, k) in ids)
    && (forall id: Id :: id in ids && Ordinary(c, id) ==> Of(d, id) in rings)
    && (forall k: nat :: k in rings ==> Distinct(rings[k]))
    && (forall k: nat, id: Id {:trigger id in rings[k]} :: k in rings ==>
          (id in rings[k] <==> id in ids && Ordinary(c, id) && Of(d, id) == k))
  }

  lemma RingsAdd(c: Config, d: Kind, rings: Rings, ids: set<Id>, id: Id)
    requires RingsOk(c, d, rings, ids) && id !in ids && Ordinary(c, id) && Of(d, id) in rings
    ensures RingsOk(c, d, RingAdd(rings, Of(d, id), id), ids + {id})
  {
    assert id !in rings[Of(d, id)];
    DistinctAppend(rings[Of(d, id)], id);
  }

  lemma RingsDel(c: Config, d: Kind, rings: Rings, ids: set<Id>, id: Id)
    requires RingsOk(c, d, rings, ids) && id in ids && Ordinary(c, id)
    ensures RingsOk(c, d, RingDel(rings, Of(d, id), id), ids - {id})
  {
    RemoveDistinct(rings[Of(d, id)], id);
  }

  lemma RingsNewAnchor(c: Config, d: Kind, rings: Rings, ids: set<Id>, k: nat)
    requires RingsOk(c, d, rings, ids) && CanAnchor(c, d, k) && k !in rings
    ensures RingsOk(c, d, rings[k := []], ids + {Anchor(c, d, k)})
  {
  }

  lemma RingsDropAnchor(c: Config, d: Kind, rings: Rings, ids: set<Id>, k: nat)
    requires RingsOk(c, d, rings, ids) && k in rings && |rings[k]| == 0
    ensures RingsOk(c, d, rings - {k}, ids - {Anchor(c, d, k)})
  {
    forall id: Id | id in ids && Ordinary(c, id) ensures Of(d, id) != k {
      assert id in rings[k] <==> Of(d, id) == k;
    }
  }

  /** The anchors of the other kind do not matter. */
  lemma RingsOther(c: Config, d: Kind, rings: Rings, ids: set<Id>, k: nat)
    requires RingsOk(c, d, rings, ids)
    requires var e := if d == ByKey then ByPid else ByKey; CanAnchor(c, e, k)
    ensures var a := Anchor(c, if d == ByKey then ByPid else ByKey, k);
      RingsOk(c, d, rings, ids + {a}) && RingsOk(c, d, rings, ids - {a})
  {
  }

  // ---------------------------------------------------------------- the invariant

  /** Data is never NULL and carries the destructor of its key; keys are in range. */
  ghost predicate BodiesOk(c: Config, heap: map<Id, Body>) {
    && (forall id: Id :: id in heap && Ordinary(c, id) ==>
          && heap[id].value != 0
          && KeyAnchor(c, id.key) in heap && heap[id].dtor == heap[KeyAnchor(c, id.key)].dtor)
    && (forall id: Id :: id in heap ==> 1 <= id.key <= PidKey(c))
    && (forall id: Id :: id in heap && id.key == PidKey(c) && id.pid != c.dtorPid ==> heap[id].dtor == 0)
  }

  ghost predicate WF(c: Config, s: State) {
    && BinsOk(c, s.bins, s.heap.Keys)
    && RingsOk(c, ByKey, s.keyRings, s.heap.Keys)
    && RingsOk(c, ByPid, s.pidRings, s.heap.Keys)
    && BodiesOk(c, s.heap)
    && 1 <= s.htKey <= PidKey(c)
  }

  lemma FreshWF(c: Config, s: State)
    requires Fresh(c, s) && forall id: Id :: c.hash(id) < |s.bins|
    ensures WF(c, s)
  {
  }

  lemma AddWF(c: Config, s: State, id: Id, value: nat)
    requires WF(c, s) && Ordinary(c, id) && id !in s.heap && value != 0
    requires KeyAnchor(c, id.key) in s.heap && PidAnchor(c, id.pid) in s.heap
    ensures WF(c, Add(c, s, id, value))
  {
    BinsAdd(c, s.bins, s.heap.Keys, id);
    RingsAdd(c, ByKey, s.keyRings, s.heap.Keys, id);
    RingsAdd(c, ByPid, s.pidRings, s.heap.Keys, id);
    assert Add(c, s, id, value).heap.Keys == s.heap.Keys + {id};
  }

  lemma DelWF(c: Config, s: State, id: Id)
    requires WF(c, s) && Ordinary(c, id) && id in s.heap
    ensures WF(c, Del(c, s, id))
  {
    BinsDel(c, s.bins, s.heap.Keys, id);
    RingsDel(c, ByKey, s.keyRings, s.heap.Keys, id);
    RingsDel(c, ByPid, s.pidRings, s.heap.Keys, id);
    assert Del(c, s, id).heap.Keys == s.heap.Keys - {id};
  }

  lemma AddKeyAnchorWF(c: Config, s: State, key: nat, dtor: nat)
    requires WF(c, s) && key !in s.keyRings && 1 <= key <= PidKey(c)
    ensures WF(c, AddKeyAnchor(c, s, key, dtor))
  {
    var id := KeyAnchor(c, key);
    assert Anchor(c, ByKey, key) == id;
    BinsAdd(c, s.bins, s.heap.Keys, id);
    RingsNewAnchor(c, ByKey, s.keyRings, s.heap.Keys, key);
    RingsOther(c, ByPid, s.pidRings, s.heap.Keys, key);
    assert AddKeyAnchor(c, s, key, dtor).heap.Keys == s.heap.Keys + {id};
  }

  lemma AddPidAnchorWF(c: Config, s: State, pid: nat)
    requires WF(c, s) && pid != c.dtorPid && PidAnchor(c, pid) !in s.heap
    ensures WF(c, AddPidAnchor(c, s, pid))
  {
    var id := PidAnchor(c, pid);
    assert Anchor(c, ByPid, pid) == id;
    BinsAdd(c, s.bins, s.heap.Keys, id);
    RingsNewAnchor(c, ByPid, s.pidRings, s.heap.Keys, pid);
    RingsOther(c, ByKey, s.keyRings, s.heap.Keys, pid);
    assert AddPidAnchor(c, s, pid).heap.Keys == s.heap.Keys + {id};
  }

  lemma DelKeyAnchorWF(c: Config, s: State, key: nat)
    requires WF(c, s) && key in s.keyRings && |s.keyRings[key]| == 0
    ensures WF(c, DelKeyAnchor(c, s, key))
  {
    var id := KeyAnchor(c, key);
    assert Anchor(c, ByKey, key) == id;
    BinsDel(c, s.bins, s.heap.Keys, id);
    RingsDropAnchor(c, ByKey, s.keyRings, s.heap.Keys, key);
    RingsOther(c, ByPid, s.pidRings, s.heap.Keys, key);
    assert DelKeyAnchor(c, s, key).heap.Keys == s.heap.Keys - {id};
    NoneWithKey(c, s, key);
  }

  lemma NoneWithKey(c: Config, s: State, key: nat)
    requires WF(c, s) && key in s.keyRings && |s.keyRings[key]| == 0
    ensures forall id: Id :: id in s.heap && Ordinary(c, id) ==> id.key != key
  {
    forall id: Id | id in s.heap && Ordinary(c, id) ensures id.key != key {
      assert id !in s.keyRings[key];
    }
  }

  lemma DelPidAnchorWF(c: Config, s: State, pid: nat)
    requires WF(c, s) && pid in s.pidRings && |s.pidRings[pid]| == 0
    ensures WF(c, DelPidAnchor(c, s, pid))
  {
    var id := PidAnchor(c, pid);
    assert Anchor(c, ByPid, pid) == id;
    BinsDel(c, s.bins, s.heap.Keys, id);
    RingsDropAnchor(c, ByPid, s.pidRings, s.heap.Keys, pid);
    RingsOther(c, ByKey, s.keyRings, s.heap.Keys, pid);
    assert DelPidAnchor(c, s, pid).heap.Keys == s.heap.Keys - {id};
  }

  lemma StoreWF(c: Config, s: State, id: Id, value: nat)
    requires WF(c, s) && Ordinary(c, id) && id in s.heap && value != 0
    ensures WF(c, Store(s, id, value))
  {
    assert Store(s, id, value).heap.Keys == s.heap.Keys;
  }

  // ---------------------------------------------------------------- the plain map

  datatype Plain = Plain(
    live: map<nat, nat>,           // key to destructor
    data: map<Id, nat>,            // key and process to value
    cursor: nat)                   // where the search for a free key continues

  ghost function LiveIn(c: Config, keys: set<nat>, heap: map<Id, Body>): map<nat, nat> {
    map k | k in keys && KeyAnchor(c, k) in heap :: heap[KeyAnchor(c, k)].dtor
  }

  ghost function Live(c: Config, s: State): map<nat, nat> { LiveIn(c, s.keyRings.Keys, s.heap) }

  ghost function Data(c: Config, heap: map<Id, Body>): map<Id, nat> {
    map id | id in heap && Ordinary(c, id) :: heap[id].value
  }

  ghost function View(c: Config, s: State): Plain { Plain(Live(c, s), Data(c, s.heap), s.htKey) }

  /** The operations on the plain map. */
  ghost function PlainOp(c: Config, a: Plain, op: Op): Plain {
    match op
    case Create(dtor) =>
      var (key, found) := FindKey(a.live.Keys, c.keysMax, a.cursor, c.keysMax);
      a.(cursor := key, live := if found then a.live[key := dtor] else a.live)
    case Set(key, pid, value) =>
      if key == 0 || key > c.keysMax then a
      else if value == 0 then a.(data := a.data - {Id(key, pid)})
      else a.(data := a.data[Id(key, pid) := value])
    case Destroy(key) =>
      a.(live := a.live - {key}, data := map id | id in a.data && id.key != key :: a.data[id])
    case Exit(pid) => a.(data := map id | id in a.data && id.pid != pid :: a.data[id])
  }

  lemma LiveKeys(c: Config, s: State)
    requires RingsOk(c, ByKey, s.keyRings, s.heap.Keys)
    ensures Live(c, s).Keys == s.keyRings.Keys
  {
    forall k | k in s.keyRings ensures k in Live(c, s) {
      assert Anchor(c, ByKey, k) in s.heap.Keys;
    }
  }

  lemma DataDrop(c: Config, heap: map<Id, Body>, gone: set<Id>)
    ensures Data(c, heap - gone) == Data(c, heap) - gone
  {
  }

  lemma LiveDrop(c: Config, keys: set<nat>, heap: map<Id, Body>, gone: set<Id>)
    requires forall id :: id in gone ==> id.pid != c.dtorPid
    ensures LiveIn(c, keys, heap - gone) == LiveIn(c, keys, heap)
  {
  }

  lemma DataPut(c: Config, heap: map<Id, Body>, id: Id, body: Body)
    ensures Data(c, heap[id := body]) ==
      if Ordinary(c, id) then Data(c, heap)[id := body.value] else Data(c, heap)
  {
  }

  lemma LivePut(c: Config, keys: set<nat>, heap: map<Id, Body>, id: Id, body: Body)
    requires id.pid != c.dtorPid
    ensures LiveIn(c, keys, heap[id := body]) == LiveIn(c, keys, heap)
  {
  }

  lemma NotData(c: Config, heap: map<Id, Body>, id: Id)
    requires !Ordinary(c, id) || id !in heap
    ensures Data(c, heap) - {id} == Data(c, heap)
  {
  }

  // ---------------------------------------------------------------- deleting a whole ring

  /** `ids` are entries with data, none twice. */
  ghost predicate Deletable(c: Config, heap: map<Id, Body>, ids: seq<Id>) {
    Distinct(ids) && forall id :: id in ids ==> id in heap && Ordinary(c, id)
  }

  lemma {:induction false} DelAllWF(c: Config, s: State, ids: seq<Id>)
    requires WF(c, s) && Deletable(c, s.heap, ids)
    ensures WF(c, DelAll(c, s, ids))
    decreases |ids|
  {
    if |ids| > 0 {
      assert ids[0] in ids;
      DelWF(c, s, ids[0]);
      RestDeletable(c, s.heap, ids);
      DelAllWF(c, Del(c, s, ids[0]), ids[1..]);
    }
  }

  lemma {:induction false} DelAllHeap(c: Config, s: State, ids: seq<Id>)
    ensures DelAll(c, s, ids).heap == s.heap - ToSet(ids)
    ensures DelAll(c, s, ids).keyRings.Keys == s.keyRings.Keys
    ensures DelAll(c, s, ids).pidRings.Keys == s.pidRings.Keys
    ensures DelAll(c, s, ids).htKey == s.htKey
    decreases |ids|
  {
    if |ids| > 0 {
      var t := Del(c, s, ids[0]);
      DelAllHeap(c, t, ids[1..]);
      SplitSet(ids);
      assert t.keyRings.Keys == s.keyRings.Keys && t.pidRings.Keys == s.pidRings.Keys;
    }
  }

  lemma RestDeletable(c: Config, heap: map<Id, Body>, ids: seq<Id>)
    requires Deletable(c, heap, ids) && |ids| > 0
    ensures Deletable(c, heap - {ids[0]}, ids[1..])
  {
    forall id | id in ids[1..] ensures id in ids && id != ids[0] {
    }
  }

  lemma SplitSet(ids: seq<Id>)
    requires |ids| > 0
    ensures ToSet(ids) == {ids[0]} + ToSet(ids[1..])
  {
    assert ids == [ids[0]] + ids[1..];
  }

  lemma RingDeletable(c: Config, d: Kind, s: State, rings: Rings, k: nat)
    requires RingsOk(c, d, rings, s.heap.Keys) && k in rings
    ensures Deletable(c, s.heap, rings[k])
    ensures forall id: Id {:trigger id in ToSet(rings[k])} ::
      id in ToSet(rings[k]) <==> id in s.heap && Ordinary(c, id) && Of(d, id) == k
  {
    var ring := rings[k];
    forall id: Id ensures id in ToSet(ring) <==> id in s.heap && Ordinary(c, id) && Of(d, id) == k {
      assert id in rings[k] <==> id in s.heap.Keys && Ordinary(c, id) && Of(d, id) == k;
    }
    forall id | id in ring ensures id in s.heap && Ordinary(c, id) {
      assert id in rings[k];
    }
  }

  lemma NoMembers(q: seq<Id>)
    requires forall id: Id :: id !in q
    ensures |q| == 0
  {
    if |q| > 0 {
      HasMember(q);
      assert false;
    }
  }

  lemma HasMember(q: seq<Id>)
    requires |q| > 0
    ensures exists id: Id :: id in q
  {
    assert q[0] in q;
  }

  lemma RingEmptied(c: Config, d: Kind, rings: Rings, ids: set<Id>, k: nat)
    requires RingsOk(c, d, rings, ids) && k in rings
    requires forall id: Id :: id in ids && Ordinary(c, id) ==> Of(d, id) != k
    ensures |rings[k]| == 0
  {
    forall id: Id ensures id !in rings[k] {
      assert id in rings[k] <==> id in ids && Ordinary(c, id) && Of(d, id) == k;
    }
    NoMembers(rings[k]);
  }

  /** `tsd_destroy` takes out the key and exactly the data of the key. */
  lemma DestroyRefines(c: Config, s: State, key: nat)
    requires WF(c, s)
    ensures WF(c, DestroyOp(c, s, key))
    ensures View(c, DestroyOp(c, s, key)) == PlainOp(c, View(c, s), Destroy(key))
  {
    SearchExact(c, s, KeyAnchor(c, key));
    assert Anchor(c, ByKey, key) == KeyAnchor(c, key);
    if key in s.keyRings {
      var ring := s.keyRings[key];
      RingDeletable(c, ByKey, s, s.keyRings, key);
      DelAllWF(c, s, ring);
      DelAllHeap(c, s, ring);
      var t := DelAll(c, s, ring);
      RingEmptied(c, ByKey, t.keyRings, t.heap.Keys, key);
      DelKeyAnchorWF(c, t, key);
      DestroyView(c, s, t, key);
    } else {
      AbsentKey(c, s, key);
    }
  }

  /** Taking the entries of a ring out of the data leaves those that are not on it. */
  lemma DataLeft(c: Config, d: Kind, s: State, rings: Rings, k: nat)
    requires RingsOk(c, d, rings, s.heap.Keys) && k in rings
    ensures Data(c, s.heap) - ToSet(rings[k]) ==
      map id | id in Data(c, s.heap) && Of(d, id) != k :: Data(c, s.heap)[id]
  {
    RingDeletable(c, d, s, rings, k);
    var left := Data(c, s.heap) - ToSet(rings[k]);
    forall id: Id ensures id in left <==> id in Data(c, s.heap) && Of(d, id) != k {
      assert id in ToSet(rings[k]) <==> id in s.heap && Ordinary(c, id) && Of(d, id) == k;
    }
  }

  lemma RingNoDtor(c: Config, d: Kind, s: State, rings: Rings, k: nat)
    requires RingsOk(c, d, rings, s.heap.Keys) && k in rings
    ensures forall id :: id in ToSet(rings[k]) ==> id.pid != c.dtorPid
  {
    RingDeletable(c, d, s, rings, k);
  }

  lemma LiveDropKey(c: Config, keys: set<nat>, heap: map<Id, Body>, key: nat)
    ensures LiveIn(c, keys - {key}, heap - {KeyAnchor(c, key)}) == LiveIn(c, keys, heap) - {key}
  {
  }

  lemma DestroyView(c: Config, s: State, t: State, key: nat)
    requires RingsOk(c, ByKey, s.keyRings, s.heap.Keys) && key in s.keyRings
    requires t.heap == s.heap - ToSet(s.keyRings[key])
    requires t.keyRings.Keys == s.keyRings.Keys && t.htKey == s.htKey
    ensures View(c, DelKeyAnchor(c, t, key)) == PlainOp(c, View(c, s), Destroy(key))
  {
    var u := DelKeyAnchor(c, t, key);
    var ring := ToSet(s.keyRings[key]);
    RingNoDtor(c, ByKey, s, s.keyRings, key);
    LiveDrop(c, s.keyRings.Keys, s.heap, ring);
    LiveDropKey(c, s.keyRings.Keys, t.heap, key);
    assert u.keyRings.Keys == s.keyRings.Keys - {key};
    DataDrop(c, s.heap, ring);
    DataDrop(c, t.heap, {KeyAnchor(c, key)});
    NotData(c, t.heap, KeyAnchor(c, key));
    DataLeft(c, ByKey, s, s.keyRings, key);
    DropsByKey(Data(c, s.heap), key);
  }

  lemma DropsByKey(data: map<Id, nat>, k: nat)
    ensures (map id | id in data && Of(ByKey, id) != k :: data[id]) ==
            (map id | id in data && id.key != k :: data[id])
    ensures (map id | id in data && Of(ByPid, id) != k :: data[id]) ==
            (map id | id in data && id.pid != k :: data[id])
  {
  }

  lemma AbsentKey(c: Config, s: State, key: nat)
    requires RingsOk(c, ByKey, s.keyRings, s.heap.Keys) && key !in s.keyRings
    ensures PlainOp(c, View(c, s), Destroy(key)) == View(c, s)
  {
    assert Live(c, s) - {key} == Live(c, s);
    forall id | id in Data(c, s.heap) ensures id.key != key {
      assert Of(ByKey, id) in s.keyRings;
    }
    assert PlainOp(c, View(c, s), Destroy(key)).data == Data(c, s.heap);
  }

  lemma AbsentPid(c: Config, s: State, pid: nat)
    requires RingsOk(c, ByPid, s.pidRings, s.heap.Keys) && pid !in s.pidRings
    ensures PlainOp(c, View(c, s), Exit(pid)) == View(c, s)
  {
    forall id | id in Data(c, s.heap) ensures id.pid != pid {
      assert Of(ByPid, id) in s.pidRings;
    }
    assert PlainOp(c, View(c, s), Exit(pid)).data == Data(c, s.heap);
  }

  /** `tsd_exit` takes out exactly the data of the process. */
  lemma ExitRefines(c: Config, s: State, pid: nat)
    requires WF(c, s) && pid != c.dtorPid
    ensures WF(c, ExitOp(c, s, pid))
    ensures View(c, ExitOp(c, s, pid)) == PlainOp(c, View(c, s), Exit(pid))
  {
    SearchExact(c, s, PidAnchor(c, pid));
    assert Anchor(c, ByPid, pid) == PidAnchor(c, pid);
    if pid in s.pidRings {
      var ring := s.pidRings[pid];
      RingDeletable(c, ByPid, s, s.pidRings, pid);
      DelAllWF(c, s, ring);
      DelAllHeap(c, s, ring);
      var t := DelAll(c, s, ring);
      RingEmptied(c, ByPid, t.pidRings, t.heap.Keys, pid);
      DelPidAnchorWF(c, t, pid);
      ExitView(c, s, t, pid);
    } else {
      AbsentPid(c, s, pid);
    }
  }

  lemma ExitView(c: Config, s: State, t: State, pid: nat)
    requires RingsOk(c, ByPid, s.pidRings, s.heap.Keys) && pid in s.pidRings && pid != c.dtorPid
    requires t.heap == s.heap - ToSet(s.pidRings[pid])
    requires t.keyRings.Keys == s.keyRings.Keys && t.htKey == s.htKey
    ensures View(c, DelPidAnchor(c, t, pid)) == PlainOp(c, View(c, s), Exit(pid))
  {
    var ring := ToSet(s.pidRings[pid]);
    RingNoDtor(c, ByPid, s, s.pidRings, pid);
    LiveDrop(c, s.keyRings.Keys, s.heap, ring);
    LiveDrop(c, s.keyRings.Keys, t.heap, {PidAnchor(c, pid)});
    DataDrop(c, s.heap, ring);
    DataDrop(c, t.heap, {PidAnchor(c, pid)});
    NotData(c, t.heap, PidAnchor(c, pid));
    DataLeft(c, ByPid, s, s.pidRings, pid);
    DropsByKey(Data(c, s.heap), pid);
  }

  // ---------------------------------------------------------------- tsd_set

  /** The process anchor goes exactly with the last entry of its ring. */
  lemma RemoveEntryIs(c: Config, s: State, id: Id)
    requires RingsOk(c, ByPid, s.pidRings, s.heap.Keys) && Ordinary(c, id) && id in s.heap
    ensures id.pid in s.pidRings
    ensures RemoveEntry(c, s, id) ==
      if |s.pidRings[id.pid]| == 1 then DelPidAnchor(c, Del(c, s, id), id.pid) else Del(c, s, id)
  {
    var ring := s.pidRings[id.pid];
    assert Of(ByPid, id) == id.pid;
    assert id in ring;
    assert |ring| == 1 ==> ring[0] == id;
  }

  lemma RemoveEntryWF(c: Config, s: State, id: Id)
    requires WF(c, s) && Ordinary(c, id) && id in s.heap
    ensures WF(c, RemoveEntry(c, s, id))
  {
    RemoveEntryIs(c, s, id);
    DelWF(c, s, id);
    if |s.pidRings[id.pid]| == 1 {
      assert s.pidRings[id.pid][0] == id by { assert Of(ByPid, id) == id.pid; assert id in s.pidRings[id.pid]; }
      DelPidAnchorWF(c, Del(c, s, id), id.pid);
    }
  }

  lemma DelView(c: Config, s: State, id: Id)
    requires Ordinary(c, id)
    ensures View(c, Del(c, s, id)) == View(c, s).(data := View(c, s).data - {id})
  {
    DataDrop(c, s.heap, {id});
    LiveDrop(c, s.keyRings.Keys, s.heap, {id});
    assert RingDel(s.keyRings, id.key, id).Keys == s.keyRings.Keys;
  }

  lemma DelPidAnchorView(c: Config, s: State, pid: nat)
    requires pid != c.dtorPid
    ensures View(c, DelPidAnchor(c, s, pid)) == View(c, s)
  {
    DataDrop(c, s.heap, {PidAnchor(c, pid)});
    NotData(c, s.heap, PidAnchor(c, pid));
    LiveDrop(c, s.keyRings.Keys, s.heap, {PidAnchor(c, pid)});
  }

  lemma RemoveEntryView(c: Config, s: State, id: Id)
    requires RingsOk(c, ByPid, s.pidRings, s.heap.Keys) && Ordinary(c, id) && id in s.heap
    ensures View(c, RemoveEntry(c, s, id)) == View(c, s).(data := View(c, s).data - {id})
  {
    RemoveEntryIs(c, s, id);
    DelView(c, s, id);
    DelPidAnchorView(c, Del(c, s, id), id.pid);
  }

  /** Removing does not look at the value, which `tsd_set` has just overwritten with NULL. */
  lemma RemoveStored(c: Config, s: State, id: Id)
    requires id in s.heap
    ensures RemoveEntry(c, Store(s, id, 0), id) == RemoveEntry(c, s, id)
  {
    assert Store(s, id, 0).heap - {id} == s.heap - {id};
    assert Del(c, Store(s, id, 0), id) == Del(c, s, id);
  }

  lemma StoreView(c: Config, s: State, id: Id, value: nat)
    requires Ordinary(c, id) && id in s.heap
    ensures View(c, Store(s, id, value)) == View(c, s).(data := View(c, s).data[id := value])
  {
    DataPut(c, s.heap, id, Body(s.heap[id].dtor, value));
    LivePut(c, s.keyRings.Keys, s.heap, id, Body(s.heap[id].dtor, value));
  }

  lemma EnsurePidView(c: Config, s: State, pid: nat)
    requires pid != c.dtorPid
    ensures View(c, EnsurePid(c, s, pid)) == View(c, s)
  {
    DataPut(c, s.heap, PidAnchor(c, pid), Body(0, 0));
    LivePut(c, s.keyRings.Keys, s.heap, PidAnchor(c, pid), Body(0, 0));
  }

  lemma EnsurePidWF(c: Config, s: State, pid: nat)
    requires WF(c, s) && pid != c.dtorPid
    ensures WF(c, EnsurePid(c, s, pid))
  {
    SearchExact(c, s, PidAnchor(c, pid));
    if PidAnchor(c, pid) !in s.heap {
      AddPidAnchorWF(c, s, pid);
    }
  }

  lemma EnsurePidHeap(c: Config, s: State, pid: nat)
    requires BinsOk(c, s.bins, s.heap.Keys)
    ensures PidAnchor(c, pid) in EnsurePid(c, s, pid).heap
    ensures forall id: Id :: id in EnsurePid(c, s, pid).heap <==> id in s.heap || id == PidAnchor(c, pid)
  {
    SearchExact(c, s, PidAnchor(c, pid));
  }

  lemma AddView(c: Config, s: State, id: Id, value: nat)
    requires Ordinary(c, id) && KeyAnchor(c, id.key) in s.heap
    ensures View(c, Add(c, s, id, value)) == View(c, s).(data := View(c, s).data[id := value])
  {
    var body := Body(s.heap[KeyAnchor(c, id.key)].dtor, value);
    DataPut(c, s.heap, id, body);
    LivePut(c, s.keyRings.Keys, s.heap, id, body);
    assert RingAdd(s.keyRings, id.key, id).Keys == s.keyRings.Keys;
  }

  lemma AbsentData(c: Config, s: State, id: Id)
    requires id !in s.heap
    ensures View(c, s).(data := View(c, s).data - {id}) == View(c, s)
  {
    assert Data(c, s.heap) - {id} == Data(c, s.heap);
  }

  /** `tsd_set` stores, replaces or removes one value. */
  lemma SetRefines(c: Config, s: State, id: Id, value: nat)
    requires WF(c, s) && id.pid != c.dtorPid && 1 <= id.key <= c.keysMax
    requires KeyAnchor(c, id.key) in s.heap
    ensures Search(c, s, id) ==> id in s.heap
    ensures WF(c, SetOp(c, s, id, value))
    ensures View(c, SetOp(c, s, id, value)) ==
      View(c, s).(data := if value == 0 then View(c, s).data - {id} else View(c, s).data[id := value])
  {
    SearchExact(c, s, id);
    if id in s.heap {
      if value == 0 {
        RemoveStored(c, s, id);
        RemoveEntryWF(c, s, id);
        RemoveEntryView(c, s, id);
      } else {
        StoreWF(c, s, id, value);
        StoreView(c, s, id, value);
      }
    } else if value == 0 {
      AbsentData(c, s, id);
    } else {
      EnsurePidWF(c, s, id.pid);
      EnsurePidHeap(c, s, id.pid);
      EnsurePidView(c, s, id.pid);
      var t := EnsurePid(c, s, id.pid);
      AddWF(c, t, id, value);
      AddView(c, t, id, value);
    }
  }

  // ---------------------------------------------------------------- tsd_create

  /** Steps from `k0` to `k` on the cycle 1 .. max + 1. */
  function Dist(max: nat, k0: nat, k: nat): int { if k >= k0 then k - k0 else k - k0 + max + 1 }

  /** Every key on the way from `k0` to `key` is live. */
  ghost predicate FirstFree(live: set<nat>, max: nat, k0: nat, key: nat) {
    forall x: nat :: 1 <= x <= max + 1 && 1 <= Dist(max, k0, x) < Dist(max, k0, key) ==> x in live
  }

  lemma {:induction false} FindKeyWalk(live: set<nat>, max: nat, k0: nat, k: nat, left: nat)
    requires 1 <= k0 <= max + 1 && 1 <= k <= max + 1 && left <= max
    requires Dist(max, k0, k) == max - left
    requires forall x: nat :: 1 <= x <= max + 1 && 1 <= Dist(max, k0, x) <= Dist(max, k0, k) ==> x in live
    ensures var (key, found) := FindKey(live, max, k, left);
      && 1 <= key <= max + 1
      && (found ==> key !in live && key != k0)
      && (found ==> FirstFree(live, max, k0, key))
      && (!found ==> key == k0 && forall x: nat :: 1 <= x <= max + 1 && x != k0 ==> x in live)
    decreases left
  {
    var next := NextKey(max, k);
    if left > 0 && next in live {
      assert Dist(max, k0, next) == Dist(max, k0, k) + 1;
      FindKeyWalk(live, max, k0, next, left - 1);
    }
  }

  /** The key search goes round the cycle 1 .. TSD_KEYS_MAX + 1 from the last key on.  It yields the
      first key that is not live, never zero, and fails exactly if every key but the last one
      given out is live; then `ht_key` is where it was. */
  lemma KeySearch(live: set<nat>, max: nat, k0: nat)
    requires 1 <= k0 <= max + 1
    ensures var (key, found) := FindKey(live, max, k0, max);
      && (found <==> exists x: nat :: 1 <= x <= max + 1 && x != k0 && x !in live)
      && (found ==> 1 <= key <= max + 1 && key !in live && FirstFree(live, max, k0, key))
      && (!found ==> key == k0 && |live| >= max)
  {
    FindKeyWalk(live, max, k0, k0, max);
    var (key, found) := FindKey(live, max, k0, max);
    if !found {
      ManyLive(live, max + 1, k0);
    }
  }

  lemma {:induction false} ManyLive(live: set<nat>, top: nat, k0: nat)
    requires forall x: nat :: 1 <= x <= top && x != k0 ==> x in live
    ensures |live| >= top - (if 1 <= k0 <= top then 1 else 0)
    decreases top
  {
    if top > 0 {
      if top == k0 {
        ManyLive(live, top - 1, k0);
      } else {
        ManyLive(live - {top}, top - 1, k0);
      }
    }
  }

  lemma CreateRefines(c: Config, s: State, dtor: nat)
    requires WF(c, s)
    ensures WF(c, CreateOp(c, s, dtor))
    ensures View(c, CreateOp(c, s, dtor)) == PlainOp(c, View(c, s), Create(dtor))
  {
    LiveKeys(c, s);
    KeySearch(s.keyRings.Keys, c.keysMax, s.htKey);
    var (key, found) := CreateKey(c, s);
    var t := s.(htKey := key);
    assert Live(c, t) == Live(c, s);
    if found {
      AddKeyAnchorWF(c, t, key, dtor);
      NewKeyView(c, t, key, dtor);
    }
  }

  lemma LiveNewKey(c: Config, keys: set<nat>, heap: map<Id, Body>, key: nat, body: Body)
    ensures LiveIn(c, keys + {key}, heap[KeyAnchor(c, key) := body]) ==
            LiveIn(c, keys, heap)[key := body.dtor]
  {
  }

  lemma NewKeyView(c: Config, s: State, key: nat, dtor: nat)
    ensures View(c, AddKeyAnchor(c, s, key, dtor)) == View(c, s).(live := Live(c, s)[key := dtor])
  {
    DataPut(c, s.heap, KeyAnchor(c, key), Body(dtor, 0));
    LiveNewKey(c, s.keyRings.Keys, s.heap, key, Body(dtor, 0));
    assert s.keyRings[key := []].Keys == s.keyRings.Keys + {key};
  }

  // ---------------------------------------------------------------- destructor calls

  /** The calls are those of the entries on the work list that have a destructor, each once. */
  lemma {:induction false} DtorCallsExact(c: Config, heap: map<Id, Body>, work: seq<Id>)
    requires Distinct(work)
    ensures Distinct(DtorCalls(c, heap, work))
    ensures forall k: Call :: k in DtorCalls(c, heap, work) <==>
      && k.id in work && k.id in heap && heap[k.id].dtor != 0 && k.id.pid != c.dtorPid
      && k == Call(k.id, heap[k.id].dtor, heap[k.id].value)
  {
    if |work| > 0 {
      assert work == [work[0]] + work[1..];
      assert work[0] !in work[1..];
      DtorCallsExact(c, heap, work[1..]);
    }
  }

  lemma {:induction false} ReversedIs(q: seq<Id>)
    requires Distinct(q)
    ensures Distinct(Reversed(q)) && forall id: Id :: id in Reversed(q) <==> id in q
  {
    if |q| > 0 {
      assert q == [q[0]] + q[1..];
      assert q[0] !in q[1..];
      ReversedIs(q[1..]);
      DistinctAppend(Reversed(q[1..]), q[0]);
    }
  }

  lemma WorkDistinct(anchor: Id, ring: seq<Id>)
    requires Distinct(ring) && anchor !in ring
    ensures Distinct([anchor] + Reversed(ring))
    ensures forall id: Id :: id in [anchor] + Reversed(ring) <==> id == anchor || id in ring
  {
    ReversedIs(ring);
    DistinctAppend(Reversed(ring), anchor);
  }

  /** Is this the call that the data of `id` is due? */
  ghost predicate Due(c: Config, s: State, k: Call) {
    && k.id in Data(c, s.heap) && k.id.key in Live(c, s)
    && k.dtor == Live(c, s)[k.id.key] && k.dtor != 0
    && k.value == Data(c, s.heap)[k.id]
  }

  lemma DueIs(c: Config, s: State, k: Call)
    requires WF(c, s)
    ensures Due(c, s, k) <==>
      && k.id in s.heap && Ordinary(c, k.id) && s.heap[k.id].dtor != 0
      && k == Call(k.id, s.heap[k.id].dtor, s.heap[k.id].value)
  {
    LiveKeys(c, s);
    if k.id in s.heap && Ordinary(c, k.id) {
      assert Of(ByKey, k.id) in s.keyRings;
    }
  }

  /** `tsd_destroy` calls the destructor once for each value of the key, and for nothing else. */
  lemma DestroyCalls(c: Config, s: State, key: nat, k: Call)
    requires WF(c, s)
    ensures Distinct(Calls(c, s, Destroy(key)))
    ensures k in Calls(c, s, Destroy(key)) <==> k.id.key == key && Due(c, s, k)
  {
    SearchExact(c, s, KeyAnchor(c, key));
    assert Anchor(c, ByKey, key) == KeyAnchor(c, key);
    DueIs(c, s, k);
    if key in s.keyRings {
      var ring := s.keyRings[key];
      WorkDistinct(KeyAnchor(c, key), ring);
      DtorCallsExact(c, s.heap, [KeyAnchor(c, key)] + Reversed(ring));
      RingDeletable(c, ByKey, s, s.keyRings, key);
    } else if k.id in s.heap && Ordinary(c, k.id) {
      assert Of(ByKey, k.id) in s.keyRings;
    }
  }

  /** `tsd_exit` calls the destructor once for each value of the process, and for nothing else. */
  lemma ExitCalls(c: Config, s: State, pid: nat, k: Call)
    requires WF(c, s) && pid != c.dtorPid
    ensures Distinct(Calls(c, s, Exit(pid)))
    ensures k in Calls(c, s, Exit(pid)) <==> k.id.pid == pid && Due(c, s, k)
  {
    SearchExact(c, s, PidAnchor(c, pid));
    assert Anchor(c, ByPid, pid) == PidAnchor(c, pid);
    DueIs(c, s, k);
    if pid in s.pidRings {
      var ring := s.pidRings[pid];
      WorkDistinct(PidAnchor(c, pid), ring);
      DtorCallsExact(c, s.heap, [PidAnchor(c, pid)] + Reversed(ring));
      RingDeletable(c, ByPid, s, s.pidRings, pid);
    } else if k.id in s.heap && Ordinary(c, k.id) {
      assert Of(ByPid, k.id) in s.pidRings;
    }
  }

  /** `tsd_set` with NULL makes one call if there is a value with a destructor: the value has been
      overwritten by then, so the destructor gets NULL.  Every other set makes none. */
  lemma SetCalls(c: Config, s: State, key: nat, pid: nat, value: nat)
    requires WF(c, s) && pid != c.dtorPid
    ensures var id := Id(key, pid);
      Calls(c, s, Set(key, pid, value)) ==
        if value == 0 && id in View(c, s).data && s.heap[id].dtor != 0
        then [Call(id, s.heap[id].dtor, 0)] else []
  {
    var id := Id(key, pid);
    GetExact(c, s, key, pid);
    SearchExact(c, s, id);
    if value == 0 && id in s.heap && SetRc(c, key) == Ok {
      assert [id][1..] == [];
      assert DtorCalls(c, Store(s, id, 0).heap, []) == [];
    }
  }

  lemma {:induction false} DtorCallsAppend(c: Config, heap: map<Id, Body>, a: seq<Id>, b: seq<Id>)
    ensures DtorCalls(c, heap, a + b) == DtorCalls(c, heap, a) + DtorCalls(c, heap, b)
  {
    if |a| == 0 {
      assert a + b == b;
    } else {
      assert (a + b)[0] == a[0] && (a + b)[1..] == a[1..] + b;
      DtorCallsAppend(c, heap, a[1..], b);
    }
  }

  lemma {:induction false} DtorCallsFrame(c: Config, heap: map<Id, Body>, id: Id, body: Body, work: seq<Id>)
    requires id !in work
    ensures DtorCalls(c, heap[id := body], work) == DtorCalls(c, heap, work)
  {
    if |work| > 0 {
      assert work == [work[0]] + work[1..];
      DtorCallsFrame(c, heap, id, body, work[1..]);
    }
  }

  lemma OneDtorCall(c: Config, heap: map<Id, Body>, id: Id)
    requires id in heap && id.pid != c.dtorPid
    ensures DtorCalls(c, heap, [id]) ==
      if heap[id].dtor != 0 then [Call(id, heap[id].dtor, heap[id].value)] else []
  {
    assert [id][1..] == [];
  }

  lemma CallsOfNewest(c: Config, heap: map<Id, Body>, anchor: Id, ring: seq<Id>, id: Id, body: Body)
    requires id != anchor && id !in ring && id.pid != c.dtorPid && Distinct(ring)
    ensures DtorCalls(c, heap[id := body], [anchor] + Reversed([id] + ring)) ==
      DtorCalls(c, heap, [anchor] + Reversed(ring)) +
      if body.dtor != 0 then [Call(id, body.dtor, body.value)] else []
  {
    var work := [anchor] + Reversed(ring);
    ReversedIs(ring);
    assert ([id] + ring)[1..] == ring;
    assert [anchor] + Reversed([id] + ring) == work + [id];
    DtorCallsAppend(c, heap[id := body], work, [id]);
    DtorCallsFrame(c, heap, id, body, work);
    OneDtorCall(c, heap[id := body], id);
  }

  ghost predicate Newest(c: Config, s: State, id: Id) {
    && WF(c, s) && Ordinary(c, id) && id !in s.heap
    && KeyAnchor(c, id.key) in s.heap && PidAnchor(c, id.pid) in s.heap
  }

  lemma NewestDestroyed(c: Config, s: State, id: Id, value: nat)
    requires Newest(c, s, id) && value != 0
    ensures var d := s.heap[KeyAnchor(c, id.key)].dtor;
      Calls(c, Add(c, s, id, value), Destroy(id.key)) ==
      Calls(c, s, Destroy(id.key)) + if d != 0 then [Call(id, d, value)] else []
  {
    var t := Add(c, s, id, value);
    AddWF(c, s, id, value);
    NewestInRing(c, ByKey, s, s.keyRings, id);
    SearchExact(c, s, KeyAnchor(c, id.key));
    SearchExact(c, t, KeyAnchor(c, id.key));
    CallsOfNewest(c, s.heap, KeyAnchor(c, id.key), s.keyRings[id.key], id, t.heap[id]);
  }

  lemma NewestExited(c: Config, s: State, id: Id, value: nat)
    requires Newest(c, s, id) && value != 0
    ensures var d := s.heap[KeyAnchor(c, id.key)].dtor;
      Calls(c, Add(c, s, id, value), Exit(id.pid)) ==
      Calls(c, s, Exit(id.pid)) + if d != 0 then [Call(id, d, value)] else []
  {
    var t := Add(c, s, id, value);
    AddWF(c, s, id, value);
    NewestInRing(c, ByPid, s, s.pidRings, id);
    SearchExact(c, s, PidAnchor(c, id.pid));
    SearchExact(c, t, PidAnchor(c, id.pid));
    CallsOfNewest(c, s.heap, PidAnchor(c, id.pid), s.pidRings[id.pid], id, t.heap[id]);
  }

  /** Destructors run in the order in which the values were first set: a value added now is the
      last one for which destroy of its key, or exit of its process, makes a call. */
  lemma NewestCalledLast(c: Config, s: State, id: Id, value: nat)
    requires Newest(c, s, id) && value != 0
    ensures var d := s.heap[KeyAnchor(c, id.key)].dtor;
      var last := if d != 0 then [Call(id, d, value)] else [];
      && Calls(c, Add(c, s, id, value), Destroy(id.key)) == Calls(c, s, Destroy(id.key)) + last
      && Calls(c, Add(c, s, id, value), Exit(id.pid)) == Calls(c, s, Exit(id.pid)) + last
  {
    NewestDestroyed(c, s, id, value);
    NewestExited(c, s, id, value);
  }

  lemma NewestInRing(c: Config, d: Kind, s: State, rings: Rings, id: Id)
    requires RingsOk(c, d, rings, s.heap.Keys) && Ordinary(c, id) && id !in s.heap
    requires Anchor(c, d, Of(d, id)) in s.heap
    ensures Of(d, id) in rings && id !in rings[Of(d, id)] && Distinct(rings[Of(d, id)])
    ensures id != Anchor(c, d, Of(d, id))
  {
  }

  lemma DistinctConcat(a: seq<Id>, b: seq<Id>)
    requires Distinct(a) && Distinct(b) && forall id :: id in a ==> id !in b
    ensures Distinct(a + b)
  {
    var m := a + b;
    forall i, j | 0 <= i < j < |m| ensures m[i] != m[j] {
      if i < |a| <= j {
        assert a[i] in a && b[j - |a|] in b;
      }
    }
  }

  lemma {:induction false} ConcatIs(c: Config, bins: seq<seq<Id>>, ids: set<Id>, b: nat)
    requires BinsOk(c, bins, ids) && b <= |bins|
    ensures Distinct(Concat(bins[b..]))
    ensures forall id: Id :: id in Concat(bins[b..]) <==> id in ids && c.hash(id) >= b
    decreases |bins| - b
  {
    if b < |bins| {
      ConcatIs(c, bins, ids, b + 1);
      assert bins[b..][1..] == bins[b + 1..];
      DistinctConcat(bins[b], Concat(bins[b + 1..]));
    }
  }

  /** `tsd_hash_table_fini` calls the destructor once for every value left. */
  lemma FiniCallsAll(c: Config, s: State, k: Call)
    requires WF(c, s)
    ensures Distinct(FiniCalls(c, s))
    ensures k in FiniCalls(c, s) <==> Due(c, s, k)
  {
    ConcatIs(c, s.bins, s.heap.Keys, 0);
    assert s.bins[0..] == s.bins;
    ReversedIs(Concat(s.bins));
    DtorCallsExact(c, s.heap, Reversed(Concat(s.bins)));
    DueIs(c, s, k);
  }

  // ---------------------------------------------------------------- whole runs

  ghost function Step(c: Config, s: State, op: Op): State
    requires WF(c, s) && Allowed(c, s, op)
  {
    match op
    case Create(dtor) => CreateOp(c, s, dtor)
    case Set(key, pid, value) =>
      if SetRc(c, key) == Einval then s
      else
        SearchExact(c, s, Id(key, pid));
        SetOp(c, s, Id(key, pid), value)
    case Destroy(key) => DestroyOp(c, s, key)
    case Exit(pid) => ExitOp(c, s, pid)
  }

  lemma StepRefines(c: Config, s: State, op: Op)
    requires WF(c, s) && Allowed(c, s, op)
    ensures WF(c, Step(c, s, op))
    ensures View(c, Step(c, s, op)) == PlainOp(c, View(c, s), op)
  {
    match op
    case Create(dtor) => CreateRefines(c, s, dtor);
    case Set(key, pid, value) =>
      if SetRc(c, key) == Ok {
        SetRefines(c, s, Id(key, pid), value);
      }
    case Destroy(key) => DestroyRefines(c, s, key);
    case Exit(pid) => ExitRefines(c, s, pid);
  }

  ghost predicate RunOk(c: Config, s: State, ops: seq<Op>)
    requires WF(c, s)
    decreases |ops|
  {
    |ops| == 0 ||
    (Allowed(c, s, ops[0]) &&
     (StepRefines(c, s, ops[0]); RunOk(c, Step(c, s, ops[0]), ops[1..])))
  }

  ghost function Run(c: Config, s: State, ops: seq<Op>): State
    requires WF(c, s) && RunOk(c, s, ops)
    decreases |ops|
  {
    if |ops| == 0 then s
    else
      StepRefines(c, s, ops[0]);
      Run(c, Step(c, s, ops[0]), ops[1..])
  }

  ghost function PlainRun(c: Config, a: Plain, ops: seq<Op>): Plain
    decreases |ops|
  {
    if |ops| == 0 then a else PlainRun(c, PlainOp(c, a, ops[0]), ops[1..])
  }

  /** After any sequence of operations the table is well formed and holds what a plain map would,
      whatever the hash function. */
  lemma {:induction false} RunRefines(c: Config, s: State, ops: seq<Op>)
    requires WF(c, s) && RunOk(c, s, ops)
    ensures WF(c, Run(c, s, ops))
    ensures View(c, Run(c, s, ops)) == PlainRun(c, View(c, s), ops)
    decreases |ops|
  {
    if |ops| > 0 {
      StepRefines(c, s, ops[0]);
      RunRefines(c, Step(c, s, ops[0]), ops[1..]);
    }
  }

  /** From `tsd_hash_table_init` on: after any sequence of operations the table is well formed and
      holds what the same operations make of an empty map. */
  lemma FreshRunRefines(c: Config, s: State, ops: seq<Op>)
    requires Fresh(c, s) && forall id: Id :: c.hash(id) < |s.bins|
    requires (FreshWF(c, s); RunOk(c, s, ops))
    ensures WF(c, s) && WF(c, Run(c, s, ops))
    ensures View(c, Run(c, s, ops)) == PlainRun(c, Plain(map[], map[], 1), ops)
  {
    FreshWF(c, s);
    assert View(c, s) == Plain(map[], map[], 1);
    RunRefines(c, s, ops);
  }

  /** `tsd_get` reads the plain map: the value, or NULL if there is none. */
  lemma GetExact(c: Config, s: State, key: nat, pid: nat)
    requires WF(c, s) && pid != c.dtorPid
    ensures 1 <= key <= c.keysMax ==>
      (Search(c, s, Id(key, pid)) <==> Id(key, pid) in View(c, s).data)
    ensures !(1 <= key <= c.keysMax) ==> Id(key, pid) !in View(c, s).data
  {
    SearchExact(c, s, Id(key, pid));
  }
}
