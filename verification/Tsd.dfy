/** `tsd_hash_table_t` and the functions of `spl-tsd.c` that change it in place. */
module Tsd {
  import opened Seqs
  import opened TsdSpec
  import opened TsdProofs

  /** One turn of the loops: the head of a ring goes to the front of the work list. */
  lemma ReversedTurn(removed: seq<Id>, id: Id)
    ensures Reversed(removed + [id]) == [id] + Reversed(removed)
  {
    if |removed| > 0 {
      assert (removed + [id])[1..] == removed[1..] + [id];
      ReversedTurn(removed[1..], id);
    }
  }

  class Table {
    const c: Config
    var bins: seq<seq<Id>>
    var heap: map<Id, Body>
    var keyRings: Rings
    var pidRings: Rings
    var htKey: nat

    ghost function S(): State
      reads this
    {
      State(bins, heap, keyRings, pidRings, htKey)
    }

    /** `tsd_hash_table_init`. */
    constructor (c: Config, size: nat)
      requires forall id: Id :: c.hash(id) < size
      ensures this.c == c && Fresh(c, S()) && WF(c, S()) && |bins| == size
    {
      this.c := c;
      bins := seq(size, _ => []);
      heap, keyRings, pidRings, htKey := map[], map[], map[], 1;
    }

    /** The scan of `tsd_hash_search`. */
    method HashSearch(id: Id) returns (found: bool)
      requires c.hash(id) < |bins|
      ensures found == Search(c, S(), id)
    {
      var bin := bins[c.hash(id)];
      var i := 0;
      while i < |bin|
        invariant 0 <= i <= |bin| && id !in bin[..i]
      {
        if bin[i] == id {
          return true;
        }
        i := i + 1;
      }
      assert bin[..i] == bin;
      return false;
    }

    /** The loop of `tsd_hash_add_key`. */
    method NextFreeKey() returns (found: bool)
      requires WF(c, S())
      modifies `htKey
      ensures (htKey, found) == CreateKey(c, old(S()))
    {
      var checked := 0;
      found := false;
      while true
        invariant checked <= c.keysMax
        invariant FindKey(keyRings.Keys, c.keysMax, htKey, c.keysMax - checked) == CreateKey(c, old(S()))
        decreases c.keysMax - checked
      {
        htKey := if htKey > c.keysMax then 1 else htKey + 1;
        if checked >= c.keysMax {
          return false;
        }
        checked := checked + 1;
        AnchorOfKey(htKey);
        var live := HashSearch(KeyAnchor(c, htKey));
        if !live {
          return true;
        }
      }
    }

    lemma AnchorOfKey(key: nat)
      requires BinsOk(c, bins, heap.Keys) && RingsOk(c, ByKey, keyRings, heap.Keys)
      ensures c.hash(KeyAnchor(c, key)) < |bins|
      ensures Search(c, S(), KeyAnchor(c, key)) <==> key in keyRings
    {
      SearchExact(c, S(), KeyAnchor(c, key));
      assert Anchor(c, ByKey, key) == KeyAnchor(c, key);
    }

    /** `tsd_create`: a key already set is left alone; without memory for the anchor, or without a
        free key, it stays 0. */
    method CreateKeyFor(given: nat, dtor: nat, memory: bool) returns (key: nat)
      requires WF(c, S())
      modifies this
      ensures S() == if given == 0 && memory then CreateOp(c, old(S()), dtor) else old(S())
      ensures key == if given != 0 || !memory then given
                     else if CreateKey(c, old(S())).1 then CreateKey(c, old(S())).0 else 0
    {
      if given != 0 || !memory {
        return given;
      }
      var found := NextFreeKey();
      if !found {
        return 0;
      }
      key := htKey;
      var id := KeyAnchor(c, key);
      heap := heap[id := Body(dtor, 0)];
      bins := BinAdd(bins, c.hash(id), id);
      keyRings := keyRings[key := []];
    }

    /** `tsd_hash_add_pid`, unless the process is known. */
    method EnsureProcess(pid: nat)
      requires c.hash(PidAnchor(c, pid)) < |bins|
      modifies `heap, `bins, `pidRings
      ensures S() == EnsurePid(c, old(S()), pid)
    {
      var known := HashSearch(PidAnchor(c, pid));
      if !known {
        var id := PidAnchor(c, pid);
        heap := heap[id := Body(0, 0)];
        bins := BinAdd(bins, c.hash(id), id);
        pidRings := pidRings[pid := []];
      }
    }

    /** `tsd_hash_add`. */
    method HashAdd(id: Id, value: nat)
      requires KeyAnchor(c, id.key) in heap
      modifies `heap, `bins, `keyRings, `pidRings
      ensures S() == Add(c, old(S()), id, value)
    {
      var dtor := heap[KeyAnchor(c, id.key)].dtor;
      heap := heap[id := Body(dtor, value)];
      bins := BinAdd(bins, c.hash(id), id);
      keyRings := RingAdd(keyRings, id.key, id);
      pidRings := RingAdd(pidRings, id.pid, id);
    }

    /** `tsd_hash_del`. */
    method HashDel(id: Id)
      modifies `heap, `bins, `keyRings, `pidRings
      ensures S() == Del(c, old(S()), id)
    {
      bins := BinDel(bins, c.hash(id), id);
      keyRings := RingDel(keyRings, id.key, id);
      pidRings := RingDel(pidRings, id.pid, id);
      heap := heap - {id};
    }

    method DropPidAnchor(pid: nat)
      modifies `heap, `bins, `pidRings
      ensures S() == DelPidAnchor(c, old(S()), pid)
    {
      var id := PidAnchor(c, pid);
      bins := BinDel(bins, c.hash(id), id);
      pidRings := pidRings - {pid};
      heap := heap - {id};
    }

    method DropKeyAnchor(key: nat)
      modifies `heap, `bins, `keyRings
      ensures S() == DelKeyAnchor(c, old(S()), key)
    {
      var id := KeyAnchor(c, key);
      bins := BinDel(bins, c.hash(id), id);
      keyRings := keyRings - {key};
      heap := heap - {id};
    }

    /** `tsd_remove_entry`: the successor on the ring is looked up before the entry is deleted. */
    method RemoveOne(id: Id)
      requires id.pid in pidRings
      modifies `heap, `bins, `keyRings, `pidRings
      ensures S() == RemoveEntry(c, old(S()), id)
    {
      var ring := pidRings[id.pid];
      var nextIsAnchor := |ring| > 0 && ring[|ring| - 1] == id;
      HashDel(id);
      if nextIsAnchor && |pidRings[id.pid]| == 0 {
        DropPidAnchor(id.pid);
      }
    }

    /** `tsd_set` on a key in range whose entry exists. */
    method Replace(id: Id, value: nat)
      requires id in heap && id.pid in pidRings
      modifies `heap, `bins, `keyRings, `pidRings
      ensures S() == if value == 0 then RemoveEntry(c, Store(old(S()), id, 0), id)
                     else Store(old(S()), id, value)
    {
      heap := heap[id := Body(heap[id].dtor, value)];
      assert S() == Store(old(S()), id, value);
      if value == 0 {
        RemoveOne(id);
      }
    }

    /** `tsd_get` and `tsd_get_by_thread`: 0 is NULL. */
    method Get(key: nat, pid: nat) returns (value: nat)
      requires WF(c, S()) && pid != c.dtorPid
      ensures value == if Id(key, pid) in View(c, S()).data then View(c, S()).data[Id(key, pid)] else 0
    {
      GetExact(c, S(), key, pid);
      if key == 0 || key > c.keysMax {
        return 0;
      }
      var found := HashSearch(Id(key, pid));
      if !found {
        return 0;
      }
      value := heap[Id(key, pid)].value;
    }

    /** `tsd_set`; `calls` are the destructor calls it makes, `pidMem` and `entryMem` say whether
        there is memory for the process anchor and the entry.  When there is not, the data is as
        it was, although the anchor may have been made. */
    method SetData(key: nat, pid: nat, value: nat, pidMem: bool, entryMem: bool)
        returns (rc: Rc, calls: seq<Call>)
      requires WF(c, S()) && Allowed(c, S(), Set(key, pid, value))
      modifies `heap, `bins, `keyRings, `pidRings
      ensures rc != Enomem ==> rc == SetRc(c, key) && S() == Step(c, old(S()), Set(key, pid, value))
      ensures rc == Enomem ==> WF(c, S()) && View(c, S()) == View(c, old(S()))
      ensures rc == Enomem <==>
        && SetRc(c, key) == Ok && value != 0 && Id(key, pid) !in old(heap)
        && !(entryMem && (pidMem || PidAnchor(c, pid) in old(heap)))
      ensures calls == Calls(c, old(S()), Set(key, pid, value))
    {
      calls := [];
      if key == 0 || key > c.keysMax {
        return Einval, [];
      }
      rc := Ok;
      var id := Id(key, pid);
      SearchExact(c, S(), id);
      var found := HashSearch(id);
      if found {
        PidKnown(id);
        var dtor := heap[id].dtor;
        if value == 0 {
          calls := OneCall(id, dtor);
        }
        Replace(id, value);
      } else if value != 0 {
        rc := AddNew(id, value, pidMem, entryMem);
      }
    }

    lemma PidKnown(id: Id)
      requires RingsOk(c, ByPid, pidRings, heap.Keys) && id in heap && Ordinary(c, id)
      ensures id.pid in pidRings
    {
      assert Of(ByPid, id) in pidRings;
    }

    /** The destructor call of a removed entry, whose value is NULL by now. */
    method OneCall(id: Id, dtor: nat) returns (calls: seq<Call>)
      requires id in heap && heap[id].dtor == dtor && id.pid != c.dtorPid
      ensures calls == DtorCalls(c, Store(S(), id, 0).heap, [id])
    {
      calls := if dtor != 0 then [Call(id, dtor, 0)] else [];
      assert [id][1..] == [];
      assert DtorCalls(c, Store(S(), id, 0).heap, []) == [];
    }

    method AddNew(id: Id, value: nat, pidMem: bool, entryMem: bool) returns (rc: Rc)
      requires WF(c, S()) && id !in heap && KeyAnchor(c, id.key) in heap
      requires id.pid != c.dtorPid && value != 0
      modifies `heap, `bins, `keyRings, `pidRings
      ensures rc == if entryMem && (pidMem || PidAnchor(c, id.pid) in old(heap)) then Ok else Enomem
      ensures KeyAnchor(c, id.key) in EnsurePid(c, old(S()), id.pid).heap
      ensures rc == Ok ==> S() == Add(c, EnsurePid(c, old(S()), id.pid), id, value)
      ensures rc == Enomem ==> WF(c, S()) && View(c, S()) == View(c, old(S()))
    {
      EnsurePidHeap(c, S(), id.pid);
      EnsurePidWF(c, S(), id.pid);
      EnsurePidView(c, S(), id.pid);
      SearchExact(c, S(), PidAnchor(c, id.pid));
      var known := HashSearch(PidAnchor(c, id.pid));
      if !known && !pidMem {
        return Enomem;
      }
      EnsureProcess(id.pid);
      if !entryMem {
        return Enomem;
      }
      HashAdd(id, value);
      return Ok;
    }

    /** `tsd_hash_dtor`: `entries` are the entries of the work list, already out of the table. */
    method RunDtors(entries: map<Id, Body>, work: seq<Id>) returns (calls: seq<Call>)
      ensures calls == DtorCalls(c, entries, work)
    {
      calls := [];
      var i := 0;
      assert work[0..] == work;
      while i < |work|
        invariant 0 <= i <= |work|
        invariant calls + DtorCalls(c, entries, work[i..]) == DtorCalls(c, entries, work)
      {
        var id := work[i];
        assert work[i..][1..] == work[i + 1..];
        if id in entries && entries[id].dtor != 0 && id.pid != c.dtorPid {
          calls := calls + [Call(id, entries[id].dtor, entries[id].value)];
        }
        i := i + 1;
      }
    }

    /** The loop of `tsd_destroy`; the deleted entries are returned as the work list. */
    method EmptyKeyRing(key: nat) returns (work: seq<Id>)
      requires key in keyRings && forall id :: id in keyRings[key] ==> id.key == key
      modifies `heap, `bins, `keyRings, `pidRings
      ensures S() == DelAll(c, old(S()), old(keyRings[key])) && work == Reversed(old(keyRings[key]))
    {
      work := [];
      ghost var ring := keyRings[key];
      ghost var n := 0;
      assert ring[0..] == ring;
      while |keyRings[key]| > 0
        invariant key in keyRings && n <= |ring| && keyRings[key] == ring[n..]
        invariant DelAll(c, S(), ring[n..]) == DelAll(c, old(S()), ring)
        invariant work == Reversed(ring[..n])
        decreases |ring| - n
      {
        var id := keyRings[key][0];
        assert id == ring[n];
        HashDelHead(id);
        ReversedTurn(ring[..n], id);
        assert ring[..n] + [id] == ring[..n + 1];
        assert ring[n..][1..] == ring[n + 1..];
        work := [id] + work;
        n := n + 1;
      }
      assert ring[..n] == ring;
    }

    /** The loop of `tsd_exit`. */
    method EmptyPidRing(pid: nat) returns (work: seq<Id>)
      requires pid in pidRings && forall id :: id in pidRings[pid] ==> id.pid == pid
      modifies `heap, `bins, `keyRings, `pidRings
      ensures S() == DelAll(c, old(S()), old(pidRings[pid])) && work == Reversed(old(pidRings[pid]))
    {
      work := [];
      ghost var ring := pidRings[pid];
      ghost var n := 0;
      assert ring[0..] == ring;
      while |pidRings[pid]| > 0
        invariant pid in pidRings && n <= |ring| && pidRings[pid] == ring[n..]
        invariant DelAll(c, S(), ring[n..]) == DelAll(c, old(S()), ring)
        invariant work == Reversed(ring[..n])
        decreases |ring| - n
      {
        var id := pidRings[pid][0];
        assert id == ring[n];
        HashDelHead(id);
        ReversedTurn(ring[..n], id);
        assert ring[..n] + [id] == ring[..n + 1];
        assert ring[n..][1..] == ring[n + 1..];
        work := [id] + work;
        n := n + 1;
      }
      assert ring[..n] == ring;
    }

    /** One turn: the entry leaves the table; where it was the head of a ring, the ring moves on. */
    method HashDelHead(id: Id)
      modifies `heap, `bins, `keyRings, `pidRings
      ensures S() == Del(c, old(S()), id)
      ensures id.key in old(keyRings) && |old(keyRings[id.key])| > 0 && old(keyRings[id.key])[0] == id ==>
        id.key in keyRings && keyRings[id.key] == old(keyRings[id.key])[1..]
      ensures id.pid in old(pidRings) && |old(pidRings[id.pid])| > 0 && old(pidRings[id.pid])[0] == id ==>
        id.pid in pidRings && pidRings[id.pid] == old(pidRings[id.pid])[1..]
    {
      HashDel(id);
    }

    /** `tsd_destroy`. */
    method DestroyKey(key: nat) returns (calls: seq<Call>)
      requires WF(c, S())
      modifies `heap, `bins, `keyRings, `pidRings
      ensures S() == DestroyOp(c, old(S()), key) && calls == Calls(c, old(S()), Destroy(key))
    {
      AnchorOfKey(key);
      var live := HashSearch(KeyAnchor(c, key));
      if !live {
        return [];
      }
      RingDeletable(c, ByKey, S(), keyRings, key);
      var entries := heap;
      assert forall id :: id in keyRings[key] ==> id in ToSet(keyRings[key]);
      var work := EmptyKeyRing(key);
      DropKeyAnchor(key);
      calls := RunDtors(entries, [KeyAnchor(c, key)] + work);
    }

    /** `tsd_exit`. */
    method ExitProcess(pid: nat) returns (calls: seq<Call>)
      requires WF(c, S()) && pid != c.dtorPid
      modifies `heap, `bins, `keyRings, `pidRings
      ensures S() == ExitOp(c, old(S()), pid) && calls == Calls(c, old(S()), Exit(pid))
    {
      SearchExact(c, S(), PidAnchor(c, pid));
      assert Anchor(c, ByPid, pid) == PidAnchor(c, pid);
      var known := HashSearch(PidAnchor(c, pid));
      if !known {
        return [];
      }
      RingDeletable(c, ByPid, S(), pidRings, pid);
      var entries := heap;
      assert forall id :: id in pidRings[pid] ==> id in ToSet(pidRings[pid]);
      var work := EmptyPidRing(pid);
      DropPidAnchor(pid);
      calls := RunDtors(entries, [PidAnchor(c, pid)] + work);
    }
  }
}
