/**
Thread specific data as `spl-tsd.c` keeps it: a hash table in which every entry is also linked to
the anchor of its key and to the anchor of its process.  An operation is one step: the source asks
its callers not to race them.
*/
module TsdSpec {
  import opened Seqs

  /** What an entry is found by. */
  datatype Id = Id(key: nat, pid: nat)

  /** `he_dtor` and `he_value`; 0 is NULL. */
  datatype Body = Body(dtor: nat, value: nat)

  /** TSD_KEYS_MAX, DTOR_PID and the hash, which may be any function into the bins. */
  datatype Config = Config(keysMax: nat, dtorPid: nat, hash: Id -> nat)

  function PidKey(c: Config): nat { c.keysMax + 1 }

  type Rings = map<nat, seq<Id>>

  datatype State = State(
    bins: seq<seq<Id>>,            // ht_bins
    heap: map<Id, Body>,           // the entries
    keyRings: Rings,               // he_key_list of each key anchor
    pidRings: Rings,               // he_pid_list of each process anchor
    htKey: nat)                    // ht_key

  function KeyAnchor(c: Config, key: nat): Id { Id(key, c.dtorPid) }

  function PidAnchor(c: Config, pid: nat): Id { Id(PidKey(c), pid) }

  /** An entry that holds data, as opposed to an anchor. */
  predicate Ordinary(c: Config, id: Id) { id.pid != c.dtorPid && id.key != PidKey(c) }

  // ---------------------------------------------------------------- lists

  /** `tsd_hash_search`: scan the bin of the hash. */
  predicate Search(c: Config, s: State, id: Id) {
    c.hash(id) < |s.bins| && id in s.bins[c.hash(id)]
  }

  function BinAdd(bins: seq<seq<Id>>, b: nat, id: Id): seq<seq<Id>> {
    if b < |bins| then bins[b := [id] + bins[b]] else bins
  }

  function BinDel(bins: seq<seq<Id>>, b: nat, id: Id): seq<seq<Id>> {
    if b < |bins| then bins[b := Remove(bins[b], id)] else bins
  }

  function RingAdd(rings: Rings, k: nat, id: Id): Rings {
    if k in rings then rings[k := [id] + rings[k]] else rings
  }

  function RingDel(rings: Rings, k: nat, id: Id): Rings {
    if k in rings then rings[k := Remove(rings[k], id)] else rings
  }

  // ---------------------------------------------------------------- adding and deleting

  /** `tsd_hash_add`, which copies the destructor from the key's anchor. */
  function Add(c: Config, s: State, id: Id, value: nat): State
    requires KeyAnchor(c, id.key) in s.heap
  {
    s.(bins := BinAdd(s.bins, c.hash(id), id),
       heap := s.heap[id := Body(s.heap[KeyAnchor(c, id.key)].dtor, value)],
       keyRings := RingAdd(s.keyRings, id.key, id),
       pidRings := RingAdd(s.pidRings, id.pid, id))
  }

  function AddKeyAnchor(c: Config, s: State, key: nat, dtor: nat): State {
    var id := KeyAnchor(c, key);
    s.(bins := BinAdd(s.bins, c.hash(id), id), heap := s.heap[id := Body(dtor, 0)],
       keyRings := s.keyRings[key := []])
  }

  /** `tsd_hash_add_pid`. */
  function AddPidAnchor(c: Config, s: State, pid: nat): State {
    var id := PidAnchor(c, pid);
    s.(bins := BinAdd(s.bins, c.hash(id), id), heap := s.heap[id := Body(0, 0)],
       pidRings := s.pidRings[pid := []])
  }

  /** `tsd_hash_del` of an entry. */
  function Del(c: Config, s: State, id: Id): State {
    s.(bins := BinDel(s.bins, c.hash(id), id), heap := s.heap - {id},
       keyRings := RingDel(s.keyRings, id.key, id), pidRings := RingDel(s.pidRings, id.pid, id))
  }

  function DelKeyAnchor(c: Config, s: State, key: nat): State {
    var id := KeyAnchor(c, key);
    s.(bins := BinDel(s.bins, c.hash(id), id), heap := s.heap - {id},
       keyRings := s.keyRings - {key})
  }

  function DelPidAnchor(c: Config, s: State, pid: nat): State {
    var id := PidAnchor(c, pid);
    s.(bins := BinDel(s.bins, c.hash(id), id), heap := s.heap - {id},
       pidRings := s.pidRings - {pid})
  }

  /** The loops of `tsd_destroy` and `tsd_exit`: delete the entries of a ring from its head on. */
  function DelAll(c: Config, s: State, ids: seq<Id>): State
    decreases |ids|
  {
    if |ids| == 0 then s else DelAll(c, Del(c, s, ids[0]), ids[1..])
  }

  // ---------------------------------------------------------------- destructor calls

  datatype Call = Call(id: Id, dtor: nat, value: nat)

  /** `tsd_hash_dtor` over a work list whose entries have left the table. */
  function DtorCalls(c: Config, heap: map<Id, Body>, work: seq<Id>): seq<Call> {
    if |work| == 0 then []
    else
      var rest := DtorCalls(c, heap, work[1..]);
      var id := work[0];
      if id in heap && heap[id].dtor != 0 && id.pid != c.dtorPid then
        [Call(id, heap[id].dtor, heap[id].value)] + rest
      else rest
  }

  /** Each deleted entry goes to the front of the work list. */
  function Reversed(q: seq<Id>): seq<Id> {
    if |q| == 0 then [] else Reversed(q[1..]) + [q[0]]
  }

  /** `tsd_hash_table_fini` takes the entries bin by bin, from the head of each bin. */
  function Concat(bins: seq<seq<Id>>): seq<Id> {
    if |bins| == 0 then [] else bins[0] + Concat(bins[1..])
  }

  function FiniCalls(c: Config, s: State): seq<Call> {
    DtorCalls(c, s.heap, Reversed(Concat(s.bins)))
  }

  // ---------------------------------------------------------------- tsd_create

  function NextKey(max: nat, k: nat): nat { if k > max then 1 else k + 1 }

  /** The loop of `tsd_hash_add_key`: the new `ht_key`, and whether it is free; `left` candidates
      may still be searched. */
  function FindKey(live: set<nat>, max: nat, k: nat, left: nat): (nat, bool)
    decreases left
  {
    var next := NextKey(max, k);
    if left == 0 then (next, false)
    else if next in live then FindKey(live, max, next, left - 1)
    else (next, true)
  }

  function CreateKey(c: Config, s: State): (nat, bool) {
    FindKey(s.keyRings.Keys, c.keysMax, s.htKey, c.keysMax)
  }

  // ---------------------------------------------------------------- the operations

  /** `tsd_remove_entry`: the process anchor goes too if the entry is the oldest of the ring, so
      that its successor is the anchor, and the ring has become empty. */
  function RemoveEntry(c: Config, s: State, id: Id): State {
    var t := Del(c, s, id);
    if id.pid in s.pidRings && id.pid in t.pidRings then
      var ring := s.pidRings[id.pid];
      if |ring| > 0 && ring[|ring| - 1] == id && |t.pidRings[id.pid]| == 0 then
        DelPidAnchor(c, t, id.pid)
      else t
    else t
  }

  datatype Rc = Ok | Einval | Enomem

  function SetRc(c: Config, key: nat): Rc {
    if key == 0 || key > c.keysMax then Einval else Ok
  }

  function Store(s: State, id: Id, value: nat): State
    requires id in s.heap
  {
    s.(heap := s.heap[id := Body(s.heap[id].dtor, value)])
  }

  /** The process anchor is made on the first set. */
  function EnsurePid(c: Config, s: State, pid: nat): State {
    if Search(c, s, PidAnchor(c, pid)) then s else AddPidAnchor(c, s, pid)
  }

  datatype Op =
    | Create(dtor: nat)
    | Set(key: nat, pid: nat, value: nat)
    | Destroy(key: nat)
    | Exit(pid: nat)

  /** What callers owe: a set uses a key that exists, and processes have real process ids. */
  predicate Allowed(c: Config, s: State, op: Op) {
    match op
    case Create(_) => true
    case Set(key, pid, _) =>
      pid != c.dtorPid && (1 <= key <= c.keysMax ==> KeyAnchor(c, key) in s.heap)
    case Destroy(_) => true
    case Exit(pid) => pid != c.dtorPid
  }

  function SetOp(c: Config, s: State, id: Id, value: nat): State
    requires Search(c, s, id) ==> id in s.heap
    requires KeyAnchor(c, id.key) in s.heap
  {
    if Search(c, s, id) then
      if value == 0 then RemoveEntry(c, Store(s, id, 0), id) else Store(s, id, value)
    else if value == 0 then s
    else if KeyAnchor(c, id.key) in EnsurePid(c, s, id.pid).heap then
      Add(c, EnsurePid(c, s, id.pid), id, value)
    else s
  }

  function CreateOp(c: Config, s: State, dtor: nat): State {
    var (key, found) := CreateKey(c, s);
    var t := s.(htKey := key);
    if found then AddKeyAnchor(c, t, key, dtor) else t
  }

  function DestroyOp(c: Config, s: State, key: nat): State {
    if Search(c, s, KeyAnchor(c, key)) && key in s.keyRings then
      DelKeyAnchor(c, DelAll(c, s, s.keyRings[key]), key)
    else s
  }

  function ExitOp(c: Config, s: State, pid: nat): State {
    if Search(c, s, PidAnchor(c, pid)) && pid in s.pidRings then
      DelPidAnchor(c, DelAll(c, s, s.pidRings[pid]), pid)
    else s
  }

  /** The destructor calls of an operation, in order. */
  function Calls(c: Config, s: State, op: Op): seq<Call> {
    match op
    case Create(_) => []
    case Set(key, pid, value) =>
      if SetRc(c, key) == Ok && value == 0 && Search(c, s, Id(key, pid)) && Id(key, pid) in s.heap then
        DtorCalls(c, Store(s, Id(key, pid), 0).heap, [Id(key, pid)])
      else []
    case Destroy(key) =>
      if Search(c, s, KeyAnchor(c, key)) && key in s.keyRings then
        DtorCalls(c, s.heap, [KeyAnchor(c, key)] + Reversed(s.keyRings[key]))
      else []
    case Exit(pid) =>
      if Search(c, s, PidAnchor(c, pid)) && pid in s.pidRings then
        DtorCalls(c, s.heap, [PidAnchor(c, pid)] + Reversed(s.pidRings[pid]))
      else []
  }

  /** `tsd_hash_table_init`. */
  predicate Fresh(c: Config, s: State) {
    && s == State(s.bins, map[], map[], map[], 1)
    && (forall b :: 0 <= b < |s.bins| ==> |s.bins[b]| == 0)
  }
}
