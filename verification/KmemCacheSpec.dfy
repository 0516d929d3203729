/**
The slab allocator as a state machine.  A step is one section of the C code that runs with
`skc_lock` held or with interrupts disabled on one CPU, so steps of different CPUs and callers
may interleave in any order.
*/
module KmemCacheSpec {
  import opened Seqs

  type SlabId = nat

  /** An address given to callers: cell `idx` of a slab, or the page of an emergency object. */
  datatype Obj = OnSlab(slab: SlabId, idx: nat) | Page(addr: nat)

  /** `sks_objs`, `sks_ref` and `sks_free_list`. */
  datatype Slab = Slab(objs: nat, ref: nat, free: seq<nat>)

  /** `skc_slab_total`, `skc_slab_alloc`, `skc_obj_total`, `skc_obj_alloc`, `skc_obj_emergency`. */
  datatype Counters = Counters(
    slabTotal: int, slabAlloc: int, objTotal: int, objAlloc: int, objEmergency: int)

  predicate AllZero(n: Counters) {
    n.slabTotal == n.slabAlloc == n.objTotal == n.objAlloc == n.objEmergency == 0
  }

  datatype State = State(
    slabObjs: nat,                 // skc_slab_objs
    magSize: nat,                  // skm_size
    magRefill: nat,                // skm_refill
    vmem: bool,                    // slab addresses are vmalloc addresses (KMC_VMEM)
    slabs: Slabs,                  // the slabs that exist
    partial: seq<SlabId>,          // skc_partial_list
    complete: seq<SlabId>,         // skc_complete_list
    mags: seq<seq<Obj>>,           // per CPU: skm_objs[0 .. skm_avail]
    emergency: set<nat>,           // skc_emergency_tree
    n: Counters,
    held: set<Obj>                 // handed out to callers and not freed yet
  )

  type Slabs = map<SlabId, Slab>

  // ---------------------------------------------------------------- where an object is

  ghost predicate Live(m: Slabs, o: Obj) {
    o.OnSlab? && o.slab in m && o.idx < m[o.slab].objs
  }

  ghost predicate OnFreeList(m: Slabs, o: Obj) {
    o.OnSlab? && o.slab in m && o.idx in m[o.slab].free
  }

  ghost predicate InMag(mags: seq<seq<Obj>>, c: nat, o: Obj) {
    c < |mags| && o in mags[c]
  }

  datatype Place = Free | Mag(cpu: nat) | Held

  /** `w` says where every object of every slab is: the lists agree with it both ways. */
  ghost predicate Placed(m: Slabs, mags: seq<seq<Obj>>, held: set<Obj>, w: map<Obj, Place>) {
    && (forall o: Obj :: o in w <==> Live(m, o))
    && (forall o: Obj :: OnFreeList(m, o) <==> o in w && w[o] == Free)
    && (forall c: nat, o: Obj :: InMag(mags, c, o) <==> o in w && w[o] == Mag(c))
    && (forall o: Obj :: o in held && o.OnSlab? <==> o in w && w[o] == Held)
  }

  // ---------------------------------------------------------------- counters

  /** What is summed over slabs: `sks_ref`, `sks_objs`, or one for each slab in use. */
  datatype Field = Refs | Objs | Used

  function Weigh(sl: Slab, f: Field): int {
    match f
    case Refs => sl.ref
    case Objs => sl.objs
    case Used => if sl.ref > 0 then 1 else 0
  }

  function Tally(m: Slabs, q: seq<SlabId>, f: Field): int {
    if |q| == 0 then 0
    else (if q[0] in m then Weigh(m[q[0]], f) else 0) + Tally(m, q[1..], f)
  }

  function TallyAll(s: State, f: Field): int {
    Tally(s.slabs, s.partial, f) + Tally(s.slabs, s.complete, f)
  }

  /** The counters of a cache, recomputed from its lists. */
  function Recount(s: State): Counters {
    Counters(|s.partial| + |s.complete|, TallyAll(s, Used), TallyAll(s, Objs) + |s.emergency|,
             TallyAll(s, Refs), |s.emergency|)
  }

  // ---------------------------------------------------------------- the invariant

  /** `sks_ref` counts the objects missing from the free list. */
  ghost predicate SlabOk(sl: Slab) {
    && sl.objs >= 1
    && sl.ref + |sl.free| == sl.objs
    && Distinct(sl.free)
    && (forall i :: i in sl.free ==> i < sl.objs)
  }

  ghost predicate SlabsOk(m: Slabs) {
    forall id :: id in m ==> SlabOk(m[id])
  }

  /** Every slab is on one list, once: full slabs on the complete list, the others on the partial. */
  ghost predicate ListsOk(m: Slabs, partial: seq<SlabId>, complete: seq<SlabId>) {
    && Distinct(partial) && Distinct(complete)
    && (forall id {:trigger id in partial} :: id in partial <==> id in m && m[id].ref < m[id].objs)
    && (forall id {:trigger id in complete} :: id in complete <==> id in m && m[id].ref >= m[id].objs)
  }

  predicate Busy(m: Slabs, id: SlabId) {
    id in m && m[id].ref > 0
  }

  /** The partial list: slabs in use first, then empty ones. */
  ghost predicate OrderOk(m: Slabs, partial: seq<SlabId>) {
    forall i, j :: 0 <= i < j < |partial| && Busy(m, partial[j]) ==> Busy(m, partial[i])
  }

  ghost predicate MagsOk(mags: seq<seq<Obj>>, size: nat) {
    forall c :: 0 <= c < |mags| ==> Distinct(mags[c]) && |mags[c]| <= size
  }

  /** An emergency object stays in the tree exactly while a caller holds it. */
  ghost predicate EmergencyOk(emergency: set<nat>, held: set<Obj>) {
    forall a :: a in emergency <==> Page(a) in held
  }

  ghost predicate CountsOk(s: State) {
    s.n == Recount(s)
  }

  ghost predicate ConfigOk(s: State) {
    s.slabObjs >= 1 && 1 <= s.magRefill <= s.magSize
  }

  /** The invariant, for the locations `w`. */
  ghost predicate InvAt(s: State, w: map<Obj, Place>) {
    && ConfigOk(s)
    && ListsOk(s.slabs, s.partial, s.complete)
    && SlabsOk(s.slabs)
    && OrderOk(s.slabs, s.partial)
    && MagsOk(s.mags, s.magSize)
    && Placed(s.slabs, s.mags, s.held, w)
    && EmergencyOk(s.emergency, s.held)
    && CountsOk(s)
  }

  ghost predicate Inv(s: State) {
    exists w :: InvAt(s, w)
  }

  // ---------------------------------------------------------------- elementary moves

  /** `spl_kmem_cache_alloc` with a non-empty magazine: the newest object goes to the caller. */
  function Pop(s: State, c: nat): State
    requires c < |s.mags| && s.mags[c] != []
  {
    var m := s.mags[c];
    s.(mags := s.mags[c := m[..|m| - 1]], held := s.held + {m[|m| - 1]})
  }

  /** The end of `spl_kmem_cache_free`: the object becomes the newest of the local magazine. */
  function Push(s: State, c: nat, o: Obj): State
    requires c < |s.mags|
  {
    s.(mags := s.mags[c := s.mags[c] + [o]], held := s.held - {o})
  }

  /** There is a free object and room for it. */
  predicate CanTake(s: State, c: nat) {
    && c < |s.mags| && |s.mags[c]| < s.magSize
    && s.partial != [] && s.partial[0] in s.slabs && s.slabs[s.partial[0]].free != []
  }

  /** One turn of the inner loop of `spl_cache_refill`, with `spl_cache_obj` and, for a slab that
      became full, the move to the complete list. */
  function TakeOne(s: State, c: nat): State
    requires CanTake(s, c)
  {
    var id := s.partial[0];
    var sl := s.slabs[id];
    var sl' := sl.(ref := sl.ref + 1, free := sl.free[1..]);
    var full := sl'.ref == sl'.objs;
    s.(slabs := s.slabs[id := sl'],
       mags := s.mags[c := s.mags[c] + [OnSlab(id, sl.free[0])]],
       n := s.n.(objAlloc := s.n.objAlloc + 1,
                 slabAlloc := if sl'.ref == 1 then s.n.slabAlloc + 1 else s.n.slabAlloc),
       partial := if full then s.partial[1..] else s.partial,
       complete := if full then [id] + s.complete else s.complete)
  }

  /** `spl_cache_shrink`: object `o` goes back to the head of its slab's free list. */
  function Shrink(s: State, o: Obj): State
    requires o.OnSlab? && Busy(s.slabs, o.slab)
  {
    var id := o.slab;
    var sl := s.slabs[id];
    var sl' := sl.(ref := sl.ref - 1, free := [o.idx] + sl.free);
    var s1 := s.(slabs := s.slabs[id := sl'], n := s.n.(objAlloc := s.n.objAlloc - 1));
    var s2 := if sl'.ref == sl'.objs - 1
              then s1.(partial := [id] + Remove(s1.partial, id), complete := Remove(s1.complete, id))
              else s1;
    if sl'.ref == 0
    then s2.(partial := Remove(s2.partial, id) + [id], complete := Remove(s2.complete, id),
             n := s2.n.(slabAlloc := s2.n.slabAlloc - 1))
    else s2
  }

  predicate CanShrink(s: State, c: nat) {
    && c < |s.mags| && s.mags[c] != []
    && var o := s.mags[c][0]; o.OnSlab? && Busy(s.slabs, o.slab)
  }

  /** The oldest object of a magazine goes back to its slab. */
  function ShrinkOldest(s: State, c: nat): State
    requires CanShrink(s, c)
  {
    Shrink(s.(mags := s.mags[c := s.mags[c][1..]]), s.mags[c][0])
  }

  /** `__spl_cache_grow` after a successful `spl_slab_alloc`. */
  function Grow(s: State, id: SlabId): State {
    s.(slabs := s.slabs[id := Slab(s.slabObjs, 0, seq(s.slabObjs, i requires i >= 0 => i))],
       partial := s.partial + [id],
       n := s.n.(slabTotal := s.n.slabTotal + 1, objTotal := s.n.objTotal + s.slabObjs))
  }

  /** `spl_emergency_alloc`, second section: an address already in the tree is given back. */
  function EmergencyInsert(s: State, a: nat): State {
    if a in s.emergency then s
    else s.(emergency := s.emergency + {a}, held := s.held + {Page(a)},
            n := s.n.(objTotal := s.n.objTotal + 1, objEmergency := s.n.objEmergency + 1))
  }

  function EmergencyErase(s: State, a: nat): State {
    s.(emergency := s.emergency - {a}, held := s.held - {Page(a)},
       n := s.n.(objTotal := s.n.objTotal - 1, objEmergency := s.n.objEmergency - 1))
  }

  /** The slabs of `q` that are in use, in order. */
  function BusyOf(m: Slabs, q: seq<SlabId>): seq<SlabId> {
    if q == [] then []
    else if Busy(m, q[0]) then [q[0]] + BusyOf(m, q[1..])
    else BusyOf(m, q[1..])
  }

  function BusySlabs(m: Slabs): Slabs {
    map id | id in m && m[id].ref > 0 :: m[id]
  }

  /** What reclaim is for: every empty slab goes, wherever it is on the partial list. */
  function ReclaimAll(s: State): State {
    var keep := BusyOf(s.slabs, s.partial);
    s.(partial := keep,
       slabs := BusySlabs(s.slabs),
       n := s.n.(slabTotal := s.n.slabTotal - (|s.partial| - |keep|),
                 objTotal := s.n.objTotal -
                   (Tally(s.slabs, s.partial, Objs) - Tally(s.slabs, keep, Objs))))
  }

  // ---------------------------------------------------------------- steps and runs

  /** `spl_cache_refill` between two points where it may sleep: up to `n` objects move. */
  function Refill(s: State, c: nat, n: nat): State
    decreases n, c, |s.mags|
  {
    if n == 0 || !CanTake(s, c) then s else Refill(TakeOne(s, c), c, n - 1)
  }

  /** `__spl_cache_flush`: the `n` oldest objects of a magazine go back to their slabs. */
  function Flush(s: State, c: nat, n: nat): State
    decreases n, c, |s.mags|
  {
    if n == 0 || !CanShrink(s, c) then s else Flush(ShrinkOldest(s, c), c, n - 1)
  }

  /** A full magazine is flushed before an object is put into it. */
  function MakeRoom(s: State, c: nat): State
    requires c < |s.mags|
  {
    if |s.mags[c]| >= s.magSize then Flush(s, c, s.magRefill) else s
  }

  /** `spl_kmem_cache_free`: to the emergency tree if the address is there, else to a magazine. */
  function FreeObj(s: State, c: nat, o: Obj): State
    requires c < |s.mags|
  {
    var isVmalloc := s.vmem && o.OnSlab?;
    if !isVmalloc && s.n.objEmergency > 0 && o.Page? && o.addr in s.emergency then
      EmergencyErase(s, o.addr)
    else
      var s1 := MakeRoom(s, c);
      if c < |s1.mags| then Push(s1, c, o) else s1
  }

  /** One section of one thread of control. */
  datatype Step =
    | DoAlloc(cpu: nat)                 // fast path of spl_kmem_cache_alloc
    | DoRefill(cpu: nat, count: nat)    // spl_cache_refill
    | DoFree(cpu: nat, obj: Obj)        // spl_kmem_cache_free
    | DoFlush(cpu: nat, count: nat)     // spl_magazine_age, spl_kmem_cache_reap_now
    | DoGrow(id: SlabId)                // __spl_cache_grow
    | DoReclaim                         // spl_slab_reclaim
    | DoEmergency(addr: nat)            // spl_emergency_alloc

  /** Callers free only what they hold, and the page allocator returns memory not in use. */
  predicate Enabled(s: State, st: Step) {
    match st
    case DoAlloc(c) => c < |s.mags| && s.mags[c] != []
    case DoRefill(c, n) => c < |s.mags| && |s.mags[c]| + n <= s.magSize
    case DoFree(c, o) => c < |s.mags| && o in s.held
    case DoFlush(c, n) => c < |s.mags|
    case DoGrow(id) => id !in s.slabs
    case DoReclaim => true
    case DoEmergency(a) => true
  }

  function Next(s: State, st: Step): State
    requires Enabled(s, st)
  {
    match st
    case DoAlloc(c) => Pop(s, c)
    case DoRefill(c, n) => Refill(s, c, n)
    case DoFree(c, o) => FreeObj(s, c, o)
    case DoFlush(c, n) => Flush(s, c, n)
    case DoGrow(id) => Grow(s, id)
    case DoReclaim => ReclaimAll(s)
    case DoEmergency(a) => EmergencyInsert(s, a)
  }

  predicate RunOk(s: State, run: seq<Step>)
    decreases |run|
  {
    run == [] || (Enabled(s, run[0]) && RunOk(Next(s, run[0]), run[1..]))
  }

  function Run(s: State, run: seq<Step>): State
    requires RunOk(s, run)
    decreases |run|
  {
    if run == [] then s else Run(Next(s, run[0]), run[1..])
  }

  /** What `spl_kmem_cache_create` leaves: no slab, and empty magazines. */
  predicate Created(s: State) {
    && s.slabObjs >= 1 && 1 <= s.magRefill <= s.magSize
    && |s.slabs| == |s.partial| == |s.complete| == 0
    && (forall c :: 0 <= c < |s.mags| ==> s.mags[c] == [])
    && s.emergency == {} && s.held == {}
    && AllZero(s.n)
  }

  /** `spl_magazine_destroy`: every magazine from `c` on is emptied. */
  function FlushAll(s: State, c: nat): State
    decreases |s.mags| - c
  {
    if c >= |s.mags| then s
    else
      var t := Flush(s, c, |s.mags[c]|);
      if |t.mags| == |s.mags| then FlushAll(t, c + 1) else t
  }
}
