/**
`spl_kmem_cache_t` as an object that its operations update in place.  Each method is one section
that runs with `skc_lock` held or interrupts disabled, and is proved to make the step of the
state machine in `KmemCacheSpec`.
*/
module KmemCache {
  import opened Seqs
  import opened KmemCacheSpec
  import opened KmemCacheProofs
  import opened KmemCacheRuns

  // ---------------------------------------------------------------- facts the loops use

  /** The head slab after objects left it: moved to the complete list if it became full. */
  function Settle(s: State): State {
    if s.partial != [] && s.partial[0] in s.slabs && s.slabs[s.partial[0]].ref == s.slabs[s.partial[0]].objs
    then s.(partial := s.partial[1..], complete := [s.partial[0]] + s.complete)
    else s
  }

  /** `TakeOne` before the slab is moved. */
  function Detach(s: State, c: nat): State
    requires CanTake(s, c)
  {
    var id := s.partial[0];
    var sl := s.slabs[id];
    s.(slabs := s.slabs[id := sl.(ref := sl.ref + 1, free := sl.free[1..])],
       mags := s.mags[c := s.mags[c] + [OnSlab(id, sl.free[0])]],
       n := s.n.(objAlloc := s.n.objAlloc + 1,
                 slabAlloc := if sl.ref + 1 == 1 then s.n.slabAlloc + 1 else s.n.slabAlloc))
  }

  /** Refilling `left` objects from `s` reaches `goal`. */
  ghost predicate Heading(s: State, c: nat, left: nat, goal: State) {
    Inv(s) && forall n: nat :: n == left ==> Refill(s, c, n) == goal
  }

  /** Flushing `n` more objects from `s` reaches `goal`. */
  ghost predicate Flushing(s: State, c: nat, n: nat, goal: State) {
    Inv(s) && forall k: nat :: k == n ==> Flush(s, c, k) == goal
  }

  lemma FlushingOne(s: State, c: nat, n: nat, goal: State)
    requires Flushing(s, c, n, goal) && n > 0 && c < |s.mags| && s.mags[c] != []
    ensures CanShrink(s, c) && Flushing(ShrinkOldest(s, c), c, n - 1, goal)
    ensures ShrinkOldest(s, c).mags == s.mags[c := s.mags[c][1..]]
  {
    FlushOne(s, c, n);
    FlushingStep(s, ShrinkOldest(s, c), c, n, goal);
  }

  lemma FlushingStep(s: State, t: State, c: nat, n: nat, goal: State)
    requires Flushing(s, c, n, goal) && n > 0 && Inv(t) && Flush(s, c, n) == Flush(t, c, n - 1)
    ensures Flushing(t, c, n - 1, goal)
  {
  }

  lemma HeadingOne(s: State, c: nat, left: nat, goal: State)
    requires Heading(s, c, left, goal) && left > 0 && s.partial != []
    requires c < |s.mags| && |s.mags[c]| < s.magSize
    ensures CanTake(s, c) && Heading(TakeOne(s, c), c, left - 1, goal)
  {
    HeadReady(s, c);
    RefillOne(s, c, left);
  }

  lemma HeadingDone(s: State, c: nat, left: nat, goal: State)
    requires Heading(s, c, left, goal) && (left == 0 || s.partial == [])
    ensures s == goal
  {
    assert Refill(s, c, left) == goal;
  }

  /** Once the full slab, if any, has been moved, refilling `left` more objects reaches `goal`. */
  ghost predicate Ahead(s: State, c: nat, left: nat, goal: State) {
    Heading(Settle(s), c, left, goal)
  }

  lemma DetachSettles(s: State, c: nat)
    requires CanTake(s, c)
    ensures Settle(Detach(s, c)) == TakeOne(s, c)
  {
  }

  lemma HeadReady(s: State, c: nat)
    requires Inv(s) && c < |s.mags| && |s.mags[c]| < s.magSize && s.partial != []
    ensures CanTake(s, c) && Settle(s) == s
    ensures s.slabs[s.partial[0]].ref < s.slabs[s.partial[0]].objs
  {
    var w :| InvAt(s, w);
    HeadHasFree(s);
  }

  lemma RefillOne(s: State, c: nat, n: nat)
    requires Inv(s) && CanTake(s, c) && n > 0
    ensures Inv(TakeOne(s, c)) && Refill(s, c, n) == Refill(TakeOne(s, c), c, n - 1)
  {
    TakeInv(s, c);
  }

  lemma ShrinkIgnoresMags(s: State, o: Obj, mags: seq<seq<Obj>>)
    requires o.OnSlab? && Busy(s.slabs, o.slab)
    ensures Shrink(s.(mags := mags), o) == Shrink(s, o).(mags := mags)
  {
  }

  // The reverse scan of spl_slab_reclaim has taken the slabs `freed` off the tail.

  ghost function Scanned(s: State, rest: seq<SlabId>, freed: seq<SlabId>): State {
    s.(partial := rest, slabs := s.slabs - ToSet(freed),
       n := s.n.(slabTotal := s.n.slabTotal - |freed|,
                 objTotal := s.n.objTotal - Tally(s.slabs, freed, Objs)))
  }

  lemma PartialLive(s: State)
    requires Inv(s)
    ensures Distinct(s.partial) && forall k :: 0 <= k < |s.partial| ==> s.partial[k] in s.slabs
  {
    forall k | 0 <= k < |s.partial| ensures s.partial[k] in s.slabs {
      assert s.partial[k] in s.partial;
    }
  }

  lemma {:induction false} FilterSplit(m: Slabs, a: seq<SlabId>, b: seq<SlabId>)
    requires forall k :: 0 <= k < |a| ==> Busy(m, a[k])
    requires forall k :: 0 <= k < |b| ==> !Busy(m, b[k])
    ensures BusyOf(m, a + b) == a
    decreases |a| + |b|
  {
    if |a| > 0 {
      assert (a + b)[1..] == a[1..] + b;
      FilterSplit(m, a[1..], b);
    } else if |b| > 0 {
      assert (a + b)[1..] == a + b[1..];
      FilterSplit(m, a, b[1..]);
    }
  }

  /** In use first: if the last slab left is in use, all of them are. */
  lemma AllLeftBusy(m: Slabs, rest: seq<SlabId>, freed: seq<SlabId>)
    requires OrderOk(m, rest + freed)
    requires rest != [] ==> Busy(m, rest[|rest| - 1])
    ensures forall k :: 0 <= k < |rest| ==> Busy(m, rest[k])
  {
    var q := rest + freed;
    forall k | 0 <= k < |rest| ensures Busy(m, rest[k]) {
      assert rest[k] == q[k] && rest[|rest| - 1] == q[|rest| - 1];
    }
  }

  lemma ScanSlabs(m: Slabs, rest: seq<SlabId>, freed: seq<SlabId>, complete: seq<SlabId>)
    requires ListsOk(m, rest + freed, complete) && SlabsOk(m)
    requires forall k :: 0 <= k < |rest| ==> Busy(m, rest[k])
    requires forall k :: 0 <= k < |freed| ==> !Busy(m, freed[k])
    ensures BusySlabs(m) == m - ToSet(freed)
    ensures forall id :: id in freed ==> id in m
  {
    CompleteBusy(m, rest + freed, complete);
    forall id | id in m ensures Busy(m, id) <==> id !in freed {
      assert id in rest + freed || id in complete;
    }
    forall id | id in freed ensures id in m {
      assert id in rest + freed;
    }
    assert BusySlabs(m).Keys == (m - ToSet(freed)).Keys;
  }

  /** The early-stopping scan frees exactly what a full filter for empty slabs would. */
  lemma ScanIsReclaim(s: State, rest: seq<SlabId>, freed: seq<SlabId>)
    requires Inv(s) && s.partial == rest + freed
    requires rest != [] ==> Busy(s.slabs, rest[|rest| - 1])
    requires forall k :: 0 <= k < |freed| ==> !Busy(s.slabs, freed[k])
    ensures Scanned(s, rest, freed) == ReclaimAll(s)
    ensures forall id :: id in freed <==> id in s.slabs && id !in ReclaimAll(s).slabs
  {
    var w :| InvAt(s, w);
    AllLeftBusy(s.slabs, rest, freed);
    FilterSplit(s.slabs, rest, freed);
    ScanSlabs(s.slabs, rest, freed, s.complete);
    TallyConcat(s.slabs, rest, freed, Objs);
  }

  /** The partial list is empty exactly if no slab has a free object. */
  lemma NoneFreeIffEmpty(s: State)
    requires Inv(s)
    ensures s.partial == [] <==> forall o :: Live(s.slabs, o) ==> !OnFreeList(s.slabs, o)
  {
    var w :| InvAt(s, w);
    if s.partial != [] {
      HeadHasFree(s);
      var id := s.partial[0];
      var o := OnSlab(id, s.slabs[id].free[0]);
      assert SlabOk(s.slabs[id]) && OnFreeList(s.slabs, o) && Live(s.slabs, o);
    } else {
      forall o | Live(s.slabs, o) ensures !OnFreeList(s.slabs, o) {
        assert o.slab !in s.partial && SlabOk(s.slabs[o.slab]);
      }
    }
  }

  // ---------------------------------------------------------------- the cache

  class Cache {
    const slabObjs: nat
    const magSize: nat
    const magRefill: nat
    const vmem: bool
    var slabs: Slabs
    var partial: seq<SlabId>
    var complete: seq<SlabId>
    var mags: seq<seq<Obj>>
    var emergency: set<nat>
    var slabTotal: int
    var slabAlloc: int
    var objTotal: int
    var objAlloc: int
    var objEmergency: int
    ghost var held: set<Obj>

    ghost function View(): State
      reads this
    {
      State(slabObjs, magSize, magRefill, vmem, slabs, partial, complete, mags, emergency,
            Counters(slabTotal, slabAlloc, objTotal, objAlloc, objEmergency), held)
    }

    ghost predicate Valid()
      reads this
    {
      Inv(View())
    }

    constructor (slabObjs: nat, magSize: nat, magRefill: nat, vmem: bool, cpus: nat)
      requires slabObjs >= 1 && 1 <= magRefill <= magSize
      ensures Valid() && Created(View()) && |mags| == cpus
    {
      this.slabObjs, this.magSize, this.magRefill, this.vmem := slabObjs, magSize, magRefill, vmem;
      slabs, partial, complete, emergency := map[], [], [], {};
      mags := seq(cpus, i => []);
      slabTotal, slabAlloc, objTotal, objAlloc, objEmergency := 0, 0, 0, 0, 0;
      held := {};
      new;
      CreatedInv(View());
    }

    /** `spl_kmem_cache_alloc`, magazine not empty. */
    method AllocFast(c: nat) returns (o: Obj)
      requires Valid() && c < |mags| && mags[c] != []
      modifies `mags, `held
      ensures Valid() && View() == Pop(old(View()), c)
      ensures o !in old(held) && o in held
    {
      PopInv(View(), c);
      var m := mags[c];
      o := m[|m| - 1];
      mags := mags[c := m[..|m| - 1]];
      held := held + {o};
    }

    /** `spl_cache_obj` on the first partial slab, and the push into the magazine. */
    method TakeObj(c: nat)
      requires CanTake(View(), c)
      modifies `slabs, `mags, `objAlloc, `slabAlloc
      ensures View() == Detach(old(View()), c)
    {
      var id := partial[0];
      var sl := slabs[id];
      slabs := slabs[id := sl.(ref := sl.ref + 1, free := sl.free[1..])];
      objAlloc := objAlloc + 1;
      if sl.ref + 1 == 1 {
        slabAlloc := slabAlloc + 1;
      }
      mags := mags[c := mags[c] + [OnSlab(id, sl.free[0])]];
    }

    /** One turn of the inner loop of `spl_cache_refill`; `goal` is where the refill leads. */
    method TakeTurn(c: nat, ghost left: nat, ghost goal: State)
      requires Heading(View(), c, left, goal) && left > 0
      requires c < |mags| && |mags[c]| < magSize && partial != []
      modifies `slabs, `mags, `objAlloc, `slabAlloc
      ensures Ahead(View(), c, left - 1, goal)
      ensures partial[0] in slabs
      ensures |mags| == |old(mags)| && |mags[c]| == |old(mags)[c]| + 1
    {
      HeadingOne(View(), c, left, goal);
      DetachSettles(View(), c);
      TakeObj(c);
    }

    /** A further turn: the first slab is not full, so it has not been moved. */
    method TakeMore(c: nat, ghost left: nat, ghost goal: State)
      requires partial != [] && partial[0] in slabs && slabs[partial[0]].ref < slabs[partial[0]].objs
      requires c < |mags| && |mags[c]| < magSize && left > 0
      requires Ahead(View(), c, left, goal)
      modifies `slabs, `mags, `objAlloc, `slabAlloc
      ensures Ahead(View(), c, left - 1, goal)
      ensures partial[0] in slabs
      ensures |mags| == |old(mags)| && |mags[c]| == |old(mags)[c]| + 1
    {
      assert Settle(View()) == View();
      TakeTurn(c, left, goal);
    }

    /** The inner loop of `spl_cache_refill`, after its first turn. */
    method TakeLoop(c: nat, start: nat, ghost goal: State) returns (left: nat)
      requires partial != [] && partial[0] in slabs && c < |mags| && |mags[c]| + start <= magSize
      requires Ahead(View(), c, start, goal)
      modifies `slabs, `mags, `objAlloc, `slabAlloc
      ensures Ahead(View(), c, left, goal) && partial[0] in slabs
      ensures left <= start && c < |mags| && |mags[c]| + left <= magSize
    {
      left := start;
      while left > 0 && slabs[partial[0]].ref < slabs[partial[0]].objs
        invariant Ahead(View(), c, left, goal) && partial[0] in slabs
        invariant c < |mags| && left <= start && |mags[c]| + left <= magSize
        decreases left
      {
        TakeMore(c, left, goal);
        left := left - 1;
      }
    }

    /** One turn of the outer loop of `spl_cache_refill`: objects of the first partial slab, which
        has at least one. */
    method TakeFromHead(c: nat, refill: nat, ghost goal: State) returns (left: nat)
      requires Heading(View(), c, refill, goal) && refill > 0
      requires c < |mags| && |mags[c]| + refill <= magSize && partial != []
      modifies `slabs, `mags, `objAlloc, `slabAlloc, `partial, `complete
      ensures Heading(View(), c, left, goal)
      ensures left < refill && c < |mags| && |mags[c]| + left <= magSize
    {
      TakeTurn(c, refill, goal);
      left := TakeRest(c, refill - 1, goal);
    }

    /** The rest of that turn, and the move of the slab if it has become full. */
    method TakeRest(c: nat, start: nat, ghost goal: State) returns (left: nat)
      requires partial != [] && partial[0] in slabs && c < |mags| && |mags[c]| + start <= magSize
      requires Ahead(View(), c, start, goal)
      modifies `slabs, `mags, `objAlloc, `slabAlloc, `partial, `complete
      ensures Heading(View(), c, left, goal)
      ensures left <= start && c < |mags| && |mags[c]| + left <= magSize
    {
      left := TakeLoop(c, start, goal);
      MoveIfFull();
    }

    /** The end of that turn: a slab that became full goes to the complete list. */
    method MoveIfFull()
      requires partial != [] && partial[0] in slabs
      modifies `partial, `complete
      ensures View() == Settle(old(View()))
    {
      if slabs[partial[0]].ref == slabs[partial[0]].objs {
        complete := [partial[0]] + complete;
        partial := partial[1..];
      }
    }

    /** The lock-held part of `spl_cache_refill`, until done or out of partial slabs. */
    method RefillSection(c: nat, refill: nat) returns (left: nat)
      requires Valid() && c < |mags| && |mags[c]| + refill <= magSize
      modifies `slabs, `mags, `objAlloc, `slabAlloc, `partial, `complete
      ensures Valid() && View() == Refill(old(View()), c, refill)
      ensures left > 0 ==> partial == []
    {
      left := refill;
      ghost var goal := Refill(View(), c, refill);
      while left > 0 && partial != []
        invariant Heading(View(), c, left, goal)
        invariant c < |mags| && |mags[c]| + left <= magSize && left <= refill
        decreases left
      {
        left := TakeFromHead(c, left, goal);
      }
      HeadingDone(View(), c, left, goal);
    }

    /** `spl_cache_shrink`. */
    method ShrinkObj(o: Obj)
      requires o.OnSlab? && Busy(slabs, o.slab)
      modifies `slabs, `partial, `complete, `objAlloc, `slabAlloc
      ensures View() == Shrink(old(View()), o)
    {
      var id := o.slab;
      var sl := slabs[id];
      sl := sl.(ref := sl.ref - 1, free := [o.idx] + sl.free);
      slabs := slabs[id := sl];
      objAlloc := objAlloc - 1;
      var p, q := partial, complete;
      if sl.ref == sl.objs - 1 {
        p, q := [id] + Remove(p, id), Remove(q, id);
      }
      if sl.ref == 0 {
        p, q := Remove(p, id) + [id], Remove(q, id);
        slabAlloc := slabAlloc - 1;
      }
      partial, complete := p, q;
    }

    /** The state a flush has reached once the first `i` objects of `m` went back. */
    ghost function Flushed(c: nat, m: seq<Obj>, i: nat): State
      requires c < |mags| && i <= |m|
      reads this
    {
      View().(mags := mags[c := m[i..]])
    }

    /** One turn of the loop of `__spl_cache_flush`; `goal` is where the flush leads. */
    method FlushObj(c: nat, m: seq<Obj>, i: nat, ghost n: nat, ghost goal: State)
      requires c < |mags| && i < |m| && n > 0 && Flushing(Flushed(c, m, i), c, n, goal)
      modifies `slabs, `partial, `complete, `objAlloc, `slabAlloc
      ensures Flushing(Flushed(c, m, i + 1), c, n - 1, goal)
    {
      ghost var s := Flushed(c, m, i);
      FlushingOne(s, c, n, goal);
      assert s.mags[c][0] == m[i];
      ShrinkIgnoresMags(View(), m[i], mags[c := m[i + 1..]]);
      assert s.mags[c := s.mags[c][1..]] == mags[c := m[i + 1..]];
      ShrinkObj(m[i]);
      assert Flushed(c, m, i + 1) == ShrinkOldest(s, c);
    }

    /** The loop of `__spl_cache_flush`. */
    method FlushLoop(c: nat, m: seq<Obj>, count: nat, ghost n: nat, ghost goal: State)
      requires c < |mags| && count <= |m| && count <= n && Flushing(Flushed(c, m, 0), c, n, goal)
      modifies `slabs, `partial, `complete, `objAlloc, `slabAlloc
      ensures Flushing(Flushed(c, m, count), c, n - count, goal)
    {
      var i := 0;
      while i < count
        invariant 0 <= i <= count && Flushing(Flushed(c, m, i), c, n - i, goal)
      {
        FlushObj(c, m, i, n - i, goal);
        i := i + 1;
      }
    }

    /** `__spl_cache_flush`: shrink from the bottom, then move the rest down. */
    method FlushSection(c: nat, flush: nat)
      requires Valid() && c < |mags|
      modifies `slabs, `mags, `partial, `complete, `objAlloc, `slabAlloc
      ensures Valid() && View() == Flush(old(View()), c, flush)
    {
      var m := mags[c];
      var count := if flush <= |m| then flush else |m|;
      ghost var goal := Flush(View(), c, flush);
      assert mags[c := m[0..]] == mags;
      FlushLoop(c, m, count, flush, goal);
      mags := mags[c := m[count..]];
      FlushNone(View(), c, flush - count);
    }

    /** `spl_kmem_cache_free` up to, and not including, the reclaim that may follow. */
    method Free(c: nat, o: Obj) returns (doReclaim: bool)
      requires Valid() && c < |mags| && o in held
      modifies this
      ensures Valid() && View() == FreeObj(old(View()), c, o)
      ensures doReclaim <==> o.OnSlab? && old(|mags[c]|) >= magSize
    {
      FreeInv(View(), c, o);
      InvBounds(View());
      doReclaim := false;
      if !(vmem && o.OnSlab?) && objEmergency > 0 {
        var found := EmergencyFree(o);
        if found {
          return;
        }
      }
      if |mags[c]| >= magSize {
        FlushTakesOldest(View(), c, magRefill);
        FlushSection(c, magRefill);
        doReclaim := true;
      }
      mags := mags[c := mags[c] + [o]];
      held := held - {o};
    }

    /** `spl_emergency_free`: look the address up in the tree and drop it. */
    method EmergencyFree(o: Obj) returns (found: bool)
      modifies `emergency, `held, `objTotal, `objEmergency
      ensures found <==> o.Page? && o.addr in old(emergency)
      ensures View() == if found then EmergencyErase(old(View()), o.addr) else old(View())
    {
      found := o.Page? && o.addr in emergency;
      if found {
        emergency := emergency - {o.addr};
        objEmergency := objEmergency - 1;
        objTotal := objTotal - 1;
        held := held - {o};
      }
    }

    /** `spl_emergency_alloc`, first section: no emergency object while a partial slab exists. */
    method EmergencyNeeded() returns (empty: bool)
      requires Valid()
      ensures empty <==> forall o :: Live(slabs, o) ==> !OnFreeList(slabs, o)
    {
      empty := partial == [];
      NoneFreeIffEmpty(View());
    }

    /** `spl_emergency_alloc`, second section: an address already present is refused. */
    method EmergencyAlloc(a: nat) returns (inserted: bool)
      requires Valid()
      modifies `emergency, `held, `objTotal, `objEmergency
      ensures Valid() && View() == EmergencyInsert(old(View()), a)
      ensures inserted <==> a !in old(emergency)
      ensures inserted ==> Page(a) !in old(held) && Page(a) in held
    {
      EmergencyInv(View(), a);
      InvBounds(View());
      inserted := a !in emergency;
      if inserted {
        emergency := emergency + {a};
        objTotal := objTotal + 1;
        objEmergency := objEmergency + 1;
        held := held + {Page(a)};
      }
    }

    /** `__spl_cache_grow` with a new slab; `spl_slab_alloc` chains its objects in order. */
    method GrowSlab(id: SlabId)
      requires Valid() && id !in slabs
      modifies `slabs, `partial, `objTotal, `slabTotal
      ensures Valid() && View() == Grow(old(View()), id)
    {
      GrowInv(View(), id);
      var free := [];
      while |free| < slabObjs
        invariant |free| <= slabObjs && forall i :: 0 <= i < |free| ==> free[i] == i
      {
        free := free + [|free|];
      }
      assert free == seq(slabObjs, i requires i >= 0 => i);
      slabTotal := slabTotal + 1;
      objTotal := objTotal + slabObjs;
      slabs := slabs[id := Slab(slabObjs, 0, free)];
      partial := partial + [id];
    }

    /** The scan of `spl_slab_reclaim`, from the tail of the partial list to a slab in use. */
    method ScanTail() returns (freed: seq<SlabId>)
      requires Distinct(partial) && forall k :: 0 <= k < |partial| ==> partial[k] in slabs
      modifies `slabs, `partial, `objTotal, `slabTotal
      ensures old(partial) == partial + freed
      ensures partial != [] ==> Busy(old(slabs), partial[|partial| - 1])
      ensures forall k :: 0 <= k < |freed| ==> !Busy(old(slabs), freed[k])
      ensures View() == Scanned(old(View()), partial, freed)
    {
      ghost var s0 := View();
      freed := [];
      assert s0.slabs - ToSet(freed) == s0.slabs;
      while partial != [] && slabs[partial[|partial| - 1]].ref == 0
        invariant s0.partial == partial + freed
        invariant forall k :: 0 <= k < |partial| ==> partial[k] in slabs
        invariant forall k :: 0 <= k < |freed| ==> !Busy(s0.slabs, freed[k])
        invariant View() == Scanned(s0, partial, freed)
        decreases |partial|
      {
        var last := |partial| - 1;
        var id := partial[last];
        assert s0.partial[last] == id && id in s0.slabs && id !in freed;
        forall k | 0 <= k < last ensures partial[k] != id {
          assert s0.partial[k] != s0.partial[last];
        }
        objTotal := objTotal - slabs[id].objs;
        slabTotal := slabTotal - 1;
        slabs := slabs - {id};
        partial := partial[..last];
        freed := [id] + freed;
        assert slabs == s0.slabs - ToSet(freed);
      }
    }

    /** `spl_slab_reclaim`. */
    method ReclaimSection() returns (freed: seq<SlabId>)
      requires Valid()
      modifies `slabs, `partial, `objTotal, `slabTotal
      ensures Valid() && View() == ReclaimAll(old(View()))
      ensures slabTotal == slabAlloc
      ensures forall id :: id in freed <==> id in old(slabs) && id !in slabs
    {
      ghost var s0 := View();
      ReclaimInv(s0);
      PartialLive(s0);
      freed := ScanTail();
      ScanIsReclaim(s0, partial, freed);
    }
  }
}
