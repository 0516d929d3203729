/** Safety of the slab allocator in every interleaving of its steps. */
module KmemCacheRuns {
  import opened Arith
  import opened Seqs
  import opened KmemCacheSpec
  import opened KmemCacheProofs

  // ---------------------------------------------------------------- single moves

  lemma TakeInv(s: State, c: nat)
    requires Inv(s) && CanTake(s, c)
    ensures Inv(TakeOne(s, c))
  {
    var w :| InvAt(s, w);
    TakeKeeps(s, c, w);
  }

  lemma ShrinkInv(s: State, c: nat)
    requires Inv(s) && c < |s.mags| && s.mags[c] != []
    ensures CanShrink(s, c) && Inv(ShrinkOldest(s, c))
  {
    var w :| InvAt(s, w);
    OldestIsCounted(s, c, w);
    ShrinkKeeps(s, c, w);
  }

  lemma PopInv(s: State, c: nat)
    requires Inv(s) && c < |s.mags| && s.mags[c] != []
    ensures Inv(Pop(s, c))
    ensures s.mags[c][|s.mags[c]| - 1] !in s.held
  {
    var w :| InvAt(s, w);
    PopKeeps(s, c, w);
    PopPlaces(s, c, w);
  }

  lemma PushInv(s: State, c: nat, o: Obj)
    requires Inv(s) && c < |s.mags| && |s.mags[c]| < s.magSize && o in s.held && o.OnSlab?
    ensures Inv(Push(s, c, o))
  {
    var w :| InvAt(s, w);
    PushKeeps(s, c, o, w);
  }

  lemma GrowInv(s: State, id: SlabId)
    requires Inv(s) && id !in s.slabs
    ensures Inv(Grow(s, id))
  {
    var w :| InvAt(s, w);
    GrowKeeps(s, id, w);
  }

  lemma EmergencyInv(s: State, a: nat)
    requires Inv(s)
    ensures Inv(EmergencyInsert(s, a))
    ensures a in s.emergency ==> Inv(EmergencyErase(s, a))
  {
    var w :| InvAt(s, w);
    InsertKeeps(s, a, w);
    if a in s.emergency {
      EraseKeeps(s, a, w);
    }
  }

  lemma ReclaimInv(s: State)
    requires Inv(s)
    ensures Inv(ReclaimAll(s))
    ensures ReclaimAll(s).n.slabTotal == ReclaimAll(s).n.slabAlloc
  {
    var w :| InvAt(s, w);
    ReclaimKeeps(s, w);
  }

  lemma InvBounds(s: State)
    requires Inv(s)
    ensures ConfigOk(s) && forall c :: 0 <= c < |s.mags| ==> |s.mags[c]| <= s.magSize
    ensures EmergencyOk(s.emergency, s.held) && s.n.objEmergency == |s.emergency|
  {
  }

  // ---------------------------------------------------------------- batches

  lemma {:induction false} RefillInv(s: State, c: nat, n: nat)
    requires Inv(s)
    ensures Inv(Refill(s, c, n)) && Refill(s, c, n).held == s.held
    decreases n
  {
    if n > 0 && CanTake(s, c) {
      TakeInv(s, c);
      RefillInv(TakeOne(s, c), c, n - 1);
    }
  }

  /** One turn of a flush, without saying how the slab lists change. */
  lemma FlushTurn(s: State, c: nat, n: nat) returns (t: State)
    requires Inv(s) && c < |s.mags| && n > 0 && s.mags[c] != []
    ensures Flush(s, c, n) == Flush(t, c, n - 1) && Inv(t) && SameCallers(s, t)
    ensures t.mags == s.mags[c := s.mags[c][1..]]
  {
    FlushOne(s, c, n);
    t := ShrinkOldest(s, c);
  }

  lemma {:induction false} FlushInv(s: State, c: nat, n: nat)
    requires Inv(s) && c < |s.mags|
    ensures Inv(Flush(s, c, n))
    decreases n
  {
    if n > 0 && s.mags[c] != [] {
      var t := FlushTurn(s, c, n);
      FlushInv(t, c, n - 1);
    } else {
      FlushNone(s, c, n);
    }
  }

  lemma ShrinkMags(s: State, c: nat)
    requires CanShrink(s, c)
    ensures var t := ShrinkOldest(s, c);
      && t.mags == s.mags[c := s.mags[c][1..]]
      && t.held == s.held && t.emergency == s.emergency && t.magSize == s.magSize
  {
    ShrinkFrame(s.(mags := s.mags[c := s.mags[c][1..]]), s.mags[c][0]);
  }

  /** The parts of the state that a flush touches only through the magazine. */
  ghost predicate SameCallers(s: State, t: State) {
    (t.held, t.emergency, t.magSize) == (s.held, s.emergency, s.magSize)
  }

  lemma FlushOne(s: State, c: nat, n: nat)
    requires Inv(s) && c < |s.mags| && n > 0 && s.mags[c] != []
    ensures CanShrink(s, c) && Flush(s, c, n) == Flush(ShrinkOldest(s, c), c, n - 1)
    ensures Inv(ShrinkOldest(s, c)) && SameCallers(s, ShrinkOldest(s, c))
    ensures ShrinkOldest(s, c).mags == s.mags[c := s.mags[c][1..]]
  {
    ShrinkInv(s, c);
    ShrinkMags(s, c);
  }

  /** A flush takes the oldest objects, and exactly as many as asked for or there are. */
  lemma {:induction false} FlushTakesOldest(s: State, c: nat, n: nat)
    requires Inv(s) && c < |s.mags|
    ensures Flush(s, c, n).mags == Dropped(s.mags, c, n) && SameCallers(s, Flush(s, c, n))
    decreases n
  {
    if n > 0 && s.mags[c] != [] {
      var t := FlushTurn(s, c, n);
      FlushTakesOldest(t, c, n - 1);
      DropMore(s.mags, c, n);
    } else {
      FlushNone(s, c, n);
    }
  }

  /** The magazines without the `n` oldest objects of magazine `c`. */
  function Dropped(mags: seq<seq<Obj>>, c: nat, n: nat): seq<seq<Obj>>
    requires c < |mags|
  {
    mags[c := mags[c][Min(n, |mags[c]|)..]]
  }

  lemma FlushNone(s: State, c: nat, n: nat)
    requires c < |s.mags| && (n == 0 || s.mags[c] == [])
    ensures Flush(s, c, n) == s && s.mags == Dropped(s.mags, c, n)
  {
  }

  lemma DropMore(mags: seq<seq<Obj>>, c: nat, n: nat)
    requires c < |mags| && n > 0 && mags[c] != []
    ensures Dropped(mags[c := mags[c][1..]], c, n - 1) == Dropped(mags, c, n)
  {
  }

  lemma MakeRoomInv(s: State, c: nat)
    requires Inv(s) && c < |s.mags|
    ensures var t := MakeRoom(s, c);
      Inv(t) && SameCallers(s, t) && |t.mags| == |s.mags| && |t.mags[c]| < t.magSize
  {
    InvBounds(s);
    if |s.mags[c]| >= s.magSize {
      FlushInv(s, c, s.magRefill);
      FlushTakesOldest(s, c, s.magRefill);
    }
  }

  /** Emergency objects go back to the tree they came from, slab objects to the magazine. */
  lemma FreeInv(s: State, c: nat, o: Obj)
    requires Inv(s) && c < |s.mags| && o in s.held
    ensures Inv(FreeObj(s, c, o))
    ensures FreeObj(s, c, o).held == s.held - {o}
    ensures o.Page? ==> FreeObj(s, c, o) == EmergencyErase(s, o.addr)
    ensures o.OnSlab? ==> InMag(FreeObj(s, c, o).mags, c, o)
  {
    InvBounds(s);
    if o.Page? {
      assert o.addr in s.emergency;
      EmergencyInv(s, o.addr);
    } else {
      MakeRoomInv(s, c);
      PushInv(MakeRoom(s, c), c, o);
    }
  }

  lemma RoomMade(s: State, c: nat)
    requires Inv(s) && c < |s.mags|
    ensures |s.mags[c]| == s.magSize ==> 1 <= s.magRefill <= |s.mags[c]|
    ensures var m := s.mags[c];
      MakeRoom(s, c).mags == s.mags[c := if |m| == s.magSize then m[s.magRefill..] else m]
  {
    InvBounds(s);
    if |s.mags[c]| >= s.magSize {
      FlushTakesOldest(s, c, s.magRefill);
    }
  }

  /** What a free does to the magazines: an object of a slab becomes the newest of the local one,
      which first loses its oldest skm_refill objects if it is full; the others are untouched. */
  lemma FreeIntoMagazine(s: State, c: nat, o: Obj)
    requires Inv(s) && c < |s.mags| && o in s.held
    ensures |s.mags[c]| == s.magSize ==> 1 <= s.magRefill <= |s.mags[c]|
    ensures o.OnSlab? ==>
      var m := s.mags[c];
      FreeObj(s, c, o).mags ==
        s.mags[c := (if |m| == s.magSize then m[s.magRefill..] else m) + [o]]
    ensures o.Page? ==> FreeObj(s, c, o).mags == s.mags
  {
    if o.OnSlab? {
      RoomMade(s, c);
    } else {
      FreeInv(s, c, o);
    }
    InvBounds(s);
  }

  /** An allocation undoes a free on the same CPU: it returns the object, and what remains of the
      two is the room that was made. */
  lemma AllocUndoesFree(s: State, c: nat, o: Obj)
    requires Inv(s) && c < |s.mags| && o in s.held && o.OnSlab?
    ensures var t := FreeObj(s, c, o);
      && c < |t.mags| && t.mags[c] != [] && t.mags[c][|t.mags[c]| - 1] == o
      && Pop(t, c) == MakeRoom(s, c)
  {
    FreeInv(s, c, o);
    MakeRoomInv(s, c);
    var r := MakeRoom(s, c);
    var t := FreeObj(s, c, o);
    assert t == Push(r, c, o);
    assert t.mags[c][..|t.mags[c]| - 1] == r.mags[c];
    assert t.mags[c := r.mags[c]] == r.mags;
    assert t.held + {o} == r.held;
  }

  /** The last object taken from a slab that became full, given back and wanted again, is taken
      again: slab and partial list are as they were. */
  lemma TakeUndoesShrink(s: State, c: nat, o: Obj)
    requires o.OnSlab? && o.slab in s.slabs && o.slab !in s.partial && c < |s.mags| && |s.mags[c]| < s.magSize
    requires var sl := s.slabs[o.slab]; sl.ref == sl.objs >= 2
    ensures var t := Shrink(s, o);
      && CanTake(t, c)
      && var u := TakeOne(t, c);
      && u.mags == s.mags[c := s.mags[c] + [o]]
      && u.slabs == s.slabs && u.partial == s.partial && u.n == s.n
      && u.complete == [o.slab] + Remove(s.complete, o.slab)
  {
    var id := o.slab;
    var t := Shrink(s, o);
    assert Remove(s.partial, id) == s.partial;
    assert t.partial == [id] + s.partial;
    assert t.slabs[id].free == [o.idx] + s.slabs[id].free;
    var u := TakeOne(t, c);
    assert u.slabs[id] == s.slabs[id];
    assert u.slabs == s.slabs;
  }

  // ---------------------------------------------------------------- every step, every run

  lemma NextInv(s: State, st: Step)
    requires Inv(s) && Enabled(s, st)
    ensures Inv(Next(s, st))
  {
    match st
    case DoAlloc(c) => PopInv(s, c);
    case DoRefill(c, n) => RefillInv(s, c, n);
    case DoFree(c, o) => FreeInv(s, c, o);
    case DoFlush(c, n) => FlushInv(s, c, n);
    case DoGrow(id) => GrowInv(s, id);
    case DoReclaim => ReclaimInv(s);
    case DoEmergency(a) => EmergencyInv(s, a);
  }

  lemma {:induction false} RunInv(s: State, run: seq<Step>)
    requires Inv(s) && RunOk(s, run)
    ensures Inv(Run(s, run))
    decreases |run|
  {
    if run != [] {
      NextInv(s, run[0]);
      RunInv(Next(s, run[0]), run[1..]);
    }
  }

  lemma CreatedCounts(s: State)
    requires Created(s)
    ensures CountsOk(s)
  {
    EmptyCounts(s);
  }

  lemma CreatedLists(s: State) returns (w: map<Obj, Place>)
    requires Created(s)
    ensures ListsOk(s.slabs, s.partial, s.complete) && SlabsOk(s.slabs) && OrderOk(s.slabs, s.partial)
    ensures Placed(s.slabs, s.mags, s.held, w) && MagsOk(s.mags, s.magSize)
  {
    NowherePlaced(s.slabs, s.mags);
    w := map[];
  }

  lemma CreatedInv(s: State)
    requires Created(s)
    ensures Inv(s)
  {
    CreatedCounts(s);
    var w := CreatedLists(s);
    assert InvAt(s, w);
  }

  lemma EmptyTally(s: State)
    requires |s.partial| == |s.complete| == 0
    ensures forall f :: TallyAll(s, f) == 0
  {
  }

  lemma EmptyCounts(s: State)
    requires |s.partial| == |s.complete| == |s.emergency| == 0
    ensures CountsOk(s) <==> AllZero(s.n)
  {
    EmptyTally(s);
  }

  lemma NowherePlaced(m: Slabs, mags: seq<seq<Obj>>)
    requires |m| == 0 && forall c :: 0 <= c < |mags| ==> mags[c] == []
    ensures Placed(m, mags, {}, map[])
  {
    assert forall c: nat, o: Obj :: !InMag(mags, c, o);
  }

  // ---------------------------------------------------------------- what the invariant means

  /** How often `o` occurs in the magazines. */
  ghost function MagCount(mags: seq<seq<Obj>>, o: Obj): nat {
    if mags == [] then 0 else multiset(mags[0])[o] + MagCount(mags[1..], o)
  }

  /** How often `o` occurs in its slab's free list, in the magazines and among the callers. */
  ghost function PlaceCount(s: State, o: Obj): nat {
    (if o.OnSlab? && o.slab in s.slabs then multiset(s.slabs[o.slab].free)[o.idx] else 0)
    + MagCount(s.mags, o) + (if o in s.held then 1 else 0)
  }

  lemma {:induction false} MagCountAt(mags: seq<seq<Obj>>, o: Obj, size: nat)
    requires MagsOk(mags, size)
    requires forall c: nat, d: nat :: InMag(mags, c, o) && InMag(mags, d, o) ==> c == d
    ensures MagCount(mags, o) == if exists c: nat :: InMag(mags, c, o) then 1 else 0
  {
    if mags != [] {
      var rest := mags[1..];
      assert forall c: nat :: InMag(rest, c, o) <==> InMag(mags, c + 1, o);
      MagCountAt(rest, o, size);
      DistinctCount(mags[0], o);
      if o in mags[0] {
        assert InMag(mags, 0, o);
        assert forall c: nat :: !InMag(rest, c, o);
      } else if c: nat :| InMag(mags, c, o) {
        assert c > 0 && InMag(rest, c - 1, o);
      }
    }
  }

  /** In every run, every object of every slab is in exactly one place, and nothing else is. */
  lemma ExactlyOnePlace(s: State, run: seq<Step>, o: Obj)
    requires Inv(s) && RunOk(s, run) && o.OnSlab?
    ensures PlaceCount(Run(s, run), o) == if Live(Run(s, run).slabs, o) then 1 else 0
  {
    RunInv(s, run);
    var t := Run(s, run);
    var w :| InvAt(t, w);
    OnePlace(t, o, w);
  }

  lemma OnePlace(t: State, o: Obj, w: map<Obj, Place>)
    requires SlabsOk(t.slabs) && MagsOk(t.mags, t.magSize) && Placed(t.slabs, t.mags, t.held, w) && o.OnSlab?
    ensures PlaceCount(t, o) == if Live(t.slabs, o) then 1 else 0
  {
    MagCountAt(t.mags, o, t.magSize);
    if o.slab in t.slabs {
      assert SlabOk(t.slabs[o.slab]);
      DistinctCount(t.slabs[o.slab].free, o.idx);
    }
    if o in w && w[o].Mag? {
      assert InMag(t.mags, w[o].cpu, o);
    }
  }

  ghost predicate NoFreeOf(run: seq<Step>, o: Obj) {
    forall st :: st in run ==> !(st.DoFree? && st.obj == o)
  }

  lemma NextHolds(s: State, st: Step, o: Obj)
    requires Inv(s) && Enabled(s, st) && o in s.held && !(st.DoFree? && st.obj == o)
    ensures o in Next(s, st).held
  {
    match st
    case DoRefill(c, n) => RefillInv(s, c, n);
    case DoFree(c, p) => FreeInv(s, c, p);
    case DoFlush(c, n) => FlushTakesOldest(s, c, n);
    case _ =>
  }

  /** An object handed out stays with its caller until freed, so no later alloc returns it. */
  lemma {:induction false} NotHandedOutTwice(s: State, run: seq<Step>, o: Obj, c: nat)
    requires Inv(s) && RunOk(s, run) && o in s.held && NoFreeOf(run, o)
    ensures o in Run(s, run).held
    ensures var t := Run(s, run);
      c < |t.mags| && t.mags[c] != [] ==> t.mags[c][|t.mags[c]| - 1] != o
    decreases |run|
  {
    if run == [] {
      if c < |s.mags| && s.mags[c] != [] {
        PopInv(s, c);
      }
    } else {
      assert run[0] in run;
      NextInv(s, run[0]);
      NextHolds(s, run[0], o);
      NotHandedOutTwice(Next(s, run[0]), run[1..], o, c);
    }
  }

  /** Reclaim releases a slab exactly when all its objects are on its free list. */
  lemma ReclaimReleasesOnlyIdle(s: State, id: SlabId)
    requires Inv(s) && id in s.slabs
    ensures id !in ReclaimAll(s).slabs <==>
            forall i: nat :: i < s.slabs[id].objs ==> i in s.slabs[id].free
    ensures id !in ReclaimAll(s).slabs ==>
            forall o: Obj :: Live(s.slabs, o) && o.slab == id ==>
              o !in s.held && forall c: nat :: !InMag(s.mags, c, o)
  {
    var w :| InvAt(s, w);
    var sl := s.slabs[id];
    assert SlabOk(sl);
    if !Busy(s.slabs, id) {
      Pigeonhole(sl.free, sl.objs);
    } else if forall i: nat :: i < sl.objs ==> i in sl.free {
      AllIn(sl.free, sl.objs);
    }
  }

  lemma {:induction false} AllIn(q: seq<nat>, n: nat)
    requires Distinct(q) && forall i: nat :: i < n ==> i in q
    ensures |q| >= n
    decreases n
  {
    if n > 0 {
      var top: nat := n - 1;
      RemoveDistinct(q, top);
      AllIn(Remove(q, top), top);
    }
  }

  // ---------------------------------------------------------------- destroy

  lemma {:induction false} FlushAllInv(s: State, c: nat)
    requires Inv(s) && forall d :: 0 <= d < c && d < |s.mags| ==> s.mags[d] == []
    ensures Inv(FlushAll(s, c)) && FlushAll(s, c).held == s.held
    ensures forall d :: 0 <= d < |FlushAll(s, c).mags| ==> FlushAll(s, c).mags[d] == []
    decreases |s.mags| - c
  {
    if c < |s.mags| {
      FlushInv(s, c, |s.mags[c]|);
      FlushTakesOldest(s, c, |s.mags[c]|);
      FlushAllInv(Flush(s, c, |s.mags[c]|), c + 1);
    }
  }

  /** With nothing held, `spl_kmem_cache_destroy` meets its own assertions: all counters are zero. */
  lemma DestroyDrains(s: State, run: seq<Step>)
    requires Inv(s) && RunOk(s, run) && Run(s, run).held == {}
    ensures var t := ReclaimAll(FlushAll(Run(s, run), 0));
      && AllZero(t.n)
      && t.partial == [] && t.complete == [] && t.slabs == map[] && t.emergency == {}
  {
    RunInv(s, run);
    FlushAllInv(Run(s, run), 0);
    Drained(FlushAll(Run(s, run), 0));
  }

  lemma Drained(s: State)
    requires Inv(s) && s.held == {} && forall d :: 0 <= d < |s.mags| ==> s.mags[d] == []
    ensures var t := ReclaimAll(s);
      && AllZero(t.n)
      && t.partial == [] && t.complete == [] && t.slabs == map[] && t.emergency == {}
  {
    var w :| InvAt(s, w);
    AllIdle(s, w);
    var t := ReclaimAll(s);
    assert t.slabs == map[];
    ReclaimInv(s);
    Empty(t);
  }

  lemma AllIdle(s: State, w: map<Obj, Place>)
    requires SlabsOk(s.slabs) && Placed(s.slabs, s.mags, s.held, w) && s.held == {}
    requires forall d :: 0 <= d < |s.mags| ==> s.mags[d] == []
    ensures forall id :: id in s.slabs ==> !Busy(s.slabs, id)
  {
    forall id | id in s.slabs ensures !Busy(s.slabs, id) {
      var sl := s.slabs[id];
      assert SlabOk(sl);
      forall i: nat | i < sl.objs ensures i in sl.free {
        var o := OnSlab(id, i);
        assert Live(s.slabs, o);
        assert w[o].Mag? ==> InMag(s.mags, w[o].cpu, o);
        assert OnFreeList(s.slabs, o);
      }
      AllIn(sl.free, sl.objs);
    }
  }

  lemma Empty(t: State)
    requires Inv(t) && t.slabs == map[] && t.held == {}
    ensures AllZero(t.n)
    ensures t.partial == [] && t.complete == [] && t.emergency == {}
  {
    var w :| InvAt(t, w);
    NoSlabs(t.partial, t.complete);
    NoEmergency(t.emergency, t.held);
    EmptyCounts(t);
  }

  lemma NoSlabs(partial: seq<SlabId>, complete: seq<SlabId>)
    requires ListsOk(map[], partial, complete)
    ensures partial == [] && complete == []
  {
    assert ToSet(partial) == {} == ToSet(complete);
    DistinctCard(partial);
    DistinctCard(complete);
  }

  lemma NoEmergency(e: set<nat>, held: set<Obj>)
    requires EmergencyOk(e, held) && held == {}
    ensures e == {}
  {
  }
}
