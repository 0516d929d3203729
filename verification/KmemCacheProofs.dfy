/** Every elementary move of the slab allocator keeps the invariant, one part of it at a time. */
module KmemCacheProofs {
  import opened Seqs
  import opened KmemCacheSpec

  // ---------------------------------------------------------------- sums

  lemma {:induction false} TallyConcat(m: Slabs, a: seq<SlabId>, b: seq<SlabId>, f: Field)
    ensures Tally(m, a + b, f) == Tally(m, a, f) + Tally(m, b, f)
  {
    if |a| == 0 {
      assert a + b == b;
    } else {
      assert (a + b)[1..] == a[1..] + b;
      TallyConcat(m, a[1..], b, f);
    }
  }

  lemma {:induction false} TallyFrame(m: Slabs, n: Slabs, q: seq<SlabId>, f: Field)
    requires forall id :: id in q ==> (id in m <==> id in n)
    requires forall id :: id in q && id in m ==> m[id] == n[id]
    ensures Tally(m, q, f) == Tally(n, q, f)
  {
    if |q| != 0 {
      TallyFrame(m, n, q[1..], f);
    }
  }

  lemma {:induction false} TallyRemove(m: Slabs, q: seq<SlabId>, x: SlabId, f: Field)
    requires x in q && x in m
    ensures Tally(m, q, f) == Weigh(m[x], f) + Tally(m, Remove(q, x), f)
  {
    if q[0] != x {
      assert Remove(q, x) == [q[0]] + Remove(q[1..], x);
      TallyRemove(m, q[1..], x, f);
    }
  }

  /** One slab changes and may move between and within the lists; the others stay, in order. */
  ghost predicate OneMoved(s: State, t: State, id: SlabId) {
    && id in s.slabs && id in t.slabs && t.slabs == s.slabs[id := t.slabs[id]]
    && Remove(t.partial, id) == Remove(s.partial, id)
    && Remove(t.complete, id) == Remove(s.complete, id)
    && (id in s.partial <==> id !in s.complete)
    && (id in t.partial <==> id !in t.complete)
  }

  lemma TallySplit(m: Slabs, q: seq<SlabId>, r: seq<SlabId>, id: SlabId, f: Field)
    requires id in m && (id in q <==> id !in r)
    ensures Tally(m, q, f) + Tally(m, r, f) ==
            Weigh(m[id], f) + Tally(m, Remove(q, id), f) + Tally(m, Remove(r, id), f)
  {
    if id in q {
      TallyRemove(m, q, id, f);
    } else {
      TallyRemove(m, r, id, f);
    }
  }

  lemma TallyOthers(m: Slabs, q: seq<SlabId>, id: SlabId, w: Slab, f: Field)
    requires Distinct(q)
    ensures Tally(m[id := w], Remove(q, id), f) == Tally(m, Remove(q, id), f)
  {
    RemoveDistinct(q, id);
    TallyFrame(m, m[id := w], Remove(q, id), f);
  }

  lemma TallyMoved(s: State, t: State, id: SlabId, f: Field)
    requires OneMoved(s, t, id) && Distinct(s.partial) && Distinct(s.complete)
    ensures TallyAll(t, f) - TallyAll(s, f) == Weigh(t.slabs[id], f) - Weigh(s.slabs[id], f)
  {
    TallyOthers(s.slabs, s.partial, id, t.slabs[id], f);
    TallyOthers(s.slabs, s.complete, id, t.slabs[id], f);
    TallySplit(s.slabs, s.partial, s.complete, id, f);
    TallySplit(t.slabs, t.partial, t.complete, id, f);
  }

  lemma LengthMoved(s: State, t: State, id: SlabId)
    requires OneMoved(s, t, id)
    ensures |s.partial| + |s.complete| == |t.partial| + |t.complete|
  {
  }

  /** The two counters that follow a slab whose `sks_ref` changed. */
  ghost predicate CountersFollow(s: State, t: State, id: SlabId) {
    && id in s.slabs && id in t.slabs && s.slabs[id].objs == t.slabs[id].objs
    && t.n == s.n.(
      objAlloc := s.n.objAlloc + Weigh(t.slabs[id], Refs) - Weigh(s.slabs[id], Refs),
      slabAlloc := s.n.slabAlloc + Weigh(t.slabs[id], Used) - Weigh(s.slabs[id], Used))
  }

  lemma CountsMoved(s: State, t: State, id: SlabId)
    requires CountsOk(s) && OneMoved(s, t, id) && Distinct(s.partial) && Distinct(s.complete)
    requires t.emergency == s.emergency && CountersFollow(s, t, id)
    ensures CountsOk(t)
  {
    TallyMoved(s, t, id, Refs);
    TallyMoved(s, t, id, Objs);
    TallyMoved(s, t, id, Used);
    LengthMoved(s, t, id);
  }

  // ---------------------------------------------------------------- alloc and free

  lemma PopKeeps(s: State, c: nat, w: map<Obj, Place>)
    requires InvAt(s, w) && c < |s.mags| && s.mags[c] != []
    ensures s.mags[c][|s.mags[c]| - 1] in w
    ensures InvAt(Pop(s, c), w[s.mags[c][|s.mags[c]| - 1] := Held])
  {
    PopPlaces(s, c, w);
  }

  lemma PopPlaces(s: State, c: nat, w: map<Obj, Place>)
    requires c < |s.mags| && s.mags[c] != [] && MagsOk(s.mags, s.magSize)
    requires Placed(s.slabs, s.mags, s.held, w) && EmergencyOk(s.emergency, s.held)
    ensures var t := Pop(s, c); var o := s.mags[c][|s.mags[c]| - 1];
      && o in w && w[o] == Mag(c) && o.OnSlab? && o !in s.held
      && Placed(t.slabs, t.mags, t.held, w[o := Held])
      && MagsOk(t.mags, t.magSize) && EmergencyOk(t.emergency, t.held)
  {
    var t := Pop(s, c);
    var m := s.mags[c];
    var o := m[|m| - 1];
    assert InMag(s.mags, c, o);
    assert Live(s.slabs, o);
    forall d: nat, p: Obj
      ensures InMag(t.mags, d, p) <==> InMag(s.mags, d, p) && p != o
    {
      if d == c && p in m {
        var i :| 0 <= i < |m| && m[i] == p;
        assert p != o ==> t.mags[c][i] == p;
      }
      if InMag(t.mags, d, o) {
        assert InMag(s.mags, d, o);
      }
    }
  }

  lemma PushKeeps(s: State, c: nat, o: Obj, w: map<Obj, Place>)
    requires InvAt(s, w) && c < |s.mags| && |s.mags[c]| < s.magSize && o in s.held && o.OnSlab?
    ensures InvAt(Push(s, c, o), w[o := Mag(c)])
  {
    PushPlaces(s, c, o, w);
  }

  lemma PushPlaces(s: State, c: nat, o: Obj, w: map<Obj, Place>)
    requires c < |s.mags| && |s.mags[c]| < s.magSize && o in s.held && o.OnSlab?
    requires Placed(s.slabs, s.mags, s.held, w) && EmergencyOk(s.emergency, s.held)
    requires MagsOk(s.mags, s.magSize)
    ensures var t := Push(s, c, o);
      && Placed(t.slabs, t.mags, t.held, w[o := Mag(c)])
      && MagsOk(t.mags, t.magSize) && EmergencyOk(t.emergency, t.held)
  {
    var t := Push(s, c, o);
    assert o in w && w[o] == Held;
    assert !InMag(s.mags, c, o);
    DistinctAppend(s.mags[c], o);
    assert forall d: nat, p: Obj :: InMag(t.mags, d, p) <==> InMag(s.mags, d, p) || (d == c && p == o);
  }

  // ---------------------------------------------------------------- refill

  /** The asserts of `spl_cache_refill`: the head of the partial list has a free object. */
  lemma HeadHasFree(s: State)
    requires ListsOk(s.slabs, s.partial, s.complete) && SlabsOk(s.slabs) && s.partial != []
    ensures s.partial[0] in s.slabs
    ensures s.slabs[s.partial[0]].ref < s.slabs[s.partial[0]].objs
    ensures s.slabs[s.partial[0]].free != []
  {
    var id := s.partial[0];
    assert id in s.partial;
    assert SlabOk(s.slabs[id]);
  }

  lemma TakeSlabs(s: State, c: nat)
    requires SlabsOk(s.slabs) && CanTake(s, c)
    ensures SlabsOk(TakeOne(s, c).slabs)
  {
    var id := s.partial[0];
    var f := s.slabs[id].free;
    assert SlabOk(s.slabs[id]);
    assert forall i :: i in f[1..] ==> i in f;
  }

  lemma TakeLists(s: State, c: nat)
    requires ListsOk(s.slabs, s.partial, s.complete) && SlabsOk(s.slabs) && CanTake(s, c)
    ensures var t := TakeOne(s, c); ListsOk(t.slabs, t.partial, t.complete)
  {
    var id := s.partial[0];
    assert id in s.partial;
    assert SlabOk(s.slabs[id]);
    assert s.partial == [id] + s.partial[1..];
    assert id !in s.partial[1..];
    DistinctAppend(s.complete, id);
    var t := TakeOne(s, c);
    forall x ensures x in t.partial <==> x in t.slabs && t.slabs[x].ref < t.slabs[x].objs {
      assert x in s.partial || x !in s.partial;
    }
  }

  lemma TakeMoves(s: State, c: nat)
    requires CanTake(s, c) && Distinct(s.partial) && s.partial[0] !in s.complete
    ensures OneMoved(s, TakeOne(s, c), s.partial[0])
  {
    var id := s.partial[0];
    assert s.partial == [id] + s.partial[1..];
    RemoveHead(s.partial[1..], id);
    RemoveHead(s.complete, id);
  }

  lemma RemoveHead(q: seq<SlabId>, x: SlabId)
    requires x !in q
    ensures Remove([x] + q, x) == q == Remove(q, x)
  {
  }

  lemma TakeOrder(s: State, c: nat)
    requires OrderOk(s.slabs, s.partial) && Distinct(s.partial) && CanTake(s, c)
    ensures OrderOk(TakeOne(s, c).slabs, TakeOne(s, c).partial)
  {
    var t := TakeOne(s, c);
    var k := |s.partial| - |t.partial|;
    forall i, j | 0 <= i < j < |t.partial| && Busy(t.slabs, t.partial[j])
      ensures Busy(t.slabs, t.partial[i])
    {
      assert t.partial[j] == s.partial[j + k] && t.partial[i] == s.partial[i + k];
      assert s.partial[j + k] != s.partial[0];
    }
  }

  lemma TakePlaces(s: State, c: nat, w: map<Obj, Place>)
    requires Placed(s.slabs, s.mags, s.held, w) && SlabsOk(s.slabs) && CanTake(s, c)
    requires MagsOk(s.mags, s.magSize)
    ensures var t := TakeOne(s, c); var o := OnSlab(s.partial[0], s.slabs[s.partial[0]].free[0]);
      && o in w && w[o] == Free
      && Placed(t.slabs, t.mags, t.held, w[o := Mag(c)]) && MagsOk(t.mags, t.magSize)
  {
    var id := s.partial[0];
    var f := s.slabs[id].free;
    var o := OnSlab(id, f[0]);
    var t := TakeOne(s, c);
    assert SlabOk(s.slabs[id]);
    assert f == [f[0]] + f[1..] && f[0] !in f[1..];
    assert OnFreeList(s.slabs, o);
    assert !InMag(s.mags, c, o);
    DistinctAppend(s.mags[c], o);
    assert forall p: Obj :: Live(t.slabs, p) == Live(s.slabs, p);
    assert forall p: Obj :: OnFreeList(t.slabs, p) <==> OnFreeList(s.slabs, p) && p != o;
    assert forall d: nat, p: Obj :: InMag(t.mags, d, p) <==> InMag(s.mags, d, p) || (d == c && p == o);
  }

  lemma TakeCounts(s: State, c: nat)
    requires CountsOk(s) && CanTake(s, c) && Distinct(s.partial) && Distinct(s.complete)
    requires s.partial[0] !in s.complete
    ensures CountsOk(TakeOne(s, c))
  {
    TakeMoves(s, c);
    CountsMoved(s, TakeOne(s, c), s.partial[0]);
  }

  lemma TakeKeeps(s: State, c: nat, w: map<Obj, Place>)
    requires InvAt(s, w) && CanTake(s, c)
    ensures InvAt(TakeOne(s, c), w[OnSlab(s.partial[0], s.slabs[s.partial[0]].free[0]) := Mag(c)])
  {
    TakeSlabs(s, c);
    TakeLists(s, c);
    TakeOrder(s, c);
    TakePlaces(s, c, w);
    assert s.partial[0] in s.partial;
    TakeCounts(s, c);
  }

  // ---------------------------------------------------------------- flush

  /** An object outside the free list of its slab is counted in `sks_ref`. */
  lemma OutsideIsCounted(m: Slabs, o: Obj)
    requires SlabsOk(m) && Live(m, o) && !OnFreeList(m, o)
    ensures Busy(m, o.slab)
  {
    var sl := m[o.slab];
    assert SlabOk(sl);
    if sl.ref == 0 {
      Pigeonhole(sl.free, sl.objs);
      assert false;
    }
  }

  /** The asserts of `spl_cache_shrink`: what a magazine holds belongs to a slab that counts it. */
  lemma OldestIsCounted(s: State, c: nat, w: map<Obj, Place>)
    requires SlabsOk(s.slabs) && Placed(s.slabs, s.mags, s.held, w)
    requires c < |s.mags| && s.mags[c] != []
    ensures CanShrink(s, c)
  {
    var o := s.mags[c][0];
    assert InMag(s.mags, c, o);
    OutsideIsCounted(s.slabs, o);
  }

  /** Where the slab is afterwards: last if empty, first if it was full, else where it was. */
  ghost predicate Repositioned(s: State, t: State, id: SlabId) {
    && id in s.slabs && id in t.slabs && t.slabs == s.slabs[id := t.slabs[id]]
    && t.complete == Remove(s.complete, id)
    && t.partial ==
       if t.slabs[id].ref == 0 then Remove(s.partial, id) + [id]
       else if id !in s.partial then [id] + s.partial
       else s.partial
  }

  lemma ShrinkFrame(s: State, o: Obj)
    requires o.OnSlab? && Busy(s.slabs, o.slab)
    ensures var t := Shrink(s, o); var sl := s.slabs[o.slab];
      && t.slabs == s.slabs[o.slab := sl.(ref := sl.ref - 1, free := [o.idx] + sl.free)]
      && t == s.(slabs := t.slabs, partial := t.partial, complete := t.complete, n := t.n)
      && t.n == s.n.(objAlloc := s.n.objAlloc - 1,
                     slabAlloc := if sl.ref == 1 then s.n.slabAlloc - 1 else s.n.slabAlloc)
  {
  }

  lemma ShrinkPosition(s: State, o: Obj)
    requires ListsOk(s.slabs, s.partial, s.complete) && SlabsOk(s.slabs)
    requires o.OnSlab? && Busy(s.slabs, o.slab)
    ensures Repositioned(s, Shrink(s, o), o.slab)
  {
    var id := o.slab;
    assert SlabOk(s.slabs[id]);
    RemoveDistinct(s.complete, id);
    RemoveDistinct(s.partial, id);
    RemoveHead(Remove(s.partial, id), id);
  }

  lemma RepositionMembers(s: State, t: State, id: SlabId)
    requires Distinct(s.partial) && Distinct(s.complete)
    requires Repositioned(s, t, id)
    ensures Distinct(t.partial) && Distinct(t.complete)
    ensures forall x :: x in t.partial <==> x in s.partial || x == id
    ensures forall x :: x in t.complete <==> x in s.complete && x != id
  {
    RemoveDistinct(s.partial, id);
    RemoveDistinct(s.complete, id);
    DistinctAppend(Remove(s.partial, id), id);
    if id !in s.partial {
      DistinctAppend(s.partial, id);
    }
  }

  lemma ShrinkLists(s: State, t: State, id: SlabId)
    requires ListsOk(s.slabs, s.partial, s.complete) && SlabsOk(s.slabs) && Repositioned(s, t, id)
    requires t.slabs[id].objs == s.slabs[id].objs && t.slabs[id].ref == s.slabs[id].ref - 1
    ensures ListsOk(t.slabs, t.partial, t.complete)
  {
    RepositionMembers(s, t, id);
    assert SlabOk(s.slabs[id]);
  }

  lemma ShrinkMoves(s: State, t: State, id: SlabId)
    requires Distinct(s.partial) && Distinct(s.complete) && (id in s.partial <==> id !in s.complete)
    requires Repositioned(s, t, id)
    ensures OneMoved(s, t, id)
  {
    RemoveDistinct(s.partial, id);
    RemoveDistinct(s.complete, id);
    RemoveLast(Remove(s.partial, id), id);
    if id !in s.partial {
      RemoveHead(s.partial, id);
    }
  }

  lemma {:induction false} RemoveLast(q: seq<SlabId>, x: SlabId)
    requires x !in q
    ensures Remove(q + [x], x) == q
  {
    RemoveAt(q + [x], x, |q|);
  }

  lemma ShrinkSlabs(m: Slabs, o: Obj)
    requires SlabsOk(m) && Live(m, o) && !OnFreeList(m, o) && Busy(m, o.slab)
    ensures var sl := m[o.slab];
      SlabsOk(m[o.slab := sl.(ref := sl.ref - 1, free := [o.idx] + sl.free)])
  {
    var sl := m[o.slab];
    assert SlabOk(sl);
    DistinctAppend(sl.free, o.idx);
  }

  /** Both list moves keep "in use first": to the head while in use, to the tail when empty. */
  lemma ShrinkOrder(s: State, t: State, id: SlabId)
    requires Distinct(s.partial) && OrderOk(s.slabs, s.partial) && Busy(s.slabs, id)
    requires Repositioned(s, t, id)
    ensures OrderOk(t.slabs, t.partial)
  {
    if t.slabs[id].ref == 0 {
      if id in s.partial {
        var k := DistinctSplit(s.partial, id);
        TailOrder(s.slabs, t.slabs, s.partial, k, k + 1, id);
      } else {
        TailOrder(s.slabs, t.slabs, s.partial, |s.partial|, |s.partial|, id);
        assert s.partial[..|s.partial|] + s.partial[|s.partial|..] == s.partial;
      }
    } else if id !in s.partial {
      HeadOrder(s.slabs, t.slabs, s.partial, id);
    }
  }

  lemma HeadOrder(m: Slabs, n: Slabs, q: seq<SlabId>, id: SlabId)
    requires OrderOk(m, q) && Busy(n, id) && id !in q && n == m[id := n[id]]
    ensures OrderOk(n, [id] + q)
  {
    forall i, j | 0 <= i < j < |q| + 1 && Busy(n, ([id] + q)[j]) ensures Busy(n, ([id] + q)[i]) {
      assert ([id] + q)[j] == q[j - 1] && q[j - 1] in q;
      if i > 0 {
        assert ([id] + q)[i] == q[i - 1] && q[i - 1] in q;
      }
    }
  }

  lemma TailOrder(m: Slabs, n: Slabs, q: seq<SlabId>, k: nat, l: nat, id: SlabId)
    requires OrderOk(m, q) && id in n && n[id].ref == 0 && n == m[id := n[id]]
    requires k <= l <= |q| && id !in q[..k] && id !in q[l..]
    ensures OrderOk(n, q[..k] + q[l..] + [id])
  {
    var r := q[..k] + q[l..] + [id];
    forall i, j | 0 <= i < j < |r| && Busy(n, r[j]) ensures Busy(n, r[i]) {
      assert j < |r| - 1;
      var j' := if j < k then j else j - k + l;
      var i' := if i < k then i else i - k + l;
      assert r[j] == q[j'] && r[i] == q[i'];
      assert r[j] in q[..k] + q[l..] && r[i] in q[..k] + q[l..];
    }
  }

  lemma ShrinkPlaces(s: State, c: nat, w: map<Obj, Place>)
    requires Placed(s.slabs, s.mags, s.held, w) && MagsOk(s.mags, s.magSize) && CanShrink(s, c)
    ensures var o := s.mags[c][0]; var sl := s.slabs[o.slab];
      var n := s.slabs[o.slab := sl.(ref := sl.ref - 1, free := [o.idx] + sl.free)];
      var mags := s.mags[c := s.mags[c][1..]];
      && Live(s.slabs, o) && !OnFreeList(s.slabs, o)
      && Placed(n, mags, s.held, w[o := Free]) && MagsOk(mags, s.magSize)
  {
    var o := s.mags[c][0];
    var sl := s.slabs[o.slab];
    var n := s.slabs[o.slab := sl.(ref := sl.ref - 1, free := [o.idx] + sl.free)];
    var mags := s.mags[c := s.mags[c][1..]];
    var m := s.mags[c];
    assert InMag(s.mags, c, o);
    assert m == [o] + m[1..] && o !in m[1..];
    assert forall p: Obj :: Live(n, p) == Live(s.slabs, p);
    assert forall p: Obj :: OnFreeList(n, p) <==> OnFreeList(s.slabs, p) || p == o;
    assert forall d: nat, p: Obj :: InMag(mags, d, p) <==> InMag(s.mags, d, p) && p != o;
  }

  lemma ShrinkCounts(s: State, t: State, id: SlabId)
    requires CountsOk(s) && Distinct(s.partial) && Distinct(s.complete)
    requires id in s.partial <==> id !in s.complete
    requires Repositioned(s, t, id) && t.emergency == s.emergency && CountersFollow(s, t, id)
    ensures CountsOk(t)
  {
    ShrinkMoves(s, t, id);
    CountsMoved(s, t, id);
  }

  lemma ShrinkListsKeep(s: State, o: Obj)
    requires ListsOk(s.slabs, s.partial, s.complete) && SlabsOk(s.slabs) && OrderOk(s.slabs, s.partial)
    requires o.OnSlab? && Busy(s.slabs, o.slab)
    ensures var t := Shrink(s, o);
      ListsOk(t.slabs, t.partial, t.complete) && OrderOk(t.slabs, t.partial)
  {
    ShrinkFrame(s, o);
    ShrinkPosition(s, o);
    ShrinkLists(s, Shrink(s, o), o.slab);
    ShrinkOrder(s, Shrink(s, o), o.slab);
  }

  lemma ShrinkCountsKeep(s: State, o: Obj)
    requires ListsOk(s.slabs, s.partial, s.complete) && SlabsOk(s.slabs) && CountsOk(s)
    requires o.OnSlab? && Busy(s.slabs, o.slab)
    ensures CountsOk(Shrink(s, o))
  {
    ShrinkFrame(s, o);
    ShrinkPosition(s, o);
    ShrinkCounts(s, Shrink(s, o), o.slab);
  }

  lemma ShrinkKeeps(s: State, c: nat, w: map<Obj, Place>)
    requires InvAt(s, w) && CanShrink(s, c)
    ensures InvAt(ShrinkOldest(s, c), w[s.mags[c][0] := Free])
  {
    var o := s.mags[c][0];
    var s1 := s.(mags := s.mags[c := s.mags[c][1..]]);
    ShrinkPlaces(s, c, w);
    ShrinkFrame(s1, o);
    ShrinkSlabs(s.slabs, o);
    ShrinkListsKeep(s1, o);
    ShrinkCountsKeep(s1, o);
  }

  // ---------------------------------------------------------------- grow and emergency objects

  lemma GrowLists(s: State, id: SlabId)
    requires ConfigOk(s) && ListsOk(s.slabs, s.partial, s.complete) && SlabsOk(s.slabs) && id !in s.slabs
    ensures var t := Grow(s, id); ListsOk(t.slabs, t.partial, t.complete) && SlabsOk(t.slabs)
  {
    var t := Grow(s, id);
    DistinctAppend(s.partial, id);
    assert SlabOk(t.slabs[id]);
  }

  lemma GrowOrder(s: State, id: SlabId)
    requires OrderOk(s.slabs, s.partial) && id !in s.partial
    ensures OrderOk(Grow(s, id).slabs, Grow(s, id).partial)
  {
    var t := Grow(s, id);
    TailOrder(s.slabs, t.slabs, s.partial, |s.partial|, |s.partial|, id);
    assert t.partial == s.partial[..|s.partial|] + s.partial[|s.partial|..] + [id];
  }

  ghost function GrownPlaces(s: State, id: SlabId, w: map<Obj, Place>): map<Obj, Place> {
    w + (map i: nat | i < s.slabObjs :: OnSlab(id, i) := Free)
  }

  lemma GrowPlaces(s: State, id: SlabId, w: map<Obj, Place>)
    requires Placed(s.slabs, s.mags, s.held, w) && id !in s.slabs
    ensures Placed(Grow(s, id).slabs, s.mags, s.held, GrownPlaces(s, id, w))
  {
    var n := Grow(s, id).slabs;
    var v := GrownPlaces(s, id, w);
    var f := n[id].free;
    forall i: nat ensures i in f <==> i < s.slabObjs {
      if i < s.slabObjs {
        assert f[i] == i;
      }
    }
    assert forall o: Obj :: o in w ==> o.OnSlab? && o.slab != id && v[o] == w[o];
    assert forall o: Obj :: o in v && o !in w <==> o.OnSlab? && o.slab == id && o.idx < s.slabObjs;
    assert forall o: Obj :: o in v && o !in w ==> v[o] == Free;
  }

  lemma GrowTally(s: State, id: SlabId, f: Field)
    requires id !in s.partial && id !in s.complete
    ensures TallyAll(Grow(s, id), f) == TallyAll(s, f) + Weigh(Grow(s, id).slabs[id], f)
  {
    var n := Grow(s, id).slabs;
    TallyFrame(s.slabs, n, s.partial, f);
    TallyFrame(s.slabs, n, s.complete, f);
    TallyConcat(n, s.partial, [id], f);
    assert Tally(n, [id], f) == Weigh(n[id], f);
  }

  lemma GrowCounts(s: State, id: SlabId)
    requires CountsOk(s) && id !in s.partial && id !in s.complete
    ensures CountsOk(Grow(s, id))
  {
    GrowTally(s, id, Refs);
    GrowTally(s, id, Objs);
    GrowTally(s, id, Used);
  }

  lemma GrowKeeps(s: State, id: SlabId, w: map<Obj, Place>)
    requires InvAt(s, w) && id !in s.slabs
    ensures InvAt(Grow(s, id), GrownPlaces(s, id, w))
  {
    GrowLists(s, id);
    GrowOrder(s, id);
    GrowPlaces(s, id, w);
    GrowCounts(s, id);
  }

  lemma InsertCounts(s: State, a: nat)
    requires CountsOk(s)
    ensures CountsOk(EmergencyInsert(s, a))
  {
    assert forall f :: TallyAll(EmergencyInsert(s, a), f) == TallyAll(s, f);
  }

  lemma EraseCounts(s: State, a: nat)
    requires CountsOk(s) && a in s.emergency
    ensures CountsOk(EmergencyErase(s, a))
  {
    assert forall f :: TallyAll(EmergencyErase(s, a), f) == TallyAll(s, f);
  }

  lemma EmergencyPlaces(m: Slabs, mags: seq<seq<Obj>>, e: set<nat>, held: set<Obj>, a: nat,
                        w: map<Obj, Place>)
    requires Placed(m, mags, held, w) && EmergencyOk(e, held)
    ensures Placed(m, mags, held + {Page(a)}, w) && EmergencyOk(e + {a}, held + {Page(a)})
    ensures Placed(m, mags, held - {Page(a)}, w) && EmergencyOk(e - {a}, held - {Page(a)})
  {
  }

  lemma InsertKeeps(s: State, a: nat, w: map<Obj, Place>)
    requires InvAt(s, w)
    ensures InvAt(EmergencyInsert(s, a), w)
  {
    if a !in s.emergency {
      InsertCounts(s, a);
      EmergencyPlaces(s.slabs, s.mags, s.emergency, s.held, a, w);
    }
  }

  lemma EraseKeeps(s: State, a: nat, w: map<Obj, Place>)
    requires InvAt(s, w) && a in s.emergency
    ensures InvAt(EmergencyErase(s, a), w)
  {
    EraseCounts(s, a);
    EmergencyPlaces(s.slabs, s.mags, s.emergency, s.held, a, w);
  }

  // ---------------------------------------------------------------- reclaim

  lemma {:induction false} BusyExact(m: Slabs, q: seq<SlabId>)
    requires Distinct(q)
    ensures Distinct(BusyOf(m, q))
    ensures forall id :: id in BusyOf(m, q) <==> id in q && Busy(m, id)
  {
    if q != [] {
      assert q == [q[0]] + q[1..];
      BusyExact(m, q[1..]);
      assert q[0] !in q[1..];
    }
  }

  lemma {:induction false} BusyTally(m: Slabs, q: seq<SlabId>)
    ensures Tally(m, BusyOf(m, q), Refs) == Tally(m, q, Refs)
    ensures Tally(m, BusyOf(m, q), Used) == Tally(m, q, Used) == |BusyOf(m, q)|
  {
    if |q| != 0 {
      BusyTally(m, q[1..]);
      if Busy(m, q[0]) {
        assert BusyOf(m, q)[1..] == BusyOf(m, q[1..]);
      }
    }
  }

  lemma {:induction false} AllBusy(m: Slabs, q: seq<SlabId>)
    requires forall id :: id in q ==> Busy(m, id)
    ensures BusyOf(m, q) == q
  {
    if q != [] {
      assert q[0] in q;
      AllBusy(m, q[1..]);
    }
  }

  lemma CompleteBusy(m: Slabs, partial: seq<SlabId>, complete: seq<SlabId>)
    requires ListsOk(m, partial, complete) && SlabsOk(m)
    ensures forall id :: id in complete ==> Busy(m, id)
  {
    forall id | id in complete ensures Busy(m, id) {
      assert SlabOk(m[id]);
    }
  }

  lemma ReclaimLists(s: State)
    requires ListsOk(s.slabs, s.partial, s.complete) && SlabsOk(s.slabs)
    ensures var t := ReclaimAll(s);
      ListsOk(t.slabs, t.partial, t.complete) && SlabsOk(t.slabs) && OrderOk(t.slabs, t.partial)
  {
    var t := ReclaimAll(s);
    BusyExact(s.slabs, s.partial);
    CompleteBusy(s.slabs, s.partial, s.complete);
    forall i | 0 <= i < |t.partial| ensures Busy(t.slabs, t.partial[i]) {
      assert t.partial[i] in t.partial;
    }
  }

  ghost function KeptPlaces(s: State, w: map<Obj, Place>): map<Obj, Place> {
    map o | o in w && Live(BusySlabs(s.slabs), o) :: w[o]
  }

  lemma ReclaimPlaces(s: State, w: map<Obj, Place>)
    requires SlabsOk(s.slabs) && Placed(s.slabs, s.mags, s.held, w)
    ensures Placed(BusySlabs(s.slabs), s.mags, s.held, KeptPlaces(s, w))
  {
    var n := BusySlabs(s.slabs);
    var v := KeptPlaces(s, w);
    forall o | o in w && w[o] != Free ensures o in v {
      OutsideIsCounted(s.slabs, o);
    }
    forall o: Obj ensures OnFreeList(n, o) <==> o in v && v[o] == Free {
      if OnFreeList(n, o) {
        assert OnFreeList(s.slabs, o);
      }
    }
  }

  lemma ReclaimTally(s: State, f: Field)
    requires ListsOk(s.slabs, s.partial, s.complete) && SlabsOk(s.slabs)
    ensures var t := ReclaimAll(s);
      && Tally(t.slabs, t.partial, f) == Tally(s.slabs, t.partial, f)
      && Tally(t.slabs, t.complete, f) == Tally(s.slabs, s.complete, f)
  {
    BusyExact(s.slabs, s.partial);
    CompleteBusy(s.slabs, s.partial, s.complete);
    TallyFrame(s.slabs, BusySlabs(s.slabs), BusyOf(s.slabs, s.partial), f);
    TallyFrame(s.slabs, BusySlabs(s.slabs), s.complete, f);
  }

  lemma CompleteTally(s: State)
    requires ListsOk(s.slabs, s.partial, s.complete) && SlabsOk(s.slabs)
    ensures Tally(s.slabs, s.complete, Used) == |s.complete|
  {
    CompleteBusy(s.slabs, s.partial, s.complete);
    AllBusy(s.slabs, s.complete);
    BusyTally(s.slabs, s.complete);
  }

  /** Reclaim leaves only slabs in use, so the two slab counters meet. */
  lemma ReclaimCounts(s: State)
    requires CountsOk(s) && ListsOk(s.slabs, s.partial, s.complete) && SlabsOk(s.slabs)
    ensures CountsOk(ReclaimAll(s)) && ReclaimAll(s).n.slabTotal == ReclaimAll(s).n.slabAlloc
  {
    ReclaimTally(s, Refs);
    ReclaimTally(s, Objs);
    ReclaimTally(s, Used);
    CompleteTally(s);
    BusyTally(s.slabs, s.partial);
  }

  lemma ReclaimKeeps(s: State, w: map<Obj, Place>)
    requires InvAt(s, w)
    ensures InvAt(ReclaimAll(s), KeptPlaces(s, w))
    ensures ReclaimAll(s).n.slabTotal == ReclaimAll(s).n.slabAlloc
  {
    ReclaimLists(s);
    ReclaimPlaces(s, w);
    ReclaimCounts(s);
  }
}
