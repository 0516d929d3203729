/**
The slow path of `spl_kmem_cache_alloc`: a refill that may have to grow the cache, with other CPUs
at work whenever it has dropped the lock, and what the call returns.
*/
module KmemCacheCalls {
  import opened Arith
  import opened Seqs
  import opened Wrappers
  import opened KmemCacheSpec
  import opened KmemCacheProofs
  import opened KmemCacheRuns

  // ---------------------------------------------------------------- how much a refill takes

  /** The number of objects that `Refill` moves. */
  function Taken(s: State, c: nat, n: nat): nat
    decreases n, c, |s.mags|
  {
    if n == 0 || !CanTake(s, c) then 0 else 1 + Taken(TakeOne(s, c), c, n - 1)
  }

  /** The free objects of a cache, read off its counters. */
  function FreeObjs(n: Counters): int { n.objTotal - n.objEmergency - n.objAlloc }

  lemma {:induction false} FullTally(m: Slabs, q: seq<SlabId>)
    requires SlabsOk(m) && forall id :: id in q ==> id in m && m[id].ref >= m[id].objs
    ensures Tally(m, q, Objs) == Tally(m, q, Refs)
  {
    if |q| > 0 {
      assert q[0] in q && SlabOk(m[q[0]]);
      FullTally(m, q[1..]);
    }
  }

  lemma {:induction false} PartTally(m: Slabs, q: seq<SlabId>)
    requires forall id :: id in q ==> id in m && m[id].ref < m[id].objs
    ensures Tally(m, q, Objs) >= Tally(m, q, Refs) + |q|
  {
    if |q| > 0 {
      assert q[0] in q;
      PartTally(m, q[1..]);
    }
  }

  /** The counters say that an object is free exactly if the partial list is not empty. */
  lemma FreeIffPartial(s: State)
    requires Inv(s)
    ensures FreeObjs(s.n) >= 0 && (FreeObjs(s.n) == 0 <==> s.partial == [])
  {
    var w :| InvAt(s, w);
    FullTally(s.slabs, s.complete);
    PartTally(s.slabs, s.partial);
  }

  lemma TakeOneFrees(s: State, c: nat)
    requires CanTake(s, c)
    ensures FreeObjs(TakeOne(s, c).n) == FreeObjs(s.n) - 1
    ensures |TakeOne(s, c).mags| == |s.mags| && |TakeOne(s, c).mags[c]| == |s.mags[c]| + 1
    ensures TakeOne(s, c).magSize == s.magSize
  {
  }

  lemma TakeIfAny(s: State, c: nat)
    requires Inv(s) && c < |s.mags| && |s.mags[c]| < s.magSize
    ensures CanTake(s, c) <==> s.partial != []
  {
    var w :| InvAt(s, w);
    if s.partial != [] {
      HeadHasFree(s);
    }
  }

  /** A refill moves as many objects as are wanted or free, whichever is less. */
  lemma {:induction false} TakenIs(s: State, c: nat, n: nat)
    requires Inv(s) && c < |s.mags| && |s.mags[c]| + n <= s.magSize
    ensures Taken(s, c, n) == Min(n, FreeObjs(s.n))
    ensures |Refill(s, c, n).mags| == |s.mags|
    ensures |Refill(s, c, n).mags[c]| == |s.mags[c]| + Taken(s, c, n)
    ensures FreeObjs(Refill(s, c, n).n) == FreeObjs(s.n) - Taken(s, c, n)
    ensures Refill(s, c, n).magSize == s.magSize
    decreases n
  {
    FreeIffPartial(s);
    if n > 0 {
      TakeIfAny(s, c);
      if CanTake(s, c) {
        TakeInv(s, c);
        TakeOneFrees(s, c);
        TakenIs(TakeOne(s, c), c, n - 1);
      }
    }
  }

  /** The objects of slab `id` from cell `i` to cell `j`. */
  function Cells(id: SlabId, i: nat, j: nat): seq<Obj>
    decreases if i < j then j - i else 0, id
  {
    if i < j then [OnSlab(id, i)] + Cells(id, i + 1, j) else []
  }

  function CountUp(i: nat, n: nat): seq<nat>
    decreases if i < n then n - i else 0
  {
    if i < n then [i] + CountUp(i + 1, n) else []
  }

  lemma {:induction false} CountUpIs(i: nat, n: nat)
    requires i <= n
    ensures |CountUp(i, n)| == n - i && forall k :: 0 <= k < n - i ==> CountUp(i, n)[k] == i + k
    decreases n - i
  {
    if i < n {
      CountUpIs(i + 1, n);
    }
  }

  /** Unless all `n` cells are taken, the first slab is `id`, and its cells from `i` on are free. */
  ghost predicate Opened(s: State, id: SlabId, i: nat, n: nat) {
    i < n ==>
      && |s.partial| > 0 && s.partial[0] == id && id in s.slabs
      && s.slabs[id].objs == n && s.slabs[id].ref == i && s.slabs[id].free == CountUp(i, n)
  }

  lemma TakeOpened(s: State, c: nat, id: SlabId, i: nat, n: nat)
    requires Opened(s, id, i, n) && i < n && c < |s.mags| && |s.mags[c]| < s.magSize
    ensures CanTake(s, c) && TakeOne(s, c).mags == s.mags[c := s.mags[c] + [OnSlab(id, i)]]
    ensures Opened(TakeOne(s, c), id, i + 1, n) && TakeOne(s, c).magSize == s.magSize
  {
    assert CountUp(i, n)[1..] == CountUp(i + 1, n);
  }

  lemma RefillOnce(s: State, c: nat, k: nat)
    ensures k == 0 ==> Refill(s, c, k) == s
    ensures k > 0 && CanTake(s, c) ==> Refill(s, c, k) == Refill(TakeOne(s, c), c, k - 1)
  {
  }

  /** Appending to one magazine twice. */
  lemma AppendTwice(mags: seq<seq<Obj>>, c: nat, a: seq<Obj>, b: seq<Obj>)
    requires c < |mags|
    ensures var once := mags[c := mags[c] + a]; once[c := once[c] + b] == mags[c := mags[c] + (a + b)]
  {
    assert mags[c] + a + b == mags[c] + (a + b);
  }

  lemma {:induction false} RefillOpened(s: State, c: nat, id: SlabId, i: nat, n: nat, k: nat)
    requires Opened(s, id, i, n) && i + k <= n && c < |s.mags| && |s.mags[c]| + k <= s.magSize
    ensures Refill(s, c, k).mags == s.mags[c := s.mags[c] + Cells(id, i, i + k)]
    decreases k
  {
    RefillOnce(s, c, k);
    if k == 0 {
      assert s.mags[c] + Cells(id, i, i + k) == s.mags[c];
    } else {
      TakeOpened(s, c, id, i, n);
      RefillOpened(TakeOne(s, c), c, id, i + 1, n, k - 1);
      AppendTwice(s.mags, c, [OnSlab(id, i)], Cells(id, i + 1, i + k));
    }
  }

  /** A new slab serves a refill with its objects in the order of their addresses. */
  lemma NewSlabInOrder(s: State, c: nat, id: SlabId, k: nat)
    requires s.partial == [] && s.slabObjs >= 1 && k <= s.slabObjs
    requires c < |s.mags| && |s.mags[c]| + k <= s.magSize
    ensures Refill(Grow(s, id), c, k).mags == s.mags[c := s.mags[c] + Cells(id, 0, k)]
  {
    CountUpIs(0, s.slabObjs);
    assert Grow(s, id).slabs[id].free == CountUp(0, s.slabObjs);
    RefillOpened(Grow(s, id), c, id, 0, s.slabObjs, k);
  }

  // ---------------------------------------------------------------- spl_cache_grow

  /** How `spl_cache_grow` ends: with a new slab; without (it waited, or memory was short); or, on a
      cache flagged as deadlocked, in `spl_emergency_alloc`, where other CPUs run `between` its two
      sections and the page allocator yields `addr`. */
  datatype Outcome =
    | NewSlab(id: SlabId)
    | Failure
    | Deadlocked(addr: nat, between: seq<Step>)

  ghost predicate OutcomeOk(s: State, o: Outcome) {
    match o
    case NewSlab(id) => id !in s.slabs
    case Failure => true
    case Deadlocked(_, between) => RunOk(s, between)
  }

  /** `spl_emergency_alloc` hands an object over if the partial list is empty at its first section
      and the address is not in the tree at its second. */
  ghost predicate HandsOver(s: State, o: Outcome)
    requires OutcomeOk(s, o)
  {
    o.Deadlocked? && s.partial == [] && o.addr !in Run(s, o.between).emergency
  }

  ghost function GrowState(s: State, o: Outcome): State
    requires OutcomeOk(s, o)
  {
    match o
    case NewSlab(id) => Grow(s, id)
    case Failure => s
    case Deadlocked(a, between) => if s.partial == [] then EmergencyInsert(Run(s, between), a) else s
  }

  ghost function GrowObj(s: State, o: Outcome): Option<Obj>
    requires OutcomeOk(s, o)
  {
    if o.Deadlocked? && HandsOver(s, o) then Some(Page(o.addr)) else None
  }

  /** One call of `spl_cache_grow`: other CPUs run before and after it, since it enables interrupts,
      and the thread may find itself on another CPU. */
  datatype Visit = Visit(before: seq<Step>, outcome: Outcome, after: seq<Step>, moved: bool)

  /** Nobody frees the object that this call has just been handed. */
  ghost predicate VisitOk(s: State, v: Visit) {
    && RunOk(s, v.before)
    && var t := Run(s, v.before);
    && OutcomeOk(t, v.outcome)
    && RunOk(GrowState(t, v.outcome), v.after)
    && (GrowObj(t, v.outcome).Some? ==> NoFreeOf(v.after, GrowObj(t, v.outcome).value))
  }

  ghost function VisitState(s: State, v: Visit): State
    requires VisitOk(s, v)
  {
    Run(GrowState(Run(s, v.before), v.outcome), v.after)
  }

  /** The refill goes on: a new slab, and still the same CPU. */
  predicate GoesOn(v: Visit) { v.outcome.NewSlab? && !v.moved }

  lemma GrowStateInv(s: State, o: Outcome)
    requires Inv(s) && OutcomeOk(s, o)
    ensures Inv(GrowState(s, o))
    ensures GrowObj(s, o).Some? ==> GrowObj(s, o).value in GrowState(s, o).held
  {
    match o
    case NewSlab(id) => GrowInv(s, id);
    case Failure =>
    case Deadlocked(a, between) =>
      RunInv(s, between);
      EmergencyInv(Run(s, between), a);
  }

  lemma StaysHeld(s: State, run: seq<Step>, o: Obj)
    requires Inv(s) && RunOk(s, run) && o in s.held && NoFreeOf(run, o)
    ensures o in Run(s, run).held
  {
    NotHandedOutTwice(s, run, o, 0);
  }

  lemma VisitInv(s: State, v: Visit)
    requires Inv(s) && VisitOk(s, v)
    ensures Inv(VisitState(s, v))
    ensures var o := GrowObj(Run(s, v.before), v.outcome);
      o.Some? ==> o.value in VisitState(s, v).held
  {
    var t := Run(s, v.before);
    RunInv(s, v.before);
    GrowStateInv(t, v.outcome);
    var u := GrowState(t, v.outcome);
    RunInv(u, v.after);
    if GrowObj(t, v.outcome).Some? {
      StaysHeld(u, v.after, GrowObj(t, v.outcome).value);
    }
  }

  // ---------------------------------------------------------------- spl_cache_refill

  function Room(s: State, c: nat): nat {
    if c < |s.mags| && |s.mags[c]| <= s.magSize then s.magSize - |s.mags[c]| else 0
  }

  /** What is still owed when the partial list has run out. */
  function Left(s: State, c: nat, owed: nat): int { owed - Taken(s, c, owed) }

  /** `visits` are the calls of `spl_cache_grow` that a refill of `owed` objects makes: one each time
      the partial list runs out, until the refill is complete or must give up. */
  ghost predicate CallOk(s: State, c: nat, owed: nat, visits: seq<Visit>)
    decreases |visits|
  {
    && c < |s.mags| && |s.mags[c]| + owed <= s.magSize
    && var t := Refill(s, c, owed);
    if Left(s, c, owed) <= 0 then |visits| == 0
    else
      && |visits| > 0 && VisitOk(t, visits[0])
      && var u := VisitState(t, visits[0]);
      if GoesOn(visits[0]) then CallOk(u, c, Min(Left(s, c, owed), Room(u, c)), visits[1..])
      else |visits| == 1
  }

  /** The state a refill leaves, and what it returns: NULL or an emergency object. */
  ghost function RefillCall(s: State, c: nat, owed: nat, visits: seq<Visit>): (State, Option<Obj>)
    requires CallOk(s, c, owed, visits)
    decreases |visits|
  {
    var t := Refill(s, c, owed);
    if Left(s, c, owed) <= 0 then (t, None)
    else
      var u := VisitState(t, visits[0]);
      if GoesOn(visits[0]) then RefillCall(u, c, Min(Left(s, c, owed), Room(u, c)), visits[1..])
      else (u, GrowObj(Run(t, visits[0].before), visits[0].outcome))
  }

  /** The state that the last call of `spl_cache_grow` finds. */
  ghost function AtLast(s: State, c: nat, owed: nat, visits: seq<Visit>): State
    requires CallOk(s, c, owed, visits) && |visits| > 0
    decreases |visits|
  {
    var t := Refill(s, c, owed);
    var u := VisitState(t, visits[0]);
    if |visits| == 1 then Run(t, visits[0].before)
    else AtLast(u, c, Min(Left(s, c, owed), Room(u, c)), visits[1..])
  }

  /** The last call of `spl_cache_grow` ended with an emergency object. */
  ghost predicate EndsInEmergency(s: State, c: nat, owed: nat, visits: seq<Visit>)
    requires CallOk(s, c, owed, visits)
  {
    |visits| > 0 && OutcomeOk(AtLast(s, c, owed, visits), visits[|visits| - 1].outcome)
    && HandsOver(AtLast(s, c, owed, visits), visits[|visits| - 1].outcome)
  }

  /** Refill after refill, visit after visit, the invariant holds. */
  lemma StageInv(s: State, c: nat, owed: nat, visits: seq<Visit>)
    requires Inv(s) && CallOk(s, c, owed, visits) && Left(s, c, owed) > 0
    ensures Inv(Refill(s, c, owed)) && Inv(VisitState(Refill(s, c, owed), visits[0]))
  {
    RefillInv(s, c, owed);
    VisitInv(Refill(s, c, owed), visits[0]);
  }

  lemma {:induction false} RefillCallInv(s: State, c: nat, owed: nat, visits: seq<Visit>)
    requires Inv(s) && CallOk(s, c, owed, visits)
    ensures var (t, o) := RefillCall(s, c, owed, visits); Inv(t) && (o.Some? ==> o.value in t.held)
    decreases |visits|
  {
    RefillInv(s, c, owed);
    if Left(s, c, owed) > 0 {
      StageInv(s, c, owed, visits);
      var u := VisitState(Refill(s, c, owed), visits[0]);
      if GoesOn(visits[0]) {
        RefillCallInv(u, c, Min(Left(s, c, owed), Room(u, c)), visits[1..]);
      } else {
        VisitInv(Refill(s, c, owed), visits[0]);
      }
    }
  }

  /** An emergency object is handed over only while no object of any slab is free. */
  lemma EmergencyOnlyWhenShort(s: State, o: Outcome)
    requires Inv(s) && OutcomeOk(s, o) && HandsOver(s, o)
    ensures FreeObjs(s.n) == 0 && GrowObj(s, o) == Some(Page(o.addr))
    ensures Page(o.addr) !in Run(s, o.between).held
  {
    FreeIffPartial(s);
    RunInv(s, o.between);
    InvBounds(Run(s, o.between));
  }

  /** The refill needs to grow the cache exactly if fewer objects are free than it owes. */
  lemma VisitsIffShort(s: State, c: nat, owed: nat, visits: seq<Visit>)
    requires Inv(s) && CallOk(s, c, owed, visits)
    ensures |visits| > 0 <==> FreeObjs(s.n) < owed
  {
    TakenIs(s, c, owed);
    FreeIffPartial(s);
  }

  lemma {:induction false} RefillCallEnds(s: State, c: nat, owed: nat, visits: seq<Visit>)
    requires CallOk(s, c, owed, visits)
    ensures RefillCall(s, c, owed, visits).1.Some? <==> EndsInEmergency(s, c, owed, visits)
    decreases |visits|
  {
    if Left(s, c, owed) > 0 && GoesOn(visits[0]) {
      var u := VisitState(Refill(s, c, owed), visits[0]);
      RefillCallEnds(u, c, Min(Left(s, c, owed), Room(u, c)), visits[1..]);
      assert |visits| > 1 ==> visits[1..][|visits| - 2] == visits[|visits| - 1];
    }
  }

  // ---------------------------------------------------------------- KM_NOSLEEP

  /** The objects a refill of an empty magazine asks for. */
  function Batch(s: State): nat { if s.magRefill <= s.magSize then s.magRefill else s.magSize }

  ghost predicate AllocOk(s: State, c: nat, visits: seq<Visit>) {
    && c < |s.mags|
    && if s.mags[c] != [] then |visits| == 0 else CallOk(s, c, Batch(s), visits)
  }

  /** `spl_kmem_cache_alloc` with KM_NOSLEEP: what refill returns is what the caller gets. */
  ghost function AllocNoSleep(s: State, c: nat, visits: seq<Visit>): (State, Option<Obj>)
    requires AllocOk(s, c, visits)
  {
    if s.mags[c] != [] then (Pop(s, c), Some(s.mags[c][|s.mags[c]| - 1]))
    else RefillCall(s, c, Batch(s), visits)
  }

  /** Whatever the other CPUs do, such a call keeps the invariant, and it yields an object, which the
      caller then holds, if and only if the local magazine was not empty, or fewer objects than a
      batch were free and the last attempt to grow handed over an emergency object. */
  lemma NoSleepExact(s: State, c: nat, visits: seq<Visit>)
    requires Inv(s) && AllocOk(s, c, visits)
    ensures var (t, o) := AllocNoSleep(s, c, visits);
      && Inv(t)
      && (o.Some? ==> o.value in t.held)
      && (o.Some? <==>
            || s.mags[c] != []
            || (FreeObjs(s.n) < s.magRefill && EndsInEmergency(s, c, Batch(s), visits)))
      && Batch(s) == s.magRefill
  {
    InvBounds(s);
    if s.mags[c] != [] {
      PopInv(s, c);
    } else {
      RefillCallInv(s, c, Batch(s), visits);
      RefillCallEnds(s, c, Batch(s), visits);
      VisitsIffShort(s, c, Batch(s), visits);
    }
  }

  /** With an empty magazine and a batch of objects free the call fails, although it has put the
      whole batch into the magazine. */
  lemma NoSleepFailsWithObjectsFree(s: State, c: nat, visits: seq<Visit>)
    requires Inv(s) && AllocOk(s, c, visits) && s.mags[c] == [] && FreeObjs(s.n) >= s.magRefill
    ensures var (t, o) := AllocNoSleep(s, c, visits);
      && o == None && t.held == s.held
      && |t.mags| == |s.mags| && |t.mags[c]| == s.magRefill >= 1
      && FreeObjs(t.n) == FreeObjs(s.n) - s.magRefill
  {
    InvBounds(s);
    TakenIs(s, c, Batch(s));
    RefillInv(s, c, Batch(s));
  }

  /** On a deadlocked cache without free objects the call yields an emergency object at any fresh
      address, with the local magazine empty before and after. */
  lemma NoSleepYieldsEmergency(s: State, c: nat, a: nat)
    requires Inv(s) && c < |s.mags| && s.mags[c] == [] && s.partial == [] && a !in s.emergency
    ensures var visits := [Visit([], Deadlocked(a, []), [], false)];
      AllocOk(s, c, visits) && AllocNoSleep(s, c, visits) == (EmergencyInsert(s, a), Some(Page(a)))
  {
    InvBounds(s);
    assert Refill(s, c, Batch(s)) == s && Taken(s, c, Batch(s)) == 0;
    var v := Visit([], Deadlocked(a, []), [], false);
    assert Run(s, []) == s && RunOk(s, []);
    assert GrowState(s, v.outcome) == EmergencyInsert(s, a);
    assert Run(EmergencyInsert(s, a), []) == EmergencyInsert(s, a);
    assert [v][1..] == [];
  }

  /** Nobody else at work. */
  predicate Quiet(v: Visit) {
    |v.before| == 0 && |v.after| == 0 && (v.outcome.Deadlocked? ==> |v.outcome.between| == 0)
  }

  lemma QuietVisit(s: State, v: Visit)
    requires VisitOk(s, v) && Quiet(v)
    ensures Run(s, v.before) == s && VisitState(s, v) == GrowState(s, v.outcome)
    ensures v.outcome.Deadlocked? ==> Run(s, v.outcome.between) == s
  {
  }

  ghost function Gained(o: Option<Obj>): set<Obj> { if o.Some? then {o.value} else {} }

  lemma QuietGrow(s: State, v: Visit)
    requires Inv(s) && VisitOk(s, v) && Quiet(v)
    ensures var o := GrowObj(Run(s, v.before), v.outcome);
      VisitState(s, v).held == s.held + Gained(o) && Gained(o) !! s.held
  {
    QuietVisit(s, v);
    InvBounds(s);
  }

  lemma {:induction false} QuietRefill(s: State, c: nat, owed: nat, visits: seq<Visit>)
    requires Inv(s) && CallOk(s, c, owed, visits) && forall v :: v in visits ==> Quiet(v)
    ensures var (t, o) := RefillCall(s, c, owed, visits);
      t.held == s.held + Gained(o) && Gained(o) !! s.held
    decreases |visits|
  {
    var t := Refill(s, c, owed);
    RefillInv(s, c, owed);
    if Left(s, c, owed) > 0 {
      assert visits[0] in visits;
      QuietGrow(t, visits[0]);
      VisitInv(t, visits[0]);
      if GoesOn(visits[0]) {
        var u := VisitState(t, visits[0]);
        QuietRefill(u, c, Min(Left(s, c, owed), Room(u, c)), visits[1..]);
      }
    }
  }

  /** The result accounts for what callers hold: without interference they hold afterwards exactly
      what they held before and the object returned, which is new to them. */
  lemma NoSleepAccounts(s: State, c: nat, visits: seq<Visit>)
    requires Inv(s) && AllocOk(s, c, visits) && forall v :: v in visits ==> Quiet(v)
    ensures var (t, o) := AllocNoSleep(s, c, visits);
      t.held == s.held + Gained(o) && Gained(o) !! s.held
  {
    if s.mags[c] != [] {
      PopInv(s, c);
    } else {
      QuietRefill(s, c, Batch(s), visits);
    }
  }

  /** Every visit brought a new slab on the same CPU, so the refill did not give up. */
  predicate AllGoOn(visits: seq<Visit>) { forall v :: v in visits ==> GoesOn(v) }

  lemma QuietNewSlab(s: State, c: nat, v: Visit)
    requires VisitOk(s, v) && Quiet(v) && GoesOn(v)
    ensures VisitState(s, v).mags == s.mags && VisitState(s, v).magSize == s.magSize
  {
    QuietVisit(s, v);
  }

  /** A refill that does not give up puts all that it owes into the magazine. */
  lemma {:induction false} RefillCallFills(s: State, c: nat, owed: nat, visits: seq<Visit>)
    requires Inv(s) && CallOk(s, c, owed, visits) && AllGoOn(visits)
    requires forall v :: v in visits ==> Quiet(v)
    ensures var (t, o) := RefillCall(s, c, owed, visits);
      o == None && c < |t.mags| && |t.mags[c]| == |s.mags[c]| + owed
    decreases |visits|
  {
    TakenIs(s, c, owed);
    FreeIffPartial(s);
    if Left(s, c, owed) > 0 {
      assert visits[0] in visits;
      StageInv(s, c, owed, visits);
      QuietNewSlab(Refill(s, c, owed), c, visits[0]);
      var u := VisitState(Refill(s, c, owed), visits[0]);
      RefillCallFills(u, c, Min(Left(s, c, owed), Room(u, c)), visits[1..]);
    }
  }
}
