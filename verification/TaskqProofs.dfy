/** What each move of the task queue keeps. */
module TaskqProofs {
  import opened Seqs
  import opened TaskqSpec

  // ---------------------------------------------------------------- lists

  ghost predicate Adds(m: seq<nat>, l: seq<nat>, id: nat) {
    forall x: nat :: x in m <==> x in l || x == id
  }

  ghost predicate Drops(m: seq<nat>, l: seq<nat>, id: nat) {
    forall x: nat :: x in m <==> x in l && x != id
  }

  /** The insertion point: everything behind it is larger, the element before it smaller. */
  lemma {:induction false} InsertSplit(l: seq<nat>, id: nat) returns (k: nat)
    ensures k <= |l| && Insert(l, id) == l[..k] + [id] + l[k..]
    ensures k > 0 ==> l[k - 1] < id
    ensures forall i :: k <= i < |l| ==> id <= l[i]
  {
    if |l| > 0 && l[|l| - 1] >= id {
      var n := |l| - 1;
      k := InsertSplit(l[..n], id);
      assert l[..n][..k] == l[..k];
      assert l[..n][k..] + [l[n]] == l[k..];
      assert Insert(l, id) == l[..k] + [id] + l[k..];
    } else {
      k := |l|;
      assert l + [id] == l[..k] + [id] + l[k..];
    }
  }

  lemma InsertAdds(l: seq<nat>, id: nat)
    ensures Adds(Insert(l, id), l, id) && |Insert(l, id)| == |l| + 1
  {
    var k := InsertSplit(l, id);
    assert l == l[..k] + l[k..];
  }

  lemma SpliceDistinct(l: seq<nat>, id: nat, k: nat)
    requires Distinct(l) && id !in l && k <= |l|
    ensures Distinct(l[..k] + [id] + l[k..])
  {
    var m := l[..k] + [id] + l[k..];
    forall i, j | 0 <= i < j < |m| ensures m[i] != m[j] {
      assert m[i] == if i < k then l[i] else if i == k then id else l[i - 1];
      assert m[j] == if j < k then l[j] else if j == k then id else l[j - 1];
    }
  }

  lemma InsertDistinct(l: seq<nat>, id: nat)
    requires Distinct(l) && id !in l
    ensures Distinct(Insert(l, id))
  {
    var k := InsertSplit(l, id);
    SpliceDistinct(l, id, k);
  }

  lemma SpliceSorted(l: seq<nat>, id: nat, k: nat)
    requires Sorted(l) && k <= |l|
    requires forall i :: 0 <= i < k ==> l[i] < id
    requires forall i :: k <= i < |l| ==> id < l[i]
    ensures Sorted(l[..k] + [id] + l[k..])
  {
    var m := l[..k] + [id] + l[k..];
    forall i, j | 0 <= i < j < |m| ensures m[i] < m[j] {
      assert m[i] == if i < k then l[i] else if i == k then id else l[i - 1];
      assert m[j] == if j < k then l[j] else if j == k then id else l[j - 1];
    }
  }

  /** Inserting keeps a sorted list sorted. */
  lemma InsertSorted(l: seq<nat>, id: nat)
    requires Sorted(l) && id !in l
    ensures Sorted(Insert(l, id))
  {
    var k := InsertSplit(l, id);
    assert forall i :: k <= i < |l| ==> l[i] in l;
    SpliceSorted(l, id, k);
  }

  lemma SortedDistinct(l: seq<nat>)
    requires Sorted(l)
    ensures Distinct(l)
  {
  }

  lemma RemoveDrops(l: seq<nat>, id: nat)
    requires Distinct(l)
    ensures Drops(Remove(l, id), l, id) && Distinct(Remove(l, id))
  {
    RemoveDistinct(l, id);
  }

  lemma RemoveSorted(l: seq<nat>, id: nat)
    requires Sorted(l)
    ensures Sorted(Remove(l, id))
  {
    SortedDistinct(l);
    if id in l {
      var k := DistinctSplit(l, id);
      CutSorted(l, k);
    }
  }

  lemma CutSorted(l: seq<nat>, k: nat)
    requires Sorted(l) && k < |l|
    ensures Sorted(l[..k] + l[k + 1..])
  {
    var m := l[..k] + l[k + 1..];
    forall i, j | 0 <= i < j < |m| ensures m[i] < m[j] {
      assert m[i] == if i < k then l[i] else l[i + 1];
      assert m[j] == if j < k then l[j] else l[j + 1];
    }
  }

  lemma AppendAdds(l: seq<nat>, id: nat)
    requires Distinct(l) && id !in l
    ensures Adds(l + [id], l, id) && Distinct(l + [id])
    ensures Adds([id] + l, l, id) && Distinct([id] + l)
  {
  }

  lemma HeadDrops(l: seq<nat>)
    requires Distinct(l) && |l| > 0
    ensures Drops(l[1..], l, l[0]) && Distinct(l[1..])
  {
    forall x: nat ensures x in l[1..] <==> x in l && x != l[0] {
      if x in l && x != l[0] {
        var i :| 0 <= i < |l| && l[i] == x;
        assert l[1..][i - 1] == x;
      }
    }
  }

  // ---------------------------------------------------------------- every id in one place

  ghost predicate Known(next: nat, ph: map<nat, Phase>) {
    next >= 1 && forall id: nat :: id in ph <==> 1 <= id < next
  }

  /** The list holds exactly the ids in its phase, each once. */
  ghost predicate Listed(l: seq<nat>, ph: map<nat, Phase>, p: Phase) {
    Distinct(l) && forall id: nat :: id in l <==> id in ph && ph[id] == p
  }

  ghost predicate Placed(q: Queues) {
    && Known(q.next, q.phase)
    && Listed(q.delay, q.phase, Delayed)
    && Listed(q.prio, q.phase, Prioritised)
    && Listed(q.pend, q.phase, Pending)
    && Listed(q.active, q.phase, Active)
  }

  lemma ListedAdd(l: seq<nat>, m: seq<nat>, ph: map<nat, Phase>, p: Phase, id: nat)
    requires Listed(l, ph, p) && Adds(m, l, id) && Distinct(m)
    ensures Listed(m, ph[id := p], p)
  {
  }

  lemma ListedDrop(l: seq<nat>, m: seq<nat>, ph: map<nat, Phase>, p: Phase, id: nat, to: Phase)
    requires Listed(l, ph, p) && Drops(m, l, id) && Distinct(m) && to != p
    ensures Listed(m, ph[id := to], p)
  {
  }

  lemma ListedSkip(l: seq<nat>, ph: map<nat, Phase>, p: Phase, id: nat, to: Phase)
    requires Listed(l, ph, p) && id !in l && to != p
    ensures Listed(l, ph[id := to], p)
  {
  }

  lemma ListedRemove(l: seq<nat>, ph: map<nat, Phase>, p: Phase, id: nat, to: Phase)
    requires Listed(l, ph, p) && to != p
    ensures Listed(Remove(l, id), ph[id := to], p)
  {
    RemoveDrops(l, id);
    ListedDrop(l, Remove(l, id), ph, p, id, to);
  }

  lemma ListedTail(l: seq<nat>, ph: map<nat, Phase>, p: Phase, id: nat)
    requires Listed(l, ph, p) && id !in ph
    ensures Listed(l + [id], ph[id := p], p) && Listed([id] + l, ph[id := p], p)
  {
    AppendAdds(l, id);
    ListedAdd(l, l + [id], ph, p, id);
    ListedAdd(l, [id] + l, ph, p, id);
  }

  lemma ListedInsert(l: seq<nat>, ph: map<nat, Phase>, p: Phase, id: nat)
    requires Listed(l, ph, p) && id !in l
    ensures Listed(Insert(l, id), ph[id := p], p)
  {
    InsertAdds(l, id);
    InsertDistinct(l, id);
    ListedAdd(l, Insert(l, id), ph, p, id);
  }

  lemma ListedHead(l: seq<nat>, ph: map<nat, Phase>, p: Phase, to: Phase)
    requires Listed(l, ph, p) && to != p && |l| > 0
    ensures Listed(l[1..], ph[l[0] := to], p)
  {
    HeadDrops(l);
    ListedDrop(l, l[1..], ph, p, l[0], to);
  }

  lemma EnqueuePlaced(q: Queues, how: How)
    requires Placed(q)
    ensures Placed(Enqueue(q, how))
  {
    var id := q.next;
    match how
    case Tail =>
      ListedTail(q.pend, q.phase, Pending, id);
      ListedSkip(q.delay, q.phase, Delayed, id, Pending);
      ListedSkip(q.prio, q.phase, Prioritised, id, Pending);
      ListedSkip(q.active, q.phase, Active, id, Pending);
    case Later =>
      ListedTail(q.delay, q.phase, Delayed, id);
      ListedSkip(q.prio, q.phase, Prioritised, id, Delayed);
      ListedSkip(q.pend, q.phase, Pending, id, Delayed);
      ListedSkip(q.active, q.phase, Active, id, Delayed);
    case _ =>
      ListedTail(q.prio, q.phase, Prioritised, id);
      ListedSkip(q.delay, q.phase, Delayed, id, Prioritised);
      ListedSkip(q.pend, q.phase, Pending, id, Prioritised);
      ListedSkip(q.active, q.phase, Active, id, Prioritised);
  }

  lemma ExpirePlaced(q: Queues, id: nat)
    requires Placed(q) && id in q.delay
    ensures Placed(Expire(q, id))
  {
    ListedRemove(q.delay, q.phase, Delayed, id, Prioritised);
    ListedInsert(q.prio, q.phase, Prioritised, id);
    ListedSkip(q.pend, q.phase, Pending, id, Prioritised);
    ListedSkip(q.active, q.phase, Active, id, Prioritised);
  }

  lemma {:induction false} FindListSound(l: seq<nat>, id: nat)
    requires FindList(l, id)
    ensures id in l
  {
    if l[0] != id {
      FindListSound(l[1..], id);
    }
  }

  lemma FoundWaits(q: Queues, id: nat)
    requires Find(q, id) == Waiting
    ensures id in q.delay || id in q.prio || id in q.pend
  {
    if FindList(q.delay, id) {
      FindListSound(q.delay, id);
    } else if FindList(q.prio, id) {
      FindListSound(q.prio, id);
    } else {
      FindListSound(q.pend, id);
    }
  }

  lemma UnlinkPlaced(q: Queues, id: nat)
    requires Placed(q) && (id in q.delay || id in q.prio || id in q.pend)
    ensures Placed(Unlink(q, id))
  {
    ListedRemove(q.delay, q.phase, Delayed, id, Cancelled);
    ListedRemove(q.prio, q.phase, Prioritised, id, Cancelled);
    ListedRemove(q.pend, q.phase, Pending, id, Cancelled);
    ListedSkip(q.active, q.phase, Active, id, Cancelled);
  }

  lemma TakePlaced(q: Queues)
    requires Placed(q) && HasNext(q)
    ensures Placed(Take(q))
  {
    var id := NextEnt(q);
    ListedInsert(q.active, q.phase, Active, id);
    ListedSkip(q.delay, q.phase, Delayed, id, Active);
    if |q.prio| > 0 {
      ListedHead(q.prio, q.phase, Prioritised, Active);
      ListedSkip(q.pend, q.phase, Pending, id, Active);
    } else {
      ListedHead(q.pend, q.phase, Pending, Active);
      ListedSkip(q.prio, q.phase, Prioritised, id, Active);
    }
  }

  /** A task that has run, before the lowest id is looked at. */
  function Ran(q: Queues, id: nat): Queues {
    q.(active := Remove(q.active, id), phase := q.phase[id := Completed])
  }

  lemma RanPlaced(q: Queues, id: nat)
    requires Placed(q) && id in q.active
    ensures Placed(Ran(q, id))
  {
    ListedRemove(q.active, q.phase, Active, id, Completed);
    ListedSkip(q.delay, q.phase, Delayed, id, Completed);
    ListedSkip(q.prio, q.phase, Prioritised, id, Completed);
    ListedSkip(q.pend, q.phase, Pending, id, Completed);
  }

  lemma SettlePlaced(q: Queues, id: nat)
    requires Placed(q)
    ensures Placed(Settle(q, id))
  {
  }

  lemma CancelPlaced(q: Queues, id: nat)
    requires Placed(q) && (id in q.delay || id in q.prio || id in q.pend)
    ensures Placed(Cancel(q, id))
    ensures Cancel(q, id).phase == q.phase[id := Cancelled] && Cancel(q, id).active == q.active
    ensures id in q.phase && !Over(q.phase[id])
  {
    UnlinkPlaced(q, id);
    SettlePlaced(Unlink(q, id), id);
  }

  lemma FinishPlaced(q: Queues, id: nat)
    requires Placed(q) && id in q.active
    ensures Placed(Finish(q, id))
    ensures Finish(q, id).phase == q.phase[id := Completed]
    ensures Finish(q, id).active == Remove(q.active, id)
    ensures id in q.phase && !Over(q.phase[id])
  {
    RanPlaced(q, id);
    SettlePlaced(Ran(q, id), id);
  }

  // ---------------------------------------------------------------- sorted lists

  ghost predicate Ordered(q: Queues) {
    Sorted(q.delay) && Sorted(q.prio) && Sorted(q.pend) && Sorted(q.active)
  }

  lemma SortedTail(l: seq<nat>, id: nat)
    requires Sorted(l) && forall x :: x in l ==> x < id
    ensures Sorted(l + [id])
  {
    var m := l + [id];
    forall i, j | 0 <= i < j < |m| ensures m[i] < m[j] {
      assert m[i] == l[i] && l[i] in l;
    }
  }

  lemma BelowNext(l: seq<nat>, next: nat, ph: map<nat, Phase>, p: Phase)
    requires Listed(l, ph, p) && Known(next, ph)
    ensures forall x :: x in l ==> 1 <= x < next
  {
  }

  /** A TQ_NOQUEUE dispatch keeps the priority list sorted if and only if it finds it empty. */
  lemma NoQueueSortsIff(q: Queues)
    requires Placed(q) && Ordered(q)
    ensures Ordered(Enqueue(q, NoQueue)) <==> |q.prio| == 0
  {
    BelowNext(q.prio, q.next, q.phase, Prioritised);
    if |q.prio| > 0 {
      var m := [q.next] + q.prio;
      assert q.prio[0] in q.prio;
      assert m[0] > m[1];
    }
  }

  lemma EnqueueOrdered(q: Queues, how: How)
    requires Placed(q) && Ordered(q) && how != NoQueue
    ensures Ordered(Enqueue(q, how))
  {
    match how
    case Tail =>
      BelowNext(q.pend, q.next, q.phase, Pending);
      SortedTail(q.pend, q.next);
    case Front =>
      BelowNext(q.prio, q.next, q.phase, Prioritised);
      SortedTail(q.prio, q.next);
    case Later =>
      BelowNext(q.delay, q.next, q.phase, Delayed);
      SortedTail(q.delay, q.next);
  }

  lemma ExpireOrdered(q: Queues, id: nat)
    requires Ordered(q) && id !in q.prio
    ensures Ordered(Expire(q, id))
  {
    RemoveSorted(q.delay, id);
    InsertSorted(q.prio, id);
  }

  lemma UnlinkOrdered(q: Queues, id: nat)
    requires Ordered(q)
    ensures Ordered(Unlink(q, id)) && Ordered(Settle(Unlink(q, id), id))
  {
    RemoveSorted(q.delay, id);
    RemoveSorted(q.prio, id);
    RemoveSorted(q.pend, id);
  }

  lemma TakeOrdered(q: Queues)
    requires Ordered(q) && HasNext(q) && NextEnt(q) !in q.active
    ensures Ordered(Take(q))
  {
    InsertSorted(q.active, NextEnt(q));
  }

  lemma RanOrdered(q: Queues, id: nat)
    requires Ordered(q)
    ensures Ordered(Ran(q, id)) && Ordered(Settle(Ran(q, id), id))
  {
    RemoveSorted(q.active, id);
  }

  // ---------------------------------------------------------------- the lowest id

  /** `lowest` is the least unfinished id, or the next id if there is none. */
  ghost predicate LowestOk(lowest: nat, next: nat, ph: map<nat, Phase>) {
    && 1 <= lowest <= next
    && (forall id: nat :: id in ph && id < lowest ==> Over(ph[id]))
    && (lowest < next ==> lowest in ph && !Over(ph[lowest]))
  }

  lemma HeadIsLeast(l: seq<nat>, x: nat)
    requires Sorted(l) && x in l
    ensures l[0] <= x
  {
  }

  /** What looking at one more list head adds. */
  lemma LeastOf(m: nat, l: seq<nat>)
    requires Sorted(l)
    ensures Least(m, l) <= m
    ensures forall x :: x in l ==> Least(m, l) <= x
    ensures Least(m, l) == m || Least(m, l) in l
  {
    forall x | x in l ensures Least(m, l) <= x {
      HeadIsLeast(l, x);
    }
  }

  /** On sorted lists the four heads decide. */
  lemma LowestIdIsLeast(q: Queues)
    requires Placed(q) && Ordered(q)
    ensures LowestOk(LowestId(q), q.next, q.phase)
  {
    var a := Least(q.next, q.pend);
    var b := Least(a, q.prio);
    var c := Least(b, q.delay);
    LeastOf(q.next, q.pend);
    LeastOf(a, q.prio);
    LeastOf(b, q.delay);
    LeastOf(c, q.active);
    forall id: nat | id in q.phase && id < LowestId(q) ensures Over(q.phase[id]) {
      assert id !in q.pend && id !in q.prio && id !in q.delay && id !in q.active;
    }
  }

  /** A task that stays unfinished, or has just been dispatched, leaves the lowest id right. */
  lemma LowestStays(lowest: nat, next: nat, ph: map<nat, Phase>, id: nat, p: Phase)
    requires LowestOk(lowest, next, ph) && !Over(p)
    requires id in ph ==> !Over(ph[id])
    requires lowest <= id
    ensures id < next ==> LowestOk(lowest, next, ph[id := p])
    ensures id == next ==> LowestOk(lowest, next + 1, ph[id := p])
  {
  }

  lemma UnfinishedFrom(lowest: nat, next: nat, ph: map<nat, Phase>, id: nat)
    requires LowestOk(lowest, next, ph) && id in ph && !Over(ph[id])
    ensures lowest <= id
  {
  }

  /** `Settle` after a task has gone. */
  lemma SettleLowest(q: Queues, was: map<nat, Phase>, id: nat, p: Phase)
    requires LowestOk(q.lowest, q.next, was) && id in was && !Over(was[id])
    requires Over(p) && q.phase == was[id := p] && Placed(q) && Ordered(q)
    ensures LowestOk(Settle(q, id).lowest, q.next, q.phase)
  {
    if q.lowest == id {
      LowestIdIsLeast(q);
    }
  }

  /** The lowest id never decreases: what is over stays over. */
  lemma LowestGrows(lo: nat, next: nat, ph: map<nat, Phase>, lo': nat, next': nat, ph': map<nat, Phase>)
    requires LowestOk(lo, next, ph) && LowestOk(lo', next', ph') && next <= next'
    requires forall id: nat :: id in ph && Over(ph[id]) ==> id in ph' && Over(ph'[id])
    requires Known(next, ph)
    ensures lo <= lo'
  {
  }

  // ---------------------------------------------------------------- finding a task

  lemma {:induction false} FindListExact(l: seq<nat>, id: nat)
    requires Sorted(l)
    ensures FindList(l, id) <==> id in l
  {
    if |l| > 0 {
      assert l == [l[0]] + l[1..];
      FindListExact(l[1..], id);
      if l[0] > id && id in l {
        HeadIsLeast(l, id);
      }
    }
  }

  /** `taskq_find` on sorted lists says exactly what state the task is in. */
  lemma FindExact(q: Queues, id: nat)
    requires Placed(q) && Ordered(q)
    ensures Find(q, id) == Busy <==> id in q.phase && q.phase[id] == Active
    ensures Find(q, id) == Nothing <==> (id in q.phase ==> Over(q.phase[id]))
  {
    FindListExact(q.delay, id);
    FindListExact(q.prio, id);
    FindListExact(q.pend, id);
  }

  // ---------------------------------------------------------------- TQ_NOQUEUE and waiting

  /** The check of `taskq_wait_id` is right: nothing is found exactly if the task is over or was
      never dispatched. */
  ghost predicate WaitIdRight(q: Queues, id: nat) {
    Find(q, id) == Nothing <==> (id in q.phase ==> Over(q.phase[id]))
  }

  ghost predicate AllWaitsRight(q: Queues) { forall id: nat :: WaitIdRight(q, id) }

  /** A larger id at the head of the priority list hides every task behind it from the search. */
  lemma NoQueueHides(q: Queues, j: nat)
    requires Placed(q) && Ordered(q) && j in q.prio
    ensures Find(Enqueue(q, NoQueue), j) == Nothing
  {
    BelowNext(q.prio, q.next, q.phase, Prioritised);
    FindListExact(q.delay, j);
    FindListExact(q.pend, j);
    assert !FindList([q.next] + q.prio, j);
  }

  /** After a TQ_NOQUEUE dispatch the check of `taskq_wait_id` is right for all tasks if and only if
      the dispatch found the priority list empty. */
  lemma NoQueueWaitIff(q: Queues)
    requires Placed(q) && Ordered(q)
    ensures AllWaitsRight(Enqueue(q, NoQueue)) <==> |q.prio| == 0
  {
    var r := Enqueue(q, NoQueue);
    if |q.prio| == 0 {
      NoQueueSortsIff(q);
      EnqueuePlaced(q, NoQueue);
      forall id: nat ensures WaitIdRight(r, id) {
        FindExact(r, id);
      }
    } else {
      var j := q.prio[0];
      assert j in q.prio;
      NoQueueHides(q, j);
      assert !WaitIdRight(r, j);
    }
  }

  /** Some unfinished task other than `x` has an id below `m`. */
  ghost predicate OtherBelow(ph: map<nat, Phase>, x: nat, m: nat) {
    exists j: nat :: j in ph && !Over(ph[j]) && j != x && j < m
  }

  /** The heads that decide the lowest id once `x` has gone, but for the priority list. */
  ghost function OtherHeads(q: Queues, x: nat): nat {
    Least(Least(Least(q.next + 1, Remove(q.pend, x)), Remove(q.delay, x)), Remove(q.active, x))
  }

  /** Task `x` ends if it executes, and is cancelled if it waits. */
  ghost function Gone(q: Queues, x: nat): Queues {
    if x in q.active then Finish(q, x) else Cancel(q, x)
  }

  /** What `h` is among the unfinished tasks that are neither `x` nor on the priority list. */
  ghost predicate LeastOther(h: nat, next: nat, ph: map<nat, Phase>, x: nat, prio: seq<nat>) {
    && (forall j: nat :: j in ph && !Over(ph[j]) && j != x && j !in prio ==> h <= j)
    && (h < next ==> h in ph && !Over(ph[h]) && h != x && h !in prio)
    && (h < next || h == next + 1)
  }

  /** The three lists hold the unfinished tasks that are neither `x` nor prioritised. */
  ghost predicate Elsewhere(l: seq<nat>, m: seq<nat>, n: seq<nat>, ph: map<nat, Phase>, x: nat, prio: seq<nat>) {
    forall j: nat :: j in l || j in m || j in n <==> j in ph && !Over(ph[j]) && j != x && j !in prio
  }

  lemma RestElsewhere(q: Queues, x: nat)
    requires Placed(q) && Ordered(q)
    ensures Elsewhere(Remove(q.pend, x), Remove(q.delay, x), Remove(q.active, x), q.phase, x, q.prio)
  {
    GoneFrom(q.pend, x);
    GoneFrom(q.delay, x);
    GoneFrom(q.active, x);
  }

  lemma LeastElsewhere(l: seq<nat>, m: seq<nat>, n: seq<nat>, next: nat, ph: map<nat, Phase>, x: nat, prio: seq<nat>)
    requires Elsewhere(l, m, n, ph, x, prio) && Known(next, ph) && Sorted(l) && Sorted(m) && Sorted(n)
    ensures LeastOther(Least(Least(Least(next + 1, l), m), n), next, ph, x, prio)
  {
    var a := Least(next + 1, l);
    var b := Least(a, m);
    LeastOf(next + 1, l);
    LeastOf(a, m);
    LeastOf(b, n);
  }

  lemma OtherHeadsIs(q: Queues, x: nat)
    requires Placed(q) && Ordered(q)
    ensures LeastOther(OtherHeads(q, x), q.next, q.phase, x, q.prio)
  {
    RestElsewhere(q, x);
    GoneFrom(q.pend, x);
    GoneFrom(q.delay, x);
    GoneFrom(q.active, x);
    LeastElsewhere(Remove(q.pend, x), Remove(q.delay, x), Remove(q.active, x), q.next, q.phase, x, q.prio);
  }

  lemma GoneFrom(l: seq<nat>, x: nat)
    requires Sorted(l)
    ensures Sorted(Remove(l, x)) && Drops(Remove(l, x), l, x)
  {
    RemoveSorted(l, x);
    SortedDistinct(l);
    RemoveDrops(l, x);
  }

  lemma NoQueueLowestIs(q: Queues, x: nat)
    requires Placed(q) && x in q.phase && q.phase[x] != Prioritised && !Over(q.phase[x]) && q.lowest == x
    ensures var r := Gone(Enqueue(q, NoQueue), x);
      && r.lowest == (if OtherHeads(q, x) < q.next then OtherHeads(q, x) else q.next)
      && r.next == q.next + 1
      && r.phase == q.phase[q.next := Prioritised][x := if x in q.active then Completed else Cancelled]
  {
    var e := Enqueue(q, NoQueue);
    var r := if x in q.active then Ran(e, x) else Unlink(e, x);
    assert x !in e.prio;
    assert r.prio[0] == q.next;
  }

  /** The lowest id is right exactly if it skips no task of the priority list. */
  lemma SkipsNothing(h: nat, next: nat, ph: map<nat, Phase>, x: nat, prio: seq<nat>, lo: nat, p: Phase)
    requires Known(next, ph) && Listed(prio, ph, Prioritised) && LeastOther(h, next, ph, x, prio)
    requires x in ph && x !in prio && Over(p) && lo == if h < next then h else next
    ensures LowestOk(lo, next + 1, ph[next := Prioritised][x := p]) <==>
            forall i :: i in prio ==> lo <= i
  {
    var r := ph[next := Prioritised][x := p];
    if i :| i in prio && i < lo {
      assert i in r && !Over(r[i]);
    }
  }

  lemma SkipsIff(h: nat, next: nat, ph: map<nat, Phase>, x: nat, prio: seq<nat>, lo: nat)
    requires Listed(prio, ph, Prioritised) && Known(next, ph) && LeastOther(h, next, ph, x, prio)
    requires Sorted(prio) && lo == if h < next then h else next
    ensures (forall i :: i in prio ==> lo <= i) <==> |prio| == 0 || OtherBelow(ph, x, prio[0])
  {
    if |prio| > 0 {
      var p := prio[0];
      assert p in prio;
      if OtherBelow(ph, x, p) {
        var j: nat :| j in ph && !Over(ph[j]) && j != x && j < p;
        forall i | i in prio ensures j < i {
          HeadIsLeast(prio, i);
        }
        assert j !in prio;
      } else {
        assert h < p ==> OtherBelow(ph, x, p);
      }
    }
  }

  /** When the lowest task goes after a TQ_NOQUEUE dispatch, tq_lowest_id is right if and only if
      the dispatch found the priority list empty, or a task that is not behind the new one has
      an id below the first of those that are. */
  lemma NoQueueLowestIff(q: Queues, x: nat)
    requires Placed(q) && Ordered(q) && q.lowest == x
    requires x in q.phase && !Over(q.phase[x]) && q.phase[x] != Prioritised
    ensures var r := Gone(Enqueue(q, NoQueue), x);
      LowestOk(r.lowest, r.next, r.phase) <==>
      |q.prio| == 0 || OtherBelow(q.phase, x, q.prio[0])
  {
    var h := OtherHeads(q, x);
    var lo := Gone(Enqueue(q, NoQueue), x).lowest;
    NoQueueLowestIs(q, x);
    OtherHeadsIs(q, x);
    SkipsNothing(h, q.next, q.phase, x, q.prio, lo, if x in q.active then Completed else Cancelled);
    SkipsIff(h, q.next, q.phase, x, q.prio, lo);
  }

  // ---------------------------------------------------------------- the pool

  ghost function Owned(ph: map<nat, Phase>, prealloc: set<nat>): set<nat> {
    set id | id in ph && !Over(ph[id]) && id !in prealloc
  }

  ghost predicate PoolOk(p: Pool, ph: map<nat, Phase>) {
    && p.nalloc == p.free + p.inHand + |Owned(ph, p.prealloc)|
    && p.free <= p.minalloc
    && p.prealloc <= ph.Keys
  }

  lemma OwnedAdds(ph: map<nat, Phase>, pre: set<nat>, id: nat, p: Phase)
    requires id !in ph && !Over(p) && id !in pre
    ensures |Owned(ph[id := p], pre)| == |Owned(ph, pre)| + 1
    ensures |Owned(ph[id := p], pre + {id})| == |Owned(ph, pre)|
  {
    assert Owned(ph[id := p], pre) == Owned(ph, pre) + {id};
    assert Owned(ph[id := p], pre + {id}) == Owned(ph, pre);
  }

  lemma OwnedMoves(ph: map<nat, Phase>, pre: set<nat>, id: nat, p: Phase)
    requires id in ph && !Over(ph[id]) && !Over(p)
    ensures Owned(ph[id := p], pre) == Owned(ph, pre)
  {
  }

  lemma OwnedDrops(ph: map<nat, Phase>, pre: set<nat>, id: nat, p: Phase)
    requires id in ph && !Over(ph[id]) && Over(p)
    ensures |Owned(ph[id := p], pre)| == |Owned(ph, pre)| - (if id in pre then 0 else 1)
  {
    if id in pre {
      assert Owned(ph[id := p], pre) == Owned(ph, pre);
    } else {
      assert Owned(ph[id := p], pre) == Owned(ph, pre) - {id};
      assert id in Owned(ph, pre);
    }
  }

  lemma DispatchPool(p: Pool, ph: map<nat, Phase>, id: nat, phase: Phase, anew: bool)
    requires PoolOk(p, ph) && id !in ph && !Over(phase) && (anew || p.free > 0)
    ensures PoolOk(Alloc(p, anew), ph[id := phase])
    ensures PoolOk(p.(prealloc := p.prealloc + {id}), ph[id := phase])
  {
    OwnedAdds(ph, p.prealloc, id, phase);
  }

  lemma MovePool(p: Pool, ph: map<nat, Phase>, id: nat, phase: Phase)
    requires PoolOk(p, ph) && id in ph && !Over(ph[id]) && !Over(phase)
    ensures PoolOk(p, ph[id := phase])
  {
    OwnedMoves(ph, p.prealloc, id, phase);
  }

  lemma RetirePool(p: Pool, ph: map<nat, Phase>, id: nat, phase: Phase)
    requires PoolOk(p, ph) && id in ph && !Over(ph[id]) && Over(phase)
    ensures PoolOk(Retire(p, id), ph[id := phase])
    ensures id !in p.prealloc ==> PoolOk(p.(inHand := p.inHand + 1), ph[id := phase])
  {
    OwnedDrops(ph, p.prealloc, id, phase);
  }

  lemma HandedBackPool(p: Pool, ph: map<nat, Phase>)
    requires PoolOk(p, ph) && p.inHand > 0
    ensures PoolOk(Done(p.(inHand := p.inHand - 1)), ph)
  {
  }

  lemma {:induction false} DrainAll(p: Pool)
    ensures Drain(p) == p.(free := 0, nalloc := p.nalloc - p.free)
    decreases p.free
  {
    if p.free > 0 {
      DrainAll(p.(free := p.free - 1, nalloc := p.nalloc - 1));
    }
  }

  // ---------------------------------------------------------------- the threads

  ghost predicate ThreadsOk(w: Workers) {
    && w.nthreads == |w.threads| && Distinct(w.threads)
    && w.nactive == |w.work| && (forall t :: t in w.work ==> t in w.threads)
    && w.spawning <= w.nspawn && w.nthreads + w.nspawn <= w.maxthreads
    && (w.spawning > 0 ==> w.dynamic)
    && (w.stopping ==> !w.on)
  }

  /** The active list is what the threads are working on, no two on the same task. */
  ghost predicate WorkOk(active: seq<nat>, work: map<nat, nat>) {
    && |active| == |work|
    && (forall t :: t in work ==> work[t] in active)
    && (forall t, u :: t in work && u in work && t != u ==> work[t] != work[u])
  }

  lemma ActiveAtMostThreads(w: Workers)
    requires ThreadsOk(w)
    ensures w.nactive <= w.nthreads
  {
    DistinctCard(w.threads);
    SubsetCard(w.work.Keys, ToSet(w.threads));
  }

  /** A thread is asked for exactly if the queue is dynamic, open and below its maximum, counting
      those already asked for; nothing else changes but the threads on their way. */
  lemma SpawnExact(w: Workers, sent: bool)
    ensures Spawn(w, sent).nspawn == w.nspawn + 1 <==> w.dynamic && w.on && w.nthreads + w.nspawn < w.maxthreads
    ensures Spawn(w, sent) ==
      w.(nspawn := Spawn(w, sent).nspawn,
         spawning := w.spawning + if sent && Spawn(w, sent).nspawn != w.nspawn then 1 else 0)
    ensures Spawn(w, sent).nspawn == w.nspawn || Spawn(w, sent).nspawn == w.nspawn + 1
  {
  }

  /** A thread that starts joins the tail of the list exactly if there are fewer than the maximum, and
      in either case is no longer on its way. */
  lemma StartExact(w: Workers, t: nat)
    requires w.spawning > 0
    ensures var v := Start(w, t);
      && v.threads == (if w.nthreads < w.maxthreads then w.threads + [t] else w.threads)
      && v.nthreads - w.nthreads == |v.threads| - |w.threads|
      && v == w.(threads := v.threads, nthreads := v.nthreads, spawning := w.spawning - 1,
                 nspawn := if w.dynamic then w.nspawn - 1 else w.nspawn)
  {
  }

  /** A finished entry is freed exactly if the pool is above tq_minalloc, whatever lies free. */
  lemma DoneExact(p: Pool)
    ensures Done(p).nalloc == p.nalloc - 1 <==> p.nalloc > p.minalloc
    ensures Done(p) == p.(nalloc := Done(p).nalloc, free := p.free + 1 - (p.nalloc - Done(p).nalloc))
    ensures Done(p).nalloc == p.nalloc || Done(p).nalloc == p.nalloc - 1
  {
  }

  lemma SpawnThreads(w: Workers, sent: bool)
    requires ThreadsOk(w)
    ensures ThreadsOk(Spawn(w, sent))
  {
  }

  /** A spawned thread never meets the limit, so its early exit is dead code. */
  lemma StartThreads(w: Workers, t: nat)
    requires ThreadsOk(w) && w.spawning > 0 && t !in w.threads
    ensures !TooMany(w.(spawning := w.spawning - 1, nspawn := w.nspawn - 1))
    ensures ThreadsOk(Start(w, t)) && Start(w, t).threads == w.threads + [t]
  {
    DistinctAppend(w.threads, t);
  }

  lemma SpawnFailedThreads(w: Workers)
    requires ThreadsOk(w) && w.spawning > 0
    ensures ThreadsOk(SpawnFailed(w))
  {
  }

  lemma LeaveThreads(w: Workers, t: nat)
    requires ThreadsOk(w) && t in w.threads && t !in w.work
    ensures ThreadsOk(Leave(w, t))
  {
    RemoveDistinct(w.threads, t);
  }

  lemma WorkAdds(work: map<nat, nat>, t: nat, id: nat)
    requires t !in work
    ensures |work[t := id]| == |work| + 1
  {
    assert work[t := id].Keys == work.Keys + {t};
  }

  lemma WorkDrops(work: map<nat, nat>, t: nat)
    requires t in work
    ensures |work - {t}| == |work| - 1
  {
    assert (work - {t}).Keys == work.Keys - {t};
  }

  lemma OccupyThreads(w: Workers, t: nat, id: nat)
    requires ThreadsOk(w) && t in w.threads && t !in w.work
    ensures ThreadsOk(Occupy(w, t, id))
  {
    WorkAdds(w.work, t, id);
  }

  lemma OccupyWork(active: seq<nat>, work: map<nat, nat>, t: nat, id: nat)
    requires WorkOk(active, work) && t !in work && id !in active
    ensures WorkOk(Insert(active, id), work[t := id])
  {
    WorkAdds(work, t, id);
    InsertAdds(active, id);
  }

  lemma ReleaseThreads(w: Workers, t: nat)
    requires ThreadsOk(w) && t in w.work
    ensures ThreadsOk(Release(w, t))
  {
    WorkDrops(w.work, t);
  }

  lemma ReleaseWork(active: seq<nat>, work: map<nat, nat>, t: nat)
    requires WorkOk(active, work) && t in work && Distinct(active)
    ensures WorkOk(Remove(active, work[t]), work - {t})
  {
    WorkDrops(work, t);
    RemoveDistinct(active, work[t]);
  }
}
