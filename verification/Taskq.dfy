/** `taskq_t` and the sections of `spl-taskq.c` that change it in place. */
module Taskq {
  import opened Seqs
  import opened TaskqSpec
  import opened Wrappers

  /** The scan from the tail of `taskq_insert_in_order` and `task_expire_impl`. */
  method InsertInOrder(l: seq<nat>, id: nat) returns (m: seq<nat>)
    ensures m == Insert(l, id)
  {
    var k := |l|;
    assert l[..k] == l && l[k..] == [];
    while k > 0 && l[k - 1] >= id
      invariant 0 <= k <= |l|
      invariant Insert(l, id) == Insert(l[..k], id) + l[k..]
    {
      var p := l[..k];
      assert p[..k - 1] == l[..k - 1];
      assert [l[k - 1]] + l[k..] == l[k - 1..];
      k := k - 1;
    }
    assert Insert(l[..k], id) == l[..k] + [id];
    m := l[..k] + [id] + l[k..];
  }

  /** The scan of `taskq_find_list`, which stops at the first larger id. */
  method ScanList(l: seq<nat>, id: nat) returns (found: bool)
    ensures found == FindList(l, id)
  {
    var k := 0;
    while k < |l| && l[k] < id
      invariant 0 <= k <= |l|
      invariant FindList(l, id) == FindList(l[k..], id)
    {
      assert l[k..][1..] == l[k + 1..];
      k := k + 1;
    }
    found := k < |l| && l[k] == id;
  }

  class Taskq {
    var nextId: nat
    var lowestId: nat
    var delayList: seq<nat>
    var prioList: seq<nat>
    var pendList: seq<nat>
    var activeList: seq<nat>
    ghost var phase: map<nat, Phase>

    var freeList: nat
    var nalloc: int
    const minalloc: nat
    var inHand: nat
    var prealloc: set<nat>

    var threadList: seq<nat>
    var work: map<nat, nat>
    var nthreads: int
    var nactive: int
    var nspawn: int
    var spawning: nat
    const maxthreads: nat
    const dynamic: bool
    var on: bool
    var stopping: bool

    ghost function Q(): Queues
      reads this
    {
      Queues(nextId, lowestId, delayList, prioList, pendList, activeList, phase)
    }

    function P(): Pool
      reads this
    {
      Pool(freeList, nalloc, minalloc, inHand, prealloc)
    }

    function W(): Workers
      reads this
    {
      Workers(threadList, work, nthreads, nactive, nspawn, spawning, maxthreads, dynamic, on,
              stopping)
    }

    ghost function View(): State
      reads this
    {
      State(Q(), P(), W())
    }

    /** `taskq_create` with its threads running and, if asked for, its pool filled. */
    constructor (threads: seq<nat>, minalloc: nat, maxthreads: nat, dynamic: bool, prepopulate: bool)
      requires Distinct(threads) && 1 <= |threads| <= maxthreads
      ensures Created(View()) && P().free == (if prepopulate then minalloc else 0)
    {
      this.minalloc, this.maxthreads, this.dynamic := minalloc, maxthreads, dynamic;
      nextId, lowestId := 1, 1;
      delayList, prioList, pendList, activeList, phase := [], [], [], [], map[];
      freeList, nalloc, inHand, prealloc := 0, 0, 0, {};
      threadList, work, nthreads, nactive := threads, map[], |threads|, 0;
      nspawn, spawning, on, stopping := 0, 0, true, false;
      new;
      if prepopulate {
        Prepopulate();
      }
    }

    /** The loop of `taskq_create`: each turn allocates an entry and puts it on the free list. */
    method Prepopulate()
      requires freeList == 0 && nalloc == 0
      modifies `freeList, `nalloc
      ensures freeList == minalloc && nalloc == minalloc
    {
      var i := 0;
      while i < minalloc
        invariant 0 <= i <= minalloc
        invariant freeList == i && nalloc == i
      {
        nalloc := nalloc + 1;
        TaskDone();
        i := i + 1;
      }
    }

    method TaskDone()
      modifies `freeList, `nalloc
      ensures P() == Done(old(P()))
    {
      if nalloc <= minalloc {
        freeList := freeList + 1;
      } else {
        nalloc := nalloc - 1;
      }
    }

    /** `taskq_lowest_id`. */
    method ReadLowest() returns (lowest: nat)
      ensures lowest == LowestId(Q())
    {
      lowest := nextId;
      if |pendList| > 0 {
        lowest := if pendList[0] < lowest then pendList[0] else lowest;
      }
      if |prioList| > 0 {
        lowest := if prioList[0] < lowest then prioList[0] else lowest;
      }
      if |delayList| > 0 {
        lowest := if delayList[0] < lowest then delayList[0] else lowest;
      }
      if |activeList| > 0 {
        lowest := if activeList[0] < lowest then activeList[0] else lowest;
      }
    }

    /** `taskq_find`. */
    method FindTask(id: nat) returns (r: Found)
      ensures r == Find(Q(), id)
    {
      var found := ScanList(delayList, id);
      if found {
        return Waiting;
      }
      found := ScanList(prioList, id);
      if found {
        return Waiting;
      }
      found := ScanList(pendList, id);
      if found {
        return Waiting;
      }
      var k := 0;
      while k < |activeList|
        invariant 0 <= k <= |activeList|
        invariant id !in activeList[..k]
      {
        if activeList[k] == id {
          return Busy;
        }
        k := k + 1;
      }
      assert activeList[..k] == activeList;
      return Nothing;
    }

    /** `taskq_thread_spawn`; the result says whether a thread is on its way. */
    method ThreadSpawn(sent: bool) returns (spawned: bool)
      modifies `nspawn, `spawning
      ensures W() == Spawn(old(W()), sent)
      ensures nspawn == old(nspawn) + (if spawned then 1 else 0)
      ensures spawned == old(dynamic && on && nthreads + nspawn < maxthreads)
    {
      spawned := false;
      if !dynamic {
        return;
      }
      if nthreads + nspawn < maxthreads && on {
        nspawn := nspawn + 1;
        spawned := true;
        if sent {
          spawning := spawning + 1;
        }
      }
    }

    /** `taskq_dispatch` up to `task_alloc`: with TQ_NOQUEUE there must be an idle thread, or one
        that can be spawned. */
    method DispatchCheck(noqueue: bool, sent: bool) returns (go: bool)
      modifies `nspawn, `spawning
      ensures go <==>
        && old(on)
        && (noqueue && old(nactive == nthreads) ==> old(dynamic && on && nthreads + nspawn < maxthreads))
      ensures W() == if old(on) && noqueue && old(nactive == nthreads) then Spawn(old(W()), sent)
                     else old(W())
    {
      if !on {
        return false;
      }
      go := true;
      if noqueue && nactive == nthreads {
        go := ThreadSpawn(sent);
      }
    }

    /** `task_alloc` in the section that has the entry: from the free list, or a new one. */
    method TaskAlloc(anew: bool)
      requires anew || freeList > 0
      modifies `freeList, `nalloc
      ensures P() == Alloc(old(P()), anew)
    {
      if anew {
        nalloc := nalloc + 1;
      } else {
        freeList := freeList - 1;
      }
    }

    /** The next id is given to an entry, which is linked to its list. */
    method LinkEntry(how: How) returns (id: nat)
      modifies `nextId, `delayList, `prioList, `pendList, `phase
      ensures Q() == Enqueue(old(Q()), how) && id == old(nextId)
    {
      id := nextId;
      match how {
        case NoQueue => prioList := [id] + prioList; phase := phase[id := Prioritised];
        case Front => prioList := prioList + [id]; phase := phase[id := Prioritised];
        case Tail => pendList := pendList + [id]; phase := phase[id := Pending];
        case Later => delayList := delayList + [id]; phase := phase[id := Delayed];
      }
      nextId := nextId + 1;
    }

    /** The last section of `taskq_dispatch` and `taskq_dispatch_delay`. */
    method DispatchLink(how: How, anew: bool) returns (id: nat)
      requires anew || freeList > 0
      modifies `nextId, `delayList, `prioList, `pendList, `phase, `freeList, `nalloc
      ensures View() == DispatchStep(old(View()), how, anew) && id == old(nextId)
    {
      TaskAlloc(anew);
      id := LinkEntry(how);
    }

    /** `taskq_dispatch_ent` once it has decided to queue the caller's entry. */
    method DispatchEntLink(front: bool)
      modifies `nextId, `delayList, `prioList, `pendList, `phase, `prealloc
      ensures View() == DispatchEntStep(old(View()), front)
    {
      prealloc := prealloc + {nextId};
      var _ := LinkEntry(if front then Front else Tail);
    }

    /** `taskq_dispatch` when `task_alloc` does not have to drop the lock; `alloc` is what it
        yields: nothing, or an entry that may be new.  The id is 0 if nothing was queued. */
    method DispatchTask(noqueue: bool, front: bool, alloc: Option<bool>, sent: bool) returns (id: nat)
      requires alloc == Some(false) ==> freeList > 0
      modifies `nextId, `delayList, `prioList, `pendList, `phase, `freeList, `nalloc, `nspawn, `spawning
      ensures var how := if noqueue then NoQueue else if front then Front else Tail;
        var full := old(nactive == nthreads);
        var goes := old(on) && alloc.Some? &&
          (noqueue && full ==> old(dynamic && on && nthreads + nspawn < maxthreads));
        && Q() == (if goes then Enqueue(old(Q()), how) else old(Q()))
        && P() == (if goes then Alloc(old(P()), alloc.value) else old(P()))
        && W() == (if full then Spawn(old(W()), sent) else old(W()))
        && id == (if goes then old(nextId) else 0)
    {
      id := 0;
      var go := DispatchCheck(noqueue, sent);
      if go && alloc.Some? {
        id := DispatchLink(if noqueue then NoQueue else if front then Front else Tail, alloc.value);
      }
      if !noqueue && nactive == nthreads {
        var _ := ThreadSpawn(sent);
      }
    }

    /** `taskq_dispatch_ent`: with TQ_NOQUEUE and no idle thread it spawns one and queues to the
        priority list, and then, like any dispatch without an idle thread, tries to spawn again. */
    method DispatchEntTask(noqueue: bool, front: bool, sent: bool)
      modifies `nextId, `delayList, `prioList, `pendList, `phase, `prealloc, `nspawn, `spawning
      ensures var full := old(nactive == nthreads);
        var goes := old(on) && (noqueue && full ==> old(dynamic && on && nthreads + nspawn < maxthreads));
        && Q() == (if goes then Enqueue(old(Q()), if front || (noqueue && full) then Front else Tail)
                   else old(Q()))
        && prealloc == (if goes then old(prealloc) + {old(nextId)} else old(prealloc))
        && W() == (if !goes || !full then old(W())
                   else if noqueue then Spawn(Spawn(old(W()), sent), sent) else Spawn(old(W()), sent))
    {
      var go := DispatchCheck(noqueue, sent);
      if go {
        DispatchEntLink(front || (noqueue && nactive == nthreads));
        if nactive == nthreads {
          var _ := ThreadSpawn(sent);
        }
      }
    }

    /** `task_expire_impl` for a task that has not been cancelled. */
    method TimerExpires(id: nat)
      requires id in delayList
      modifies `delayList, `prioList, `phase
      ensures View() == old(View()).(q := Expire(old(Q()), id))
    {
      delayList := Remove(delayList, id);
      prioList := InsertInOrder(prioList, id);
      phase := phase[id := Prioritised];
    }

    method SettleLowest(id: nat)
      modifies `lowestId
      ensures Q() == Settle(old(Q()), id)
    {
      if lowestId == id {
        lowestId := ReadLowest();
      }
    }

    /** The list surgery of `taskq_cancel_id`. */
    method UnlinkTask(id: nat)
      modifies `delayList, `prioList, `pendList, `phase, `lowestId
      ensures Q() == Cancel(old(Q()), id)
    {
      delayList := Remove(delayList, id);
      prioList := Remove(prioList, id);
      pendList := Remove(pendList, id);
      phase := phase[id := Cancelled];
      assert Q() == Unlink(old(Q()), id);
      SettleLowest(id);
    }

    /** `taskq_cancel_id`: 0 for a waiting task, EBUSY for an executing one, ENOENT for none. */
    method CancelTask(id: nat) returns (r: Found)
      modifies `delayList, `prioList, `pendList, `phase, `lowestId, `inHand, `freeList, `nalloc
      ensures r == Find(old(Q()), id)
      ensures View() == if r == Waiting then CancelStep(old(View()), id) else old(View())
      ensures inHand ==
        old(inHand) + (if r == Waiting && id in old(delayList) && id !in prealloc then 1 else 0)
    {
      r := FindTask(id);
      if r == Waiting {
        var timerPending := id in delayList;
        UnlinkTask(id);
        GiveBack(id, timerPending);
      }
    }

    /** The entry of a cancelled task: kept in hand while its timer is stopped, or done with. */
    method GiveBack(id: nat, timerPending: bool)
      modifies `inHand, `freeList, `nalloc
      ensures P() == if id in prealloc then old(P())
                     else if timerPending then old(P()).(inHand := old(inHand) + 1)
                     else Done(old(P()))
    {
      if id !in prealloc {
        if timerPending {
          inHand := inHand + 1;
        } else {
          TaskDone();
        }
      }
    }

    /** `taskq_cancel_id` after `del_timer_sync`. */
    method CancelTimerStopped()
      requires inHand > 0
      modifies `inHand, `freeList, `nalloc
      ensures View() == TimerStoppedStep(old(View()))
    {
      inHand := inHand - 1;
      TaskDone();
    }

    /** The head of the priority list, or else of the pending list, becomes active. */
    method ActivateHead() returns (id: nat)
      requires HasNext(Q())
      modifies `prioList, `pendList, `activeList, `phase
      ensures Q() == Take(old(Q())) && id == NextEnt(old(Q()))
    {
      if |prioList| > 0 {
        id := prioList[0];
        prioList := prioList[1..];
      } else {
        id := pendList[0];
        pendList := pendList[1..];
      }
      activeList := InsertInOrder(activeList, id);
      phase := phase[id := Active];
    }

    /** `taskq_thread` takes the next task. */
    method ThreadTakes(t: nat) returns (id: nat)
      requires t in threadList && t !in work && HasNext(Q())
      modifies `prioList, `pendList, `activeList, `phase, `nactive, `work
      ensures View() == BeginStep(old(View()), t) && id == NextEnt(old(Q()))
    {
      id := ActivateHead();
      work := work[t := id];
      nactive := nactive + 1;
    }

    method UnlinkActive(id: nat)
      modifies `activeList, `phase, `lowestId
      ensures Q() == Finish(old(Q()), id)
    {
      activeList := Remove(activeList, id);
      phase := phase[id := Completed];
      SettleLowest(id);
    }

    /** `taskq_thread` after the task's function has returned. */
    method ThreadEnds(t: nat)
      requires t in work
      modifies `activeList, `phase, `lowestId, `nactive, `work, `freeList, `nalloc
      ensures View() == EndStep(old(View()), t)
    {
      var id := work[t];
      nactive := nactive - 1;
      UnlinkActive(id);
      if id !in prealloc {
        TaskDone();
      }
      work := work - {t};
    }

    /** `taskq_thread` up to its loop, for a spawned thread. */
    method ThreadJoins(t: nat)
      requires spawning > 0 && t !in threadList
      modifies `nspawn, `spawning, `nthreads, `threadList
      ensures View() == old(View()).(w := Start(old(W()), t))
    {
      spawning := spawning - 1;
      if dynamic {
        nspawn := nspawn - 1;
      }
      if nthreads >= maxthreads {
        return;
      }
      nthreads := nthreads + 1;
      threadList := threadList + [t];
    }

    /** `taskq_thread_should_stop`; `allowed` is the tunable spl_taskq_thread_dynamic. */
    method ThreadShouldStop(t: nat, allowed: bool) returns (stop: bool)
      ensures stop <==> allowed && ShouldStop(W(), Q(), t)
      ensures stop <==>
        && allowed && dynamic && |threadList| > 0 && threadList[0] != t && nthreads > 1
        && nspawn == 0 && nactive == 0 && |prioList| == 0 && |pendList| == 0
    {
      if !dynamic {
        return false;
      }
      if |threadList| == 0 || threadList[0] == t {
        return false;
      }
      stop := nspawn == 0 && nactive == 0 && nthreads > 1 && |prioList| == 0 && |pendList| == 0 && allowed;
    }

    /** `taskq_thread` after its loop: the thread takes itself off the list. */
    method ThreadQuits(t: nat)
      modifies `nthreads, `threadList
      ensures View() == old(View()).(w := Leave(old(W()), t))
    {
      nthreads := nthreads - 1;
      threadList := Remove(threadList, t);
    }

    /** The loop at the end of `taskq_destroy`. */
    method DrainFree()
      modifies `freeList, `nalloc
      ensures P() == Drain(old(P()))
    {
      while freeList > 0
        invariant Drain(P()) == Drain(old(P()))
        decreases freeList
      {
        freeList := freeList - 1;
        nalloc := nalloc - 1;
      }
    }
  }
}
