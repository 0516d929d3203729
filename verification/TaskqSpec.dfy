/**
The task queue as a state machine.  A step is one section of the C code that runs with `tq_lock`
held.  A task is named by its id; `phase` is a history variable: the life of every id so far.
*/
module TaskqSpec {
  import opened Seqs

  datatype Phase = Delayed | Prioritised | Pending | Active | Completed | Cancelled

  predicate Over(p: Phase) { p == Completed || p == Cancelled }

  /** The ids and the lists they are on. */
  datatype Queues = Queues(
    next: nat,                     // tq_next_id
    lowest: nat,                   // tq_lowest_id
    delay: seq<nat>,               // tq_delay_list
    prio: seq<nat>,                // tq_prio_list
    pend: seq<nat>,                // tq_pend_list
    active: seq<nat>,              // tq_active_list: tqt_id of each thread on it
    phase: map<nat, Phase>)

  /** The pool of task entries. */
  datatype Pool = Pool(
    free: nat,                     // length of tq_free_list
    nalloc: int,                   // tq_nalloc
    minalloc: nat,                 // tq_minalloc
    inHand: nat,                   // taken off every list by a cancel that waits for its timer
    prealloc: set<nat>)            // ids whose entry is the caller's (TQENT_FLAG_PREALLOC)

  /** The threads. */
  datatype Workers = Workers(
    threads: seq<nat>,             // tq_thread_list
    work: map<nat, nat>,           // tqt_id of the threads that are executing a task
    nthreads: int,                 // tq_nthreads
    nactive: int,                  // tq_nactive
    nspawn: int,                   // tq_nspawn
    spawning: nat,                 // threads on their way: queued, created, not yet in the list
    maxthreads: nat,               // tq_maxthreads
    dynamic: bool,                 // TASKQ_DYNAMIC
    on: bool,                      // TASKQ_ACTIVE
    stopping: bool)                // destroy is calling kthread_stop

  datatype State = State(q: Queues, pool: Pool, w: Workers)

  // ---------------------------------------------------------------- lists

  ghost predicate Sorted(l: seq<nat>) { forall i, j :: 0 <= i < j < |l| ==> l[i] < l[j] }

  /** `taskq_insert_in_order`, and the loop of `task_expire_impl`: scan from the tail for a
      smaller id and link behind it. */
  function Insert(l: seq<nat>, id: nat): seq<nat> {
    if |l| > 0 && l[|l| - 1] >= id then Insert(l[..|l| - 1], id) + [l[|l| - 1]] else l + [id]
  }

  function Least(m: nat, l: seq<nat>): nat { if |l| > 0 && l[0] < m then l[0] else m }

  /** `taskq_lowest_id`: the least of the four heads and the next id. */
  function LowestId(q: Queues): nat {
    Least(Least(Least(Least(q.next, q.pend), q.prio), q.delay), q.active)
  }

  /** `taskq_find_list`: the scan stops at the first larger id. */
  function FindList(l: seq<nat>, id: nat): bool {
    |l| > 0 && (l[0] == id || (l[0] < id && FindList(l[1..], id)))
  }

  datatype Found = Nothing | Waiting | Busy

  /** `taskq_find`. */
  function Find(q: Queues, id: nat): Found {
    if FindList(q.delay, id) || FindList(q.prio, id) || FindList(q.pend, id) then Waiting
    else if id in q.active then Busy
    else Nothing
  }

  /** `taskq_next_ent`. */
  predicate HasNext(q: Queues) { |q.prio| > 0 || |q.pend| > 0 }

  function NextEnt(q: Queues): nat
    requires HasNext(q)
  {
    if |q.prio| > 0 then q.prio[0] else q.pend[0]
  }

  // ---------------------------------------------------------------- moves of a task

  datatype How = Tail | Front | NoQueue | Later

  /** Give out the next id and link it: to the tail of the list, or with TQ_NOQUEUE to the
      head of the priority list. */
  function Enqueue(q: Queues, how: How): Queues {
    var id := q.next;
    match how
    case Tail => q.(next := id + 1, pend := q.pend + [id], phase := q.phase[id := Pending])
    case Front => q.(next := id + 1, prio := q.prio + [id], phase := q.phase[id := Prioritised])
    case NoQueue => q.(next := id + 1, prio := [id] + q.prio, phase := q.phase[id := Prioritised])
    case Later => q.(next := id + 1, delay := q.delay + [id], phase := q.phase[id := Delayed])
  }

  /** `task_expire_impl`. */
  function Expire(q: Queues, id: nat): Queues {
    q.(delay := Remove(q.delay, id), prio := Insert(q.prio, id),
       phase := q.phase[id := Prioritised])
  }

  /** Recalculate the lowest id if it is the one that has just gone. */
  function Settle(q: Queues, id: nat): Queues {
    if q.lowest == id then q.(lowest := LowestId(q)) else q
  }

  /** `list_del_init` on whichever list the entry is on. */
  function Unlink(q: Queues, id: nat): Queues {
    q.(delay := Remove(q.delay, id), prio := Remove(q.prio, id), pend := Remove(q.pend, id),
       phase := q.phase[id := Cancelled])
  }

  /** `taskq_cancel_id`, its first section, for a task that waits. */
  function Cancel(q: Queues, id: nat): Queues { Settle(Unlink(q, id), id) }

  /** A thread takes the next task. */
  function Take(q: Queues): Queues
    requires HasNext(q)
  {
    var id := NextEnt(q);
    q.(prio := if |q.prio| > 0 then q.prio[1..] else q.prio,
       pend := if |q.prio| > 0 then q.pend else q.pend[1..],
       active := Insert(q.active, id), phase := q.phase[id := Active])
  }

  /** A thread has finished its task. */
  function Finish(q: Queues, id: nat): Queues {
    Settle(q.(active := Remove(q.active, id), phase := q.phase[id := Completed]), id)
  }

  // ---------------------------------------------------------------- moves of an entry

  /** `task_alloc` in the section that returns the entry: from the free list or a new one. */
  function Alloc(p: Pool, anew: bool): Pool
    requires anew || p.free > 0
  {
    if anew then p.(nalloc := p.nalloc + 1) else p.(free := p.free - 1)
  }

  /** `task_done`. */
  function Done(p: Pool): Pool {
    if p.nalloc <= p.minalloc then p.(free := p.free + 1) else p.(nalloc := p.nalloc - 1)
  }

  /** A task leaves the queue: its entry goes back to the pool unless it is the caller's. */
  function Retire(p: Pool, id: nat): Pool { if id in p.prealloc then p else Done(p) }

  /** The loop at the end of `taskq_destroy`. */
  function Drain(p: Pool): Pool
    decreases p.free
  {
    if p.free == 0 then p else Drain(p.(free := p.free - 1, nalloc := p.nalloc - 1))
  }

  // ---------------------------------------------------------------- moves of a thread

  predicate CanSpawn(w: Workers) {
    w.dynamic && w.nthreads + w.nspawn < w.maxthreads && w.on
  }

  /** `taskq_thread_spawn`; `sent` says whether the dispatch to the dynamic taskq succeeded. */
  function Spawn(w: Workers, sent: bool): Workers {
    if CanSpawn(w) then
      w.(nspawn := w.nspawn + 1, spawning := if sent then w.spawning + 1 else w.spawning)
    else w
  }

  predicate TooMany(w: Workers) { w.nthreads >= w.maxthreads }

  /** `taskq_thread` up to its loop: the thread joins the list, or leaves if there are too many. */
  function Start(w: Workers, t: nat): Workers
    requires w.spawning > 0
  {
    var v := w.(spawning := w.spawning - 1, nspawn := if w.dynamic then w.nspawn - 1 else w.nspawn);
    if TooMany(v) then v else v.(nthreads := v.nthreads + 1, threads := v.threads + [t])
  }

  function SpawnFailed(w: Workers): Workers
    requires w.spawning > 0
  {
    w.(spawning := w.spawning - 1, nspawn := w.nspawn - 1)
  }

  /** `taskq_thread_should_stop`. */
  predicate ShouldStop(w: Workers, q: Queues, t: nat) {
    && w.dynamic
    && |w.threads| > 0 && w.threads[0] != t
    && w.nspawn == 0 && w.nactive == 0 && w.nthreads > 1
    && !HasNext(q)
  }

  function Leave(w: Workers, t: nat): Workers {
    w.(nthreads := w.nthreads - 1, threads := Remove(w.threads, t))
  }

  function Occupy(w: Workers, t: nat, id: nat): Workers {
    w.(nactive := w.nactive + 1, work := w.work[t := id])
  }

  function Release(w: Workers, t: nat): Workers {
    w.(nactive := w.nactive - 1, work := w.work - {t})
  }

  // ---------------------------------------------------------------- steps

  datatype Step =
    | Dispatch(how: How, anew: bool)     // taskq_dispatch, taskq_dispatch_delay
    | DispatchEnt(front: bool)            // taskq_dispatch_ent
    | TimerFires(id: nat)                 // the timer and task_expire_impl as one step
    | CancelId(id: nat)                   // taskq_cancel_id of a waiting task
    | TimerStopped                        // taskq_cancel_id after del_timer_sync
    | Begin(t: nat)                       // taskq_thread takes a task
    | End(t: nat)                         // taskq_thread has run it
    | TrySpawn(sent: bool)                // taskq_thread_spawn, from a dispatch or a thread
    | ThreadStarts(t: nat)
    | ThreadFails
    | ThreadLeaves(t: nat)
    | CloseQueue                          // taskq_destroy clears TASKQ_ACTIVE
    | StopThreads                         // taskq_destroy has waited and stops the threads

  /** When the code can take the step. */
  ghost predicate Enabled(s: State, st: Step) {
    match st
    case Dispatch(how, anew) => anew || s.pool.free > 0
    case DispatchEnt(front) => true
    case TimerFires(id) => id in s.q.delay
    case CancelId(id) => Find(s.q, id) == Waiting
    case TimerStopped => s.pool.inHand > 0
    case Begin(t) => t in s.w.threads && t !in s.w.work && HasNext(s.q)
    case End(t) => t in s.w.work
    case TrySpawn(sent) => true
    case ThreadStarts(t) => s.w.spawning > 0 && t !in s.w.threads
    case ThreadFails => s.w.spawning > 0
    case ThreadLeaves(t) =>
      t in s.w.threads && t !in s.w.work && (s.w.stopping || ShouldStop(s.w, s.q, t))
    case CloseQueue => true
    case StopThreads => !s.w.on && s.w.nspawn == 0
  }

  /** A cancelled task goes back to the pool at once, or after its timer has been stopped. */
  function CancelEntry(s: State, id: nat): Pool {
    if id in s.pool.prealloc then s.pool
    else if id in s.q.delay then s.pool.(inHand := s.pool.inHand + 1)
    else Done(s.pool)
  }

  function DispatchStep(s: State, how: How, anew: bool): State
    requires anew || s.pool.free > 0
  {
    s.(q := Enqueue(s.q, how), pool := Alloc(s.pool, anew))
  }

  function DispatchEntStep(s: State, front: bool): State {
    s.(q := Enqueue(s.q, if front then Front else Tail),
       pool := s.pool.(prealloc := s.pool.prealloc + {s.q.next}))
  }

  function CancelStep(s: State, id: nat): State {
    s.(q := Cancel(s.q, id), pool := CancelEntry(s, id))
  }

  function TimerStoppedStep(s: State): State
    requires s.pool.inHand > 0
  {
    s.(pool := Done(s.pool.(inHand := s.pool.inHand - 1)))
  }

  function BeginStep(s: State, t: nat): State
    requires HasNext(s.q)
  {
    s.(q := Take(s.q), w := Occupy(s.w, t, NextEnt(s.q)))
  }

  function EndStep(s: State, t: nat): State
    requires t in s.w.work
  {
    s.(q := Finish(s.q, s.w.work[t]), pool := Retire(s.pool, s.w.work[t]), w := Release(s.w, t))
  }

  ghost function Next(s: State, st: Step): State
    requires Enabled(s, st)
  {
    match st
    case Dispatch(how, anew) => DispatchStep(s, how, anew)
    case DispatchEnt(front) => DispatchEntStep(s, front)
    case TimerFires(id) => s.(q := Expire(s.q, id))
    case CancelId(id) => CancelStep(s, id)
    case TimerStopped => TimerStoppedStep(s)
    case Begin(t) => BeginStep(s, t)
    case End(t) => EndStep(s, t)
    case TrySpawn(sent) => s.(w := Spawn(s.w, sent))
    case ThreadStarts(t) => s.(w := Start(s.w, t))
    case ThreadFails => s.(w := SpawnFailed(s.w))
    case ThreadLeaves(t) => s.(w := Leave(s.w, t))
    case CloseQueue => s.(w := s.w.(on := false))
    case StopThreads => s.(w := s.w.(stopping := true))
  }

  /** The dispatches that keep the priority list sorted: all but TQ_NOQUEUE on a non-empty one. */
  ghost predicate Tame(s: State, st: Step) {
    st.Dispatch? && st.how == NoQueue ==> |s.q.prio| == 0
  }

  ghost predicate RunOk(s: State, run: seq<Step>)
    decreases |run|
  {
    |run| == 0 || (Enabled(s, run[0]) && RunOk(Next(s, run[0]), run[1..]))
  }

  ghost function Run(s: State, run: seq<Step>): State
    requires RunOk(s, run)
    decreases |run|
  {
    if |run| == 0 then s else Run(Next(s, run[0]), run[1..])
  }

  ghost predicate TameRun(s: State, run: seq<Step>)
    requires RunOk(s, run)
    decreases |run|
  {
    |run| == 0 || (Tame(s, run[0]) && TameRun(Next(s, run[0]), run[1..]))
  }

  /** `taskq_create`, once its threads have started. */
  ghost predicate Created(s: State) {
    && s.q == Queues(1, 1, [], [], [], [], map[])
    && s.pool == Pool(s.pool.free, s.pool.free, s.pool.minalloc, 0, {})
    && s.pool.free <= s.pool.minalloc
    && Distinct(s.w.threads) && 1 <= |s.w.threads| <= s.w.maxthreads
    && s.w == Workers(s.w.threads, map[], |s.w.threads|, 0, 0, 0, s.w.maxthreads, s.w.dynamic,
                      true, false)
  }
}
