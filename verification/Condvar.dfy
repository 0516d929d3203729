/**
Condition variables at the granularity of their atomic operations.  Every thread has a program
counter naming the operation it does next; a step is one operation of one thread.
*/
module Condvar {
  import opened Seqs
  import opened Wrappers

  /** The operations of `cv_wait_common` and `__cv_timedwait_common`, in order. */
  datatype At =
    | ReadMutex        // m = ACCESS_ONCE(cv_mutex)
    | Swap             // xchg(&cv_mutex, mp)
    | Prepare          // prepare_to_wait_exclusive
    | CountIn          // atomic_inc(&cv_waiters)
    | Unlock           // mutex_exit(mp)
    | Sleep            // schedule()
    | CountOut         // atomic_dec_and_test(&cv_waiters)
    | Clear            // cv_mutex = NULL
    | WakeDestroyer    // wake_up(&cv_destroy)
    | Unqueue          // finish_wait
    | Unref            // atomic_dec(&cv_refs)
    | Relock           // mutex_enter(mp)

  /** The operations of `__cv_signal` and `__cv_broadcast` after taking a reference. */
  datatype Sig = ReadCount | Wake | Drop

  datatype Pc = Wait(at: At, mp: nat) | Signal(all: bool, sig: Sig)

  /** `__cv_destroy`: it drops the base reference, then reads the two counters in a loop. */
  datatype Destroyer = NotCalled | ReadsWaiters | ReadsRefs | Returned

  datatype State = State(
    refs: int,                   // cv_refs
    waiters: int,                // cv_waiters
    mutex: Option<nat>,          // cv_mutex
    queue: seq<nat>,             // cv_event
    asleep: set<nat>,            // threads that a wakeup would make runnable
    owner: map<nat, nat>,        // the mutexes that are held, and by whom
    pc: map<nat, Pc>,            // the threads inside an operation
    destroyer: Destroyer)

  // ---------------------------------------------------------------- waking

  /** `wake_up` on a queue of exclusive waiters: the first one asleep, if any. */
  function FirstAsleep(queue: seq<nat>, asleep: set<nat>): Option<nat> {
    if |queue| == 0 then None
    else if queue[0] in asleep then Some(queue[0])
    else FirstAsleep(queue[1..], asleep)
  }

  function Sleepers(queue: seq<nat>, asleep: set<nat>): set<nat> {
    set t | t in queue && t in asleep
  }

  /** The threads a signal or a broadcast makes runnable. */
  function Woken(queue: seq<nat>, asleep: set<nat>, all: bool): set<nat> {
    if all then Sleepers(queue, asleep)
    else if FirstAsleep(queue, asleep).Some? then {FirstAsleep(queue, asleep).value}
    else {}
  }

  /** A woken thread takes itself off the queue (autoremove_wake_function). */
  function Without(queue: seq<nat>, gone: set<nat>): seq<nat> {
    if |queue| == 0 then []
    else if queue[0] in gone then Without(queue[1..], gone)
    else [queue[0]] + Without(queue[1..], gone)
  }

  // ---------------------------------------------------------------- one operation of one thread

  function NextAt(at: At, unset: bool, last: bool): At {
    match at
    case ReadMutex => if unset then Swap else Prepare
    case Swap => Prepare
    case Prepare => CountIn
    case CountIn => Unlock
    case Unlock => Sleep
    case Sleep => CountOut
    case CountOut => if last then Clear else Unqueue
    case Clear => WakeDestroyer
    case WakeDestroyer => Unqueue
    case Unqueue => Unref
    case Unref => Relock
    case Relock => Relock
  }

  predicate Final(p: Pc) { if p.Wait? then p.at == Relock else p.sig == Drop }

  function NextPc(p: Pc, unset: bool, waiters: int): Pc {
    if p.Wait? then p.(at := NextAt(p.at, unset, waiters == 1))
    else p.(sig := if p.sig == ReadCount && waiters > 0 then Wake else Drop)
  }

  predicate AtWait(p: Pc, at: At) { p.Wait? && p.at == at }

  predicate AtWake(p: Pc) { p.Signal? && p.sig == Wake }

  function PcAfter(s: State, t: nat): map<nat, Pc>
    requires t in s.pc
  {
    if Final(s.pc[t]) then s.pc - {t}
    else s.pc[t := NextPc(s.pc[t], s.mutex.None?, s.waiters)]
  }

  function RefsAfter(refs: int, p: Pc): int {
    if AtWait(p, Unref) || (p.Signal? && p.sig == Drop) then refs - 1 else refs
  }

  function WaitersAfter(waiters: int, p: Pc): int {
    if AtWait(p, CountIn) then waiters + 1
    else if AtWait(p, CountOut) then waiters - 1 else waiters
  }

  function MutexAfter(m: Option<nat>, p: Pc): Option<nat> {
    if AtWait(p, Swap) then Some(p.mp) else if AtWait(p, Clear) then None else m
  }

  function QueueAfter(queue: seq<nat>, asleep: set<nat>, t: nat, p: Pc): seq<nat> {
    if AtWait(p, Prepare) then queue + [t]
    else if AtWait(p, Unqueue) then Remove(queue, t)
    else if AtWake(p) then Without(queue, Woken(queue, asleep, p.all))
    else queue
  }

  function AsleepAfter(queue: seq<nat>, asleep: set<nat>, t: nat, p: Pc): set<nat> {
    if AtWait(p, Prepare) then asleep + {t}
    else if AtWake(p) then asleep - Woken(queue, asleep, p.all)
    else asleep
  }

  function OwnerAfter(owner: map<nat, nat>, t: nat, p: Pc): map<nat, nat> {
    if AtWait(p, Unlock) then owner - {p.mp}
    else if AtWait(p, Relock) then owner[p.mp := t] else owner
  }

  function Act(s: State, t: nat): State
    requires t in s.pc
  {
    var p := s.pc[t];
    State(RefsAfter(s.refs, p), WaitersAfter(s.waiters, p), MutexAfter(s.mutex, p),
          QueueAfter(s.queue, s.asleep, t, p), AsleepAfter(s.queue, s.asleep, t, p),
          OwnerAfter(s.owner, t, p), PcAfter(s, t), s.destroyer)
  }

  // ---------------------------------------------------------------- steps

  datatype Step =
    | CallWait(t: nat, mp: nat)
    | CallSignal(t: nat, all: bool)
    | Operate(t: nat)
    | WokenElsewhere(t: nat)       // a timeout or a signal ends the sleep
    | Acquire(t: nat, mp: nat)
    | Release(t: nat, mp: nat)
    | CallDestroy
    | Look

  /** No operation starts once destroy has been called; waiting needs the mutex. */
  predicate Enabled(s: State, st: Step) {
    match st
    case CallWait(t, mp) =>
      s.destroyer == NotCalled && t !in s.pc && mp in s.owner && s.owner[mp] == t
    case CallSignal(t, all) => s.destroyer == NotCalled && t !in s.pc
    case Operate(t) =>
      && t in s.pc
      && (AtWait(s.pc[t], Sleep) ==> t !in s.asleep)
      && (AtWait(s.pc[t], Relock) ==> s.pc[t].mp !in s.owner)
    case WokenElsewhere(t) => t in s.pc && AtWait(s.pc[t], Sleep) && t in s.asleep
    case Acquire(t, mp) => t !in s.pc && mp !in s.owner
    case Release(t, mp) => t !in s.pc && mp in s.owner && s.owner[mp] == t
    case CallDestroy => s.destroyer == NotCalled
    case Look => s.destroyer == ReadsWaiters || s.destroyer == ReadsRefs
  }

  function Next(s: State, st: Step): State
    requires Enabled(s, st)
  {
    match st
    case CallWait(t, mp) => s.(refs := s.refs + 1, pc := s.pc[t := Wait(ReadMutex, mp)])
    case CallSignal(t, all) => s.(refs := s.refs + 1, pc := s.pc[t := Signal(all, ReadCount)])
    case Operate(t) => Act(s, t)
    case WokenElsewhere(t) => s.(asleep := s.asleep - {t})
    case Acquire(t, mp) => s.(owner := s.owner[mp := t])
    case Release(t, mp) => s.(owner := s.owner - {mp})
    case CallDestroy => s.(refs := s.refs - 1, destroyer := ReadsWaiters)
    case Look =>
      if s.destroyer == ReadsWaiters then
        s.(destroyer := if s.waiters == 0 then ReadsRefs else ReadsWaiters)
      else s.(destroyer := if s.refs == 0 then Returned else ReadsWaiters)
  }

  ghost predicate RunOk(s: State, run: seq<Step>)
    decreases |run|
  {
    |run| == 0 || (Enabled(s, run[0]) && RunOk(Next(s, run[0]), run[1..]))
  }

  ghost function Run(s: State, run: seq<Step>): State
    requires RunOk(s, run)
    decreases |run|
  {
    if |run| == 0 then s else Run(Next(s, run[0]), run[1..])
  }

  /** `__cv_init`, with any mutexes held. */
  predicate Fresh(s: State) {
    s == State(1, 0, None, [], {}, s.owner, map[], NotCalled)
  }

  // ---------------------------------------------------------------- the invariant

  /** The thread will touch the condition variable again, and holds a reference. */
  predicate Holds(p: Pc) { p.Signal? || p.at != Relock }

  /** The thread is counted in `cv_waiters`. */
  predicate Counted(p: Pc) { p.Wait? && (p.at == Unlock || p.at == Sleep || p.at == CountOut) }

  /** The thread vouches for a set `cv_mutex`: it is counted, about to be, or about to clear. */
  predicate Marks(p: Pc) { Counted(p) || AtWait(p, Prepare) || AtWait(p, CountIn) || AtWait(p, Clear) }

  predicate OnQueue(p: Pc) {
    Counted(p) || AtWait(p, CountIn) || AtWait(p, Clear) || AtWait(p, WakeDestroyer) || AtWait(p, Unqueue)
  }

  /** The thread can be asleep: between `prepare_to_wait` and the end of `schedule`. */
  predicate CanSleep(p: Pc) { AtWait(p, CountIn) || AtWait(p, Unlock) || AtWait(p, Sleep) }

  /** The thread holds its mutex: from the call to `mutex_exit`. */
  predicate OwnsMutex(p: Pc) {
    p.Wait? && (p.at == ReadMutex || p.at == Swap || p.at == Prepare || p.at == CountIn || p.at == Unlock)
  }

  function Holders(pc: map<nat, Pc>): set<nat> { set t | t in pc && Holds(pc[t]) }

  function CountedIn(pc: map<nat, Pc>): set<nat> { set t | t in pc && Counted(pc[t]) }

  predicate RefsOk(refs: int, pc: map<nat, Pc>, d: Destroyer) {
    refs == |Holders(pc)| + (if d == NotCalled then 1 else 0)
  }

  predicate WaitersOk(waiters: int, pc: map<nat, Pc>) { waiters == |CountedIn(pc)| }

  /** Despite the unlocked clear, a set `cv_mutex` always has a thread that vouches for it. */
  predicate MutexOk(m: Option<nat>, pc: map<nat, Pc>) {
    m.Some? ==> exists t :: t in pc && Marks(pc[t])
  }

  ghost predicate QueueOk(queue: seq<nat>, pc: map<nat, Pc>) {
    Distinct(queue) && forall t :: t in queue ==> t in pc && OnQueue(pc[t])
  }

  predicate AsleepOk(asleep: set<nat>, queue: seq<nat>, pc: map<nat, Pc>) {
    forall t :: t in asleep ==> t in queue && t in pc && CanSleep(pc[t])
  }

  predicate OwnerOk(owner: map<nat, nat>, pc: map<nat, Pc>) {
    forall t :: t in pc && OwnsMutex(pc[t]) ==> pc[t].mp in owner && owner[pc[t].mp] == t
  }

  ghost predicate Inv(s: State) {
    && RefsOk(s.refs, s.pc, s.destroyer)
    && WaitersOk(s.waiters, s.pc)
    && MutexOk(s.mutex, s.pc)
    && QueueOk(s.queue, s.pc)
    && AsleepOk(s.asleep, s.queue, s.pc)
    && OwnerOk(s.owner, s.pc)
    && (s.destroyer == Returned ==> Holders(s.pc) == {})
  }

  // ---------------------------------------------------------------- counting threads

  function One(b: bool): int { if b then 1 else 0 }

  lemma HoldersChange(pc: map<nat, Pc>, t: nat, p: Pc)
    ensures |Holders(pc[t := p])| == |Holders(pc)| + One(Holds(p)) - One(t in pc && Holds(pc[t]))
    ensures t in pc && !Holds(pc[t]) && !Holds(p) ==> Holders(pc[t := p]) == Holders(pc)
    ensures t in pc && Holds(pc[t]) ==> Holders(pc[t := p]) <= Holders(pc)
  {
    var now := Holders(pc[t := p]);
    assert now == if Holds(p) then Holders(pc) + {t} else Holders(pc) - {t};
    assert t in Holders(pc) <==> t in pc && Holds(pc[t]);
  }

  lemma CountedChange(pc: map<nat, Pc>, t: nat, p: Pc)
    ensures |CountedIn(pc[t := p])| == |CountedIn(pc)| + One(Counted(p)) - One(t in pc && Counted(pc[t]))
  {
    var now := CountedIn(pc[t := p]);
    assert now == if Counted(p) then CountedIn(pc) + {t} else CountedIn(pc) - {t};
    assert t in CountedIn(pc) <==> t in pc && Counted(pc[t]);
  }

  lemma ActRefs(s: State, t: nat)
    requires RefsOk(s.refs, s.pc, s.destroyer) && t in s.pc
    ensures RefsOk(RefsAfter(s.refs, s.pc[t]), PcAfter(s, t), s.destroyer)
    ensures Holders(PcAfter(s, t)) <= Holders(s.pc)
  {
    var p := s.pc[t];
    if Final(p) {
      assert Holders(s.pc - {t}) == Holders(s.pc) - {t};
    } else {
      HoldersChange(s.pc, t, NextPc(p, s.mutex.None?, s.waiters));
    }
  }

  lemma WaitersFollow(waiters: int, p: Pc, unset: bool)
    requires !Final(p)
    ensures WaitersAfter(waiters, p) == waiters + One(Counted(NextPc(p, unset, waiters))) - One(Counted(p))
  {
  }

  lemma ActWaiters(s: State, t: nat)
    requires WaitersOk(s.waiters, s.pc) && t in s.pc
    ensures WaitersOk(WaitersAfter(s.waiters, s.pc[t]), PcAfter(s, t))
  {
    var p := s.pc[t];
    if Final(p) {
      assert CountedIn(s.pc - {t}) == CountedIn(s.pc);
    } else {
      WaitersFollow(s.waiters, p, s.mutex.None?);
      CountedChange(s.pc, t, NextPc(p, s.mutex.None?, s.waiters));
    }
  }

  lemma AnotherIn(a: set<nat>, t: nat) returns (u: nat)
    requires t in a && |a| != 1
    ensures u in a && u != t
  {
    var b := a - {t};
    assert |b| == |a| - 1;
    u :| u in b;
  }

  lemma OtherCounted(pc: map<nat, Pc>, t: nat) returns (u: nat)
    requires t in pc && Counted(pc[t]) && |CountedIn(pc)| != 1
    ensures u in pc && u != t && Counted(pc[u])
  {
    assert t in CountedIn(pc);
    u := AnotherIn(CountedIn(pc), t);
  }

  /** The last waiter clears `cv_mutex`; any other leaves one behind that still vouches. */
  lemma ActMutex(s: State, t: nat)
    requires MutexOk(s.mutex, s.pc) && WaitersOk(s.waiters, s.pc) && t in s.pc
    ensures MutexOk(MutexAfter(s.mutex, s.pc[t]), PcAfter(s, t))
  {
    var p := s.pc[t];
    var after := PcAfter(s, t);
    if MutexAfter(s.mutex, p).Some? {
      if AtWait(p, CountOut) && s.waiters != 1 {
        var u := OtherCounted(s.pc, t);
        assert u in after && Marks(after[u]);
      } else if Marks(p) || AtWait(p, Swap) {
        assert t in after && Marks(after[t]);
      } else {
        var u :| u in s.pc && Marks(s.pc[u]);
        assert u in after && Marks(after[u]);
      }
    }
  }

  // ---------------------------------------------------------------- the queue

  lemma {:induction false} WithoutKeeps(queue: seq<nat>, gone: set<nat>)
    requires Distinct(queue)
    ensures Distinct(Without(queue, gone))
    ensures forall t: nat :: t in Without(queue, gone) <==> t in queue && t !in gone
  {
    if |queue| > 0 {
      assert queue == [queue[0]] + queue[1..];
      assert queue[0] !in queue[1..];
      WithoutKeeps(queue[1..], gone);
    }
  }

  lemma ActQueue(s: State, t: nat)
    requires QueueOk(s.queue, s.pc) && t in s.pc
    ensures QueueOk(QueueAfter(s.queue, s.asleep, t, s.pc[t]), PcAfter(s, t))
  {
    var p := s.pc[t];
    if AtWait(p, Prepare) {
      DistinctAppend(s.queue, t);
    } else if AtWait(p, Unqueue) {
      RemoveDistinct(s.queue, t);
    } else if AtWake(p) {
      WithoutKeeps(s.queue, Woken(s.queue, s.asleep, p.all));
    }
  }

  lemma ActAsleep(s: State, t: nat)
    requires AsleepOk(s.asleep, s.queue, s.pc) && QueueOk(s.queue, s.pc) && t in s.pc
    requires AtWait(s.pc[t], Sleep) ==> t !in s.asleep
    ensures AsleepOk(AsleepAfter(s.queue, s.asleep, t, s.pc[t]),
                     QueueAfter(s.queue, s.asleep, t, s.pc[t]), PcAfter(s, t))
  {
    var p := s.pc[t];
    if AtWait(p, Unqueue) {
      RemoveDistinct(s.queue, t);
    } else if AtWake(p) {
      WithoutKeeps(s.queue, Woken(s.queue, s.asleep, p.all));
    }
  }

  lemma ActOwner(s: State, t: nat)
    requires OwnerOk(s.owner, s.pc) && t in s.pc
    requires AtWait(s.pc[t], Relock) ==> s.pc[t].mp !in s.owner
    ensures OwnerOk(OwnerAfter(s.owner, t, s.pc[t]), PcAfter(s, t))
  {
  }

  // ---------------------------------------------------------------- every step keeps it

  lemma ActInv(s: State, t: nat)
    requires Inv(s) && Enabled(s, Operate(t))
    ensures Inv(Act(s, t))
  {
    ActRefs(s, t);
    ActWaiters(s, t);
    ActMutex(s, t);
    ActQueue(s, t);
    ActAsleep(s, t);
    ActOwner(s, t);
  }

  lemma CallCounts(s: State, t: nat, p: Pc)
    requires RefsOk(s.refs, s.pc, s.destroyer) && WaitersOk(s.waiters, s.pc)
    requires t !in s.pc && Holds(p) && !Counted(p)
    ensures RefsOk(s.refs + 1, s.pc[t := p], s.destroyer) && WaitersOk(s.waiters, s.pc[t := p])
  {
    HoldersChange(s.pc, t, p);
    CountedChange(s.pc, t, p);
  }

  lemma CallMutex(m: Option<nat>, pc: map<nat, Pc>, t: nat, p: Pc)
    requires MutexOk(m, pc) && t !in pc
    ensures MutexOk(m, pc[t := p])
  {
    if m.Some? {
      var u :| u in pc && Marks(pc[u]);
      assert u in pc[t := p] && Marks(pc[t := p][u]);
    }
  }

  lemma CallInv(s: State, t: nat, p: Pc)
    requires Inv(s) && t !in s.pc && s.destroyer == NotCalled
    requires
      || (p.Wait? && p.at == ReadMutex && p.mp in s.owner && s.owner[p.mp] == t)
      || (p.Signal? && p.sig == ReadCount)
    ensures Inv(s.(refs := s.refs + 1, pc := s.pc[t := p]))
  {
    CallCounts(s, t, p);
    CallMutex(s.mutex, s.pc, t, p);
  }

  lemma HolderOrNot(pc: map<nat, Pc>)
    ensures forall t :: t in pc ==> (Holds(pc[t]) <==> t in Holders(pc))
  {
  }

  lemma NextInv(s: State, st: Step)
    requires Inv(s) && Enabled(s, st)
    ensures Inv(Next(s, st))
  {
    match st
    case CallWait(t, mp) => CallInv(s, t, Wait(ReadMutex, mp));
    case CallSignal(t, all) => CallInv(s, t, Signal(all, ReadCount));
    case Operate(t) => ActInv(s, t);
    case _ =>
  }

  lemma FreshInv(s: State)
    requires Fresh(s)
    ensures Inv(s)
  {
    assert Holders(s.pc) == {};
    assert CountedIn(s.pc) == {};
  }

  lemma StaysReturned(s: State, st: Step)
    requires s.destroyer == Returned && Enabled(s, st)
    ensures Next(s, st).destroyer == Returned
  {
  }

  /** Every run keeps the invariant, and a destroy that has returned is final. */
  lemma {:induction false} RunInv(s: State, run: seq<Step>)
    requires Inv(s) && RunOk(s, run)
    ensures Inv(Run(s, run))
    ensures s.destroyer == Returned ==> Run(s, run).destroyer == Returned
    decreases |run|
  {
    if |run| > 0 {
      NextInv(s, run[0]);
      if s.destroyer == Returned {
        StaysReturned(s, run[0]);
      }
      RunInv(Next(s, run[0]), run[1..]);
    }
  }

  // ---------------------------------------------------------------- destroying

  lemma NobodyLeft(s: State)
    requires Inv(s) && s.destroyer == Returned
    ensures s.refs == 0 && s.waiters == 0 && s.mutex == None && |s.queue| == 0
    ensures forall t :: t in s.pc ==> AtWait(s.pc[t], Relock)
  {
    HolderOrNot(s.pc);
    assert CountedIn(s.pc) == {};
    if |s.queue| > 0 {
      QueueHead(s.queue, s.pc);
    }
  }

  lemma QueueHead(queue: seq<nat>, pc: map<nat, Pc>)
    requires QueueOk(queue, pc) && |queue| > 0
    ensures exists t :: t in pc && Holds(pc[t])
  {
    assert queue[0] in queue;
    assert queue[0] in pc && Holds(pc[queue[0]]);
  }

  /** `__cv_destroy` returns only when no thread will touch the condition variable again: the
      threads still in an operation have only their own mutex to take.  The counters are zero,
      `cv_mutex` is NULL and the queue is empty. */
  lemma DestroyIsSafe(s: State, run: seq<Step>)
    requires Fresh(s) && RunOk(s, run) && Run(s, run).destroyer == Returned
    ensures var e := Run(s, run);
      && e.refs == 0 && e.waiters == 0 && e.mutex == None && |e.queue| == 0
      && forall t :: t in e.pc ==> AtWait(e.pc[t], Relock)
  {
    FreshInv(s);
    RunInv(s, run);
    NobodyLeft(Run(s, run));
  }

  /** And it stays so: nothing changes the condition variable after that. */
  lemma QuietAfterDestroy(s: State, run: seq<Step>)
    requires Inv(s) && s.destroyer == Returned && RunOk(s, run)
    ensures var e := Run(s, run);
      e.refs == 0 && e.waiters == 0 && e.mutex == None && |e.queue| == 0
  {
    RunInv(s, run);
    NobodyLeft(Run(s, run));
  }

  /** Once every operation is over, two looks let destroy return. */
  lemma DestroyReturns(s: State)
    requires Inv(s) && s.destroyer == ReadsWaiters && Holders(s.pc) == {}
    ensures Next(Next(s, Look), Look).destroyer == Returned
  {
    HolderOrNot(s.pc);
    assert CountedIn(s.pc) == {};
  }

  /** Destroy goes past its first test exactly if no thread is between counting itself in and out,
      and returns from its second exactly if none will touch the condition variable again. */
  lemma LookExact(s: State)
    requires Inv(s) && Enabled(s, Look)
    ensures var d := Next(s, Look).destroyer;
      if s.destroyer == ReadsWaiters then
        d == if exists t :: t in s.pc && Counted(s.pc[t]) then ReadsWaiters else ReadsRefs
      else
        d == if exists t :: t in s.pc && Holds(s.pc[t]) then ReadsWaiters else Returned
  {
    if t :| t in s.pc && Counted(s.pc[t]) {
      assert t in CountedIn(s.pc);
    } else {
      assert CountedIn(s.pc) == {};
    }
    if t :| t in s.pc && Holds(s.pc[t]) {
      assert t in Holders(s.pc);
    } else {
      assert Holders(s.pc) == {};
    }
  }

  /** A waiter that finds `cv_mutex` set writes nothing to it: its second operation queues it, behind
      everyone queued so far. */
  lemma QueuesBehind(s: State, t: nat)
    requires t in s.pc && AtWait(s.pc[t], ReadMutex) && s.mutex.Some?
    ensures var u := Act(Act(s, t), t);
      && u.queue == s.queue + [t] && u.asleep == s.asleep + {t}
      && u.mutex == s.mutex && u.waiters == s.waiters && u.refs == s.refs && u.owner == s.owner
  {
    var p := s.pc[t];
    assert Act(s, t).pc[t] == Wait(Prepare, p.mp);
  }

  // ---------------------------------------------------------------- what a wait returns with

  /** `t` is waiting on the mutex `mp`, or is done and owns it. */
  ghost predicate Engaged(s: State, t: nat, mp: nat) {
    if t in s.pc then s.pc[t].Wait? && s.pc[t].mp == mp else mp in s.owner && s.owner[mp] == t
  }

  /** `t` does nothing of its own after the wait. */
  predicate StaysWith(st: Step, t: nat, mp: nat) {
    st != Release(t, mp) && !(st.CallWait? && st.t == t) && !(st.CallSignal? && st.t == t)
  }

  lemma StepEngaged(s: State, st: Step, t: nat, mp: nat)
    requires OwnerOk(s.owner, s.pc) && Enabled(s, st) && Engaged(s, t, mp) && StaysWith(st, t, mp)
    ensures Engaged(Next(s, st), t, mp)
  {
  }

  /** A wait returns with its mutex, through any interleaving: once `t` has left its wait it owns
      the mutex it came with, for as long as it does not release it or call again. */
  lemma {:induction false} WaitReturnsOwning(s: State, run: seq<Step>, t: nat, mp: nat)
    requires Inv(s) && RunOk(s, run) && Engaged(s, t, mp)
    requires forall st :: st in run ==> StaysWith(st, t, mp)
    ensures Engaged(Run(s, run), t, mp)
    ensures var e := Run(s, run); t !in e.pc ==> mp in e.owner && e.owner[mp] == t
    decreases |run|
  {
    if |run| > 0 {
      assert run[0] in run;
      NextInv(s, run[0]);
      StepEngaged(s, run[0], t, mp);
      WaitReturnsOwning(Next(s, run[0]), run[1..], t, mp);
    }
  }

  /** `t` alone gets from `s` to `e`. */
  ghost predicate Leads(s: State, t: nat, e: State) {
    exists run :: RunOk(s, run) && Run(s, run) == e && forall st :: st in run ==> st == Operate(t)
  }

  lemma LeadsNowhere(s: State, t: nat)
    ensures Leads(s, t, s)
  {
    assert RunOk(s, []) && Run(s, []) == s;
  }

  lemma LeadsOn(s: State, t: nat, next: State, e: State)
    requires Enabled(s, Operate(t)) && Act(s, t) == next && Leads(next, t, e)
    ensures Leads(s, t, e)
  {
    var run :| RunOk(next, run) && Run(next, run) == e && forall st :: st in run ==> st == Operate(t);
    var more := [Operate(t)] + run;
    assert more[1..] == run;
    assert RunOk(s, more) && Run(s, more) == e;
  }

  /** A condition variable with one thread at work on it. */
  function Lone(refs: int, waiters: int, m: Option<nat>, queue: seq<nat>, asleep: set<nat>,
                owner: map<nat, nat>, t: nat, p: Pc): State
  {
    State(refs, waiters, m, queue, asleep, owner, map[t := p], NotCalled)
  }

  lemma LonePc(m: map<nat, Pc>, t: nat, p: Pc, q: Pc)
    requires m == map[t := p]
    ensures m[t := q] == map[t := q] && m - {t} == map[]
  {
  }

  /** What an operation does when nobody else is there. */
  function LoneAfter(s: State, t: nat, p: Pc): State
    requires p.Wait?
  {
    Lone(RefsAfter(s.refs, p), WaitersAfter(s.waiters, p), MutexAfter(s.mutex, p),
         QueueAfter(s.queue, s.asleep, t, p), AsleepAfter(s.queue, s.asleep, t, p),
         OwnerAfter(s.owner, t, p), t, Wait(NextAt(p.at, s.mutex.None?, s.waiters == 1), p.mp))
  }

  lemma LoneOn(s: State, t: nat, p: Pc, next: State, e: State)
    requires s.pc == map[t := p] && s.destroyer == NotCalled && p.Wait? && !Final(p)
    requires (p.at == Sleep ==> t !in s.asleep) && LoneAfter(s, t, p) == next && Leads(next, t, e)
    ensures Leads(s, t, e)
  {
    LonePc(s.pc, t, p, NextPc(p, s.mutex.None?, s.waiters));
    LeadsOn(s, t, next, e);
  }

  /** On the way to sleep: `o` is what is held meanwhile. */
  lemma LoneQueues(o: map<nat, nat>, t: nat, mp: nat, e: State)
    requires Leads(Lone(2, 1, Some(mp), [t], {t}, o, t, Wait(Unlock, mp)), t, e)
    ensures Leads(Lone(2, 0, Some(mp), [], {}, o, t, Wait(Prepare, mp)), t, e)
  {
    var s2 := Lone(2, 0, Some(mp), [], {}, o, t, Wait(Prepare, mp));
    var s3 := Lone(2, 0, Some(mp), [t], {t}, o, t, Wait(CountIn, mp));
    LoneOn(s3, t, Wait(CountIn, mp), Lone(2, 1, Some(mp), [t], {t}, o, t, Wait(Unlock, mp)), e);
    LoneOn(s2, t, Wait(Prepare, mp), s3, e);
  }

  lemma LoneClaims(o: map<nat, nat>, t: nat, mp: nat, e: State)
    requires Leads(Lone(2, 0, Some(mp), [], {}, o, t, Wait(Prepare, mp)), t, e)
    ensures Leads(Lone(2, 0, None, [], {}, o, t, Wait(ReadMutex, mp)), t, e)
  {
    var s0 := Lone(2, 0, None, [], {}, o, t, Wait(ReadMutex, mp));
    var s1 := Lone(2, 0, None, [], {}, o, t, Wait(Swap, mp));
    LoneOn(s1, t, Wait(Swap, mp), Lone(2, 0, Some(mp), [], {}, o, t, Wait(Prepare, mp)), e);
    LoneOn(s0, t, Wait(ReadMutex, mp), s1, e);
  }

  /** The first half of a wait on an unused condition variable, up to `schedule`: the thread is
      queued, asleep and counted, cv_mutex names its mutex, and the mutex is free. */
  lemma LoneWaitSleeps(s: State, t: nat, mp: nat)
    requires Fresh(s) && mp in s.owner && s.owner[mp] == t
    ensures Leads(Next(s, CallWait(t, mp)), t,
                  Lone(2, 1, Some(mp), [t], {t}, s.owner - {mp}, t, Wait(Sleep, mp)))
  {
    var s4 := Lone(2, 1, Some(mp), [t], {t}, s.owner, t, Wait(Unlock, mp));
    var e := Lone(2, 1, Some(mp), [t], {t}, s.owner - {mp}, t, Wait(Sleep, mp));
    LeadsNowhere(e, t);
    LoneOn(s4, t, Wait(Unlock, mp), e, e);
    LoneQueues(s.owner, t, mp, e);
    LoneClaims(s.owner, t, mp, e);
  }

  lemma LoneLeaves(o: map<nat, nat>, t: nat, mp: nat)
    requires mp !in o
    ensures Leads(Lone(1, 0, None, [], {}, o, t, Wait(Relock, mp)), t,
                  State(1, 0, None, [], {}, o[mp := t], map[], NotCalled))
  {
    var s := Lone(1, 0, None, [], {}, o, t, Wait(Relock, mp));
    var e := State(1, 0, None, [], {}, o[mp := t], map[], NotCalled);
    LonePc(s.pc, t, Wait(Relock, mp), Wait(Relock, mp));
    LeadsNowhere(e, t);
    LeadsOn(s, t, e, e);
  }

  lemma LoneDrops(o: map<nat, nat>, t: nat, mp: nat, e: State)
    requires Leads(Lone(1, 0, None, [], {}, o, t, Wait(Relock, mp)), t, e)
    ensures Leads(Lone(2, 0, None, [], {}, o, t, Wait(Unqueue, mp)), t, e)
  {
    var s4 := Lone(2, 0, None, [], {}, o, t, Wait(Unqueue, mp));
    var s5 := Lone(2, 0, None, [], {}, o, t, Wait(Unref, mp));
    LoneOn(s5, t, Wait(Unref, mp), Lone(1, 0, None, [], {}, o, t, Wait(Relock, mp)), e);
    LoneOn(s4, t, Wait(Unqueue, mp), s5, e);
  }

  lemma LoneClears(o: map<nat, nat>, t: nat, mp: nat, e: State)
    requires Leads(Lone(2, 0, None, [], {}, o, t, Wait(Unqueue, mp)), t, e)
    ensures Leads(Lone(2, 0, Some(mp), [], {}, o, t, Wait(Clear, mp)), t, e)
  {
    var s2 := Lone(2, 0, Some(mp), [], {}, o, t, Wait(Clear, mp));
    var s3 := Lone(2, 0, None, [], {}, o, t, Wait(WakeDestroyer, mp));
    LoneOn(s3, t, Wait(WakeDestroyer, mp), Lone(2, 0, None, [], {}, o, t, Wait(Unqueue, mp)), e);
    LoneOn(s2, t, Wait(Clear, mp), s3, e);
  }

  lemma LoneCountsOut(o: map<nat, nat>, t: nat, mp: nat, e: State)
    requires Leads(Lone(2, 0, Some(mp), [], {}, o, t, Wait(Clear, mp)), t, e)
    ensures Leads(Lone(2, 1, Some(mp), [], {}, o, t, Wait(Sleep, mp)), t, e)
  {
    var s0 := Lone(2, 1, Some(mp), [], {}, o, t, Wait(Sleep, mp));
    var s1 := Lone(2, 1, Some(mp), [], {}, o, t, Wait(CountOut, mp));
    LoneOn(s1, t, Wait(CountOut, mp), Lone(2, 0, Some(mp), [], {}, o, t, Wait(Clear, mp)), e);
    LoneOn(s0, t, Wait(Sleep, mp), s1, e);
  }

  /** The second half, once a wakeup has taken the thread off the queue: everything is as it was
      before the call, the mutex again the thread's. */
  lemma LoneWaitReturns(o: map<nat, nat>, t: nat, mp: nat)
    requires mp !in o
    ensures Leads(Lone(2, 1, Some(mp), [], {}, o, t, Wait(Sleep, mp)), t,
                  State(1, 0, None, [], {}, o[mp := t], map[], NotCalled))
  {
    var e := State(1, 0, None, [], {}, o[mp := t], map[], NotCalled);
    LoneLeaves(o, t, mp);
    LoneDrops(o, t, mp, e);
    LoneClears(o, t, mp, e);
    LoneCountsOut(o, t, mp, e);
  }

  // ---------------------------------------------------------------- signalling

  /** Every waiter uses the mutex `mp`. */
  predicate OneMutex(pc: map<nat, Pc>, mp: nat) {
    forall t :: t in pc && pc[t].Wait? ==> pc[t].mp == mp
  }

  /** `t` is signalling with the mutex held. */
  predicate Signals(s: State, t: nat, mp: nat) {
    t in s.pc && s.pc[t].Signal? && mp in s.owner && s.owner[mp] == t
  }

  function Asleep(s: State): set<nat> { Sleepers(s.queue, s.asleep) }

  /** With the mutex held by the signaller, everyone asleep has been counted. */
  lemma SleepersAreCounted(s: State, t: nat, mp: nat)
    requires Inv(s) && OneMutex(s.pc, mp) && Signals(s, t, mp)
    ensures Asleep(s) <= CountedIn(s.pc) && |Asleep(s)| <= s.waiters
  {
    forall u | u in Asleep(s) ensures u in CountedIn(s.pc) {
      assert u in s.asleep && CanSleep(s.pc[u]);
    }
    SubsetCard(Asleep(s), CountedIn(s.pc));
  }

  /** A signal wakes the sleeper that has been queued longest. */
  lemma {:induction false} LongestQueuedFirst(queue: seq<nat>, asleep: set<nat>) returns (k: nat)
    requires FirstAsleep(queue, asleep).Some?
    ensures k < |queue| && FirstAsleep(queue, asleep).value == queue[k]
    ensures queue[k] in asleep && forall i :: 0 <= i < k ==> queue[i] !in asleep
  {
    if queue[0] in asleep {
      k := 0;
    } else {
      k := LongestQueuedFirst(queue[1..], asleep);
      k := k + 1;
    }
  }

  lemma {:induction false} FirstAsleepIs(queue: seq<nat>, asleep: set<nat>)
    ensures FirstAsleep(queue, asleep).Some? <==> Sleepers(queue, asleep) != {}
    ensures FirstAsleep(queue, asleep).Some? ==>
      FirstAsleep(queue, asleep).value in Sleepers(queue, asleep)
  {
    if |queue| > 0 {
      assert queue == [queue[0]] + queue[1..];
      FirstAsleepIs(queue[1..], asleep);
      if queue[0] in asleep {
        assert queue[0] in Sleepers(queue, asleep);
      } else {
        assert Sleepers(queue, asleep) == Sleepers(queue[1..], asleep);
      }
    }
  }

  /** A wakeup takes exactly the woken threads out of the sleepers: one for a signal, if any is
      asleep, and all for a broadcast. */
  lemma WakeTakes(s: State, t: nat)
    requires Inv(s) && t in s.pc && AtWake(s.pc[t])
    ensures s.pc[t].all ==> Asleep(Act(s, t)) == {}
    ensures !s.pc[t].all && Asleep(s) != {} ==>
      Asleep(Act(s, t)) < Asleep(s) && |Asleep(Act(s, t))| == |Asleep(s)| - 1
    ensures Asleep(Act(s, t)) <= Asleep(s)
  {
    var w := Woken(s.queue, s.asleep, s.pc[t].all);
    FirstAsleepIs(s.queue, s.asleep);
    WithoutKeeps(s.queue, w);
    assert Asleep(Act(s, t)) == Asleep(s) - w;
  }

  /** While the signaller holds the mutex nobody falls asleep. */
  lemma NobodyFallsAsleep(s: State, st: Step, t: nat, mp: nat)
    requires Inv(s) && OneMutex(s.pc, mp) && Signals(s, t, mp) && Enabled(s, st)
    ensures Asleep(Next(s, st)) <= Asleep(s)
  {
    if st.Operate? {
      var p := s.pc[st.t];
      if AtWait(p, Prepare) {
        assert OwnsMutex(p);
        assert false;
      } else if AtWait(p, Unqueue) {
        RemoveDistinct(s.queue, st.t);
      } else if AtWake(p) {
        WakeTakes(s, st.t);
      }
    }
  }

  /** How far a signal call has come: `before` is who was asleep when it began. */
  predicate Progress(s: State, t: nat, mp: nat, before: set<nat>) {
    && Signals(s, t, mp)
    && Asleep(s) <= before
    && (s.pc[t].sig == Drop && before != {} ==> Asleep(s) < before)
    && (s.pc[t].sig == Drop && s.pc[t].all ==> Asleep(s) == {})
  }

  lemma StillSignals(s: State, st: Step, t: nat, mp: nat)
    requires Inv(s) && Signals(s, t, mp) && Enabled(s, st)
    requires OneMutex(s.pc, mp)
    requires st == Operate(t) ==> s.pc[t].sig != Drop
    ensures Signals(Next(s, st), t, mp)
  {
    if st.Operate? && st.t != t {
      var p := s.pc[st.t];
      if AtWait(p, Unlock) {
        assert OwnsMutex(p);
      }
    }
  }

  lemma OwnOperation(s: State, t: nat, mp: nat, before: set<nat>)
    requires Inv(s) && OneMutex(s.pc, mp) && Progress(s, t, mp, before) && s.pc[t].sig != Drop
    ensures Progress(Act(s, t), t, mp, before)
  {
    StillSignals(s, Operate(t), t, mp);
    SleepersAreCounted(s, t, mp);
    if s.pc[t].sig == Wake {
      WakeTakes(s, t);
    } else if s.waiters == 0 {
      assert Asleep(s) == {};
      assert Asleep(Act(s, t)) == Asleep(s);
    }
  }

  lemma StepProgress(s: State, st: Step, t: nat, mp: nat, before: set<nat>)
    requires Inv(s) && OneMutex(s.pc, mp) && Progress(s, t, mp, before) && Enabled(s, st)
    requires st == Operate(t) ==> s.pc[t].sig != Drop
    ensures Progress(Next(s, st), t, mp, before)
  {
    if st == Operate(t) {
      OwnOperation(s, t, mp, before);
    } else {
      StillSignals(s, st, t, mp);
      NobodyFallsAsleep(s, st, t, mp);
      assert Next(s, st).pc[t] == s.pc[t];
    }
  }

  /** Every wait in the run uses the mutex, and the signaller does not finish its call. */
  predicate Within(run: seq<Step>, s: State, t: nat, mp: nat)
    requires RunOk(s, run)
    decreases |run|
  {
    |run| == 0 ||
    (&& (run[0].CallWait? ==> run[0].mp == mp)
     && (run[0] == Operate(t) && t in s.pc && s.pc[t].Signal? ==> s.pc[t].sig != Drop)
     && Within(run[1..], Next(s, run[0]), t, mp))
  }

  lemma StepOneMutex(s: State, st: Step, mp: nat)
    requires OneMutex(s.pc, mp) && Enabled(s, st) && (st.CallWait? ==> st.mp == mp)
    ensures OneMutex(Next(s, st).pc, mp)
  {
  }

  /** The assertion of the wait functions: if every wait uses one mutex, cv_mutex is NULL or it. */
  predicate NamesOnly(m: Option<nat>, mp: nat) { m == None || m == Some(mp) }

  lemma {:induction false} OnlyThatMutex(s: State, run: seq<Step>, mp: nat)
    requires RunOk(s, run) && OneMutex(s.pc, mp) && NamesOnly(s.mutex, mp)
    requires forall st :: st in run && st.CallWait? ==> st.mp == mp
    ensures NamesOnly(Run(s, run).mutex, mp)
    decreases |run|
  {
    if |run| > 0 {
      assert run[0] in run;
      StepOneMutex(s, run[0], mp);
      OnlyThatMutex(Next(s, run[0]), run[1..], mp);
    }
  }

  lemma {:induction false} CallProgress(s: State, run: seq<Step>, t: nat, mp: nat, before: set<nat>)
    requires Inv(s) && OneMutex(s.pc, mp) && Progress(s, t, mp, before)
    requires RunOk(s, run) && Within(run, s, t, mp)
    ensures Progress(Run(s, run), t, mp, before)
    decreases |run|
  {
    if |run| > 0 {
      NextInv(s, run[0]);
      StepOneMutex(s, run[0], mp);
      StepProgress(s, run[0], t, mp, before);
      CallProgress(Next(s, run[0]), run[1..], t, mp, before);
    }
  }

  /** No wakeup is lost: from the start of a signal call by the holder of the mutex, through any
      interleaving, up to its last operation, at least one of the threads asleep at the start has
      been made runnable, if there was one, and after a broadcast none is asleep. */
  lemma NoLostWakeup(s: State, run: seq<Step>, t: nat, mp: nat, all: bool)
    requires Inv(s) && OneMutex(s.pc, mp) && Enabled(s, CallSignal(t, all))
    requires mp in s.owner && s.owner[mp] == t
    requires RunOk(Next(s, CallSignal(t, all)), run)
    requires Within(run, Next(s, CallSignal(t, all)), t, mp)
    ensures var e := Run(Next(s, CallSignal(t, all)), run);
      && t in e.pc && e.pc[t].Signal? && Asleep(e) <= Asleep(s)
      && (e.pc[t].sig == Drop && Asleep(s) != {} ==> Asleep(e) < Asleep(s))
      && (e.pc[t].sig == Drop && e.pc[t].all ==> Asleep(e) == {})
  {
    var b := Next(s, CallSignal(t, all));
    NextInv(s, CallSignal(t, all));
    assert Asleep(b) == Asleep(s);
    CallProgress(b, run, t, mp, Asleep(s));
  }
}
