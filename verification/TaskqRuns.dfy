/** Whole runs of the task queue: what every reachable state satisfies. */
module TaskqRuns {
  import opened Seqs
  import opened TaskqSpec
  import opened TaskqProofs

  // ---------------------------------------------------------------- the invariant

  /** Kept by every step, whatever is dispatched. */
  ghost predicate Inv(s: State) {
    && Placed(s.q)
    && PoolOk(s.pool, s.q.phase)
    && ThreadsOk(s.w)
    && WorkOk(s.q.active, s.w.work)
  }

  /** Kept as well while no TQ_NOQUEUE dispatch finds the priority list occupied. */
  ghost predicate Sound(q: Queues) {
    Ordered(q) && LowestOk(q.lowest, q.next, q.phase)
  }

  lemma DispatchInv(s: State, how: How, anew: bool)
    requires Inv(s) && (anew || s.pool.free > 0)
    ensures Inv(Next(s, Dispatch(how, anew)))
  {
    EnqueuePlaced(s.q, how);
    DispatchPool(s.pool, s.q.phase, s.q.next, PhaseFor(how), anew);
  }

  lemma DispatchEntInv(s: State, front: bool)
    requires Inv(s)
    ensures Inv(Next(s, DispatchEnt(front)))
  {
    EnqueuePlaced(s.q, if front then Front else Tail);
    DispatchPool(s.pool, s.q.phase, s.q.next, if front then Prioritised else Pending, true);
  }

  lemma TimerFiresInv(s: State, id: nat)
    requires Inv(s) && id in s.q.delay
    ensures Inv(Next(s, TimerFires(id)))
  {
    ExpirePlaced(s.q, id);
    MovePool(s.pool, s.q.phase, id, Prioritised);
  }

  lemma CancelPool(p: Pool, ph: map<nat, Phase>, id: nat, waits: bool)
    requires PoolOk(p, ph) && id in ph && !Over(ph[id])
    ensures PoolOk(if id in p.prealloc then p else if waits then p.(inHand := p.inHand + 1) else Done(p),
                   ph[id := Cancelled])
  {
    RetirePool(p, ph, id, Cancelled);
  }

  lemma CancelIdInv(s: State, id: nat)
    requires Inv(s) && Find(s.q, id) == Waiting
    ensures Inv(Next(s, CancelId(id)))
  {
    var q, p := Cancel(s.q, id), CancelEntry(s, id);
    FoundWaits(s.q, id);
    assert Placed(q) && q.phase == s.q.phase[id := Cancelled] && q.active == s.q.active by {
      CancelPlaced(s.q, id);
    }
    assert PoolOk(p, q.phase) by {
      CancelPool(s.pool, s.q.phase, id, id in s.q.delay);
    }
    assert Next(s, CancelId(id)) == State(q, p, s.w);
  }

  lemma BeginInv(s: State, t: nat)
    requires Inv(s) && Enabled(s, Begin(t))
    ensures Inv(Next(s, Begin(t)))
  {
    var id := NextEnt(s.q);
    assert id in if |s.q.prio| > 0 then s.q.prio else s.q.pend;
    TakePlaced(s.q);
    MovePool(s.pool, s.q.phase, id, Active);
    OccupyThreads(s.w, t, id);
    OccupyWork(s.q.active, s.w.work, t, id);
  }

  lemma EndPool(q: Queues, p: Pool, id: nat)
    requires Placed(q) && PoolOk(p, q.phase) && id in q.active
    ensures PoolOk(Retire(p, id), Finish(q, id).phase)
  {
    FinishPlaced(q, id);
    RetirePool(p, q.phase, id, Completed);
  }

  lemma EndWork(q: Queues, w: Workers, t: nat)
    requires Placed(q) && WorkOk(q.active, w.work) && t in w.work
    ensures WorkOk(Finish(q, w.work[t]).active, Release(w, t).work)
  {
    FinishPlaced(q, w.work[t]);
    ReleaseWork(q.active, w.work, t);
  }

  lemma EndInv(s: State, t: nat)
    requires Inv(s) && t in s.w.work
    ensures Inv(Next(s, End(t)))
  {
    var id := s.w.work[t];
    var q, p, w := Finish(s.q, id), Retire(s.pool, id), Release(s.w, t);
    assert Placed(q) by { FinishPlaced(s.q, id); }
    assert PoolOk(p, q.phase) by { EndPool(s.q, s.pool, id); }
    assert ThreadsOk(w) by { ReleaseThreads(s.w, t); }
    assert WorkOk(q.active, w.work) by { EndWork(s.q, s.w, t); }
    assert Next(s, End(t)) == State(q, p, w);
  }

  lemma ThreadInv(s: State, st: Step)
    requires Inv(s) && Enabled(s, st)
    requires st.TrySpawn? || st.ThreadStarts? || st.ThreadFails? || st.ThreadLeaves?
    ensures Inv(Next(s, st))
  {
    match st
    case TrySpawn(sent) => SpawnThreads(s.w, sent);
    case ThreadStarts(t) => StartThreads(s.w, t);
    case ThreadFails => SpawnFailedThreads(s.w);
    case ThreadLeaves(t) => LeaveThreads(s.w, t);
  }

  lemma NextInv(s: State, st: Step)
    requires Inv(s) && Enabled(s, st)
    ensures Inv(Next(s, st))
  {
    match st
    case Dispatch(how, anew) => DispatchInv(s, how, anew);
    case DispatchEnt(front) => DispatchEntInv(s, front);
    case TimerFires(id) => TimerFiresInv(s, id);
    case CancelId(id) => CancelIdInv(s, id);
    case TimerStopped => HandedBackPool(s.pool, s.q.phase);
    case Begin(t) => BeginInv(s, t);
    case End(t) => EndInv(s, t);
    case CloseQueue =>
    case StopThreads =>
    case _ => ThreadInv(s, st);
  }

  lemma CreatedInv(s: State)
    requires Created(s)
    ensures Inv(s) && Sound(s.q)
  {
    assert Owned(s.q.phase, {}) == {};
  }

  lemma {:induction false} RunInv(s: State, run: seq<Step>)
    requires Inv(s) && RunOk(s, run)
    ensures Inv(Run(s, run))
    decreases |run|
  {
    if |run| > 0 {
      NextInv(s, run[0]);
      RunInv(Next(s, run[0]), run[1..]);
    }
  }

  // ---------------------------------------------------------------- sorted lists, lowest id

  lemma EnqueueSound(q: Queues, how: How)
    requires Placed(q) && Sound(q) && (how == NoQueue ==> |q.prio| == 0)
    ensures Sound(Enqueue(q, how))
  {
    if how == NoQueue {
      NoQueueSortsIff(q);
    } else {
      EnqueueOrdered(q, how);
    }
    LowestStays(q.lowest, q.next, q.phase, q.next, PhaseFor(how));
  }

  lemma ExpireSound(q: Queues, id: nat)
    requires Placed(q) && Sound(q) && id in q.delay
    ensures Sound(Expire(q, id))
  {
    ExpireOrdered(q, id);
    UnfinishedFrom(q.lowest, q.next, q.phase, id);
    LowestStays(q.lowest, q.next, q.phase, id, Prioritised);
  }

  lemma CancelSound(q: Queues, id: nat)
    requires Placed(q) && Sound(q) && (id in q.delay || id in q.prio || id in q.pend)
    ensures Sound(Cancel(q, id))
  {
    UnlinkOrdered(q, id);
    UnlinkPlaced(q, id);
    SettleLowest(Unlink(q, id), q.phase, id, Cancelled);
  }

  lemma TakeSound(q: Queues)
    requires Placed(q) && Sound(q) && HasNext(q)
    ensures Sound(Take(q))
  {
    var id := NextEnt(q);
    assert id in if |q.prio| > 0 then q.prio else q.pend;
    TakeOrdered(q);
    UnfinishedFrom(q.lowest, q.next, q.phase, id);
    LowestStays(q.lowest, q.next, q.phase, id, Active);
  }

  lemma FinishSound(q: Queues, id: nat)
    requires Placed(q) && Sound(q) && id in q.active
    ensures Sound(Finish(q, id))
  {
    RanOrdered(q, id);
    RanPlaced(q, id);
    SettleLowest(Ran(q, id), q.phase, id, Completed);
  }

  lemma NextSound(s: State, st: Step)
    requires Inv(s) && Sound(s.q) && Enabled(s, st) && Tame(s, st)
    ensures Sound(Next(s, st).q)
  {
    match st
    case Dispatch(how, _) => EnqueueSound(s.q, how);
    case DispatchEnt(front) => EnqueueSound(s.q, if front then Front else Tail);
    case TimerFires(id) => ExpireSound(s.q, id);
    case CancelId(id) => FoundWaits(s.q, id); CancelSound(s.q, id);
    case Begin(t) => TakeSound(s.q);
    case End(t) => FinishSound(s.q, s.w.work[t]);
    case _ =>
  }

  lemma {:induction false} RunSound(s: State, run: seq<Step>)
    requires Inv(s) && Sound(s.q) && RunOk(s, run) && TameRun(s, run)
    ensures Inv(Run(s, run)) && Sound(Run(s, run).q)
    decreases |run|
  {
    if |run| > 0 {
      NextInv(s, run[0]);
      NextSound(s, run[0]);
      RunSound(Next(s, run[0]), run[1..]);
    }
  }

  // ---------------------------------------------------------------- the life of a task

  /** One step in the life of a task. */
  ghost predicate Onward(a: Phase, b: Phase) {
    match a
    case Delayed => b == Prioritised || b == Cancelled
    case Prioritised => b == Active || b == Cancelled
    case Pending => b == Active || b == Cancelled
    case Active => b == Completed
    case _ => false
  }

  /** The state of a task, for any id: none before its dispatch. */
  datatype Life = Unborn | In(phase: Phase)

  ghost function LifeOf(q: Queues, id: nat): Life {
    if id in q.phase then In(q.phase[id]) else Unborn
  }

  /** A step gives at most one task a new phase. */
  datatype Change = NoChange | Becomes(id: nat, phase: Phase)

  function PhaseFor(how: How): Phase {
    match how
    case Tail => Pending
    case Later => Delayed
    case _ => Prioritised
  }

  ghost function ChangeOf(s: State, st: Step): Change
    requires Enabled(s, st)
  {
    match st
    case Dispatch(how, _) => Becomes(s.q.next, PhaseFor(how))
    case DispatchEnt(front) => Becomes(s.q.next, PhaseFor(if front then Front else Tail))
    case TimerFires(id) => Becomes(id, Prioritised)
    case CancelId(id) => Becomes(id, Cancelled)
    case Begin(t) => Becomes(NextEnt(s.q), Active)
    case End(t) => Becomes(s.w.work[t], Completed)
    case _ => NoChange
  }

  ghost function Apply(ph: map<nat, Phase>, c: Change): map<nat, Phase> {
    if c.Becomes? then ph[c.id := c.phase] else ph
  }

  lemma ChangeIs(s: State, st: Step)
    requires Placed(s.q) && WorkOk(s.q.active, s.w.work) && Enabled(s, st)
    ensures Next(s, st).q.phase == Apply(s.q.phase, ChangeOf(s, st))
  {
    match st
    case CancelId(id) => FoundWaits(s.q, id); CancelPlaced(s.q, id);
    case End(t) => FinishPlaced(s.q, s.w.work[t]);
    case _ =>
  }

  lemma NextWaits(q: Queues)
    requires Placed(q) && HasNext(q)
    ensures NextEnt(q) in q.phase
    ensures q.phase[NextEnt(q)] == Prioritised || q.phase[NextEnt(q)] == Pending
  {
    assert NextEnt(q) in if |q.prio| > 0 then q.prio else q.pend;
  }

  /** The change is one step onward in the life of the task, or its dispatch. */
  ghost predicate Proper(q: Queues, c: Change) {
    c.Becomes? ==>
      if c.id in q.phase then Onward(q.phase[c.id], c.phase)
      else c.phase == Pending || c.phase == Delayed || c.phase == Prioritised
  }

  lemma ChangeIsProper(s: State, st: Step)
    requires Placed(s.q) && WorkOk(s.q.active, s.w.work) && Enabled(s, st)
    ensures Proper(s.q, ChangeOf(s, st))
  {
    match st
    case CancelId(i) => FoundWaits(s.q, i);
    case Begin(t) => NextWaits(s.q);
    case _ =>
  }

  /** A step leaves a task alone, or moves it onward; ids are given out waiting. */
  lemma StepOnward(s: State, st: Step, id: nat)
    requires Placed(s.q) && WorkOk(s.q.active, s.w.work) && Enabled(s, st)
    ensures var a, b := LifeOf(s.q, id), LifeOf(Next(s, st).q, id);
      || a == b
      || (a.In? && b.In? && Onward(a.phase, b.phase))
      || (a == Unborn && b.In? && !Over(b.phase) && b.phase != Active)
  {
    ChangeIs(s, st);
    ChangeIsProper(s, st);
  }

  lemma OverStays(s: State, st: Step, id: nat)
    requires Inv(s) && Enabled(s, st) && id in s.q.phase && Over(s.q.phase[id])
    ensures id in Next(s, st).q.phase && Next(s, st).q.phase[id] == s.q.phase[id]
  {
    StepOnward(s, st, id);
  }

  /** A task that is over stays as it is. */
  lemma {:induction false} OverForever(s: State, run: seq<Step>, id: nat)
    requires Inv(s) && RunOk(s, run) && id in s.q.phase && Over(s.q.phase[id])
    ensures id in Run(s, run).q.phase && Run(s, run).q.phase[id] == s.q.phase[id]
    decreases |run|
  {
    if |run| > 0 {
      NextInv(s, run[0]);
      OverStays(s, run[0], id);
      OverForever(Next(s, run[0]), run[1..], id);
    }
  }

  /** Does this step start the task's function? */
  ghost predicate Executes(s: State, st: Step, id: nat) {
    st.Begin? && HasNext(s.q) && NextEnt(s.q) == id
  }

  ghost function Executions(s: State, run: seq<Step>, id: nat): nat
    requires RunOk(s, run)
    decreases |run|
  {
    if |run| == 0 then 0
    else (if Executes(s, run[0], id) then 1 else 0) + Executions(Next(s, run[0]), run[1..], id)
  }

  ghost function HasBegun(ph: map<nat, Phase>, id: nat): nat {
    if id in ph && (ph[id] == Active || ph[id] == Completed) then 1 else 0
  }

  ghost function Begun(q: Queues, id: nat): nat { HasBegun(q.phase, id) }

  lemma ExecutesIff(s: State, st: Step, id: nat)
    requires Placed(s.q) && Enabled(s, st)
    ensures Executes(s, st, id) <==> ChangeOf(s, st) == Becomes(id, Active)
  {
  }

  lemma StepBegins(s: State, st: Step, id: nat)
    requires Placed(s.q) && WorkOk(s.q.active, s.w.work) && Enabled(s, st)
    ensures Begun(Next(s, st).q, id) == Begun(s.q, id) + if Executes(s, st, id) then 1 else 0
  {
    ChangeIs(s, st);
    ChangeIsProper(s, st);
    ExecutesIff(s, st, id);
    BegunApply(s.q.phase, Next(s, st).q.phase, ChangeOf(s, st), id);
  }

  lemma BegunApply(ph: map<nat, Phase>, next: map<nat, Phase>, c: Change, id: nat)
    requires next == Apply(ph, c)
    requires c.Becomes? && c.id in ph ==> Onward(ph[c.id], c.phase)
    requires c.Becomes? && c.id !in ph ==> c.phase != Active && c.phase != Completed
    ensures HasBegun(next, id) == HasBegun(ph, id) + if c == Becomes(id, Active) then 1 else 0
  {
  }

  lemma {:induction false} ExecutionsCount(s: State, run: seq<Step>, id: nat)
    requires Inv(s) && RunOk(s, run)
    ensures Begun(Run(s, run).q, id) == Begun(s.q, id) + Executions(s, run, id)
    decreases |run|
  {
    if |run| > 0 {
      NextInv(s, run[0]);
      StepBegins(s, run[0], id);
      ExecutionsCount(Next(s, run[0]), run[1..], id);
    }
  }

  /** In every run each task runs at most once: exactly once if it is executing or completed, and
      never if it was cancelled or still waits. */
  lemma RunsAtMostOnce(s: State, run: seq<Step>, id: nat)
    requires Created(s) && RunOk(s, run)
    ensures Executions(s, run, id) == Begun(Run(s, run).q, id) <= 1
  {
    CreatedInv(s);
    ExecutionsCount(s, run, id);
  }

  /** How often the four lists hold the id. */
  ghost function Places(q: Queues, id: nat): nat {
    multiset(q.delay)[id] + multiset(q.prio)[id] + multiset(q.pend)[id] + multiset(q.active)[id]
  }

  /** In every reachable state an id is on exactly one list once, if its task has been dispatched
      and is neither completed nor cancelled, and on none otherwise. */
  lemma ExactlyOnePlace(s: State, run: seq<Step>, id: nat)
    requires Created(s) && RunOk(s, run)
    ensures var q := Run(s, run).q;
      && (id in q.phase <==> 1 <= id < q.next)
      && (Places(q, id) == if id in q.phase && !Over(q.phase[id]) then 1 else 0)
      && (id in q.delay <==> LifeOf(q, id) == In(Delayed))
      && (id in q.prio <==> LifeOf(q, id) == In(Prioritised))
      && (id in q.pend <==> LifeOf(q, id) == In(Pending))
      && (id in q.active <==> LifeOf(q, id) == In(Active))
  {
    CreatedInv(s);
    RunInv(s, run);
    OnePlace(Run(s, run).q, id);
  }

  lemma OnePlace(q: Queues, id: nat)
    requires Placed(q)
    ensures Places(q, id) == if id in q.phase && !Over(q.phase[id]) then 1 else 0
  {
    DistinctCount(q.delay, id);
    DistinctCount(q.prio, id);
    DistinctCount(q.pend, id);
    DistinctCount(q.active, id);
  }

  // ---------------------------------------------------------------- waiting

  /** Every task with an id from 1 to `id` that has been dispatched is over. */
  ghost predicate AllOver(q: Queues, id: nat) {
    forall j: nat :: j in q.phase && j <= id ==> Over(q.phase[j])
  }

  /** The check of `taskq_wait_outstanding`: for an id already given out it is exact. */
  lemma WaitOutstandingExact(s: State, run: seq<Step>, id: nat)
    requires Created(s) && RunOk(s, run) && TameRun(s, run)
    ensures var q := Run(s, run).q; id < q.next ==> (id < q.lowest <==> AllOver(q, id))
    ensures var q := Run(s, run).q; id < q.lowest ==> AllOver(q, id)
  {
    CreatedInv(s);
    RunSound(s, run);
  }

  /** The check of `taskq_wait` holds exactly if no task is outstanding. */
  lemma WaitExact(s: State, run: seq<Step>)
    requires Created(s) && RunOk(s, run) && TameRun(s, run)
    ensures var q := Run(s, run).q; q.lowest == q.next <==> AllOver(q, q.next)
  {
    CreatedInv(s);
    RunSound(s, run);
  }

  /** The check of `taskq_wait_id` holds exactly if the task is over or was never dispatched. */
  lemma WaitIdExact(s: State, run: seq<Step>, id: nat)
    requires Created(s) && RunOk(s, run) && TameRun(s, run)
    ensures var q := Run(s, run).q;
      Find(q, id) == Nothing <==> (id in q.phase ==> Over(q.phase[id]))
  {
    CreatedInv(s);
    RunSound(s, run);
    FindExact(Run(s, run).q, id);
  }

  lemma NextGrows(s: State, st: Step)
    requires Enabled(s, st)
    ensures s.q.next <= Next(s, st).q.next
  {
  }

  /** What a true check promised stays true: ids dispatched later are larger. */
  lemma {:induction false} AllOverForever(s: State, run: seq<Step>, id: nat)
    requires Inv(s) && RunOk(s, run) && id < s.q.next && AllOver(s.q, id)
    ensures AllOver(Run(s, run).q, id)
    decreases |run|
  {
    if |run| > 0 {
      var t := Next(s, run[0]);
      NextInv(s, run[0]);
      NextGrows(s, run[0]);
      forall j: nat | j in t.q.phase && j <= id ensures Over(t.q.phase[j]) {
        OverStays(s, run[0], j);
      }
      AllOverForever(t, run[1..], id);
    }
  }

  lemma StepLowestGrows(s: State, st: Step)
    requires Inv(s) && Sound(s.q) && Enabled(s, st) && Tame(s, st)
    ensures s.q.lowest <= Next(s, st).q.lowest
  {
    var t := Next(s, st);
    NextSound(s, st);
    NextGrows(s, st);
    forall id: nat | id in s.q.phase && Over(s.q.phase[id])
      ensures id in t.q.phase && Over(t.q.phase[id])
    {
      OverStays(s, st, id);
    }
    LowestGrows(s.q.lowest, s.q.next, s.q.phase, t.q.lowest, t.q.next, t.q.phase);
  }

  /** The lowest id never decreases, so a true check stays true. */
  lemma {:induction false} LowestNeverDecreases(s: State, run: seq<Step>)
    requires Inv(s) && Sound(s.q) && RunOk(s, run) && TameRun(s, run)
    ensures s.q.lowest <= Run(s, run).q.lowest
    decreases |run|
  {
    if |run| > 0 {
      NextInv(s, run[0]);
      NextSound(s, run[0]);
      StepLowestGrows(s, run[0]);
      LowestNeverDecreases(Next(s, run[0]), run[1..]);
    }
  }

  /** A true `taskq_wait_outstanding` check means that every task it covers is over, at the time
      of the check and after any further run, tame or not. */
  lemma WaitOutstandingSound(s: State, run: seq<Step>, more: seq<Step>, id: nat)
    requires Created(s) && RunOk(s, run) && TameRun(s, run) && id < Run(s, run).q.lowest
    requires RunOk(Run(s, run), more)
    ensures AllOver(Run(Run(s, run), more).q, id)
  {
    CreatedInv(s);
    RunSound(s, run);
    AllOverForever(Run(s, run), more, id);
  }

  /** The task a thread takes is the lowest id that is prioritised, or if none is, the lowest that
      is pending: tasks of a kind are taken in the order of their ids. */
  lemma NextIsLeast(s: State, run: seq<Step>, j: nat)
    requires Created(s) && RunOk(s, run) && TameRun(s, run)
    ensures var q := Run(s, run).q;
      HasNext(q) ==>
        && NextEnt(q) in q.phase
        && (LifeOf(q, j) == In(Prioritised) ==> q.phase[NextEnt(q)] == Prioritised && NextEnt(q) <= j)
        && (LifeOf(q, j) == In(Pending) && q.phase[NextEnt(q)] != Prioritised ==>
              q.phase[NextEnt(q)] == Pending && NextEnt(q) <= j)
  {
    CreatedInv(s);
    RunSound(s, run);
    var q := Run(s, run).q;
    if HasNext(q) {
      NextWaits(q);
      if j in q.prio {
        HeadIsLeast(q.prio, j);
      }
      if j in q.pend {
        HeadIsLeast(q.pend, j);
      }
    }
  }

  // ---------------------------------------------------------------- TQ_NOQUEUE

  /** In every reachable state up to then tame, a TQ_NOQUEUE dispatch leaves the check of
      `taskq_wait_id` right for all tasks if and only if it meets an empty priority list. */
  lemma NoQueueWaits(s: State, run: seq<Step>, anew: bool)
    requires Created(s) && RunOk(s, run) && TameRun(s, run)
    requires Enabled(Run(s, run), Dispatch(NoQueue, anew))
    ensures var e := Run(s, run);
      AllWaitsRight(Next(e, Dispatch(NoQueue, anew)).q) <==> Tame(e, Dispatch(NoQueue, anew))
  {
    CreatedInv(s);
    RunSound(s, run);
    var e := Run(s, run);
    NoQueueWaitIff(e.q);
    assert Next(e, Dispatch(NoQueue, anew)).q == Enqueue(e.q, NoQueue);
  }

  /** Task 1 is taken; task 2 comes with TQ_FRONT; task 3 with TQ_NOQUEUE. */
  function Jump(t: nat): seq<Step> {
    [Dispatch(Tail, true), Begin(t), Dispatch(Front, true), Dispatch(NoQueue, true)]
  }

  /** The queues that these steps lead to. */
  ghost function Jumped(): Queues {
    Queues(4, 1, [], [3, 2], [], [1], map[1 := Active, 2 := Prioritised, 3 := Prioritised])
  }

  lemma {:induction false} RunAppend(s: State, run: seq<Step>, st: Step)
    requires RunOk(s, run) && Enabled(Run(s, run), st)
    ensures RunOk(s, run + [st]) && Run(s, run + [st]) == Next(Run(s, run), st)
    decreases |run|
  {
    if |run| == 0 {
      assert run + [st] == [st] && [st][1..] == [];
    } else {
      assert (run + [st])[1..] == run[1..] + [st];
      RunAppend(Next(s, run[0]), run[1..], st);
    }
  }

  lemma FirstTwo(s: State, t: nat)
    requires Created(s) && t in s.w.threads
    ensures var run := [Dispatch(Tail, true), Begin(t)];
      && RunOk(s, run)
      && Run(s, run).q == Queues(2, 1, [], [], [], [1], map[1 := Active])
      && Run(s, run).w == s.w.(work := map[t := 1], nactive := 1)
  {
    assert RunOk(s, []);
    RunAppend(s, [], Dispatch(Tail, true));
    var a := Next(s, Dispatch(Tail, true));
    assert a.q == Queues(2, 1, [], [], [1], [], map[1 := Pending]);
    RunAppend(s, [Dispatch(Tail, true)], Begin(t));
    assert [Dispatch(Tail, true)] + [Begin(t)] == [Dispatch(Tail, true), Begin(t)];
  }

  /** The dispatches are possible, the last one with a thread idle as TQ_NOQUEUE asks. */
  lemma JumpIsARun(s: State, t: nat)
    requires Created(s) && t in s.w.threads && |s.w.threads| >= 2
    ensures RunOk(s, Jump(t)) && Run(s, Jump(t)).q == Jumped()
    ensures Run(s, Jump(t)).w == s.w.(work := map[t := 1], nactive := 1)
    ensures Run(s, Jump(t)).w.nactive < Run(s, Jump(t)).w.nthreads
  {
    var run := [Dispatch(Tail, true), Begin(t)];
    FirstTwo(s, t);
    RunAppend(s, run, Dispatch(Front, true));
    RunAppend(s, run + [Dispatch(Front, true)], Dispatch(NoQueue, true));
    assert run + [Dispatch(Front, true)] + [Dispatch(NoQueue, true)] == Jump(t);
    assert [3] + [2] == [3, 2];
  }

  lemma AfterJump()
    ensures var r := Finish(Jumped(), 1);
      && r == Queues(4, 3, [], [3, 2], [], [], map[1 := Completed, 2 := Prioritised, 3 := Prioritised])
      && Find(r, 2) == Nothing && !AllOver(r, 2)
      && Finish(Take(r), 3).lowest == 2
  {
    var r := Ran(Jumped(), 1);
    assert r.active == [] && r.prio[0] == 3;
    var f := Finish(Jumped(), 1);
    assert f.prio == [3, 2] && 2 in f.phase && !Over(f.phase[2]);
    var u := Take(f);
    assert u.prio == [2] && u.active == [3];
    assert Ran(u, 3).active == [] && Ran(u, 3).prio[0] == 2;
  }

  /** A run that breaks waiting, from any new queue with two threads: when task 1 ends the head of the
      priority list is task 3, so tq_lowest_id skips task 2, which has not run; both waits for
      task 2 return.  Once task 3 has run as well, tq_lowest_id falls back to 2. */
  lemma NoQueueBreaksWaiting(s: State, t: nat)
    requires Created(s) && t in s.w.threads && |s.w.threads| >= 2
    ensures var run := Jump(t) + [End(t)];
      && RunOk(s, run)
      && var q := Run(s, run).q;
      && q.lowest == 3 && LifeOf(q, 2) == In(Prioritised)
      && !AllOver(q, 2) && Find(q, 2) == Nothing
    ensures var run := Jump(t) + [End(t)] + [Begin(t)] + [End(t)];
      RunOk(s, run) && Run(s, run).q.lowest == 2
  {
    JumpIsARun(s, t);
    AfterJump();
    var run := Jump(t) + [End(t)];
    RunAppend(s, Jump(t), End(t));
    RunAppend(s, run, Begin(t));
    RunAppend(s, run + [Begin(t)], End(t));
  }

  // ---------------------------------------------------------------- the pool and the threads

  /** In every reachable state the pool counter counts the entries that are free, queued, executing
      or in the hand of a cancel, and the free list is within its bound. */
  lemma PoolCounts(s: State, run: seq<Step>)
    requires Created(s) && RunOk(s, run)
    ensures var t := Run(s, run);
      && t.pool.nalloc == t.pool.free + t.pool.inHand + |Owned(t.q.phase, t.pool.prealloc)|
      && t.pool.free <= t.pool.minalloc
  {
    CreatedInv(s);
    RunInv(s, run);
  }

  /** With no task outstanding and no cancel under way, draining the free list empties the pool. */
  lemma DestroyDrains(s: State, run: seq<Step>)
    requires Created(s) && RunOk(s, run)
    requires var t := Run(s, run); AllOver(t.q, t.q.next) && t.pool.inHand == 0
    ensures var t := Run(s, run);
      && Drain(t.pool).nalloc == 0 && Drain(t.pool).free == 0
      && |t.q.delay| == |t.q.prio| == |t.q.pend| == |t.q.active| == 0
  {
    var t := Run(s, run);
    CreatedInv(s);
    RunInv(s, run);
    assert Owned(t.q.phase, t.pool.prealloc) == {};
    DrainAll(t.pool);
    AllOverEmpty(t.q, t.q.delay, Delayed);
    AllOverEmpty(t.q, t.q.prio, Prioritised);
    AllOverEmpty(t.q, t.q.pend, Pending);
    AllOverEmpty(t.q, t.q.active, Active);
  }

  lemma AllOverEmpty(q: Queues, l: seq<nat>, p: Phase)
    requires Listed(l, q.phase, p) && Known(q.next, q.phase) && AllOver(q, q.next) && !Over(p)
    ensures |l| == 0
  {
    if |l| > 0 {
      SomeMember(l);
      assert false;
    }
  }

  lemma SomeMember(l: seq<nat>)
    requires |l| > 0
    ensures exists x :: x in l
  {
    assert l[0] in l;
  }

  /** In every reachable state the thread counters agree with the lists and stay in bounds. */
  lemma ThreadCounts(s: State, run: seq<Step>)
    requires Created(s) && RunOk(s, run)
    ensures var t := Run(s, run);
      && t.w.nactive == |t.q.active| && t.w.nthreads == |t.w.threads|
      && t.w.nactive <= t.w.nthreads && t.w.nthreads + t.w.nspawn <= t.w.maxthreads
  {
    CreatedInv(s);
    RunInv(s, run);
    ActiveAtMostThreads(Run(s, run).w);
  }

  /** A spawned thread never exits for being one too many. */
  lemma NeverTooMany(s: State, run: seq<Step>, t: nat)
    requires Created(s) && RunOk(s, run) && Enabled(Run(s, run), ThreadStarts(t))
    ensures Next(Run(s, run), ThreadStarts(t)).w.threads == Run(s, run).w.threads + [t]
  {
    CreatedInv(s);
    RunInv(s, run);
    StartThreads(Run(s, run).w, t);
  }

  ghost predicate Primary(w: Workers, t: nat) {
    w.stopping || (|w.threads| > 0 && w.threads[0] == t)
  }

  lemma PrimaryStays(s: State, st: Step, t: nat)
    requires Inv(s) && Enabled(s, st) && Primary(s.w, t)
    ensures Primary(Next(s, st).w, t)
  {
  }

  /** The first thread is the same until destroy stops the threads. */
  lemma {:induction false} PrimaryForever(s: State, run: seq<Step>, t: nat)
    requires Inv(s) && RunOk(s, run) && Primary(s.w, t)
    ensures Primary(Run(s, run).w, t)
    decreases |run|
  {
    if |run| > 0 {
      NextInv(s, run[0]);
      PrimaryStays(s, run[0], t);
      PrimaryForever(Next(s, run[0]), run[1..], t);
    }
  }

  // ---------------------------------------------------------------- what each dispatch is for

  /** Which task a thread takes next after a dispatch: with TQ_NOQUEUE the new one; with TQ_FRONT the
      new one if no other priority task waits; otherwise the new one only if nothing else waits;
      and a delayed one not at all. */
  lemma DispatchOrder(q: Queues, how: How)
    ensures var r := Enqueue(q, how);
      && (how == NoQueue ==> HasNext(r) && NextEnt(r) == q.next)
      && (how == Front ==> HasNext(r) && NextEnt(r) == if |q.prio| > 0 then q.prio[0] else q.next)
      && (how == Tail ==> HasNext(r) && NextEnt(r) == if HasNext(q) then NextEnt(q) else q.next)
      && (how == Later ==> HasNext(r) == HasNext(q) && (HasNext(q) ==> NextEnt(r) == NextEnt(q)))
      && r.next == q.next + 1
  {
  }

  /** An expired timer makes its task one of those to be taken, in the order of the ids. */
  lemma ExpireOrder(q: Queues, id: nat)
    requires Placed(q) && Ordered(q) && id in q.delay
    ensures var r := Expire(q, id);
      && id !in r.delay && HasNext(r)
      && NextEnt(r) == if |q.prio| > 0 && q.prio[0] < id then q.prio[0] else id
  {
    var k := InsertSplit(q.prio, id);
    RemoveDrops(q.delay, id);
    if |q.prio| > 0 && k > 0 {
      assert Insert(q.prio, id)[0] == q.prio[0];
      HeadIsLeast(q.prio, q.prio[k - 1]);
    }
  }

  /** A task that has been cancelled is never executed again, whatever follows. */
  lemma CancelledNeverRuns(s: State, id: nat, run: seq<Step>)
    requires Inv(s) && Enabled(s, CancelId(id)) && RunOk(Next(s, CancelId(id)), run)
    ensures LifeOf(Next(s, CancelId(id)).q, id) == In(Cancelled)
    ensures Executions(Next(s, CancelId(id)), run, id) == 0
  {
    var t := Next(s, CancelId(id));
    NextInv(s, CancelId(id));
    ChangeIs(s, CancelId(id));
    OverForever(t, run, id);
    ExecutionsCount(t, run, id);
  }

  // ---------------------------------------------------------------- dynamic queues

  lemma {:induction false} SomeoneNew(q: seq<nat>) returns (t: nat)
    ensures forall x :: x in q ==> x < t
  {
    if |q| == 0 {
      t := 0;
    } else {
      var u := SomeoneNew(q[1..]);
      t := if q[0] < u then u else q[0] + 1;
      assert q == [q[0]] + q[1..];
    }
  }

  /** A dynamic queue that is open and waits for no thread. */
  ghost predicate Growable(w: Workers) { w.dynamic && w.on && w.nspawn == 0 && w.spawning == 0 }

  lemma OneThreadMore(s: State) returns (t: nat)
    requires Inv(s) && Growable(s.w) && |s.w.threads| < s.w.maxthreads
    ensures var a := Next(s, TrySpawn(true));
      && Enabled(a, ThreadStarts(t))
      && var b := Next(a, ThreadStarts(t));
      && Inv(b) && Growable(b.w) && b.w.maxthreads == s.w.maxthreads
      && b.w.threads == s.w.threads + [t]
  {
    t := SomeoneNew(s.w.threads);
    var a := Next(s, TrySpawn(true));
    NextInv(s, TrySpawn(true));
    StartThreads(a.w, t);
    NextInv(a, ThreadStarts(t));
  }

  /** From any state of a dynamic queue that waits for no thread, it can reach its maximum. */
  lemma {:induction false} ReachesMaximum(s: State) returns (run: seq<Step>)
    requires Inv(s) && Growable(s.w)
    ensures RunOk(s, run) && |Run(s, run).w.threads| == s.w.maxthreads
    decreases s.w.maxthreads - |s.w.threads|
  {
    if |s.w.threads| >= s.w.maxthreads {
      run := [];
    } else {
      var t := OneThreadMore(s);
      var a := Next(s, TrySpawn(true));
      var b := Next(a, ThreadStarts(t));
      var rest := ReachesMaximum(b);
      RunCons(a, ThreadStarts(t), rest);
      RunCons(s, TrySpawn(true), [ThreadStarts(t)] + rest);
      run := [TrySpawn(true)] + ([ThreadStarts(t)] + rest);
    }
  }

  lemma NewReachesMaximum(s: State) returns (run: seq<Step>)
    requires Created(s) && s.w.dynamic
    ensures RunOk(s, run) && |Run(s, run).w.threads| == s.w.maxthreads
  {
    CreatedInv(s);
    run := ReachesMaximum(s);
  }

  lemma RunCons(s: State, st: Step, rest: seq<Step>)
    requires Enabled(s, st) && RunOk(Next(s, st), rest)
    ensures RunOk(s, [st] + rest) && Run(s, [st] + rest) == Run(Next(s, st), rest)
  {
    assert ([st] + rest)[1..] == rest;
  }

  /** A thread leaves of its own accord only when nothing waits to run, nothing executes and it is
      not the first. */
  lemma LeavesOnlyIdle(s: State, t: nat)
    requires Inv(s) && Enabled(s, ThreadLeaves(t)) && !s.w.stopping
    ensures |s.q.prio| == |s.q.pend| == |s.q.active| == 0
    ensures |s.w.threads| > 1 && s.w.threads[0] != t && s.w.dynamic && s.w.nspawn == 0
  {
  }

  /** A dynamic queue with nothing to do. */
  ghost predicate Idle(s: State) {
    s.w.dynamic && s.w.nspawn == 0 && |s.q.prio| == |s.q.pend| == |s.q.active| == 0
  }

  lemma LastLeaves(s: State) returns (t: nat)
    requires Inv(s) && Idle(s) && |s.w.threads| > 1
    ensures Enabled(s, ThreadLeaves(t))
    ensures var b := Next(s, ThreadLeaves(t)); Inv(b) && Idle(b) && |b.w.threads| == |s.w.threads| - 1
  {
    t := s.w.threads[|s.w.threads| - 1];
    assert t in s.w.threads && t != s.w.threads[0];
    assert |s.w.work.Keys| == 0;
    assert s.w.work.Keys == {};
    NextInv(s, ThreadLeaves(t));
  }

  /** It can shrink to its first thread. */
  lemma {:induction false} ShrinksToFirst(s: State) returns (run: seq<Step>)
    requires Inv(s) && Idle(s) && |s.w.threads| >= 1
    ensures RunOk(s, run) && |Run(s, run).w.threads| == 1
    decreases |s.w.threads|
  {
    if |s.w.threads| == 1 {
      run := [];
    } else {
      var t := LastLeaves(s);
      var rest := ShrinksToFirst(Next(s, ThreadLeaves(t)));
      RunCons(s, ThreadLeaves(t), rest);
      run := [ThreadLeaves(t)] + rest;
    }
  }
}
