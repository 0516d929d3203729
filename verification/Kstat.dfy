/**
The I/O queue statistics of `spl-kstat.c`: each enter or exit adds one rectangle to a running
integral.  The proofs compare the integral with the individual items that passed the queue.
*/
module Kstat {

  /** One of the two queues: its length, when it last changed, and the two integrals. */
  datatype Queue = Queue(cnt: nat, last: int, lentime: int, time: int)

  const FRESH: Queue := Queue(0, 0, 0, 0)

  function Enter(q: Queue, now: int): Queue {
    var delta := now - q.last;
    if q.cnt != 0 then Queue(q.cnt + 1, now, q.lentime + delta * q.cnt, q.time + delta)
    else Queue(q.cnt + 1, now, q.lentime, q.time)
  }

  function Exit(q: Queue, now: int): Queue
    requires q.cnt > 0
  {
    var delta := now - q.last;
    Queue(q.cnt - 1, now, q.lentime + delta * q.cnt, q.time + delta)
  }

  // ---------------------------------------------------------------- items

  /** An item: when it entered and, once it has left, when it left. */
  datatype Item = Waiting(enter: int) | Left(enter: int, exit: int)

  predicate Resident(item: Item, t: int) {
    item.enter <= t && (item.Left? ==> t < item.exit)
  }

  /** The time an item has spent in the queue, seen at time `t`. */
  function Stay(item: Item, t: int): int {
    (if item.Left? then item.exit else t) - item.enter
  }

  function TotalStay(items: seq<Item>, t: int): int {
    if |items| == 0 then 0 else Stay(items[0], t) + TotalStay(items[1..], t)
  }

  function Waiters(items: seq<Item>): nat {
    if |items| == 0 then 0 else (if items[0].Waiting? then 1 else 0) + Waiters(items[1..])
  }

  predicate Busy(items: seq<Item>, t: int) {
    exists i :: 0 <= i < |items| && Resident(items[i], t)
  }

  /** The number of clock ticks before `t` at which some item was in the queue. */
  function BusyTicks(items: seq<Item>, t: int): nat {
    if t <= 0 then 0 else BusyTicks(items, t - 1) + if Busy(items, t - 1) then 1 else 0
  }

  /** What happens to the queue: an item enters, or item number `which` leaves. */
  datatype Event = Arrive(now: int) | Depart(now: int, which: nat)

  /** The clock does not run backwards, and only an item in the queue can leave it. */
  predicate Possible(items: seq<Item>, last: int, e: Event) {
    && last <= e.now
    && (e.Depart? ==> e.which < |items| && items[e.which].Waiting?)
  }

  function Follow(items: seq<Item>, e: Event): seq<Item>
    requires e.Depart? ==> e.which < |items|
  {
    if e.Arrive? then items + [Waiting(e.now)]
    else items[e.which := Left(items[e.which].enter, e.now)]
  }

  // ---------------------------------------------------------------- the invariant

  predicate Timely(items: seq<Item>, last: int) {
    forall i :: 0 <= i < |items| ==>
      0 <= items[i].enter <= last && (items[i].Left? ==> items[i].enter <= items[i].exit <= last)
  }

  ghost predicate Inv(q: Queue, items: seq<Item>) {
    && q.last >= 0
    && Timely(items, q.last)
    && q.cnt == Waiters(items)
    && q.lentime == TotalStay(items, q.last)
    && q.time == BusyTicks(items, q.last)
  }

  lemma {:induction false} StayGrows(items: seq<Item>, t: int, u: int)
    ensures TotalStay(items, u) == TotalStay(items, t) + (u - t) * Waiters(items)
  {
    if |items| > 0 {
      StayGrows(items[1..], t, u);
      var w := Waiters(items[1..]);
      assert (u - t) * (1 + w) == (u - t) + (u - t) * w;
    }
  }

  lemma {:induction false} SomeWaiter(items: seq<Item>)
    ensures Waiters(items) > 0 <==> exists i :: 0 <= i < |items| && items[i].Waiting?
  {
    if |items| > 0 {
      SomeWaiter(items[1..]);
      if i :| 0 <= i < |items| && items[i].Waiting? {
        assert i > 0 ==> items[1..][i - 1].Waiting?;
      }
      if Waiters(items[1..]) > 0 {
        var j :| 0 <= j < |items| - 1 && items[1..][j].Waiting?;
        assert items[j + 1].Waiting?;
      }
    }
  }

  /** Between two events the queue is busy exactly if its counter is not zero. */
  lemma BusyIffCounted(items: seq<Item>, last: int, t: int)
    requires Timely(items, last) && last <= t
    ensures Busy(items, t) <==> Waiters(items) > 0
  {
    SomeWaiter(items);
    if i :| 0 <= i < |items| && items[i].Waiting? {
      assert Resident(items[i], t);
    }
  }

  lemma {:induction false} TicksGrow(items: seq<Item>, last: int, t: int)
    requires Timely(items, last) && 0 <= last <= t
    ensures BusyTicks(items, t) ==
            BusyTicks(items, last) + if Waiters(items) > 0 then t - last else 0
    decreases t - last
  {
    if t > last {
      TicksGrow(items, last, t - 1);
      BusyIffCounted(items, last, t - 1);
    }
  }

  lemma {:induction false} StayAppend(items: seq<Item>, x: Item, t: int)
    ensures TotalStay(items + [x], t) == TotalStay(items, t) + Stay(x, t)
    ensures Waiters(items + [x]) == Waiters(items) + if x.Waiting? then 1 else 0
  {
    if |items| > 0 {
      assert (items + [x])[1..] == items[1..] + [x];
      StayAppend(items[1..], x, t);
    }
  }

  lemma {:induction false} StayUpdate(items: seq<Item>, i: nat, x: Item, t: int)
    requires i < |items|
    ensures TotalStay(items[i := x], t) == TotalStay(items, t) - Stay(items[i], t) + Stay(x, t)
    ensures Waiters(items[i := x]) ==
      Waiters(items) - (if items[i].Waiting? then 1 else 0) + if x.Waiting? then 1 else 0
  {
    if i == 0 {
      assert items[0 := x][1..] == items[1..];
    } else {
      assert items[i := x][1..] == items[1..][i - 1 := x];
      StayUpdate(items[1..], i - 1, x, t);
    }
  }

  /** The past does not change: two histories that agree before `t` have the same busy ticks. */
  lemma {:induction false} TicksAgree(a: seq<Item>, b: seq<Item>, t: int)
    requires forall u :: u < t ==> (Busy(a, u) <==> Busy(b, u))
    ensures BusyTicks(a, t) == BusyTicks(b, t)
    decreases t
  {
    if t > 0 {
      TicksAgree(a, b, t - 1);
      assert Busy(a, t - 1) <==> Busy(b, t - 1);
    }
  }

  lemma FollowKeepsPast(items: seq<Item>, e: Event, u: int)
    requires e.Depart? ==> e.which < |items| && items[e.which].Waiting?
    requires u < e.now
    ensures Busy(items, u) <==> Busy(Follow(items, e), u)
  {
    var next := Follow(items, e);
    if i :| 0 <= i < |items| && Resident(items[i], u) {
      assert Resident(next[i], u);
    }
    if i :| 0 <= i < |next| && Resident(next[i], u) {
      assert i < |items|;
      assert Resident(items[i], u);
    }
  }

  lemma TicksFollow(items: seq<Item>, e: Event)
    requires e.Depart? ==> e.which < |items| && items[e.which].Waiting?
    ensures BusyTicks(Follow(items, e), e.now) == BusyTicks(items, e.now)
  {
    forall u | u < e.now ensures Busy(items, u) <==> Busy(Follow(items, e), u) {
      FollowKeepsPast(items, e, u);
    }
    TicksAgree(items, Follow(items, e), e.now);
  }

  /** What the code does at an event. */
  function Update(q: Queue, e: Event): Queue
    requires e.Depart? ==> q.cnt > 0
  {
    if e.Arrive? then Enter(q, e.now) else Exit(q, e.now)
  }

  lemma NoExitAtZero(q: Queue, items: seq<Item>, e: Event)
    requires Inv(q, items) && Possible(items, q.last, e)
    ensures e.Depart? ==> q.cnt > 0
  {
    SomeWaiter(items);
  }

  lemma UpdateInv(q: Queue, items: seq<Item>, e: Event)
    requires Inv(q, items) && Possible(items, q.last, e)
    ensures e.Depart? ==> q.cnt > 0
    ensures Inv(Update(q, e), Follow(items, e))
  {
    NoExitAtZero(q, items, e);
    StayGrows(items, q.last, e.now);
    TicksGrow(items, q.last, e.now);
    TicksFollow(items, e);
    if e.Arrive? {
      StayAppend(items, Waiting(e.now), e.now);
    } else {
      StayUpdate(items, e.which, Left(items[e.which].enter, e.now), e.now);
    }
  }

  // ---------------------------------------------------------------- whole runs

  predicate Happens(items: seq<Item>, last: int, es: seq<Event>)
    decreases |es|
  {
    |es| == 0 || (Possible(items, last, es[0]) && Happens(Follow(items, es[0]), es[0].now, es[1..]))
  }

  function History(items: seq<Item>, last: int, es: seq<Event>): seq<Item>
    requires Happens(items, last, es)
    decreases |es|
  {
    if |es| == 0 then items else History(Follow(items, es[0]), es[0].now, es[1..])
  }

  /** The counters after the same events; they see neither items nor times but `now`. */
  ghost function Counters(q: Queue, items: seq<Item>, es: seq<Event>): Queue
    requires Inv(q, items) && Happens(items, q.last, es)
    decreases |es|
  {
    if |es| == 0 then q
    else
      UpdateInv(q, items, es[0]);
      Counters(Update(q, es[0]), Follow(items, es[0]), es[1..])
  }

  lemma {:induction false} RunInv(q: Queue, items: seq<Item>, es: seq<Event>)
    requires Inv(q, items) && Happens(items, q.last, es)
    ensures Inv(Counters(q, items, es), History(items, q.last, es))
    decreases |es|
  {
    if |es| > 0 {
      UpdateInv(q, items, es[0]);
      RunInv(Update(q, es[0]), Follow(items, es[0]), es[1..]);
    }
  }

  /** After any run from a fresh queue the integrals are what they stand for: the length integral
      is the time all items spent in the queue, the busy integral the time it was not empty. */
  lemma IntegralsAreExact(es: seq<Event>)
    requires Happens([], 0, es)
    ensures Inv(FRESH, [])
    ensures var q := Counters(FRESH, [], es);
      var items := History([], 0, es);
      && q.cnt == Waiters(items)
      && q.lentime == TotalStay(items, q.last)
      && q.time == BusyTicks(items, q.last)
  {
    RunInv(FRESH, [], es);
  }

  // ---------------------------------------------------------------- kstat_io_t

  class KstatIo {
    var wcnt: nat
    var wlastupdate: int
    var wlentime: int
    var wtime: int
    var rcnt: nat
    var rlastupdate: int
    var rlentime: int
    var rtime: int

    function Waitq(): Queue
      reads this
    {
      Queue(wcnt, wlastupdate, wlentime, wtime)
    }

    function Runq(): Queue
      reads this
    {
      Queue(rcnt, rlastupdate, rlentime, rtime)
    }

    constructor ()
      ensures Waitq() == FRESH && Runq() == FRESH
    {
      wcnt, wlastupdate, wlentime, wtime := 0, 0, 0, 0;
      rcnt, rlastupdate, rlentime, rtime := 0, 0, 0, 0;
    }

    method WaitqEnter(now: int)
      modifies `wcnt, `wlastupdate, `wlentime, `wtime
      ensures Waitq() == Enter(old(Waitq()), now)
    {
      var delta := now - wlastupdate;
      wlastupdate := now;
      var cnt := wcnt;
      wcnt := wcnt + 1;
      if cnt != 0 {
        wlentime := wlentime + delta * cnt;
        wtime := wtime + delta;
      }
    }

    method WaitqExit(now: int)
      requires wcnt > 0
      modifies `wcnt, `wlastupdate, `wlentime, `wtime
      ensures Waitq() == Exit(old(Waitq()), now)
    {
      var delta := now - wlastupdate;
      wlastupdate := now;
      var cnt := wcnt;
      wcnt := wcnt - 1;
      wlentime := wlentime + delta * cnt;
      wtime := wtime + delta;
    }

    method RunqEnter(now: int)
      modifies `rcnt, `rlastupdate, `rlentime, `rtime
      ensures Runq() == Enter(old(Runq()), now)
    {
      var delta := now - rlastupdate;
      rlastupdate := now;
      var cnt := rcnt;
      rcnt := rcnt + 1;
      if cnt != 0 {
        rlentime := rlentime + delta * cnt;
        rtime := rtime + delta;
      }
    }

    method RunqExit(now: int)
      requires rcnt > 0
      modifies `rcnt, `rlastupdate, `rlentime, `rtime
      ensures Runq() == Exit(old(Runq()), now)
    {
      var delta := now - rlastupdate;
      rlastupdate := now;
      var cnt := rcnt;
      rcnt := rcnt - 1;
      rlentime := rlentime + delta * cnt;
      rtime := rtime + delta;
    }
  }
}
