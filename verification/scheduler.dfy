/** The ready queues of scheduler.c and the thread states of thread.c. */
module SchedulerSpec {
  import opened RtList
  import opened SortedList

  datatype Stat = Init | Ready | Suspended | Closed

  /** The queue of each priority, and the states and priorities of the threads. */
  datatype Sched = Sched(queues: seq<seq<int>>, stat: map<int, Stat>, prio: map<int, int>)

  datatype Step =
    | Startup(t: int, priority: int)
    | Suspend(t: int)
    | Resume(t: int)
    | Yield(t: int)
    | ChangePriority(t: int, priority: int)
    | Timeout(t: int)
    | Close(t: int)          // rt_thread_exit, and rt_thread_delete of a started thread

  function StatOf(s: Sched, t: int): Stat { if t in s.stat then s.stat[t] else Init }

  function Queue(s: Sched, p: int): seq<int> { if 0 <= p < |s.queues| then s.queues[p] else [] }

  function SetQueue(s: Sched, p: int, q: seq<int>): Sched {
    if 0 <= p < |s.queues| then s.(queues := s.queues[p := q]) else s
  }

  /** rt_schedule_insert_thread and rt_schedule_remove_thread. */
  function Insert(s: Sched, t: int): Sched {
    SetQueue(s, At(s.prio, t), Queue(s, At(s.prio, t)) + [t]).(stat := s.stat[t := Ready])
  }

  function Remove(s: Sched, t: int): Sched {
    SetQueue(s, At(s.prio, t), Del(Queue(s, At(s.prio, t)), t))
  }

  function Next(s: Sched, step: Step): Sched {
    match step
    case Startup(t, p) => Insert(s.(prio := s.prio[t := p]), t)
    case Suspend(t) => if StatOf(s, t) != Ready then s else Remove(s, t).(stat := s.stat[t := Suspended])
    case Resume(t) => if StatOf(s, t) != Suspended then s else Insert(s, t)
    case Yield(t) => if StatOf(s, t) == Ready && |Queue(s, At(s.prio, t))| > 1 then Insert(Remove(s, t), t) else s
    case ChangePriority(t, p) =>
      if StatOf(s, t) == Ready then Insert(Remove(s, t).(prio := s.prio[t := p]), t) else s.(prio := s.prio[t := p])
    case Timeout(t) => Insert(s, t)
    case Close(t) => Remove(s, t).(stat := s.stat[t := Closed])
  }

  ghost predicate Enabled(s: Sched, step: Step) {
    match step
    case Startup(t, p) => StatOf(s, t) == Init && 0 <= p < |s.queues|
    case Suspend(t) => true
    case Resume(t) => true
    case Yield(t) => true
    case ChangePriority(t, p) => 0 <= p < |s.queues|
    case Timeout(t) => StatOf(s, t) == Suspended
    case Close(t) => StatOf(s, t) == Ready || StatOf(s, t) == Suspended
  }

  /** Every ready thread is in exactly the queue of its current priority, once; no other thread is in a queue. */
  ghost predicate QueueOk(s: Sched, p: int) {
    Distinct(Queue(s, p)) && forall t :: t in Queue(s, p) <==> StatOf(s, t) == Ready && At(s.prio, t) == p
  }

  ghost predicate Inv(s: Sched) {
    && (forall p {:trigger QueueOk(s, p)} :: 0 <= p < |s.queues| ==> QueueOk(s, p))
    && (forall t :: StatOf(s, t) != Init ==> 0 <= At(s.prio, t) < |s.queues|)
  }

  /** The queues are right for everybody but t, which is in none of them. */
  ghost predicate OutAt(s: Sched, t: int, p: int) {
    && Distinct(Queue(s, p)) && t !in Queue(s, p)
    && forall u :: u != t ==> (u in Queue(s, p) <==> StatOf(s, u) == Ready && At(s.prio, u) == p)
  }

  ghost predicate Out(s: Sched, t: int) {
    && (forall p {:trigger OutAt(s, t, p)} :: 0 <= p < |s.queues| ==> OutAt(s, t, p))
    && (forall u :: u != t && StatOf(s, u) != Init ==> 0 <= At(s.prio, u) < |s.queues|)
  }

  lemma RemoveOut(s: Sched, t: int)
    requires Inv(s)
    ensures Out(Remove(s, t), t)
  {
    var r := Remove(s, t);
    forall p | 0 <= p < |s.queues| ensures OutAt(r, t, p) {
      assert QueueOk(s, p);
      DelElements(Queue(s, p), t);
    }
  }

  lemma NotReadyOut(s: Sched, t: int)
    requires Inv(s) && StatOf(s, t) != Ready
    ensures Out(s, t)
  {
    forall p | 0 <= p < |s.queues| ensures OutAt(s, t, p) { assert QueueOk(s, p); }
  }

  lemma PrioOut(s: Sched, t: int, p: int)
    requires Out(s, t)
    ensures Out(s.(prio := s.prio[t := p]), t)
  {
    var r := s.(prio := s.prio[t := p]);
    forall q | 0 <= q < |s.queues| ensures OutAt(r, t, q) { assert OutAt(s, t, q); }
    forall u ensures StatOf(r, u) == StatOf(s, u) {}
  }

  lemma InsertInv(s: Sched, t: int)
    requires Out(s, t) && 0 <= At(s.prio, t) < |s.queues|
    ensures Inv(Insert(s, t))
  {
    var r := Insert(s, t);
    forall p | 0 <= p < |s.queues| ensures QueueOk(r, p) {
      assert OutAt(s, t, p);
      AppendDistinct(Queue(s, p), t);
      assert Queue(r, p) == if p == At(s.prio, t) then Queue(s, p) + [t] else Queue(s, p);
    }
  }

  lemma StatInv(s: Sched, t: int, stat: Stat)
    requires Out(s, t) && stat != Ready && (stat != Init ==> 0 <= At(s.prio, t) < |s.queues|)
    ensures Inv(s.(stat := s.stat[t := stat]))
  {
    var r := s.(stat := s.stat[t := stat]);
    forall p | 0 <= p < |s.queues| ensures QueueOk(r, p) { assert OutAt(s, t, p); }
  }

  lemma AppendDistinct(q: seq<int>, t: int)
    requires Distinct(q) && t !in q
    ensures Distinct(q + [t])
  {
  }

  /** Every operation keeps the queues right. */
  lemma StepInv(s: Sched, step: Step)
    requires Inv(s) && Enabled(s, step)
    ensures Inv(Next(s, step))
  {
    hide QueueOk, OutAt;
    var t := step.t;
    var r := Remove(s, t);
    RemoveOut(s, t);
    if StatOf(s, t) != Ready { NotReadyOut(s, t); }
    match step
    case Startup(_, p) => PrioOut(s, t, p); InsertInv(s.(prio := s.prio[t := p]), t);
    case Suspend(_) => if StatOf(s, t) == Ready { StatInv(r, t, Suspended); }
    case Resume(_) => if StatOf(s, t) == Suspended { InsertInv(s, t); }
    case Yield(_) => if StatOf(s, t) == Ready { InsertInv(r, t); }
    case ChangePriority(_, p) =>
      PrioOut(r, t, p);
      if StatOf(s, t) == Ready {
        InsertInv(r.(prio := s.prio[t := p]), t);
      } else {
        PrioOut(s, t, p);
        StatInv(s.(prio := s.prio[t := p]), t, StatOf(s, t));
        SameStat(s.(prio := s.prio[t := p]), t);
      }
    case Timeout(_) => InsertInv(s, t);
    case Close(_) => StatInv(r, t, Closed);
  }

  /** Writing the state a thread has already. */
  lemma SameStat(s: Sched, t: int)
    requires Inv(s.(stat := s.stat[t := StatOf(s, t)]))
    ensures Inv(s)
  {
    var r := s.(stat := s.stat[t := StatOf(s, t)]);
    forall u ensures StatOf(r, u) == StatOf(s, u) {}
    forall p | 0 <= p < |s.queues| ensures QueueOk(s, p) { assert QueueOk(r, p) && Queue(r, p) == Queue(s, p); }
  }

  ghost predicate Possible(s: Sched, steps: seq<Step>)
    decreases |steps|
  {
    steps == [] || (Enabled(s, steps[0]) && Possible(Next(s, steps[0]), steps[1..]))
  }

  function After(s: Sched, steps: seq<Step>): Sched
    decreases |steps|
  {
    if steps == [] then s else After(Next(s, steps[0]), steps[1..])
  }

  lemma {:induction false} RunInv(s: Sched, steps: seq<Step>)
    requires Inv(s) && Possible(s, steps)
    ensures Inv(After(s, steps))
    decreases |steps|
  {
    if steps != [] {
      StepInv(s, steps[0]);
      RunInv(Next(s, steps[0]), steps[1..]);
    }
  }

  /** rt_thread_yield is round robin: the thread goes behind all others of its priority, which keep their order. */
  lemma YieldRotates(s: Sched, t: int)
    requires Inv(s) && StatOf(s, t) == Ready && |Queue(s, At(s.prio, t))| > 1
    ensures var q, q' := Queue(s, At(s.prio, t)), Queue(Next(s, Yield(t)), At(s.prio, t));
            q' == Del(q, t) + [t] && |q'| == |q| && (q[0] == t ==> q' == q[1..] + [t])
    ensures forall p :: p != At(s.prio, t) ==> Queue(Next(s, Yield(t)), p) == Queue(s, p)
  {
    var p := At(s.prio, t);
    assert QueueOk(s, p);
    var q := Queue(s, p);
    var k :| 0 <= k < |q| && q[k] == t;
    DelWithout(q, k);
  }
}

/** The scheduler with its bitmaps: one word for up to 32 priorities, else a word and a table of bytes. */
module Scheduler {
  import opened RtList
  import opened SortedList
  import opened Bitmap
  import opened SchedulerSpec

  const NOBODY := -1

  /** rt_thread_ready_priority_group and rt_thread_ready_table. */
  datatype Bits = Bits(group: nat, table: seq<nat>)

  /** number and the bit number in high_mask of a thread. */
  function Number(max: nat, priority: nat): nat { if max > 32 then priority / 8 else priority }

  function Mark(max: nat, b: Bits, number: nat, high: nat): Bits
    requires max > 32 ==> number < |b.table|
  {
    Bits(SetBit(b.group, number), if max > 32 then b.table[number := SetBit(b.table[number], high)] else b.table)
  }

  function Unmark(max: nat, b: Bits, number: nat, high: nat): Bits
    requires max > 32 ==> number < |b.table|
  {
    if max > 32 then
      var table := b.table[number := ClearBit(b.table[number], high)];
      Bits(if table[number] == 0 then ClearBit(b.group, number) else b.group, table)
    else
      Bits(ClearBit(b.group, number), b.table)
  }

  /** A queue that exists and is not empty. */
  predicate Busy(queues: seq<seq<int>>, p: nat) { p < |queues| && queues[p] != [] }

  /** The bit of a priority is set exactly if its queue is not empty; the bit of a group of eight exactly
      if one of its bits is. */
  ghost predicate BitsOk(max: nat, b: Bits, queues: seq<seq<int>>) {
    && |queues| == max && b.group < Power(32)
    && if max > 32 then
         |b.table| == 32 && max <= 256 &&
         (forall n: nat {:trigger Bit(b.group, n)} :: n < 32 ==> (Bit(b.group, n) <==> b.table[n] != 0)) &&
         (forall n: nat {:trigger b.table[n]} :: n < 32 ==> b.table[n] < Power(8)) &&
         (forall p: nat {:trigger Busy(queues, p)} :: p < 256 ==> (Bit(b.table[p / 8], p % 8) <==> Busy(queues, p)))
       else
         forall p: nat {:trigger Busy(queues, p)} {:trigger Bit(b.group, p)} ::
             p < 32 ==> (Bit(b.group, p) <==> Busy(queues, p))
  }

  lemma MarkOk(max: nat, b: Bits, queues: seq<seq<int>>, p: nat, q: seq<int>)
    requires BitsOk(max, b, queues) && p < max && q != []
    ensures max > 32 ==> Number(max, p) < |b.table|
    ensures BitsOk(max, Mark(max, b, Number(max, p), p % 8), queues[p := q])
  {
    var n, new_ := Number(max, p), queues[p := q];
    var b' := Mark(max, b, n, p % 8);
    Bounded(b.group, n, 32);
    forall k: nat | k < 32 ensures Bit(b'.group, k) <==> k == n || Bit(b.group, k) { BitOfSet(b.group, n, k); }
    if max > 32 {
      Bounded(b.table[n], p % 8, 8);
      BitOfSet(b.table[n], p % 8, p % 8);
      NonZero(b'.table[n], p % 8);
      forall k: nat | k < 256 ensures Bit(b'.table[k / 8], k % 8) <==> Busy(new_, k) {
        assert Busy(queues, k) <==> Bit(b.table[k / 8], k % 8);
        BitOfSet(b.table[n], p % 8, k % 8);
      }
    } else {
      forall k: nat | k < 32 ensures Busy(new_, k) <==> k == p || Busy(queues, k) {}
    }
  }

  lemma NonZero(w: nat, p: nat)
    requires Bit(w, p)
    ensures w != 0
  {
    if w == 0 { ZeroBits(p); }
  }

  lemma ZeroHasNone(w: nat, p: nat)
    ensures w == 0 ==> !Bit(w, p)
  {
    ZeroBits(p);
  }

  lemma UnmarkTable(max: nat, b: Bits, queues: seq<seq<int>>, p: nat)
    requires BitsOk(max, b, queues) && p < max && max > 32
    ensures BitsOk(max, Unmark(max, b, p / 8, p % 8), queues[p := []])
  {
    var n, new_ := p / 8, queues[p := []];
    var b' := Unmark(max, b, n, p % 8);
    hide Bit, ClearBit, SetBit, Power;
    Bounded(b.group, n, 32);
    Bounded(b.table[n], p % 8, 8);
    forall k: nat | k < 32 ensures Bit(b'.group, k) <==> b'.table[k] != 0 {
      BitOfClear(b.group, n, k);
      assert Bit(b.group, k) <==> b.table[k] != 0;
      if b.table[n] == 0 { ClearZero(p % 8); }
    }
    forall k: nat | k < 256 ensures Bit(b'.table[k / 8], k % 8) <==> Busy(new_, k) {
      assert Busy(queues, k) <==> Bit(b.table[k / 8], k % 8);
      BitOfClear(b.table[n], p % 8, k % 8);
    }
  }

  lemma {:induction false} ClearZero(p: nat)
    ensures ClearBit(0, p) == 0
  {
    if p > 0 { ClearZero(p - 1); }
  }

  lemma UnmarkOk(max: nat, b: Bits, queues: seq<seq<int>>, p: nat)
    requires BitsOk(max, b, queues) && p < max
    ensures max > 32 ==> Number(max, p) < |b.table|
    ensures BitsOk(max, Unmark(max, b, Number(max, p), p % 8), queues[p := []])
  {
    if max > 32 {
      UnmarkTable(max, b, queues, p);
    } else {
      var new_ := queues[p := []];
      var b' := Unmark(max, b, p, p % 8);
      Bounded(b.group, p, 32);
      forall k: nat | k < 32 ensures Bit(b'.group, k) <==> Busy(new_, k) {
        BitOfClear(b.group, p, k);
        assert Busy(new_, k) <==> k != p && Busy(queues, k);
      }
    }
  }

  lemma SameBusy(max: nat, b: Bits, queues: seq<seq<int>>, p: nat, q: seq<int>)
    requires BitsOk(max, b, queues) && p < max && (q == [] <==> queues[p] == [])
    ensures BitsOk(max, b, queues[p := q])
  {
    var new_ := queues[p := q];
    forall k: nat ensures Busy(new_, k) <==> Busy(queues, k) {}
  }

  /** The lookup in rt_schedule. */
  function Highest(max: nat, b: Bits): int {
    var number := Ffs(b.group) - 1;
    if max > 32 then
      if 0 <= number < |b.table| then number * 8 + Ffs(b.table[number]) - 1 else -1
    else number
  }

  /** ... finds the most urgent priority with a ready thread. */
  lemma HighestIs(max: nat, b: Bits, queues: seq<seq<int>>)
    requires BitsOk(max, b, queues) && exists p: nat :: Busy(queues, p)
    ensures var h := Highest(max, b); h >= 0 && Busy(queues, h) && forall p: nat :: p < h ==> !Busy(queues, p)
  {
    var p: nat :| Busy(queues, p);
    if max > 32 {
      HighestOfTable(max, b, queues, p);
    } else {
      Powers();
      LowestAtMost(b.group, p);
      FfsIsLowest(b.group);
      assert Busy(queues, Lowest(b.group));
    }
  }

  lemma HighestOfTable(max: nat, b: Bits, queues: seq<seq<int>>, p: nat)
    requires BitsOk(max, b, queues) && Busy(queues, p) && max > 32
    ensures var h := Highest(max, b); h >= 0 && Busy(queues, h) && forall q: nat :: q < h ==> !Busy(queues, q)
  {
    hide Bit, Lowest, Ffs, Power;
    Powers();
    NonZero(b.table[p / 8], p % 8);
    assert Bit(b.group, p / 8);
    LowestAtMost(b.group, p / 8);
    FfsIsLowest(b.group);
    var n := Lowest(b.group);
    LowBit(b.table[n]);
    var l := Lowest(b.table[n]);
    FfsIsLowest(b.table[n]);
    assert (n * 8 + l) / 8 == n && (n * 8 + l) % 8 == l;
    assert Busy(queues, n * 8 + l) <==> Bit(b.table[n], l);
    forall q: nat | q < n * 8 + l ensures !Busy(queues, q) {
      assert Busy(queues, q) <==> Bit(b.table[q / 8], q % 8);
      assert Bit(b.group, q / 8) <==> b.table[q / 8] != 0;
      ZeroHasNone(b.table[q / 8], q % 8);
    }
  }

  lemma LowBit(w: nat)
    requires 0 < w < Power(8)
    ensures Lowest(w) < 8 && Bit(w, Lowest(w)) && forall q: nat :: q < Lowest(w) ==> !Bit(w, q)
  {
    LowestIs(w);
    if Lowest(w) >= 8 { HighBits(w, 8, Lowest(w)); }
  }

  class RtScheduler {
    const max: nat                       // RT_THREAD_PRIORITY_MAX
    var queues: seq<seq<int>>            // rt_thread_priority_table
    var bits: Bits
    var stat: map<int, Stat>
    var prio: map<int, int>              // current_priority of the threads
    var number: map<int, nat>            // number, and the bits of number_mask and high_mask
    var high: map<int, nat>
    var current: int                     // rt_current_thread
    var currentPriority: int             // rt_current_priority
    var lockNest: int                    // rt_scheduler_lock_nest

    ghost function Abs(): Sched
      reads `queues, `stat, `prio
    {
      Sched(queues, stat, prio)
    }

    /** The masks of a started thread are those of its priority. */
    ghost predicate Masked(t: int)
      reads `stat, `prio, `number, `high
    {
      t in stat && stat[t] != Init ==> HasMasks(t)
    }

    ghost predicate HasMasks(t: int)
      reads `prio, `number, `high
    {
      t in prio && t in number && t in high && 0 <= prio[t] < max && number[t] == Number(max, prio[t]) &&
          high[t] == prio[t] % 8
    }

    ghost predicate Valid()
      reads this
    {
      0 < max == |queues| && Inv(Abs()) && BitsOk(max, bits, queues) && forall t {:trigger Masked(t)} :: Masked(t)
    }

    /** rt_schedule_insert_thread, of a thread that is in no queue. */
    method InsertThread(t: int)
      requires BitsOk(max, bits, queues) && HasMasks(t)
      modifies `queues, `bits, `stat
      ensures BitsOk(max, bits, queues) && Abs() == SchedulerSpec.Insert(old(Abs()), t)
    {
      MarkOk(max, bits, queues, prio[t], queues[prio[t]] + [t]);
      stat := stat[t := Ready];
      queues := queues[prio[t] := queues[prio[t]] + [t]];
      bits := Mark(max, bits, number[t], high[t]);
    }

    /** rt_schedule_remove_thread. */
    method RemoveThread(t: int)
      requires BitsOk(max, bits, queues) && HasMasks(t)
      modifies `queues, `bits
      ensures BitsOk(max, bits, queues) && Abs() == SchedulerSpec.Remove(old(Abs()), t)
    {
      ghost var was := queues;
      var q := Del(queues[prio[t]], t);
      queues := queues[prio[t] := q];
      if q == [] {
        UnmarkOk(max, bits, was, prio[t]);
        bits := Unmark(max, bits, number[t], high[t]);
      } else {
        SameBusy(max, bits, was, prio[t], q);
      }
    }

    /** The priority of a thread, and its masks. */
    method SetPriority(t: int, priority: nat)
      requires priority < max
      modifies `prio, `number, `high
      ensures prio == old(prio)[t := priority] && HasMasks(t)
      ensures forall u :: u != t && old(HasMasks(u)) ==> HasMasks(u)
    {
      prio := prio[t := priority];
      number := number[t := Number(max, priority)];
      high := high[t := priority % 8];
    }

    /** rt_thread_startup, without the call of rt_schedule. */
    method StartThread(t: int, initPriority: nat)
      requires Valid() && Enabled(Abs(), Startup(t, initPriority))
      modifies `queues, `bits, `stat, `prio, `number, `high
      ensures Valid() && Abs() == Next(old(Abs()), Startup(t, initPriority))
    {
      hide Inv, BitsOk;
      StepInv(Abs(), Startup(t, initPriority));
      SetPriority(t, initPriority);
      stat := stat[t := Suspended];
      ghost var s := Abs();
      InsertThread(t);
      assert s.stat[t := Ready] == old(stat)[t := Ready];
      forall u ensures Masked(u) { assert old(Masked(u)); }
    }

    /** rt_thread_suspend. */
    method SuspendThread(t: int) returns (ok: bool)
      requires Valid()
      modifies `queues, `bits, `stat
      ensures Valid() && Abs() == Next(old(Abs()), Suspend(t)) && (ok <==> StatOf(old(Abs()), t) == Ready)
    {
      hide Inv, BitsOk;
      StepInv(Abs(), Suspend(t));
      if t !in stat || stat[t] != Ready { return false; }
      assert Masked(t);
      stat := stat[t := Suspended];
      RemoveThread(t);
      forall u ensures Masked(u) { assert old(Masked(u)); }
      return true;
    }

    /** rt_thread_resume, as far as the ready queues go. */
    method ResumeThread(t: int) returns (ok: bool)
      requires Valid()
      modifies `queues, `bits, `stat
      ensures Valid() && Abs() == Next(old(Abs()), Resume(t)) && (ok <==> StatOf(old(Abs()), t) == Suspended)
    {
      hide Inv, BitsOk;
      StepInv(Abs(), Resume(t));
      if t !in stat || stat[t] != Suspended { return false; }
      assert Masked(t);
      InsertThread(t);
      forall u ensures Masked(u) { assert old(Masked(u)); }
      return true;
    }

    /** rt_thread_timeout, as far as the ready queues go. */
    method TimeoutThread(t: int)
      requires Valid() && Enabled(Abs(), Timeout(t))
      modifies `queues, `bits, `stat
      ensures Valid() && Abs() == Next(old(Abs()), Timeout(t))
    {
      hide Inv, BitsOk;
      StepInv(Abs(), Timeout(t));
      assert Masked(t);
      InsertThread(t);
      forall u ensures Masked(u) { assert old(Masked(u)); }
    }

    /** rt_thread_exit of the current thread, and rt_thread_delete. */
    method CloseThread(t: int)
      requires Valid() && Enabled(Abs(), Close(t))
      modifies `queues, `bits, `stat
      ensures Valid() && Abs() == Next(old(Abs()), Close(t))
    {
      hide Inv, BitsOk;
      StepInv(Abs(), Close(t));
      assert Masked(t);
      RemoveThread(t);
      stat := stat[t := Closed];
      forall u ensures Masked(u) { assert old(Masked(u)); }
    }

    /** rt_thread_control with RT_THREAD_CTRL_CHANGE_PRIORITY. */
    method ControlPriority(t: int, priority: nat)
      requires Valid() && priority < max
      modifies `queues, `bits, `stat, `prio, `number, `high
      ensures Valid() && Abs() == Next(old(Abs()), ChangePriority(t, priority))
    {
      hide Inv, BitsOk;
      StepInv(Abs(), ChangePriority(t, priority));
      assert Masked(t);
      if t in stat && stat[t] == Ready {
        RemoveThread(t);
        SetPriority(t, priority);
        InsertThread(t);
      } else {
        SetPriority(t, priority);
      }
      forall u ensures Masked(u) { assert old(Masked(u)); }
    }

    /** rt_thread_yield of the current thread, without the call of rt_schedule. */
    method YieldCurrent()
      requires Valid()
      modifies `queues
      ensures Valid() && Abs() == Next(old(Abs()), Yield(current))
    {
      StepInv(Abs(), Yield(current));
      if current in stat && stat[current] == Ready {
        assert Masked(current);
        var p := prio[current];
        assert QueueOk(Abs(), p);
        if |queues[p]| > 1 {
          YieldRotates(Abs(), current);
          hide Inv;
          SameBusy(max, bits, queues, p, Del(queues[p], current) + [current]);
          ghost var s := Abs();
          queues := queues[p := Del(queues[p], current)];
          queues := queues[p := queues[p] + [current]];
          assert queues == s.queues[p := Del(s.queues[p], current) + [current]];
          assert stat == stat[current := Ready];
          forall u ensures Masked(u) { assert old(Masked(u)); }
        }
      }
    }

    /** rt_schedule: unless the scheduler is locked, the first thread of the most urgent queue runs. */
    method Schedule()
      requires Valid() && exists p: nat :: Busy(queues, p)
      modifies `current, `currentPriority
      ensures lockNest != 0 ==> current == old(current)
      ensures currentPriority == if current != old(current) then At(prio, current) else old(currentPriority)
      ensures lockNest == 0 ==>
                exists p: nat ::
                Busy(queues, p) && current == queues[p][0] && forall q: nat :: q < p ==> !Busy(queues, q)
      ensures lockNest == 0 ==>
                StatOf(Abs(), current) == Ready && forall t ::
                StatOf(Abs(), t) == Ready ==> At(prio, current) <= At(prio, t)
    {
      if lockNest == 0 {
        HighestIs(max, bits, queues);
        var highest := Highest(max, bits);
        var to := queues[highest][0];
        MostUrgent(highest);
        if to != current {
          currentPriority := highest;
          current := to;
        }
        assert Busy(queues, highest) && current == queues[highest][0];
      }
    }

    lemma MostUrgent(p: nat)
      requires Inv(Abs()) && Busy(queues, p) && forall q: nat :: q < p ==> !Busy(queues, q)
      ensures StatOf(Abs(), queues[p][0]) == Ready && At(prio, queues[p][0]) == p
      ensures forall t :: StatOf(Abs(), t) == Ready ==> p <= At(prio, t)
    {
      assert QueueOk(Abs(), p) && queues[p][0] in Queue(Abs(), p);
      forall t | StatOf(Abs(), t) == Ready ensures p <= At(prio, t) {
        assert QueueOk(Abs(), At(prio, t)) && t in Queue(Abs(), At(prio, t));
        assert Busy(queues, At(prio, t));
      }
    }

    /** rt_system_scheduler_init. */
    constructor (max: nat)
      requires 0 < max <= 256
      ensures Valid() && this.max == max && lockNest == 0 && current == NOBODY
      ensures stat == map[] && forall p: nat :: !Busy(queues, p)
    {
      this.max := max;
      queues := seq(max, _ => []);
      bits := Bits(0, seq(32, _ => 0));
      stat, prio, number, high := map[], map[], map[], map[];
      current, currentPriority, lockNest := NOBODY, max - 1, 0;
      new;
      Powers();
      forall p: nat ensures !Bit(0, p) && !Busy(queues, p) { ZeroBits(p); }
      forall p | 0 <= p < max ensures QueueOk(Abs(), p) {}
    }
  }
}
