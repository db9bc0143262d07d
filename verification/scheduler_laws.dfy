/** What each operation of the scheduler does to the states, the priorities and the ready queues. */
module SchedulerLaws {
  import opened RtList
  import opened SortedList
  import opened SchedulerSpec

  /** The state in which an operation leaves its thread. */
  function Leaves(stat: Stat, step: Step): Stat {
    match step
    case Startup(_, _) => Ready
    case Suspend(_) => if stat == Ready then Suspended else stat
    case Resume(_) => if stat == Suspended then Ready else stat
    case Yield(_) => stat
    case ChangePriority(_, _) => stat
    case Timeout(_) => Ready
    case Close(_) => Closed
  }

  /** A thread that becomes ready, that changes its priority while it is ready, or that yields. */
  predicate Enters(stat: Stat, step: Step) {
    Leaves(stat, step) == Ready && (stat != Ready || step.ChangePriority? || step.Yield?)
  }

  lemma {:induction false} DelLast(q: seq<int>, t: int)
    requires t !in q
    ensures Del(q + [t], t) == q
  {
    if q == [] {
      assert [] + [t] == [t];
    } else {
      assert (q + [t])[1..] == q[1..] + [t];
      DelLast(q[1..], t);
    }
  }

  /** A thread is in no other queue than that of its priority. */
  lemma Elsewhere(s: Sched, t: int, p: int)
    requires Inv(s) && (p != At(s.prio, t) || StatOf(s, t) != Ready)
    ensures Del(Queue(s, p), t) == Queue(s, p)
  {
    if 0 <= p < |s.queues| { assert QueueOk(s, p); }
    DelAbsent(Queue(s, p), t);
  }

  lemma RemovedFrom(s: Sched, t: int, p: int)
    requires Inv(s)
    ensures Queue(SchedulerSpec.Remove(s, t), p) == Del(Queue(s, p), t)
  {
    if p != At(s.prio, t) { Elsewhere(s, t, p); }
  }

  lemma NotIn(s: Sched, t: int, p: int)
    requires Inv(s)
    ensures t !in Del(Queue(s, p), t)
  {
    if 0 <= p < |s.queues| { assert QueueOk(s, p); }
    DelElements(Queue(s, p), t);
  }

  /** The queues after t was put behind the others of priority p. */
  lemma Entered(s: Sched, r: Sched, t: int)
    requires Inv(s) && |r.queues| == |s.queues| && 0 <= At(r.prio, t) < |s.queues|
    requires forall p :: Queue(r, p) == Del(Queue(s, p), t)
    ensures var s' := SchedulerSpec.Insert(r, t);
            && (forall p :: Del(Queue(s', p), t) == Del(Queue(s, p), t))
            && var q := Queue(s', At(r.prio, t)); q != [] && q[|q| - 1] == t
  {
    var s' := SchedulerSpec.Insert(r, t);
    forall p ensures Del(Queue(s', p), t) == Del(Queue(s, p), t) {
      NotIn(s, t, p);
      DelLast(Queue(r, p), t);
      DelAbsent(Queue(r, p), t);
    }
  }

  ghost predicate Does(s: Sched, step: Step, s': Sched) {
    var t := step.t;
    && StatOf(s', t) == Leaves(StatOf(s, t), step)
    && (forall u :: u != t ==> StatOf(s', u) == StatOf(s, u) && At(s'.prio, u) == At(s.prio, u))
    && At(s'.prio, t) == (if step.Startup? || step.ChangePriority? then step.priority else At(s.prio, t))
    && |s'.queues| == |s.queues|
    && (forall p :: Del(Queue(s', p), t) == Del(Queue(s, p), t))
    && (Enters(StatOf(s, t), step) ==> var q := Queue(s', At(s'.prio, t)); q != [] && q[|q| - 1] == t)
    && (!Enters(StatOf(s, t), step) && Leaves(StatOf(s, t), step) == StatOf(s, t) ==> s'.queues == s.queues)
  }

  lemma OneLeft(s: Sched, t: int)
    requires Inv(s) && StatOf(s, t) == Ready && |Queue(s, At(s.prio, t))| <= 1
    ensures Queue(s, At(s.prio, t)) == [t]
  {
    assert QueueOk(s, At(s.prio, t));
  }

  lemma PriorityKnown(s: Sched, t: int)
    requires Inv(s) && StatOf(s, t) != Init
    ensures 0 <= At(s.prio, t) < |s.queues|
  {
  }

  lemma DelTwice(s: Sched, r: Sched, s': Sched, t: int)
    requires Inv(s) && s'.queues == r.queues && forall p :: Queue(r, p) == Del(Queue(s, p), t)
    ensures forall p :: Del(Queue(s', p), t) == Del(Queue(s, p), t)
  {
    forall p ensures Del(Queue(s', p), t) == Del(Queue(s, p), t) {
      assert Queue(s', p) == Queue(r, p);
      NotIn(s, t, p);
      DelAbsent(Queue(r, p), t);
    }
  }

  lemma Removed(s: Sched, t: int)
    requires Inv(s)
    ensures var r := SchedulerSpec.Remove(s, t);
            (forall p :: Queue(r, p) == Del(Queue(s, p), t)) && |r.queues| == |s.queues| &&
            r.stat == s.stat && r.prio == s.prio
  {
    forall p ensures Queue(SchedulerSpec.Remove(s, t), p) == Del(Queue(s, p), t) { RemovedFrom(s, t, p); }
  }

  lemma Absent(s: Sched, t: int)
    requires Inv(s) && StatOf(s, t) != Ready
    ensures forall p :: Del(Queue(s, p), t) == Queue(s, p)
  {
    forall p ensures Del(Queue(s, p), t) == Queue(s, p) { Elsewhere(s, t, p); }
  }

  lemma StartupDoes(s: Sched, t: int, p: int)
    requires Inv(s) && Enabled(s, Startup(t, p))
    ensures Does(s, Startup(t, p), Next(s, Startup(t, p)))
  {
    hide Inv, Del;
    Absent(s, t);
    var q := s.(prio := s.prio[t := p]);
    assert forall n :: Queue(q, n) == Queue(s, n);
    Entered(s, q, t);
  }

  lemma WakeDoes(s: Sched, step: Step)
    requires Inv(s) && Enabled(s, step) && (step.Resume? || step.Timeout?)
    ensures Does(s, step, Next(s, step))
  {
    hide Inv, Del;
    if StatOf(s, step.t) == Suspended {
      Absent(s, step.t);
      PriorityKnown(s, step.t);
      Entered(s, s, step.t);
    }
  }

  lemma YieldDoes(s: Sched, t: int)
    requires Inv(s)
    ensures Does(s, Yield(t), Next(s, Yield(t)))
  {
    hide Inv, Del;
    if StatOf(s, t) == Ready {
      PriorityKnown(s, t);
      if |Queue(s, At(s.prio, t))| > 1 {
        Removed(s, t);
        Entered(s, SchedulerSpec.Remove(s, t), t);
      } else {
        OneLeft(s, t);
      }
    }
  }

  lemma ChangeDoes(s: Sched, t: int, p: int)
    requires Inv(s) && Enabled(s, ChangePriority(t, p))
    ensures Does(s, ChangePriority(t, p), Next(s, ChangePriority(t, p)))
  {
    hide Inv, Del;
    if StatOf(s, t) == Ready {
      Removed(s, t);
      var r := SchedulerSpec.Remove(s, t);
      var q := r.(prio := s.prio[t := p]);
      assert forall n :: Queue(q, n) == Queue(r, n);
      Entered(s, q, t);
    } else {
      var q := s.(prio := s.prio[t := p]);
      assert forall n :: Queue(q, n) == Queue(s, n);
    }
  }

  lemma LeaveDoes(s: Sched, step: Step)
    requires Inv(s) && Enabled(s, step) && (step.Suspend? || step.Close?)
    ensures Does(s, step, Next(s, step))
  {
    hide Inv, Del;
    Removed(s, step.t);
    var r := SchedulerSpec.Remove(s, step.t);
    if step.Close? || StatOf(s, step.t) == Ready { DelTwice(s, r, Next(s, step), step.t); }
  }

  /** Only its own thread changes its state and its priority; the others keep their places in all queues; and a thread
      that enters a queue is the last of the queue of its priority. */
  lemma StepDoes(s: Sched, step: Step)
    requires Inv(s) && Enabled(s, step)
    ensures Does(s, step, Next(s, step))
  {
    hide Inv, Next, Does;
    match step
    case Startup(t, p) => StartupDoes(s, t, p);
    case Suspend(_) => LeaveDoes(s, step);
    case Resume(_) => WakeDoes(s, step);
    case Yield(t) => YieldDoes(s, t);
    case ChangePriority(t, p) => ChangeDoes(s, t, p);
    case Timeout(_) => WakeDoes(s, step);
    case Close(_) => LeaveDoes(s, step);
  }
}
