/** Which waiting thread a mailbox wakes, over whole runs, by the order of arrival and the priorities, and what the
    calls return. */
module MailboxCalls {
  import opened RtList
  import opened SortedList
  import opened IpcList
  import opened IpcOrder
  import opened MailboxSpec

  /** The blocked receivers, and the blocked senders, in the order in which they came to wait. */
  datatype Arrivals = Arrivals(receivers: seq<int>, senders: seq<int>)

  /** The thread that a step runs, if any. */
  function Actor(step: Step): seq<int> {
    match step
    case Send(t, _, _) => [t] case Recv(t, _) => [t] case Resume(t, _) => [t]
    case Expire(_) => [] case Reset => []
  }

  ghost function BlockedReceivers(m: Mb): set<int> { set t | t in m.stat && m.stat[t].RecvBlocked? }
  ghost function BlockedSenders(m: Mb): set<int> { set t | t in m.stat && m.stat[t].SendBlocked? }

  /** Those that are no longer blocked are left out; the thread that ran is the last to come if it is blocked. */
  ghost function Arrived(a: Arrivals, m': Mb, step: Step): Arrivals {
    var now := Actor(step);
    Arrivals(Kept(a.receivers, BlockedReceivers(m')) + Kept(now, BlockedReceivers(m')),
             Kept(a.senders, BlockedSenders(m')) + Kept(now, BlockedSenders(m')))
  }

  ghost predicate InOrder(m: Mb, a: Arrivals) {
    Ordered(m.flag, m.prio, a.receivers, m.receivers) && Ordered(m.flag, m.prio, a.senders, m.senders)
  }

  // ---- What a step does to the blocked threads ----

  /** A mail was put into the mailbox, or taken from it. */
  ghost predicate Puts(m: Mb, step: Step) { Next(m, step).1 == Return(EOK) }
  ghost predicate Takes(m: Mb, step: Step) { Next(m, step).1.Deliver? }

  /** A step that puts a mail wakes exactly the receiver that is next, and blocks nobody; one that takes a mail
      the sender that is next.  Without such a step only a timeout or a reset ends the wait of a thread. */
  ghost predicate WakesNext(m: Mb, a: Arrivals, step: Step) {
    var m' := Next(m, step).0;
    && (Puts(m, step) ==>
        (forall t :: t in a.receivers ==>
           StatOf(m', t) == if IsNext(m.flag, m.prio, a.receivers, t) then RecvWoken(EOK) else RecvBlocked) &&
        (forall t :: t in a.senders ==> StatOf(m', t) == StatOf(m, t)))
    && (Takes(m, step) ==>
        (forall t :: t in a.senders ==>
           if IsNext(m.flag, m.prio, a.senders, t) then StatOf(m', t).SendWoken? && StatOf(m', t).error == EOK
           else StatOf(m', t) == StatOf(m, t)) &&
        (forall t :: t in a.receivers ==> StatOf(m', t) == RecvBlocked))
    && (!Puts(m, step) && !Takes(m, step) && !step.Reset? ==>
        forall t :: (t in a.receivers || t in a.senders) && step != Expire(t) ==> StatOf(m', t) == StatOf(m, t))
  }

  lemma ReceiverWoken(m: Mb, p: Mb, a: Arrivals)
    requires Lists(m) && InOrder(m, a) && p.flag == m.flag && p.prio == m.prio && p.receivers == m.receivers
    requires forall t :: t in a.receivers || t in a.senders ==> StatOf(p, t) == StatOf(m, t)
    ensures var r := ResumeReceiver(p);
            (forall t :: t in a.receivers ==>
               StatOf(r, t) == if IsNext(m.flag, m.prio, a.receivers, t) then RecvWoken(EOK) else RecvBlocked) &&
            (forall t :: t in a.senders ==> StatOf(r, t) == StatOf(m, t))
  {
    if m.receivers != [] {
      HeadIsNext(m.flag, m.prio, a.receivers, m.receivers);
      var h := m.receivers[0];
      assert StatOf(m, h).RecvBlocked?;
      forall t | IsNext(m.flag, m.prio, a.receivers, t) ensures t == h {
        NextUnique(m.flag, m.prio, a.receivers, t, h);
      }
    }
  }

  lemma SenderWoken(m: Mb, p: Mb, a: Arrivals)
    requires Lists(m) && InOrder(m, a) && p.flag == m.flag && p.prio == m.prio && p.senders == m.senders
    requires forall t :: t in a.receivers || t in a.senders ==> StatOf(p, t) == StatOf(m, t)
    ensures var r := ResumeSender(p);
            (forall t :: t in a.senders ==>
               if IsNext(m.flag, m.prio, a.senders, t) then StatOf(r, t).SendWoken? && StatOf(r, t).error == EOK
               else StatOf(r, t) == StatOf(m, t)) &&
            (forall t :: t in a.receivers ==> StatOf(r, t) == RecvBlocked)
  {
    if m.senders != [] {
      HeadIsNext(m.flag, m.prio, a.senders, m.senders);
      var h := m.senders[0];
      assert StatOf(m, h).SendBlocked?;
      forall t | IsNext(m.flag, m.prio, a.senders, t) ensures t == h {
        NextUnique(m.flag, m.prio, a.senders, t, h);
      }
    }
  }

  lemma SendWakes(m: Mb, a: Arrivals, t: int, mail: int, timeout: int)
    requires Inv(m) && InOrder(m, a) && t !in a.receivers && t !in a.senders
    ensures var r := SendSection(m, t, mail, timeout);
            && !r.1.Deliver?
            && (r.1 == Return(EOK) ==>
                (forall u :: u in a.receivers ==>
                   StatOf(r.0, u) == if IsNext(m.flag, m.prio, a.receivers, u) then RecvWoken(EOK) else RecvBlocked) &&
                (forall u :: u in a.senders ==> StatOf(r.0, u) == StatOf(m, u)))
            && (r.1 != Return(EOK) ==>
                forall u :: u in a.receivers || u in a.senders ==> StatOf(r.0, u) == StatOf(m, u))
  {
    hide Queued, IsNext;
    if |m.mails| != m.size {
      ReceiverWoken(m, Leave(m, t).(mails := m.mails + [mail], sent := m.sent + [mail]), a);
    }
  }

  lemma RecvWakes(m: Mb, a: Arrivals, t: int, timeout: int)
    requires Inv(m) && InOrder(m, a) && t !in a.receivers && t !in a.senders
    ensures var r := RecvSection(m, t, timeout);
            && r.1 != Return(EOK)
            && (r.1.Deliver? ==>
                (forall u :: u in a.senders ==>
                   if IsNext(m.flag, m.prio, a.senders, u) then StatOf(r.0, u).SendWoken? && StatOf(r.0, u).error == EOK
                   else StatOf(r.0, u) == StatOf(m, u)) &&
                (forall u :: u in a.receivers ==> StatOf(r.0, u) == RecvBlocked))
            && (!r.1.Deliver? ==>
                forall u :: u in a.receivers || u in a.senders ==> StatOf(r.0, u) == StatOf(m, u))
  {
    hide Queued, IsNext;
    if m.mails != [] {
      SenderWoken(m, Leave(m, t).(mails := m.mails[1..], got := m.got + [m.mails[0]]), a);
    }
  }

  lemma BlockedIs(m: Mb, a: Arrivals, t: int)
    requires Inv(m) && InOrder(m, a)
    ensures t in a.receivers <==> StatOf(m, t).RecvBlocked?
    ensures t in a.senders <==> StatOf(m, t).SendBlocked?
  {
  }

  /** Who is woken. */
  lemma StepWakes(m: Mb, a: Arrivals, step: Step)
    requires Inv(m) && Enabled(m, step) && InOrder(m, a)
    ensures WakesNext(m, a, step)
  {
    hide Inv, InOrder, SendSection, RecvSection, IsNext;
    match step
    case Send(t, v, timeout) =>
      BlockedIs(m, a, t);
      SendWakes(m, a, t, v, timeout);
    case Recv(t, timeout) =>
      BlockedIs(m, a, t);
      RecvWakes(m, a, t, timeout);
    case Resume(t, timeout) =>
      BlockedIs(m, a, t);
      match StatOf(m, t) {
        case RecvWoken(e) => if e == EOK { RecvWakes(m, a, t, timeout); }
        case SendWoken(v, e) => if e == EOK { SendWakes(m, a, t, v, timeout); }
      }
    case Expire(t) =>
    case Reset =>
  }

  // ---- The waiting lists are in order, over every run ----

  lemma SendLists(m: Mb, t: int, mail: int, timeout: int)
    ensures var m' := SendSection(m, t, mail, timeout).0;
            ListStep(m.flag, m.prio, m.receivers, [t], m'.receivers) &&
            ListStep(m.flag, m.prio, m.senders, [t], m'.senders) && m'.flag == m.flag && m'.prio == m.prio
  {
    if m.receivers != [] { PopIsDel(m.receivers); }
  }

  lemma RecvLists(m: Mb, t: int, timeout: int)
    ensures var m' := RecvSection(m, t, timeout).0;
            ListStep(m.flag, m.prio, m.receivers, [t], m'.receivers) &&
            ListStep(m.flag, m.prio, m.senders, [t], m'.senders) && m'.flag == m.flag && m'.prio == m.prio
  {
    if m.senders != [] { PopIsDel(m.senders); }
  }

  lemma StepLists(m: Mb, step: Step)
    requires Enabled(m, step)
    ensures var m' := Next(m, step).0;
            ListStep(m.flag, m.prio, m.receivers, Actor(step), m'.receivers) &&
            ListStep(m.flag, m.prio, m.senders, Actor(step), m'.senders) && m'.flag == m.flag && m'.prio == m.prio
  {
    hide SendSection, RecvSection;
    match step
    case Send(t, v, timeout) => SendLists(m, t, v, timeout);
    case Recv(t, timeout) => RecvLists(m, t, timeout);
    case Resume(t, timeout) =>
      if StatOf(m, t).SendWoken? {
        SendLists(m, t, StatOf(m, t).mail, timeout);
      } else {
        RecvLists(m, t, timeout);
      }
    case _ =>
  }

  /** A thread that runs is not in a waiting list. */
  lemma ActorRuns(m: Mb, a: Arrivals, step: Step)
    requires Inv(m) && Enabled(m, step) && InOrder(m, a)
    ensures forall t :: t in Actor(step) ==> t !in a.receivers && t !in a.senders
  {
  }

  lemma BlockedAre(m: Mb)
    requires Inv(m)
    ensures forall t :: t in BlockedReceivers(m) <==> t in m.receivers
    ensures forall t :: t in BlockedSenders(m) <==> t in m.senders
  {
    forall t ensures t in BlockedReceivers(m) <==> StatOf(m, t).RecvBlocked? {}
    forall t ensures t in BlockedSenders(m) <==> StatOf(m, t).SendBlocked? {}
  }

  lemma StepOrder(m: Mb, a: Arrivals, step: Step)
    requires Inv(m) && Enabled(m, step) && InOrder(m, a)
    ensures InOrder(Next(m, step).0, Arrived(a, Next(m, step).0, step))
  {
    hide Inv, Enabled, Ordered, Next, Queued, BlockedReceivers, BlockedSenders;
    var m' := Next(m, step).0;
    StepInv(m, step);
    StepLists(m, step);
    ActorRuns(m, a, step);
    BlockedAre(m');
    OrderedStep(m.flag, m.prio, a.receivers, m.receivers, Actor(step), BlockedReceivers(m'), m'.receivers);
    OrderedStep(m.flag, m.prio, a.senders, m.senders, Actor(step), BlockedSenders(m'), m'.senders);
  }

  /** Every step of a run wakes who is next. */
  ghost predicate AllWakeNext(m: Mb, a: Arrivals, steps: seq<Step>)
    decreases |steps|
  {
    steps != [] ==>
      var m' := Next(m, steps[0]).0;
      WakesNext(m, a, steps[0]) && AllWakeNext(m', Arrived(a, m', steps[0]), steps[1..])
  }

  lemma {:induction false} RunWakesNext(m: Mb, a: Arrivals, steps: seq<Step>)
    requires Inv(m) && Possible(m, steps) && InOrder(m, a)
    ensures AllWakeNext(m, a, steps)
    decreases |steps|
  {
    hide Inv, InOrder, WakesNext, Next, Enabled, Arrived;
    if steps != [] {
      var m' := Next(m, steps[0]).0;
      StepInv(m, steps[0]);
      StepWakes(m, a, steps[0]);
      StepOrder(m, a, steps[0]);
      RunWakesNext(m', Arrived(a, m', steps[0]), steps[1..]);
    }
  }

  /** From the initialisation on, when nobody waits. */
  lemma WakesNextFromTheStart(m: Mb, steps: seq<Step>)
    requires Inv(m) && m.receivers == [] && m.senders == [] && Possible(m, steps)
    ensures AllWakeNext(m, Arrivals([], []), steps)
  {
    OrderedEmpty(m.flag, m.prio);
    RunWakesNext(m, Arrivals([], []), steps);
  }

  // ---- What the calls return ----

  ghost predicate Calls(step: Step) { step.Send? || step.Recv? || step.Resume? }

  /** The thread was woken with an error. */
  ghost predicate Failed(m: Mb, t: int) {
    var s := StatOf(m, t);
    (s.RecvWoken? || s.SendWoken?) && s.error != EOK
  }

  /** The thread is in a send, of that mail. */
  ghost predicate Sending(m: Mb, step: Step) { step.Send? || (step.Resume? && StatOf(m, step.t).SendWoken?) }

  ghost function MailOf(m: Mb, step: Step): int {
    if step.Send? then step.mail
    else if step.Resume? && StatOf(m, step.t).SendWoken? then StatOf(m, step.t).mail else 0
  }

  /** EOK if and only if the mail is now the last one; EFULL if and only if there is no room and the caller may not
      wait; and then it waits if and only if it may.  What is not put in does not change the mails. */
  ghost predicate SendReturns(m: Mb, step: Step)
    requires Calls(step)
  {
    var (m', o) := Next(m, step);
    && (o == Return(EOK) <==> |m.mails| < m.size)
    && (o == Return(EOK) ==> m'.mails == m.mails + [MailOf(m, step)])
    && (o == Return(EFULL) <==> |m.mails| == m.size && step.timeout == 0)
    && (o == Wait <==> |m.mails| == m.size && step.timeout != 0)
    && (o == Wait ==> StatOf(m', step.t) == SendBlocked(MailOf(m, step)))
    && (o != Return(EOK) ==> m'.mails == m.mails)
    && (o == Return(EOK) || o == Return(EFULL) || o == Wait)
  }

  /** A mail if and only if there is one, and then the first; ETIMEOUT if and only if there is none and the caller may
      not wait. */
  ghost predicate ReceiveReturns(m: Mb, step: Step)
    requires Calls(step)
  {
    var (m', o) := Next(m, step);
    && (o.Deliver? <==> m.mails != [])
    && (o.Deliver? ==> o.mail == m.mails[0] && m'.mails == m.mails[1..])
    && (o == Return(ETIMEOUT) <==> m.mails == [] && step.timeout == 0)
    && (o == Wait <==> m.mails == [] && step.timeout != 0)
    && (o == Wait ==> StatOf(m', step.t) == RecvBlocked)
    && (!o.Deliver? ==> m'.mails == m.mails)
    && (o.Deliver? || o == Return(ETIMEOUT) || o == Wait)
  }

  ghost predicate CallReturns(m: Mb, step: Step)
    requires Calls(step)
  {
    var (m', o) := Next(m, step);
    && (o != Wait ==> StatOf(m', step.t) == Outside)
    && if Failed(m, step.t) then o == Return(StatOf(m, step.t).error) && m'.mails == m.mails
       else if Sending(m, step) then SendReturns(m, step)
       else ReceiveReturns(m, step)
  }

  lemma StepReturns(m: Mb, step: Step)
    requires Inv(m) && Enabled(m, step) && Calls(step)
    ensures CallReturns(m, step)
  {
    hide Queued, Lists, NoLostWakeup;
    match step
    case Send(t, v, timeout) => OutsideAfter(m, t);
    case Recv(t, timeout) => OutsideAfter(m, t);
    case Resume(t, timeout) => OutsideAfter(m, t);
  }

  /** Who runs is not the one that is woken. */
  lemma OutsideAfter(m: Mb, t: int)
    requires Inv(m) && !StatOf(m, t).RecvBlocked? && !StatOf(m, t).SendBlocked?
    ensures m.receivers != [] ==> m.receivers[0] != t
    ensures m.senders != [] ==> m.senders[0] != t
  {
    if m.receivers != [] { assert m.receivers[0] in m.receivers; }
    if m.senders != [] { assert m.senders[0] in m.senders; }
  }

  /** When its timer expires a blocked thread waits no more, and will return ETIMEOUT. */
  lemma ExpireEnds(m: Mb, t: int)
    requires Inv(m) && Enabled(m, Expire(t))
    ensures var m' := Next(m, Expire(t)).0;
            && IsWoken(m', t) && StatOf(m', t).error == ETIMEOUT && t !in m'.receivers && t !in m'.senders
            && m'.mails == m.mails && forall u :: u != t ==> StatOf(m', u) == StatOf(m, u)
  {
    DelElements(m.receivers, t);
    DelElements(m.senders, t);
  }

  /** A reset throws all mails away, and every blocked thread will return ERROR. */
  lemma ResetEnds(m: Mb)
    requires Inv(m)
    ensures var m' := Next(m, Reset).0;
            && m'.mails == [] && m'.receivers == [] && m'.senders == []
            && forall u :: Blocked(m, u) ==> IsWoken(m', u) && StatOf(m', u).error == ERROR
  {
    forall u | Blocked(m, u) ensures IsWoken(Next(m, Reset).0, u) && StatOf(Next(m, Reset).0, u).error == ERROR {
      ResetWakes(m, u);
    }
  }

  ghost predicate Blocked(m: Mb, t: int) { StatOf(m, t).RecvBlocked? || StatOf(m, t).SendBlocked? }

  /** What ended the last wait of thread t in the run. */
  ghost function LastCause(m: Mb, steps: seq<Step>, t: int, c: Cause): Cause
    decreases |steps|
  {
    if steps == [] then c
    else
      var m' := Next(m, steps[0]).0;
      var ends := Blocked(m, t) && !Blocked(m', t);
      LastCause(m', steps[1..], t,
                if !ends then c else if steps[0].Reset? then WasReset else if steps[0] == Expire(t) then TimedOut
                else Served)
  }

  ghost predicate IsWoken(m: Mb, t: int) { StatOf(m, t).RecvWoken? || StatOf(m, t).SendWoken? }

  ghost predicate Explains(m: Mb, t: int, c: Cause) { IsWoken(m, t) ==> StatOf(m, t).error == CodeOf(c) }

  lemma SectionWakes(m: Mb, p: Mb, t: int)
    requires Lists(m) && p.receivers == m.receivers && p.senders == m.senders
    requires forall u :: Blocked(m, u) ==> StatOf(p, u) == StatOf(m, u)
    ensures forall r :: r == ResumeReceiver(p) || r == ResumeSender(p) ==>
              var s, s' := StatOf(p, t), StatOf(r, t);
              (s' == s || (Blocked(m, t) && IsWoken(r, t) && s'.error == EOK))
  {
    if m.receivers != [] { assert m.receivers[0] in m.receivers; }
    if m.senders != [] { assert m.senders[0] in m.senders; }
  }

  /** Whom a section wakes, it wakes without an error. */
  ghost predicate WakesGently(m: Mb, m': Mb, t: int) {
    && (IsWoken(m', t) ==> StatOf(m', t) == StatOf(m, t) || Blocked(m, t))
    && (Blocked(m, t) && IsWoken(m', t) ==> StatOf(m', t).error == EOK)
  }

  lemma SendWakesGently(m: Mb, u: int, mail: int, timeout: int, t: int)
    requires Lists(m) && !Blocked(m, u)
    ensures WakesGently(m, SendSection(m, u, mail, timeout).0, t)
  {
    SectionWakes(m, Leave(m, u).(mails := m.mails + [mail], sent := m.sent + [mail]), t);
    hide ResumeReceiver, ResumeSender, Queued, Lists;
  }

  lemma RecvWakesGently(m: Mb, u: int, timeout: int, t: int)
    requires Lists(m) && !Blocked(m, u)
    ensures WakesGently(m, RecvSection(m, u, timeout).0, t)
  {
    if m.mails != [] { SectionWakes(m, Leave(m, u).(mails := m.mails[1..], got := m.got + [m.mails[0]]), t); }
    hide ResumeReceiver, ResumeSender, Queued, Lists;
  }

  lemma CallWakes(m: Mb, step: Step, t: int)
    requires Inv(m) && Enabled(m, step) && Calls(step)
    ensures WakesGently(m, Next(m, step).0, t)
  {
    hide SendSection, RecvSection, NoLostWakeup, Conserved, Lists;
    match step
    case Send(u, v, timeout) => SendWakesGently(m, u, v, timeout, t);
    case Recv(u, timeout) => RecvWakesGently(m, u, timeout, t);
    case Resume(u, timeout) =>
      if StatOf(m, u).SendWoken? {
        SendWakesGently(m, u, StatOf(m, u).mail, timeout, t);
      } else {
        RecvWakesGently(m, u, timeout, t);
      }
  }

  lemma ResetWakes(m: Mb, t: int)
    requires Inv(m)
    ensures StatOf(Next(m, Reset).0, t) == if Blocked(m, t) then Woken(StatOf(m, t), ERROR) else StatOf(m, t)
  {
    hide NoLostWakeup, Conserved;
    WakeAllIs(m.stat, m.receivers);
    WakeAllIs(WakeAll(m.stat, m.receivers), m.senders);
  }

  lemma WokenBy(m: Mb, step: Step, t: int)
    requires Inv(m) && Enabled(m, step)
    ensures var m' := Next(m, step).0;
            && (IsWoken(m', t) ==> StatOf(m', t) == StatOf(m, t) || Blocked(m, t))
            && (Blocked(m, t) && IsWoken(m', t) ==>
                StatOf(m', t).error == if step.Reset? then ERROR else if step == Expire(t) then ETIMEOUT else EOK)
  {
    hide Inv, SendSection, RecvSection, WakeAll;
    if step.Reset? {
      ResetWakes(m, t);
    } else if Calls(step) {
      CallWakes(m, step, t);
    }
  }

  /** Over every run a woken thread holds the code of what ended its wait. */
  lemma {:induction false} RunExplains(m: Mb, steps: seq<Step>, t: int, c: Cause)
    requires Inv(m) && Possible(m, steps) && Explains(m, t, c)
    ensures Explains(After(m, steps), t, LastCause(m, steps, t, c))
    decreases |steps|
  {
    hide Inv, Next, Enabled;
    if steps != [] {
      var m' := Next(m, steps[0]).0;
      StepInv(m, steps[0]);
      WokenBy(m, steps[0], t);
      var ends := Blocked(m, t) && !Blocked(m', t);
      var c' := if !ends then c else if steps[0].Reset? then WasReset else if steps[0] == Expire(t) then TimedOut
                else Served;
      RunExplains(m', steps[1..], t, c');
    }
  }

  /** A thread that was woken in a run returns ERROR if and only if a reset ended its wait; ETIMEOUT if and only if
      its timer did, or, for a receiver, there is again no mail and it may not wait again. */
  lemma WokenReturns(m: Mb, steps: seq<Step>, t: int, timeout: int)
    requires Inv(m) && Possible(m, steps) && !IsWoken(m, t) && IsWoken(After(m, steps), t)
    ensures var end, cause := After(m, steps), LastCause(m, steps, t, Unknown);
            var o := Next(end, Resume(t, timeout)).1;
            && (o == Return(ERROR) <==> cause == WasReset)
            && (o == Return(ETIMEOUT) <==>
                cause == TimedOut ||
                (cause != WasReset && StatOf(end, t).RecvWoken? && end.mails == [] && timeout == 0))
  {
    hide Inv, Next, Possible, After, LastCause;
    RunExplains(m, steps, t, Unknown);
    RunInv(m, steps);
    StepReturns(After(m, steps), Resume(t, timeout));
  }
}
