/** What the calls on a message queue return, and which receiver a send wakes, over whole runs. */
module MqCalls {
  import opened RtList
  import opened SortedList
  import opened IpcList
  import opened IpcOrder
  import opened MqSpec
  import opened MqDelivery

  // ---- Sending ----

  ghost predicate SendStep(step: Step) { step.Alloc? || step.Fill? || step.Link? }

  /** The message x that starts with the buffer of its sender went to the end of the queue, or to its front. */
  ghost predicate Linked(m: Mq, m': Mq, given: seq<int>, urgent: bool, x: seq<int>) {
    given <= x && Messages(m', m'.chain) == if urgent then [x] + Messages(m, m.chain) else Messages(m, m.chain) + [x]
  }

  ghost predicate IsLinked(m: Mq, m': Mq, given: seq<int>, urgent: bool) {
    exists x :: Linked(m, m', given, urgent, x)
  }

  ghost predicate SendsUrgent(m: Mq, t: int) { StatOf(m, t).Filled? && StatOf(m, t).urgent }

  /** Every block is in the queue or with a thread that is between two critical sections. */
  ghost predicate AllTaken(m: Mq) { forall b :: 0 <= b < m.max ==> b in m.chain || Held(m, b) }

  /** What the sections of a send return, and what they have done then. */
  ghost predicate SendReturns(m: Mq, given: map<int, seq<int>>, step: Step)
    requires SendStep(step)
  {
    var (m', o) := Next(m, step);
    && (o == Continue || o == Return(EOK) || o == Return(EFULL) || o == Return(ERROR))
    && (o == Return(EOK) <==> step.Link?)
    && (o == Return(EOK) ==> IsLinked(m, m', GivenBy(given, step.t), SendsUrgent(m, step.t)))
    && (o != Return(EOK) ==> Messages(m', m'.chain) == Messages(m, m.chain))
    && (o == Return(ERROR) <==> step.Alloc? && |step.data| > m.msgSize)
    && (o == Return(EFULL) <==> step.Alloc? && |step.data| <= m.msgSize && AllTaken(m))
    && (o == Return(ERROR) || o == Return(EFULL) ==> m' == m)
    && (step.Alloc? && o == Continue ==>
        StatOf(m', step.t).Filling? && StatOf(m', step.t).data == step.data && StatOf(m', step.t).urgent == step.urgent)
  }

  lemma FullIs(m: Mq)
    requires Inv(m)
    ensures m.free == [] <==> AllTaken(m)
  {
    if m.free != [] {
      var b := m.free[0];
      assert b in m.free && b !in m.chain;
    }
  }

  lemma LinkReturns(m: Mq, given: map<int, seq<int>>, t: int)
    requires Inv(m) && StatOf(m, t).Filled? && AllSending(m, given)
    ensures SendReturns(m, given, Link(t))
  {
    hide Inv, Messages;
    var s := StatOf(m, t);
    StepMessages(m, Link(t));
    assert Sending(m, given, t);
    assert Linked(m, Next(m, Link(t)).0, GivenBy(given, t), s.urgent, Bytes(m, s.block));
  }

  lemma StepSendReturns(m: Mq, given: map<int, seq<int>>, step: Step)
    requires Inv(m) && Enabled(m, step) && AllSending(m, given) && SendStep(step)
    ensures SendReturns(m, given, step)
  {
    hide Inv, Messages, AllTaken;
    FullIs(m);
    match step
    case Alloc(t, data, urgent) => StepMessages(m, step);
    case Fill(t) => StepMessages(m, step);
    case Link(t) => LinkReturns(m, given, t);
  }

  /** Over every run. */
  ghost predicate AllSendsReturn(m: Mq, given: map<int, seq<int>>, steps: seq<Step>)
    decreases |steps|
  {
    steps != [] ==>
      && (SendStep(steps[0]) ==> SendReturns(m, given, steps[0]))
      && AllSendsReturn(Next(m, steps[0]).0, Given(given, steps[0]), steps[1..])
  }

  lemma {:induction false} RunSendsReturn(m: Mq, given: map<int, seq<int>>, steps: seq<Step>)
    requires Inv(m) && Possible(m, steps) && AllSending(m, given)
    ensures AllSendsReturn(m, given, steps)
    decreases |steps|
  {
    hide Inv, Next, Enabled, AllSending, SendReturns, Given;
    if steps != [] {
      StepInv(m, steps[0]);
      SendingStep(m, given, steps[0]);
      if SendStep(steps[0]) { StepSendReturns(m, given, steps[0]); }
      RunSendsReturn(Next(m, steps[0]).0, Given(given, steps[0]), steps[1..]);
    }
  }

  // ---- A whole call of rt_mq_send or rt_mq_urgent ----

  /** Steps of others. */
  ghost predicate NotBy(steps: seq<Step>, t: int) {
    forall i :: 0 <= i < |steps| ==> (steps[i].Reset? || steps[i].t != t)
  }

  ghost predicate Sender(m: Mq, t: int) { StatOf(m, t).Filling? || StatOf(m, t).Filled? }

  lemma SenderStays(m: Mq, step: Step, t: int)
    requires Inv(m) && Enabled(m, step) && Sender(m, t) && (step.Reset? || step.t != t)
    ensures StatOf(Next(m, step).0, t) == StatOf(m, t)
  {
    hide Inv, Queued, WakeAll, FreeAll;
    if step.Reset? { ResetWakes(m, t); }
  }

  lemma {:induction false} SenderKept(m: Mq, given: map<int, seq<int>>, steps: seq<Step>, t: int)
    requires Inv(m) && Possible(m, steps) && Sender(m, t) && NotBy(steps, t) && AllSending(m, given)
    ensures var end := After(m, steps);
            Inv(end) && StatOf(end, t) == StatOf(m, t) && AllSending(end, AfterGiven(given, steps)) &&
            GivenBy(AfterGiven(given, steps), t) == GivenBy(given, t)
    decreases |steps|
  {
    hide Inv, Next, AllSending;
    if steps != [] {
      StepInv(m, steps[0]);
      SendingStep(m, given, steps[0]);
      SenderStays(m, steps[0], t);
      SenderKept(Next(m, steps[0]).0, Given(given, steps[0]), steps[1..], t);
    }
  }

  function AfterGiven(given: map<int, seq<int>>, steps: seq<Step>): map<int, seq<int>>
    decreases |steps|
  {
    if steps == [] then given else AfterGiven(Given(given, steps[0]), steps[1..])
  }

  /** The call that was not refused: whatever happens before its copy and between the copy and its last section, it
      returns EOK, having put a message that starts with its buffer behind all others, or before them if urgent. */
  lemma SendCall(m: Mq, given: map<int, seq<int>>, t: int, data: seq<int>, urgent: bool, before: seq<Step>,
                 between: seq<Step>)
    requires Inv(m) && AllSending(m, given) && StatOf(m, t).Outside?
    requires Next(m, Alloc(t, data, urgent)).1 == Continue && NotBy(before, t) && NotBy(between, t)
    requires var m1 := Next(m, Alloc(t, data, urgent)).0; Possible(m1, before)
    requires var m2 := After(Next(m, Alloc(t, data, urgent)).0, before); Possible(Next(m2, Fill(t)).0, between)
    ensures var m3 := After(Next(After(Next(m, Alloc(t, data, urgent)).0, before), Fill(t)).0, between);
            Next(m3, Link(t)).1 == Return(EOK) && IsLinked(m3, Next(m3, Link(t)).0, data, urgent)
  {
    hide Inv, Possible, AllSending, Messages, After, AfterGiven, Next, NotBy;
    var call := Alloc(t, data, urgent);
    StepInv(m, call);
    SendingStep(m, given, call);
    AllocStarts(m, given, call);
    var m1, g1 := Next(m, call).0, Given(given, call);
    SenderKept(m1, g1, before, t);
    var m2, g2 := After(m1, before), AfterGiven(g1, before);
    StepInv(m2, Fill(t));
    SendingStep(m2, g2, Fill(t));
    FillWrites(m2, t);
    var m2', g2' := Next(m2, Fill(t)).0, Given(g2, Fill(t));
    SenderKept(m2', g2', between, t);
    var m3, g3 := After(m2', between), AfterGiven(g2', between);
    LinkReturns(m3, g3, t);
  }

  lemma AllocStarts(m: Mq, given: map<int, seq<int>>, step: Step)
    requires step.Alloc? && Next(m, step).1 == Continue
    ensures var s := StatOf(Next(m, step).0, step.t);
            s.Filling? && s.data == step.data && s.urgent == step.urgent &&
            GivenBy(Given(given, step), step.t) == step.data
  {
  }

  // ---- Receiving ----

  /** A receiver goes on with the first message if there is one; else it returns ETIMEOUT if it may not wait, and
      waits if it may.  A woken one returns the error that it was woken with, if there is one.  It never returns
      EOK without a message. */
  ghost predicate ReceiveReturns(m: Mq, step: Step)
    requires step.Recv? || step.Resume?
  {
    var (m', o) := Next(m, step);
    var failed := StatOf(m, step.t).Woken? && StatOf(m, step.t).error != EOK;
    && (o == Continue <==> !failed && m.chain != [])
    && (o == Continue ==> m'.chain == m.chain[1..] && StatOf(m', step.t).Draining? &&
                          StatOf(m', step.t).block == m.chain[0])
    && (o != Continue ==> m'.chain == m.chain)
    && (o == Wait <==> !failed && m.chain == [] && step.timeout != 0)
    && (o == Wait <==> StatOf(m', step.t).Blocked?)
    && (o != Continue && o != Wait ==>
        o == Return(if failed then StatOf(m, step.t).error else ETIMEOUT) && StatOf(m', step.t).Outside?)
  }

  lemma StepReceiveReturns(m: Mq, step: Step)
    requires Inv(m) && Enabled(m, step) && (step.Recv? || step.Resume?)
    ensures ReceiveReturns(m, step)
  {
    hide Inv, Queued;
  }

  /** What ended the last wait of thread t in the run. */
  function LastCause(m: Mq, steps: seq<Step>, t: int, c: Cause): Cause
    decreases |steps|
  {
    if steps == [] then c
    else
      var m' := Next(m, steps[0]).0;
      var ends := StatOf(m, t).Blocked? && !StatOf(m', t).Blocked?;
      LastCause(m', steps[1..], t,
                if !ends then c else if steps[0].Reset? then WasReset else if steps[0] == Expire(t) then TimedOut
                else Served)
  }

  ghost predicate Explains(m: Mq, t: int, c: Cause) { StatOf(m, t).Woken? ==> StatOf(m, t).error == CodeOf(c) }

  lemma WokenBy(m: Mq, step: Step, t: int)
    requires Inv(m) && Enabled(m, step)
    ensures var s, s' := StatOf(m, t), StatOf(Next(m, step).0, t);
            && (s'.Woken? ==> s == s' || s.Blocked?)
            && (s.Blocked? && s'.Woken? ==>
                s'.error == if step.Reset? then ERROR else if step == Expire(t) then ETIMEOUT else EOK)
  {
    hide Inv, Queued, WakeAll, FreeAll;
    if step.Reset? { ResetWakes(m, t); }
  }

  /** Over every run a woken thread holds the code of what ended its wait: ETIMEOUT if and only if its timer
      expired, ERROR if and only if the queue was reset. */
  lemma {:induction false} RunExplains(m: Mq, steps: seq<Step>, t: int, c: Cause)
    requires Inv(m) && Possible(m, steps) && Explains(m, t, c)
    ensures Explains(After(m, steps), t, LastCause(m, steps, t, c))
    decreases |steps|
  {
    hide Inv, Next, Enabled;
    if steps != [] {
      var m' := Next(m, steps[0]).0;
      StepInv(m, steps[0]);
      WokenBy(m, steps[0], t);
      var ends := StatOf(m, t).Blocked? && !StatOf(m', t).Blocked?;
      var c' := if !ends then c else if steps[0].Reset? then WasReset else if steps[0] == Expire(t) then TimedOut
                else Served;
      RunExplains(m', steps[1..], t, c');
    }
  }

  /** What a receiver returns that was woken in a run: ERROR if and only if a reset ended its wait; ETIMEOUT if and
      only if its timer did, or a send did, but another receiver was faster and the caller may not wait again. */
  lemma WokenReturns(m: Mq, steps: seq<Step>, t: int, timeout: int)
    requires Inv(m) && Possible(m, steps) && !StatOf(m, t).Woken? && StatOf(After(m, steps), t).Woken?
    ensures var end, cause := After(m, steps), LastCause(m, steps, t, Unknown);
            var o := Next(end, Resume(t, timeout)).1;
            && o != Return(EOK)
            && (o == Return(ERROR) <==> cause == WasReset)
            && (o == Return(ETIMEOUT) <==>
                cause == TimedOut || (cause != WasReset && end.chain == [] && timeout == 0))
  {
    hide Inv, Next, Possible, After, LastCause;
    RunExplains(m, steps, t, Unknown);
    RunInv(m, steps);
    StepReceiveReturns(After(m, steps), Resume(t, timeout));
  }

  // ---- Who is woken ----

  ghost function BlockedThreads(m: Mq): set<int> { set t | t in m.stat && m.stat[t].Blocked? }

  function Actor(step: Step): seq<int> { if step.Recv? || step.Resume? then [step.t] else [] }

  /** The blocked receivers in the order in which they came to wait. */
  ghost function Arrived(a: seq<int>, m': Mq, step: Step): seq<int> {
    Kept(a, BlockedThreads(m')) + Kept(Actor(step), BlockedThreads(m'))
  }

  /** A send wakes exactly the receiver that is next; else only a timeout or a reset ends a wait. */
  ghost predicate WakesNext(m: Mq, a: seq<int>, step: Step) {
    var m' := Next(m, step).0;
    forall t :: t in a ==>
      StatOf(m, t).Blocked? && StatOf(m', t) ==
        if step.Link? && IsNext(m.flag, m.prio, a, t) then Woken(EOK, StatOf(m, t).size)
        else if step == Expire(t) then Woken(ETIMEOUT, StatOf(m, t).size)
        else if step.Reset? then Woken(ERROR, StatOf(m, t).size)
        else StatOf(m, t)
  }

  ghost predicate InOrder(m: Mq, a: seq<int>) { Ordered(m.flag, m.prio, a, m.receivers) }

  lemma BlockedIs(m: Mq, a: seq<int>)
    requires Inv(m) && InOrder(m, a)
    ensures forall t :: t in a <==> StatOf(m, t).Blocked?
    ensures forall t :: t in BlockedThreads(m) <==> t in m.receivers
  {
    forall t ensures t in BlockedThreads(m) <==> StatOf(m, t).Blocked? {}
  }

  lemma LinkWakes(m: Mq, a: seq<int>, t: int)
    requires Inv(m) && InOrder(m, a) && StatOf(m, t).Filled?
    ensures WakesNext(m, a, Link(t))
  {
    BlockedIs(m, a);
    hide Inv, IsNext;
    if m.receivers != [] {
      var h := m.receivers[0];
      HeadIsNext(m.flag, m.prio, a, m.receivers);
      assert h in a;
      forall u | IsNext(m.flag, m.prio, a, u) ensures u == h { NextUnique(m.flag, m.prio, a, u, h); }
    }
  }

  lemma OthersStay(m: Mq, step: Step)
    requires Enabled(m, step) && !step.Link? && !step.Reset?
    ensures forall t :: StatOf(m, t).Blocked? && step != Expire(t) ==> StatOf(Next(m, step).0, t) == StatOf(m, t)
    ensures step.Expire? ==> StatOf(Next(m, step).0, step.t) == Woken(ETIMEOUT, StatOf(m, step.t).size)
  {
  }

  lemma StepWakes(m: Mq, a: seq<int>, step: Step)
    requires Inv(m) && Enabled(m, step) && InOrder(m, a)
    ensures WakesNext(m, a, step)
  {
    BlockedIs(m, a);
    hide Inv, InOrder, IsNext, Next;
    match step
    case Link(t) => LinkWakes(m, a, t);
    case Reset =>
      forall t | t in a ensures StatOf(Next(m, Reset).0, t) == Woken(ERROR, StatOf(m, t).size) { ResetWakes(m, t); }
    case _ => OthersStay(m, step);
  }

  lemma StepLists(m: Mq, step: Step)
    requires Enabled(m, step)
    ensures var m' := Next(m, step).0;
            ListStep(m.flag, m.prio, m.receivers, Actor(step), m'.receivers) && m'.flag == m.flag && m'.prio == m.prio
  {
    if m.receivers != [] { PopIsDel(m.receivers); }
  }

  lemma StepOrder(m: Mq, a: seq<int>, step: Step)
    requires Inv(m) && Enabled(m, step) && InOrder(m, a)
    ensures InOrder(Next(m, step).0, Arrived(a, Next(m, step).0, step))
  {
    var m' := Next(m, step).0;
    StepInv(m, step);
    StepLists(m, step);
    BlockedIs(m, a);
    forall t ensures t in BlockedThreads(m') <==> t in m'.receivers {
      assert t in BlockedThreads(m') <==> StatOf(m', t).Blocked?;
    }
    hide Inv, Ordered, Next, Queued, BlockedThreads;
    OrderedStep(m.flag, m.prio, a, m.receivers, Actor(step), BlockedThreads(m'), m'.receivers);
  }

  ghost predicate AllWakeNext(m: Mq, a: seq<int>, steps: seq<Step>)
    decreases |steps|
  {
    steps != [] ==>
      var m' := Next(m, steps[0]).0;
      WakesNext(m, a, steps[0]) && AllWakeNext(m', Arrived(a, m', steps[0]), steps[1..])
  }

  /** Every step of every run does so. */
  lemma {:induction false} RunWakesNext(m: Mq, a: seq<int>, steps: seq<Step>)
    requires Inv(m) && Possible(m, steps) && InOrder(m, a)
    ensures AllWakeNext(m, a, steps)
    decreases |steps|
  {
    hide Inv, InOrder, WakesNext, Next, Enabled, Arrived;
    if steps != [] {
      var m' := Next(m, steps[0]).0;
      StepInv(m, steps[0]);
      StepWakes(m, a, steps[0]);
      StepOrder(m, a, steps[0]);
      RunWakesNext(m', Arrived(a, m', steps[0]), steps[1..]);
    }
  }
}
