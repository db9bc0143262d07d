/** What receivers get from a message queue, against what senders gave it, over whole runs. */
module MqDelivery {
  import opened MqSpec

  // ---- The sending side: what was given to rt_mq_send is in the queue ----

  /** The buffers of the senders: `given` remembers for each thread the one of its last call. */
  function Given(given: map<int, seq<int>>, step: Step): map<int, seq<int>> {
    if step.Alloc? then given[step.t := step.data] else given
  }

  function GivenBy(given: map<int, seq<int>>, t: int): seq<int> { if t in given then given[t] else [] }

  /** A thread that has not copied yet will copy its buffer; the block of one that has starts with it. */
  ghost predicate Sending(m: Mq, given: map<int, seq<int>>, t: int) {
    && (StatOf(m, t).Filling? ==> StatOf(m, t).data == GivenBy(given, t))
    && (StatOf(m, t).Filled? ==> GivenBy(given, t) <= Bytes(m, StatOf(m, t).block))
  }

  ghost predicate AllSending(m: Mq, given: map<int, seq<int>>) {
    forall t {:trigger Sending(m, given, t)} :: Sending(m, given, t)
  }

  lemma SendingStep(m: Mq, given: map<int, seq<int>>, step: Step)
    requires Inv(m) && Enabled(m, step) && AllSending(m, given)
    ensures AllSending(Next(m, step).0, Given(given, step))
  {
    hide Inv, Next;
    var m', given' := Next(m, step).0, Given(given, step);
    forall t ensures Sending(m', given', t) {
      assert Sending(m, given, t);
      if StatOf(m, t).Filled? && step != Link(t) {
        FilledStays(m, step, t);
        NotAllocating(m, step, t);
      } else if step == Fill(t) {
        FillWrites(m, t);
      } else {
        SendersFrom(m, step, t);
      }
    }
  }

  lemma NotAllocating(m: Mq, step: Step, t: int)
    requires Enabled(m, step) && !StatOf(m, t).Outside?
    ensures step.Alloc? ==> step.t != t
  {
  }

  /** Who becomes a sender, or stays one before its copy. */
  lemma SendersFrom(m: Mq, step: Step, t: int)
    requires Inv(m) && Enabled(m, step) && step != Fill(t) && (StatOf(m, t).Filled? ==> step == Link(t))
    ensures var s := StatOf(Next(m, step).0, t);
            && !s.Filled?
            && (s.Filling? ==> if step.Alloc? && step.t == t then s.data == step.data else s == StatOf(m, t))
  {
    hide Inv, WakeAll, FreeAll;
    if step.Reset? { ResetWakes(m, t); }
  }

  /** The buffers of the ordinary sends of a run, in the order in which their blocks were linked. */
  function AllGiven(m: Mq, given: map<int, seq<int>>, steps: seq<Step>): seq<seq<int>>
    decreases |steps|
  {
    if steps == [] then []
    else
      (if Sends(m, steps[0]) == [] then [] else [GivenBy(given, steps[0].t)]) +
      AllGiven(Next(m, steps[0]).0, Given(given, steps[0]), steps[1..])
  }

  /** One after the other, each of a begins the one of b. */
  ghost predicate Begin(a: seq<seq<int>>, b: seq<seq<int>>) {
    |a| == |b| && forall i :: 0 <= i < |a| ==> a[i] <= b[i]
  }

  lemma BeginJoin(a: seq<seq<int>>, b: seq<seq<int>>, c: seq<seq<int>>, d: seq<seq<int>>)
    requires Begin(a, b) && Begin(c, d)
    ensures Begin(a + c, b + d)
  {
  }

  /** The messages sent start with the buffers given. */
  lemma {:induction false} GivenIsSent(m: Mq, given: map<int, seq<int>>, steps: seq<Step>)
    requires Inv(m) && Possible(m, steps) && AllSending(m, given)
    ensures Begin(AllGiven(m, given, steps), AllSent(m, steps))
    decreases |steps|
  {
    hide Inv, Next;
    if steps != [] {
      var step, m' := steps[0], Next(m, steps[0]).0;
      StepInv(m, step);
      SendingStep(m, given, step);
      GivenIsSent(m', Given(given, step), steps[1..]);
      if step.Link? { assert Sending(m, given, step.t); }
      BeginJoin(if Sends(m, step) == [] then [] else [GivenBy(given, step.t)], Sends(m, step),
                AllGiven(m', Given(given, step), steps[1..]), AllSent(m', steps[1..]));
    }
  }

  // ---- The receiving side: what a copy delivers is what its receiver took ----

  datatype Copy = Pending | Got(data: seq<int>)

  /** What thread t gets from its next copy in the run. */
  function Reads(m: Mq, t: int, steps: seq<Step>): Copy
    decreases |steps|
  {
    if steps == [] then Pending
    else if steps[0] == Drain(t) then
      match Next(m, steps[0]).1 case Deliver(data) => Got(data) case _ => Pending
    else Reads(Next(m, steps[0]).0, t, steps[1..])
  }

  /** What the receivers of a run get, in the order in which they took their messages. */
  function AllGot(m: Mq, steps: seq<Step>): seq<Copy>
    decreases |steps|
  {
    if steps == [] then []
    else
      var m' := Next(m, steps[0]).0;
      (if Takes(m, steps[0]) == [] then [] else [Reads(m', steps[0].t, steps[1..])]) + AllGot(m', steps[1..])
  }

  /** While a receiver has not copied, nobody else touches what it took. */
  lemma DrainingStays(m: Mq, step: Step, t: int)
    requires Inv(m) && Enabled(m, step) && StatOf(m, t).Draining? && step != Drain(t)
    ensures var m' := Next(m, step).0;
            StatOf(m', t) == StatOf(m, t) && t in m.want && t in m'.want && m'.want[t] == m.want[t]
  {
    hide Apart, Everywhere, NoLostWakeup, Waiting, WakeAll, FreeAll;
    if step.Reset? { ResetWakes(m, t); }
  }

  /** The bytes of a message that a call with this size gets. */
  function Cut(message: seq<int>, size: int): seq<int> { if 0 <= size <= |message| then message[..size] else message }

  lemma {:induction false} ReadsIs(m: Mq, t: int, steps: seq<Step>)
    requires Inv(m) && Possible(m, steps) && StatOf(m, t).Draining?
    ensures t in m.want && (Reads(m, t, steps).Got? ==> Reads(m, t, steps).data == Cut(m.want[t], StatOf(m, t).size))
    decreases |steps|
  {
    hide Next, Apart, Everywhere, NoLostWakeup, Waiting;
    if steps != [] {
      if steps[0] == Drain(t) {
        DrainGives(m, t);
      } else {
        StepInv(m, steps[0]);
        DrainingStays(m, steps[0], t);
        ReadsIs(Next(m, steps[0]).0, t, steps[1..]);
      }
    }
  }

  lemma DrainGives(m: Mq, t: int)
    requires Inv(m) && StatOf(m, t).Draining?
    ensures t in m.want && Next(m, Drain(t)).1 == Deliver(Cut(m.want[t], StatOf(m, t).size))
  {
  }

  /** The size that a thread asks for when it takes a message. */
  function SizeOf(m: Mq, step: Step): int {
    if step.Recv? then step.size else if step.Resume? && StatOf(m, step.t).Woken? then StatOf(m, step.t).size else 0
  }

  lemma TakerDrains(m: Mq, step: Step)
    requires Inv(m) && Enabled(m, step) && Takes(m, step) != []
    ensures !step.Reset?
    ensures var m', t := Next(m, step).0, step.t;
            StatOf(m', t).Draining? && StatOf(m', t).size == SizeOf(m, step) &&
            t in m'.want && Takes(m, step) == [m'.want[t]]
  {
    hide Inv;
  }

  function AllSizes(m: Mq, steps: seq<Step>): seq<int>
    decreases |steps|
  {
    if steps == [] then []
    else (if Takes(m, steps[0]) == [] then [] else [SizeOf(m, steps[0])]) + AllSizes(Next(m, steps[0]).0, steps[1..])
  }

  /** Each copy, if the run got to it, has the bytes asked for of its message. */
  ghost predicate Copies(got: seq<Copy>, messages: seq<seq<int>>, sizes: seq<int>) {
    |got| == |messages| == |sizes| &&
    forall i :: 0 <= i < |got| ==> got[i].Got? ==> got[i].data == Cut(messages[i], sizes[i])
  }

  lemma CopiesJoin(a: seq<Copy>, b: seq<seq<int>>, c: seq<int>, d: seq<Copy>, e: seq<seq<int>>, f: seq<int>)
    requires Copies(a, b, c) && Copies(d, e, f)
    ensures Copies(a + d, b + e, c + f)
  {
  }

  lemma {:induction false} GotIsTaken(m: Mq, steps: seq<Step>)
    requires Inv(m) && Possible(m, steps)
    ensures Copies(AllGot(m, steps), AllTaken(m, steps), AllSizes(m, steps))
    decreases |steps|
  {
    hide Inv, Next, Takes, SizeOf;
    if steps != [] {
      var step, m' := steps[0], Next(m, steps[0]).0;
      StepInv(m, step);
      GotIsTaken(m', steps[1..]);
      if Takes(m, step) != [] {
        TakerDrains(m, step);
        ReadsIs(m', step.t, steps[1..]);
        CopiesJoin([Reads(m', step.t, steps[1..])], Takes(m, step), [SizeOf(m, step)],
                   AllGot(m', steps[1..]), AllTaken(m', steps[1..]), AllSizes(m', steps[1..]));
      } else {
        CopiesJoin([], [], [], AllGot(m', steps[1..]), AllTaken(m', steps[1..]), AllSizes(m', steps[1..]));
      }
    }
  }

  // ---- From the senders to the receivers ----

  /** The bytes that a call for `size` bytes gets of a message that was sent: the first ones, and behind the
      end of the message what else is in the block. */
  ghost predicate Delivers(got: seq<int>, given: seq<int>, size: int) {
    (0 <= size <= |given| ==> got == given[..size]) && (!(0 <= size <= |given|) ==> given <= got)
  }

  lemma CutOf(given: seq<int>, message: seq<int>, size: int)
    requires given <= message
    ensures Delivers(Cut(message, size), given, size)
  {
  }

  /** The messages that are in the queue, and behind them those that will be sent. */
  function Supply(m: Mq, given: map<int, seq<int>>, steps: seq<Step>): seq<seq<int>> {
    Messages(m, m.chain) + AllGiven(m, given, steps)
  }

  /** Over every interleaving of sections and copies without urgent sends and resets: the i-th message taken is
      the i-th one supplied, and once its receiver has copied it, it has the bytes that the sender gave. */
  lemma SentIsReceived(m: Mq, given: map<int, seq<int>>, steps: seq<Step>, i: nat)
    requires Inv(m) && Possible(m, steps) && Ordinary(m, steps) && AllSending(m, given)
    requires i < |AllGot(m, steps)|
    ensures |AllGot(m, steps)| == |AllSizes(m, steps)| <= |Supply(m, given, steps)|
    ensures AllGot(m, steps)[i].Got? ==>
              Delivers(AllGot(m, steps)[i].data, Supply(m, given, steps)[i], AllSizes(m, steps)[i])
  {
    hide Inv, Possible, Ordinary, AllSending, AllGot, AllSizes, AllGiven, AllTaken, AllSent, After, Messages;
    GivenIsSent(m, given, steps);
    GotIsTaken(m, steps);
    FirstInFirstOut(m, steps);
    var there, end := Messages(m, m.chain), After(m, steps);
    var taken, sent, left := AllTaken(m, steps), AllSent(m, steps), Messages(end, end.chain);
    BeginJoin(there, there, AllGiven(m, given, steps), sent);
    assert taken[i] == (taken + left)[i] == (there + sent)[i];
    CutOf(Supply(m, given, steps)[i], taken[i], AllSizes(m, steps)[i]);
  }

  /** In a new queue nobody is sending, so whatever the buffers held before. */
  lemma InitialSending(m: Mq, given: map<int, seq<int>>)
    requires m.stat == map[]
    ensures AllSending(m, given)
  {
    forall t ensures Sending(m, given, t) { assert StatOf(m, t) == Outside; }
  }

  /** From the initialisation on, the i-th message received is the i-th one sent. */
  lemma FromTheStart(m: Mq, steps: seq<Step>, i: nat)
    requires Inv(m) && m.stat == map[] && m.chain == [] && Possible(m, steps) && Ordinary(m, steps)
    requires i < |AllGot(m, steps)|
    ensures |AllGot(m, steps)| == |AllSizes(m, steps)| <= |AllGiven(m, map[], steps)|
    ensures AllGot(m, steps)[i].Got? ==>
              Delivers(AllGot(m, steps)[i].data, AllGiven(m, map[], steps)[i], AllSizes(m, steps)[i])
  {
    hide Inv, Possible, Ordinary, AllSending, AllGot, AllSizes, AllGiven;
    InitialSending(m, map[]);
    SentIsReceived(m, map[], steps, i);
    assert Supply(m, map[], steps) == AllGiven(m, map[], steps);
  }
}
