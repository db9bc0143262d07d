/** The message queue of ipc.c as a protocol.  The copies into and out of a message block run with
    interrupts enabled, between two critical sections, while the block is in no list. */
module MqSpec {
  import opened RtList
  import opened SortedList
  import opened IpcList

  /** Where a thread is.  Filling and Filled: it sends, holding a block it took from the free list;
      Draining and Drained: it receives, holding a block it took from the queue. */
  datatype Stat =
    | Outside
    | Blocked(size: int)
    | Woken(error: int, size: int)
    | Filling(block: int, data: seq<int>, urgent: bool)
    | Filled(block: int, urgent: bool)
    | Draining(block: int, size: int)
    | Drained(block: int)

  /** `want` is history: what was in the block at the head of the queue when the thread took it. */
  datatype Mq = Mq(max: nat, msgSize: nat, flag: Flag, prio: map<int, int>, free: seq<int>, chain: seq<int>,
                   mem: map<int, seq<int>>, receivers: seq<int>, stat: map<int, Stat>, want: map<int, seq<int>>)

  datatype Outcome = Continue | Wait | Return(code: int) | Deliver(data: seq<int>)

  datatype Step =
    | Alloc(t: int, data: seq<int>, urgent: bool)     // rt_mq_send or rt_mq_urgent, first section
    | Fill(t: int)                                    // its copy
    | Link(t: int)                                    // its second section
    | Recv(t: int, size: int, timeout: int)           // rt_mq_recv, first section
    | Resume(t: int, timeout: int)                    // a woken receiver runs again
    | Drain(t: int)                                   // its copy
    | Release(t: int)                                 // its last section
    | Expire(t: int)                                  // rt_thread_timeout
    | Reset                                           // rt_mq_control

  function StatOf(m: Mq, t: int): Stat { if t in m.stat then m.stat[t] else Outside }
  function Bytes(m: Mq, b: int): seq<int> { if b in m.mem then m.mem[b] else [] }
  function Min(a: int, b: int): (r: int)
    ensures r <= a && r <= b && (r == a || r == b)
  {
    if a < b then a else b
  }

  /** A buffer copied over the start of a block. */
  function Copied(block: seq<int>, data: seq<int>): seq<int> {
    if |data| <= |block| then data + block[|data|..] else data
  }

  function ResumeFirst(m: Mq): Mq {
    if m.receivers == [] then m
    else
      var t := m.receivers[0];
      m.(receivers := m.receivers[1..],
         stat := m.stat[t := if StatOf(m, t).Blocked? then Woken(EOK, StatOf(m, t).size) else StatOf(m, t)])
  }

  function RecvSection(m: Mq, t: int, size: int, timeout: int): (Mq, Outcome) {
    if m.chain == [] then
      if timeout == 0 then (m.(stat := m.stat[t := Outside]), Return(ETIMEOUT))
      else (m.(receivers := Queued(m.flag, m.prio, m.receivers, t), stat := m.stat[t := Blocked(size)]), Wait)
    else
      var b := m.chain[0];
      (m.(chain := m.chain[1..], stat := m.stat[t := Draining(b, size)], want := m.want[t := Bytes(m, b)]), Continue)
  }

  function WakeAll(stat: map<int, Stat>, q: seq<int>): map<int, Stat>
    decreases |q|
  {
    if q == [] then stat
    else
      var woken := if q[0] in stat && stat[q[0]].Blocked? then stat[q[0] := Woken(ERROR, stat[q[0]].size)] else stat;
      WakeAll(woken, q[1..])
  }

  /** The blocks of the queue go to the free list, one after the other. */
  function FreeAll(free: seq<int>, chain: seq<int>): seq<int>
    decreases |chain|
  {
    if chain == [] then free else FreeAll([chain[0]] + free, chain[1..])
  }

  function Next(m: Mq, step: Step): (Mq, Outcome) {
    match step
    case Alloc(t, data, urgent) =>
      if |data| > m.msgSize then (m, Return(ERROR))
      else if m.free == [] then (m, Return(EFULL))
      else (m.(free := m.free[1..], stat := m.stat[t := Filling(m.free[0], data, urgent)]), Continue)
    case Fill(t) => (
      match StatOf(m, t)
      case Filling(b, data, urgent) =>
        (m.(mem := m.mem[b := Copied(Bytes(m, b), data)], stat := m.stat[t := Filled(b, urgent)]), Continue)
      case _ => (m, Wait))
    case Link(t) => (
      match StatOf(m, t)
      case Filled(b, urgent) =>
        (ResumeFirst(m.(chain := if urgent then [b] + m.chain else m.chain + [b], stat := m.stat[t := Outside])),
         Return(EOK))
      case _ => (m, Wait))
    case Recv(t, size, timeout) => RecvSection(m, t, size, timeout)
    case Resume(t, timeout) => (
      match StatOf(m, t)
      case Woken(e, size) =>
        if e == EOK then RecvSection(m, t, size, timeout) else (m.(stat := m.stat[t := Outside]), Return(e))
      case _ => (m, Wait))
    case Drain(t) => (
      match StatOf(m, t)
      case Draining(b, size) =>
        (m.(stat := m.stat[t := Drained(b)]),
         Deliver(if 0 <= size <= |Bytes(m, b)| then Bytes(m, b)[..size] else Bytes(m, b)))
      case _ => (m, Wait))
    case Release(t) => (
      match StatOf(m, t)
      case Drained(b) => (m.(free := [b] + m.free, stat := m.stat[t := Outside]), Return(EOK))
      case _ => (m, Wait))
    case Expire(t) => (
      match StatOf(m, t)
      case Blocked(size) => (m.(receivers := Del(m.receivers, t), stat := m.stat[t := Woken(ETIMEOUT, size)]), Wait)
      case _ => (m, Wait))
    case Reset =>
      (m.(receivers := [], stat := WakeAll(m.stat, m.receivers), free := FreeAll(m.free, m.chain), chain := []), Wait)
  }

  ghost predicate Enabled(m: Mq, step: Step) {
    match step
    case Alloc(t, _, _) => StatOf(m, t).Outside?
    case Fill(t) => StatOf(m, t).Filling?
    case Link(t) => StatOf(m, t).Filled?
    case Recv(t, _, _) => StatOf(m, t).Outside?
    case Resume(t, _) => StatOf(m, t).Woken?
    case Drain(t) => StatOf(m, t).Draining?
    case Release(t) => StatOf(m, t).Drained?
    case Expire(t) => StatOf(m, t).Blocked?
    case Reset => true
  }

  /** Thread t holds block b between two critical sections. */
  ghost predicate Holds(m: Mq, t: int, b: int) {
    var s := StatOf(m, t);
    (s.Filling? || s.Filled? || s.Draining? || s.Drained?) && s.block == b
  }

  ghost predicate Held(m: Mq, b: int) { exists t :: Holds(m, t, b) }

  /** No block is in two places. */
  ghost predicate Apart(m: Mq) {
    && Distinct(m.free) && Distinct(m.chain)
    && (forall b :: b in m.free ==> b !in m.chain)
    && (forall t, b :: Holds(m, t, b) ==> 0 <= b < m.max && b !in m.free && b !in m.chain)
    && (forall t, u, b :: Holds(m, t, b) && Holds(m, u, b) ==> t == u)
    && (forall b :: b in m.free || b in m.chain ==> 0 <= b < m.max)
  }

  /** Every block is somewhere. */
  ghost predicate Everywhere(m: Mq) { forall b :: 0 <= b < m.max ==> b in m.free || b in m.chain || Held(m, b) }

  ghost predicate Waiting(m: Mq) { Distinct(m.receivers) && forall t :: t in m.receivers <==> StatOf(m, t).Blocked? }

  /** A block that is being read still has the bytes it had in the queue; what is to be sent fits. */
  ghost predicate Intact(m: Mq) {
    && (forall b :: 0 <= b < m.max ==> b in m.mem && |m.mem[b]| == m.msgSize)
    && (forall t :: StatOf(m, t).Draining? ==> t in m.want && Bytes(m, StatOf(m, t).block) == m.want[t])
    && (forall t :: StatOf(m, t).Filling? ==> |StatOf(m, t).data| <= m.msgSize)
  }

  ghost function ToRun(stat: map<int, Stat>): set<int> { set t | t in stat && stat[t].Woken? && stat[t].error == EOK }

  ghost predicate NoLostWakeup(m: Mq) { m.receivers != [] ==> |m.chain| <= |ToRun(m.stat)| }

  ghost predicate Inv(m: Mq) { Apart(m) && Everywhere(m) && Waiting(m) && Intact(m) && NoLostWakeup(m) }

  /** The messages in the queue, first to leave first. */
  function Messages(m: Mq, chain: seq<int>): seq<seq<int>> {
    if chain == [] then [] else [Bytes(m, chain[0])] + Messages(m, chain[1..])
  }

  // ---- Every block has one place ----

  lemma Places(m: Mq, m': Mq, t: int)
    requires Apart(m) && Everywhere(m) && m'.max == m.max
    requires forall u :: u != t ==> StatOf(m', u) == StatOf(m, u) || (forall b :: !Holds(m, u, b) && !Holds(m', u, b))
    requires Distinct(m'.free) && Distinct(m'.chain)
    requires forall b {:trigger b in m'.free} {:trigger b in m'.chain} {:trigger Holds(m', t, b)} ::
               (b in m'.free ==> b !in m'.chain && !Holds(m', t, b)) && (b in m'.chain ==> !Holds(m', t, b))
    requires forall b
               {:trigger b in m.free} {:trigger b in m'.free} {:trigger b in m'.chain} {:trigger Holds(m', t, b)} ::
               (b in m.free || b in m.chain || Holds(m, t, b)) <==> (b in m'.free || b in m'.chain || Holds(m', t, b))
    ensures Apart(m') && Everywhere(m')
  {
    forall u, b | u != t ensures Holds(m', u, b) <==> Holds(m, u, b) {}
    forall u, b | Holds(m', u, b) ensures 0 <= b < m.max && b !in m'.free && b !in m'.chain {
      if u != t { assert Holds(m, u, b); }
    }
    forall u, v, b | Holds(m', u, b) && Holds(m', v, b) ensures u == v {
      if u != t { assert Holds(m, u, b); }
      if v != t { assert Holds(m, v, b); }
    }
    forall b | 0 <= b < m.max ensures b in m'.free || b in m'.chain || Held(m', b) {
      if !(b in m.free || b in m.chain || Holds(m, t, b)) {
        var u :| Holds(m, u, b);
        assert Holds(m', u, b);
      }
    }
  }

  lemma CountRun(stat: map<int, Stat>, t: int, s: Stat)
    ensures |ToRun(stat[t := s])| == |ToRun(stat)| - (if t in ToRun(stat) then 1 else 0) +
              (if s.Woken? && s.error == EOK then 1 else 0)
  {
    CountOne(ToRun(stat), ToRun(stat[t := s]), t);
  }

  // ---- Every step keeps the invariant ----

  lemma AllocInv(m: Mq, t: int, data: seq<int>, urgent: bool)
    requires Inv(m) && StatOf(m, t).Outside?
    ensures Inv(Next(m, Alloc(t, data, urgent)).0)
  {
    if |data| <= m.msgSize && m.free != [] {
      var m' := Next(m, Alloc(t, data, urgent)).0;
      PopList(m.free);
      CountRun(m.stat, t, Filling(m.free[0], data, urgent));
      Places(m, m', t);
    }
  }

  lemma FillInv(m: Mq, t: int)
    requires Inv(m) && StatOf(m, t).Filling?
    ensures Inv(Next(m, Fill(t)).0)
  {
    var s := StatOf(m, t);
    var m' := Next(m, Fill(t)).0;
    assert Holds(m, t, s.block);
    CountRun(m.stat, t, Filled(s.block, s.urgent));
    Places(m, m', t);
    forall u | StatOf(m', u).Draining? ensures Bytes(m', StatOf(m', u).block) == m'.want[u] {
      assert Holds(m, u, StatOf(m, u).block);
    }
  }

  lemma ResumeFirstInv(m: Mq)
    requires Apart(m) && Everywhere(m) && Waiting(m) && Intact(m)
    requires m.receivers != [] ==> |m.chain| <= |ToRun(m.stat)| + 1
    ensures Inv(ResumeFirst(m))
  {
    if m.receivers != [] {
      var t, m' := m.receivers[0], ResumeFirst(m);
      assert StatOf(m, t).Blocked?;
      PopList(m.receivers);
      CountRun(m.stat, t, Woken(EOK, StatOf(m, t).size));
      Places(m, m', t);
    }
  }

  /** The block is in the queue; nobody was resumed yet. */
  function Linked(m: Mq, t: int, b: int, urgent: bool): Mq {
    m.(chain := if urgent then [b] + m.chain else m.chain + [b], stat := m.stat[t := Outside])
  }

  lemma LinkedPlaces(m: Mq, t: int)
    requires Inv(m) && StatOf(m, t).Filled?
    ensures var m' := Linked(m, t, StatOf(m, t).block, StatOf(m, t).urgent); Apart(m') && Everywhere(m')
  {
    var b := StatOf(m, t).block;
    assert Holds(m, t, b);
    Places(m, Linked(m, t, b, StatOf(m, t).urgent), t);
  }

  lemma LinkInv(m: Mq, t: int)
    requires Inv(m) && StatOf(m, t).Filled?
    ensures Inv(Next(m, Link(t)).0)
  {
    LinkedPlaces(m, t);
    hide Apart, Everywhere;
    CountRun(m.stat, t, Outside);
    ResumeFirstInv(Linked(m, t, StatOf(m, t).block, StatOf(m, t).urgent));
  }

  lemma TakeInv(m: Mq, t: int, size: int)
    requires Inv(m) && (StatOf(m, t).Outside? || (StatOf(m, t).Woken? && StatOf(m, t).error == EOK)) && m.chain != []
    ensures Inv(RecvSection(m, t, size, 0).0)
  {
    var m' := RecvSection(m, t, size, 0).0;
    PopList(m.chain);
    CountRun(m.stat, t, Draining(m.chain[0], size));
    forall b ensures Holds(m', t, b) <==> b == m.chain[0] {}
    Places(m, m', t);
  }

  lemma WaitInv(m: Mq, t: int, size: int, timeout: int)
    requires Inv(m) && (StatOf(m, t).Outside? || (StatOf(m, t).Woken? && StatOf(m, t).error == EOK)) && m.chain == []
    ensures Inv(RecvSection(m, t, size, timeout).0)
  {
    var m' := RecvSection(m, t, size, timeout).0;
    CountRun(m.stat, t, StatOf(m', t));
    if timeout != 0 { QueuedOk(m.flag, m.prio, m.receivers, t); }
    forall b ensures !Holds(m', t, b) && !Holds(m, t, b) {}
    Places(m, m', t);
  }

  lemma RecvInv(m: Mq, t: int, size: int, timeout: int)
    requires Inv(m) && (StatOf(m, t).Outside? || (StatOf(m, t).Woken? && StatOf(m, t).error == EOK))
    ensures Inv(RecvSection(m, t, size, timeout).0)
  {
    hide Inv;
    if m.chain != [] { TakeInv(m, t, size); } else { WaitInv(m, t, size, timeout); }
  }

  lemma LeaveInv(m: Mq, t: int, s: Stat)
    requires Inv(m) && (StatOf(m, t).Draining? || (StatOf(m, t).Woken? && StatOf(m, t).error != EOK))
    requires s == if StatOf(m, t).Draining? then Drained(StatOf(m, t).block) else Outside
    ensures Inv(m.(stat := m.stat[t := s]))
  {
    CountRun(m.stat, t, s);
    var m' := m.(stat := m.stat[t := s]);
    forall b ensures Holds(m', t, b) <==> Holds(m, t, b) {}
    Places(m, m', t);
  }

  lemma ReleaseInv(m: Mq, t: int)
    requires Inv(m) && StatOf(m, t).Drained?
    ensures Inv(Next(m, Release(t)).0)
  {
    hide Apart, Everywhere;
    var m' := Next(m, Release(t)).0;
    ReleasePlaces(m, t);
    CountRun(m.stat, t, Outside);
    assert Waiting(m') && Intact(m') && NoLostWakeup(m');
  }

  lemma ReleasePlaces(m: Mq, t: int)
    requires Inv(m) && StatOf(m, t).Drained?
    ensures var m' := Next(m, Release(t)).0; Apart(m') && Everywhere(m')
  {
    hide Waiting, Intact, NoLostWakeup;
    var m', b := Next(m, Release(t)).0, StatOf(m, t).block;
    assert Holds(m, t, b);
    forall x ensures Holds(m, t, x) <==> x == b {}
    forall x ensures !Holds(m', t, x) {}
    Places(m, m', t);
  }

  lemma ExpireInv(m: Mq, t: int)
    requires Inv(m) && StatOf(m, t).Blocked?
    ensures Inv(Next(m, Expire(t)).0)
  {
    DelElements(m.receivers, t);
    CountRun(m.stat, t, Woken(ETIMEOUT, StatOf(m, t).size));
    Places(m, Next(m, Expire(t)).0, t);
  }

  ghost predicate IsBlocked(stat: map<int, Stat>, t: int) { t in stat && stat[t].Blocked? }

  lemma {:induction false} WakeAllIs(stat: map<int, Stat>, q: seq<int>)
    requires Distinct(q) && forall t {:trigger IsBlocked(stat, t)} :: t in q ==> IsBlocked(stat, t)
    ensures forall t :: t in WakeAll(stat, q) <==> t in stat
    ensures forall t ::
              t in stat ==>
              WakeAll(stat, q)[t] == if t in q && IsBlocked(stat, t) then Woken(ERROR, stat[t].size) else stat[t]
    decreases |q|
  {
    if q != [] {
      PopList(q);
      assert IsBlocked(stat, q[0]);
      var woken := stat[q[0] := Woken(ERROR, stat[q[0]].size)];
      forall t | t in q[1..] ensures IsBlocked(woken, t) { assert IsBlocked(stat, t); }
      WakeAllIs(woken, q[1..]);
    }
  }

  lemma {:induction false} FreeAllIs(free: seq<int>, chain: seq<int>)
    requires Distinct(free) && Distinct(chain) && forall b :: b in free ==> b !in chain
    ensures Distinct(FreeAll(free, chain))
    ensures forall b :: b in FreeAll(free, chain) <==> b in free || b in chain
    decreases |chain|
  {
    if chain != [] {
      PopList(chain);
      var none: map<int, int> := map[];
      ConsOk(chain[0], free, none);
      FreeAllIs([chain[0]] + free, chain[1..]);
    }
  }

  lemma ResetInv(m: Mq)
    requires Inv(m)
    ensures Inv(Next(m, Reset).0)
  {
    var m' := Next(m, Reset).0;
    forall t | t in m.receivers ensures IsBlocked(m.stat, t) { assert StatOf(m, t).Blocked?; }
    WakeAllIs(m.stat, m.receivers);
    FreeAllIs(m.free, m.chain);
    forall t, b ensures Holds(m', t, b) <==> Holds(m, t, b) {}
    forall b | 0 <= b < m.max ensures b in m'.free || Held(m', b) {
      if b !in m'.free {
        var u :| Holds(m, u, b);
        assert Holds(m', u, b);
      }
    }
  }

  lemma StepInv(m: Mq, step: Step)
    requires Inv(m) && Enabled(m, step)
    ensures Inv(Next(m, step).0)
  {
    match step
    case Alloc(t, data, urgent) => AllocInv(m, t, data, urgent);
    case Fill(t) => FillInv(m, t);
    case Link(t) => LinkInv(m, t);
    case Recv(t, size, timeout) => RecvInv(m, t, size, timeout);
    case Resume(t, timeout) =>
      var s := StatOf(m, t);
      if s.error == EOK { RecvInv(m, t, s.size, timeout); } else { LeaveInv(m, t, Outside); }
    case Drain(t) => LeaveInv(m, t, Drained(StatOf(m, t).block));
    case Release(t) => ReleaseInv(m, t);
    case Expire(t) => ExpireInv(m, t);
    case Reset => ResetInv(m);
  }

  lemma InitialInv(m: Mq)
    requires m.chain == [] && m.receivers == [] && m.stat == map[] && Distinct(m.free)
    requires forall b :: b in m.free <==> 0 <= b < m.max
    requires forall b :: 0 <= b < m.max ==> b in m.mem && |m.mem[b]| == m.msgSize
    ensures Inv(m)
  {
    forall t ensures StatOf(m, t) == Outside {}
  }

  // ---- Runs ----

  ghost predicate Possible(m: Mq, steps: seq<Step>)
    decreases |steps|
  {
    steps == [] || (Enabled(m, steps[0]) && Possible(Next(m, steps[0]).0, steps[1..]))
  }

  function After(m: Mq, steps: seq<Step>): Mq
    decreases |steps|
  {
    if steps == [] then m else After(Next(m, steps[0]).0, steps[1..])
  }

  /** Over every interleaving of critical sections and copies. */
  lemma {:induction false} RunInv(m: Mq, steps: seq<Step>)
    requires Inv(m) && Possible(m, steps)
    ensures Inv(After(m, steps))
    decreases |steps|
  {
    if steps != [] {
      StepInv(m, steps[0]);
      RunInv(Next(m, steps[0]).0, steps[1..]);
    }
  }

  // ---- The queue is a deque of messages ----

  lemma {:induction false} MessagesFrame(m: Mq, m': Mq, chain: seq<int>)
    requires forall b :: b in chain ==> Bytes(m', b) == Bytes(m, b)
    ensures Messages(m', chain) == Messages(m, chain)
  {
    if chain != [] { MessagesFrame(m, m', chain[1..]); }
  }

  lemma {:induction false} MessagesAppend(m: Mq, chain: seq<int>, b: int)
    ensures Messages(m, chain + [b]) == Messages(m, chain) + [Bytes(m, b)]
  {
    if chain == [] {
      assert chain + [b] == [b];
    } else {
      assert (chain + [b])[1..] == chain[1..] + [b];
      MessagesAppend(m, chain[1..], b);
    }
  }

  /** What a step does to the queue of messages: a send appends the bytes it wrote, an urgent one puts
      them first, a receive takes the first, a reset drops all, and nothing else changes it. */
  function Deque(m: Mq, step: Step, q: seq<seq<int>>): seq<seq<int>> {
    match step
    case Link(t) =>
      if !StatOf(m, t).Filled? then q
      else if StatOf(m, t).urgent then [Bytes(m, StatOf(m, t).block)] + q
      else q + [Bytes(m, StatOf(m, t).block)]
    case Recv(_, _, _) => if q == [] then q else q[1..]
    case Resume(t, _) => if q == [] || (StatOf(m, t).Woken? && StatOf(m, t).error != EOK) then q else q[1..]
    case Reset => []
    case _ => q
  }

  lemma LinkMessages(m: Mq, t: int)
    requires Inv(m) && StatOf(m, t).Filled?
    ensures var m' := Next(m, Link(t)).0; Messages(m', m'.chain) == Deque(m, Link(t), Messages(m, m.chain))
  {
    var m', s := Next(m, Link(t)).0, StatOf(m, t);
    if s.urgent { assert ([s.block] + m.chain)[1..] == m.chain; } else { MessagesAppend(m, m.chain, s.block); }
    MessagesFrame(m, m', m'.chain);
  }

  lemma TakeMessages(m: Mq, t: int, size: int, timeout: int)
    ensures var m', q := RecvSection(m, t, size, timeout).0, Messages(m, m.chain);
            Messages(m', m'.chain) == if q == [] then q else q[1..]
  {
    var m' := RecvSection(m, t, size, timeout).0;
    MessagesFrame(m, m', m'.chain);
  }

  /** Whatever copies are under way. */
  lemma StepMessages(m: Mq, step: Step)
    requires Inv(m) && Enabled(m, step)
    ensures Messages(Next(m, step).0, Next(m, step).0.chain) == Deque(m, step, Messages(m, m.chain))
  {
    match step
    case Link(t) => LinkMessages(m, t);
    case Recv(t, size, timeout) => TakeMessages(m, t, size, timeout);
    case Resume(t, timeout) => ResumeMessages(m, t, timeout);
    case Reset =>
    case _ => QuietMessages(m, step);
  }

  lemma ResumeMessages(m: Mq, t: int, timeout: int)
    requires Inv(m) && StatOf(m, t).Woken?
    ensures var m' := Next(m, Resume(t, timeout)).0;
              Messages(m', m'.chain) == Deque(m, Resume(t, timeout), Messages(m, m.chain))
  {
    hide Inv, Messages, RecvSection;
    var m' := Next(m, Resume(t, timeout)).0;
    if StatOf(m, t).error == EOK {
      TakeMessages(m, t, StatOf(m, t).size, timeout);
    } else {
      MessagesFrame(m, m', m.chain);
    }
    EmptyMessages(m);
  }

  lemma EmptyMessages(m: Mq)
    ensures Messages(m, m.chain) == [] <==> m.chain == []
  {
  }

  /** The steps between and after the critical sections. */
  lemma QuietMessages(m: Mq, step: Step)
    requires Inv(m) && Enabled(m, step) && !step.Link? && !step.Recv? && !step.Resume? && !step.Reset?
    ensures Messages(Next(m, step).0, Next(m, step).0.chain) == Messages(m, m.chain)
  {
    hide Everywhere, Waiting, Intact, NoLostWakeup;
    if step.Fill? { assert Holds(m, step.t, StatOf(m, step.t).block); }
    MessagesFrame(m, Next(m, step).0, m.chain);
  }

  /** The message that a step takes from the queue, if any. */
  function Takes(m: Mq, step: Step): seq<seq<int>> {
    var q := Messages(m, m.chain);
    var tries := step.Recv? || (step.Resume? && StatOf(m, step.t).Woken? && StatOf(m, step.t).error == EOK);
    if tries && q != [] then [q[0]] else []
  }

  /** The message that a step puts behind the queue. */
  function Sends(m: Mq, step: Step): seq<seq<int>> {
    if step.Link? && StatOf(m, step.t).Filled? && !StatOf(m, step.t).urgent then [Bytes(m, StatOf(m, step.t).block)]
        else []
  }

  function AllTaken(m: Mq, steps: seq<Step>): seq<seq<int>>
    decreases |steps|
  {
    if steps == [] then [] else Takes(m, steps[0]) + AllTaken(Next(m, steps[0]).0, steps[1..])
  }

  function AllSent(m: Mq, steps: seq<Step>): seq<seq<int>>
    decreases |steps|
  {
    if steps == [] then [] else Sends(m, steps[0]) + AllSent(Next(m, steps[0]).0, steps[1..])
  }

  /** Nothing urgent is sent, and the queue is not reset. */
  ghost predicate Ordinary(m: Mq, steps: seq<Step>)
    decreases |steps|
  {
    steps == [] ||
    (!steps[0].Reset? && (steps[0].Link? && StatOf(m, steps[0].t).Filled? ==> !StatOf(m, steps[0].t).urgent) &&
     Ordinary(Next(m, steps[0]).0, steps[1..]))
  }

  /** First in, first out, over every interleaving of such steps: the messages taken, followed by those in
      the queue, are those that were there followed by those sent. */
  lemma {:induction false} FirstInFirstOut(m: Mq, steps: seq<Step>)
    requires Inv(m) && Possible(m, steps) && Ordinary(m, steps)
    ensures AllTaken(m, steps) + Messages(After(m, steps), After(m, steps).chain) == Messages(m, m.chain) +
              AllSent(m, steps)
    decreases |steps|
  {
    hide Inv, Messages, Next;
    if steps != [] {
      var step, m' := steps[0], Next(m, steps[0]).0;
      var q, q' := Messages(m, m.chain), Messages(m', m'.chain);
      StepInv(m, step);
      StepMessages(m, step);
      assert Takes(m, step) + q' == q + Sends(m, step);
      FirstInFirstOut(m', steps[1..]);
      var end := After(m, steps);
      Telescope(Takes(m, step), AllTaken(m', steps[1..]), Messages(end, end.chain), q, Sends(m, step), q',
                AllSent(m', steps[1..]));
    }
  }

  lemma Telescope(a: seq<seq<int>>, x: seq<seq<int>>, e: seq<seq<int>>, q: seq<seq<int>>, s: seq<seq<int>>,
                  q': seq<seq<int>>, z: seq<seq<int>>)
    requires x + e == q' + z && a + q' == q + s
    ensures (a + x) + e == q + (s + z)
  {
    assert (a + x) + e == a + (x + e) == (a + q') + z == (q + s) + z;
  }

  /** A receiver gets the first bytes of the message that was at the head when it took it. */
  lemma DrainDelivers(m: Mq, t: int)
    requires Inv(m) && StatOf(m, t).Draining? && StatOf(m, t).size >= 0
    ensures t in m.want && |m.want[t]| == m.msgSize
    ensures Next(m, Drain(t)).1 == Deliver(m.want[t][..Min(StatOf(m, t).size, m.msgSize)])
  {
    assert Holds(m, t, StatOf(m, t).block);
  }

  /** From the fill to the link a block holds the data to send; later copies do not touch it. */
  lemma FillWrites(m: Mq, t: int)
    requires Inv(m) && StatOf(m, t).Filling?
    ensures var s, m' := StatOf(m, t), Next(m, Fill(t)).0;
            s.data <= Bytes(m', s.block) && |Bytes(m', s.block)| == m.msgSize &&
            StatOf(m', t) == Filled(s.block, s.urgent) &&
            |s.data| <= |Bytes(m, s.block)| && Bytes(m', s.block)[|s.data|..] == Bytes(m, s.block)[|s.data|..] &&
            forall b :: b != s.block ==> Bytes(m', b) == Bytes(m, b)
  {
    assert Holds(m, t, StatOf(m, t).block);
  }

  lemma FilledStays(m: Mq, step: Step, t: int)
    requires Inv(m) && Enabled(m, step) && StatOf(m, t).Filled? && step != Link(t)
    ensures var m' := Next(m, step).0;
            StatOf(m', t) == StatOf(m, t) && Bytes(m', StatOf(m, t).block) == Bytes(m, StatOf(m, t).block)
  {
    hide Inv, Queued, WakeAll, FreeAll;
    match step
    case Fill(u) => OtherBlock(m, u, t);
    case Reset => ResetWakes(m, t);
    case _ =>
  }

  lemma OtherBlock(m: Mq, u: int, t: int)
    requires Inv(m) && StatOf(m, u).Filling? && StatOf(m, t).Filled?
    ensures StatOf(m, u).block != StatOf(m, t).block
  {
    assert Holds(m, u, StatOf(m, u).block) && Holds(m, t, StatOf(m, t).block);
  }

  /** A reset wakes the blocked threads and does not touch the others. */
  lemma ResetWakes(m: Mq, t: int)
    requires Inv(m)
    ensures var s := StatOf(Next(m, Reset).0, t);
            s == if StatOf(m, t).Blocked? then Woken(ERROR, StatOf(m, t).size) else StatOf(m, t)
  {
    hide Apart, Everywhere, Intact, NoLostWakeup;
    forall u | u in m.receivers ensures IsBlocked(m.stat, u) { assert StatOf(m, u).Blocked?; }
    WakeAllIs(m.stat, m.receivers);
  }

  /** A message never waits beside a blocked receiver unless a woken receiver will take it when it
      runs, whatever its timeout. */
  lemma SomebodyWillRun(m: Mq, timeout: int)
    requires Inv(m) && m.receivers != [] && m.chain != []
    ensures exists t ::
              StatOf(m, t).Woken? && StatOf(m, t).error == EOK && StatOf(Next(m, Resume(t, timeout)).0, t).Draining?
  {
    var t := Member(ToRun(m.stat));
    assert StatOf(m, t).Woken?;
  }
}

/** The message queue object, its singly linked lists of blocks, and its critical sections. */
module MessageQueue {
  import opened RtList
  import opened SortedList
  import opened IpcList
  import opened MqSpec

  const NULL := -1

  /** The list that starts at block h. */
  ghost predicate Chained(next: map<int, int>, h: int, s: seq<int>)
    decreases |s|
  {
    if s == [] then h == NULL else h == s[0] && h != NULL && h in next && Chained(next, next[h], s[1..])
  }

  lemma ChainedNotNull(next: map<int, int>, h: int, s: seq<int>)
    requires Chained(next, h, s)
    ensures h == NULL <==> s == []
    ensures LastOf(s) == NULL <==> s == []
    decreases |s|
  {
    if s != [] { ChainedNotNull(next, next[h], s[1..]); }
  }

  function LastOf(s: seq<int>): int { if s == [] then NULL else s[|s| - 1] }

  lemma {:induction false} ChainedFrame(next: map<int, int>, other: map<int, int>, h: int, s: seq<int>)
    requires Chained(next, h, s) && forall b :: b in s && b in next ==> b in other && other[b] == next[b]
    ensures Chained(other, h, s)
    decreases |s|
  {
    if s != [] { ChainedFrame(next, other, next[h], s[1..]); }
  }

  /** A block is linked behind the last one. */
  lemma {:induction false} ChainedAppend(next: map<int, int>, h: int, s: seq<int>, b: int)
    requires Chained(next, h, s) && Distinct(s) && s != [] && b !in s && b != NULL && b in next && next[b] == NULL
    ensures Chained(next[LastOf(s) := b], h, s + [b])
    decreases |s|
  {
    var l, r := LastOf(s), s[1..];
    var longer := next[l := b];
    assert (s + [b])[1..] == r + [b];
    HeadDistinct(s);
    if r == [] {
      assert Chained(longer, longer[b], []) && ([b])[1..] == [];
      assert Chained(longer, b, [b]);
    } else {
      assert LastOf(r) == l && l in r;
      ChainedAppend(next, next[h], r, b);
    }
  }

  const LINK := 4  // bytes of the link in front of each block

  function Aligned(n: nat): (r: nat)
    ensures n <= r < n + 4 && r % 4 == 0
  {
    (n + 3) / 4 * 4
  }

  /** The pool is used up to less than one block. */
  function Capacity(wanted: nat, poolSize: nat): (r: nat)
    ensures r * (Aligned(wanted) + LINK) <= poolSize < (r + 1) * (Aligned(wanted) + LINK)
  {
    var n := Aligned(wanted) + LINK;
    assert poolSize == poolSize / n * n + poolSize % n;
    poolSize / n
  }

  class Queue {
    const max: nat                       // max_msgs
    const msgSize: nat                   // msg_size
    const flag: Flag
    const prio: map<int, int>
    var mem: map<int, seq<int>>          // the bytes of each block
    var next: map<int, int>              // its link
    var queueFree: int                   // msg_queue_free
    var queueHead: int                   // msg_queue_head
    var queueTail: int                   // msg_queue_tail
    var entry: nat
    var receivers: seq<int>              // parent.suspend_thread
    var stat: map<int, Stat>             // the threads, with the locals of the call they are in
    ghost var free: seq<int>
    ghost var chain: seq<int>
    ghost var want: map<int, seq<int>>

    ghost function Abs(): Mq
      reads this
    {
      Mq(max, msgSize, flag, prio, free, chain, mem, receivers, stat, want)
    }

    ghost predicate Shape()
      reads this
    {
      && Chained(next, queueFree, free) && Chained(next, queueHead, chain)
      && queueTail == LastOf(chain) && entry == |chain|
    }

    /** A block filled for rt_mq_send is ready to be the last one. */
    ghost predicate Closed(t: int)
      reads this
    {
      StatOf(Abs(), t).Filled? && !StatOf(Abs(), t).urgent ==>
          StatOf(Abs(), t).block in next && next[StatOf(Abs(), t).block] == NULL
    }

    ghost predicate Valid()
      reads this
    {
      && Shape() && Inv(Abs()) && (forall t {:trigger Closed(t)} :: Closed(t)) &&
          (forall t :: t in receivers ==> t in prio)
    }

    /** rt_mq_init: the pool is cut into as many blocks of aligned size as it has room for, all free. */
    constructor (wanted: nat, poolSize: nat, flag: Flag, prio: map<int, int>, pool: map<int, seq<int>>)
      requires forall b :: 0 <= b < Capacity(wanted, poolSize) ==> b in pool && |pool[b]| == Aligned(wanted)
      ensures Valid() && fresh(this) && max == Capacity(wanted, poolSize) && msgSize == Aligned(wanted)
      ensures |free| == max && forall i :: 0 <= i < max ==> free[i] == max - 1 - i
      ensures Abs() == Mq(max, msgSize, flag, prio, free, [], pool, [], map[], map[])
    {
      max, msgSize := Capacity(wanted, poolSize), Aligned(wanted);
      this.flag, this.prio, mem := flag, prio, pool;
      next, queueFree, queueHead, queueTail, entry := map[], NULL, NULL, NULL, 0;
      receivers, stat, free, chain, want := [], map[], [], [], map[];
      new;
      for temp := 0 to max
        modifies `next, `queueFree, `free
        invariant Chained(next, queueFree, free) && Distinct(free) && forall b :: b in free <==> 0 <= b < temp
        invariant |free| == temp && forall i :: 0 <= i < temp ==> free[i] == temp - 1 - i
      {
        PushFirst(temp);
      }
      InitialInv(Abs());
      forall u ensures Closed(u) {}
    }

    method PushFirst(b: int)
      requires Chained(next, queueFree, free) && Distinct(free) && b !in free && b != NULL
      modifies `next, `queueFree, `free
      ensures Chained(next, queueFree, free) && Distinct(free) && free == [b] + old(free)
    {
      ghost var was, none: map<int, int> := next, map[];
      next := next[b := queueFree];
      ChainedFrame(was, next, queueFree, free);
      queueFree := b;
      ConsOk(b, free, none);
      free := [b] + free;
      assert free[1..] == old(free);
    }

    /** The first critical section of rt_mq_send and rt_mq_urgent. */
    method Allocate(t: int, data: seq<int>, urgent: bool) returns (r: Outcome)
      requires Valid() && StatOf(Abs(), t).Outside?
      modifies `queueFree, `stat, `free
      ensures Valid() && (Abs(), r) == Next(old(Abs()), Alloc(t, data, urgent))
    {
      hide Inv;
      AllocInv(Abs(), t, data, urgent);
      if |data| > msgSize { return Return(ERROR); }
      var msg := queueFree;
      if msg == NULL { return Return(EFULL); }
      queueFree := next[msg];
      stat := stat[t := Filling(msg, data, urgent)];
      free := free[1..];
      forall u ensures Closed(u) { assert old(Closed(u)); }
      return Continue;
    }

    /** The copy of rt_mq_send and rt_mq_urgent. */
    method Copy(t: int)
      requires Valid() && StatOf(Abs(), t).Filling?
      modifies `next, `mem, `stat
      ensures Valid() && Abs() == Next(old(Abs()), Fill(t)).0
    {
      hide Inv, Chained;
      FillInv(Abs(), t);
      FillingBlock(t);
      var s := stat[t];
      ghost var was, m := next, Abs();
      if !s.urgent { next := next[s.block := NULL]; }
      ChainedFrame(was, next, queueFree, free);
      ChainedFrame(was, next, queueHead, chain);
      mem := mem[s.block := Copied(mem[s.block], s.data)];
      stat := stat[t := Filled(s.block, s.urgent)];
      forall u ensures Closed(u) {
        assert old(Closed(u));
        if u != t && StatOf(m, u).Filled? { OtherBlock(m, t, u); }
      }
    }

    /** So is the block that a sender is to fill. */
    lemma FillingBlock(t: int)
      requires Valid() && StatOf(Abs(), t).Filling?
      ensures var b := StatOf(Abs(), t).block; b != NULL && b !in chain && b !in free && b in mem
    {
      assert Holds(Abs(), t, StatOf(Abs(), t).block);
    }

    /** The links when block b enters the queue. */
    method Enqueue(b: int, urgent: bool)
      requires Shape() && Distinct(chain) && b != NULL && b !in chain && b !in free
      requires forall x :: x in chain ==> x !in free
      requires urgent || (b in next && next[b] == NULL)
      modifies `next, `queueHead, `queueTail, `entry, `chain
      ensures Shape() && chain == if urgent then [b] + old(chain) else old(chain) + [b]
      ensures forall x :: x != b && x !in old(chain) && x in old(next) ==> x in next && next[x] == old(next[x])
    {
      ghost var was := next;
      if urgent {
        next := next[b := queueHead];
        queueHead := b;
        if queueTail == NULL { queueTail := b; }
        ChainedFrame(was, next, old(queueHead), chain);
        chain := [b] + chain;
        assert chain[1..] == old(chain);
        ChainedNotNull(next, old(queueHead), old(chain));
      } else {
        ChainedNotNull(next, queueHead, chain);
        if queueTail != NULL { next := next[queueTail := b]; }
        if chain == [] {
          assert Chained(next, next[b], []) && ([b])[1..] == [];
          assert Chained(next, b, [b]) && [] + [b] == [b];
        } else {
          ChainedAppend(was, queueHead, chain, b);
        }
        queueTail := b;
        if queueHead == NULL { queueHead := b; }
        chain := chain + [b];
      }
      ChainedFrame(was, next, queueFree, free);
      entry := entry + 1;
    }

    method ResumeFirstReceiver()
      modifies `receivers, `stat
      ensures Abs() == ResumeFirst(old(Abs()))
      ensures forall t :: t in receivers ==> t in old(receivers)
      ensures forall t :: StatOf(Abs(), t).Filled? ==> StatOf(old(Abs()), t) == StatOf(Abs(), t)
    {
      if receivers != [] {
        var t := receivers[0];
        if t in stat && stat[t].Blocked? {
          stat := stat[t := Woken(EOK, stat[t].size)];
        } else {
          stat := stat[t := if t in stat then stat[t] else Outside];
        }
        receivers := receivers[1..];
      }
    }

    /** The second critical section of rt_mq_send and rt_mq_urgent. */
    method Deposit(t: int) returns (r: Outcome)
      requires Valid() && StatOf(Abs(), t).Filled?
      modifies `next, `queueHead, `queueTail, `entry, `chain, `receivers, `stat
      ensures Valid() && (Abs(), r) == Next(old(Abs()), Link(t))
    {
      hide Chained, Everywhere, Waiting, NoLostWakeup, Intact, LastOf;
      ghost var m := Abs();
      LinkInv(m, t);
      var s := stat[t];
      FilledBlock(t);
      Enqueue(s.block, s.urgent);
      stat := stat[t := Outside];
      ResumeFirstReceiver();
      forall u ensures Closed(u) {
        if StatOf(Abs(), u).Filled? {
          assert old(Closed(u));
          assert Holds(m, u, StatOf(m, u).block) && Holds(m, t, s.block);
        }
      }
      return Return(EOK);
    }

    /** The block that a sender has filled is in no list. */
    lemma FilledBlock(t: int)
      requires Valid() && StatOf(Abs(), t).Filled?
      ensures var b, urgent := StatOf(Abs(), t).block, StatOf(Abs(), t).urgent;
              b != NULL && b !in chain && b !in free && (urgent || (b in next && next[b] == NULL))
    {
      assert Holds(Abs(), t, StatOf(Abs(), t).block) && Closed(t);
    }

    /** rt_mq_recv up to the copy: wait for a message, or take the first one. */
    method Receive(t: int, size: int, timeout: int) returns (r: Outcome)
      requires Valid() && t in prio &&
                (StatOf(Abs(), t).Outside? || (StatOf(Abs(), t).Woken? && StatOf(Abs(), t).error == EOK))
      modifies `queueHead, `queueTail, `entry, `receivers, `stat, `chain, `want
      ensures Valid() && (Abs(), r) == RecvSection(old(Abs()), t, size, timeout)
    {
      hide Inv, Queued, Closed, Chained;
      RecvInv(Abs(), t, size, timeout);
      if entry == 0 {
        r := AwaitMessage(t, size, timeout);
      } else {
        Take(t, size);
        r := Continue;
      }
    }

    /** There is no message. */
    method AwaitMessage(t: int, size: int, timeout: int) returns (r: Outcome)
      requires Valid() && chain == [] && t in prio && !StatOf(Abs(), t).Filled?
      requires Inv(RecvSection(Abs(), t, size, timeout).0)
      modifies `receivers, `stat
      ensures Valid() && (Abs(), r) == RecvSection(old(Abs()), t, size, timeout)
    {
      hide Inv, Queued, Chained;
      if timeout == 0 {
        stat := stat[t := Outside];
        r := Return(ETIMEOUT);
      } else {
        QueuedElements(flag, prio, receivers, t);
        receivers := Suspend(flag, prio, receivers, t);
        stat := stat[t := Blocked(size)];
        r := Wait;
      }
      forall u ensures Closed(u) { assert old(Closed(u)); }
    }

    method Take(t: int, size: int)
      requires Valid() && chain != [] && !StatOf(Abs(), t).Filled?
      requires Inv(RecvSection(Abs(), t, size, 0).0)
      modifies `queueHead, `queueTail, `entry, `stat, `chain, `want
      ensures Valid() && Abs() == RecvSection(old(Abs()), t, size, 0).0
    {
      hide Chained, Inv, LastOf;
      var msg := queueHead;
      Unchained(msg);
      queueHead := next[msg];
      if queueTail == msg { queueTail := NULL; }
      entry := entry - 1;
      want := want[t := Bytes(Abs(), msg)];
      stat := stat[t := Draining(msg, size)];
      chain := chain[1..];
      forall u ensures Closed(u) { assert old(Closed(u)); }
    }

    /** The first message is the last one exactly if it is the only one. */
    lemma Unchained(msg: int)
      requires Shape() && Inv(Abs()) && chain != [] && msg == queueHead
      ensures msg == chain[0] && msg in next && Chained(next, next[msg], chain[1..])
      ensures LastOf(chain[1..]) == if queueTail == msg then NULL else queueTail
    {
      assert |chain| > 1 ==> chain[0] != chain[|chain| - 1];
    }

    /** The copy of rt_mq_recv. */
    method CopyOut(t: int) returns (r: Outcome)
      requires Valid() && StatOf(Abs(), t).Draining? && StatOf(Abs(), t).size >= 0
      modifies `stat
      ensures Valid() && (Abs(), r) == Next(old(Abs()), Drain(t))
    {
      LeaveInv(Abs(), t, Drained(stat[t].block));
      var s := stat[t];
      assert Holds(Abs(), t, s.block);
      var n := if s.size > msgSize then msgSize else s.size;
      assert mem[s.block][..msgSize] == mem[s.block];
      r := Deliver(mem[s.block][..n]);
      stat := stat[t := Drained(s.block)];
      forall u ensures Closed(u) { assert old(Closed(u)); }
    }

    /** A block enters the free list. */
    method PushFree(msg: int)
      requires Shape() && msg != NULL && msg !in chain && msg !in free
      modifies `next, `queueFree, `free
      ensures Shape() && free == [msg] + old(free)
      ensures forall x :: x != msg && x in old(next) ==> x in next && next[x] == old(next[x])
    {
      ghost var was := next;
      next := next[msg := queueFree];
      queueFree := msg;
      ChainedFrame(was, next, old(queueFree), free);
      ChainedFrame(was, next, queueHead, chain);
      free := [msg] + free;
      assert free[1..] == old(free);
    }

    /** The last critical section of rt_mq_recv. */
    method GiveBack(t: int) returns (r: Outcome)
      requires Valid() && StatOf(Abs(), t).Drained?
      modifies `next, `queueFree, `stat, `free
      ensures Valid() && (Abs(), r) == Next(old(Abs()), Release(t))
    {
      hide Chained, Everywhere, Waiting, NoLostWakeup, Intact;
      ghost var m := Abs();
      ReleaseInv(m, t);
      var msg := stat[t].block;
      assert Holds(m, t, msg);
      PushFree(msg);
      stat := stat[t := Outside];
      forall u ensures Closed(u) {
        assert old(Closed(u));
        if StatOf(Abs(), u).Filled? { assert Holds(m, u, StatOf(m, u).block); }
      }
      return Return(EOK);
    }

    /** A woken receiver runs again. */
    method Resumed(t: int, timeout: int) returns (r: Outcome)
      requires Valid() && t in prio && StatOf(Abs(), t).Woken?
      modifies `queueHead, `queueTail, `entry, `receivers, `stat, `chain, `want
      ensures Valid() && (Abs(), r) == Next(old(Abs()), Resume(t, timeout))
    {
      hide Inv, RecvSection;
      StepInv(Abs(), Resume(t, timeout));
      var s := stat[t];
      if s.error != EOK {
        stat := stat[t := Outside];
        forall u ensures Closed(u) { assert old(Closed(u)); }
        return Return(s.error);
      }
      r := Receive(t, s.size, timeout);
    }

    /** rt_thread_timeout of a receiver that is blocked here. */
    method ThreadTimeout(t: int)
      requires Valid() && StatOf(Abs(), t).Blocked?
      modifies `receivers, `stat
      ensures Valid() && Abs() == Next(old(Abs()), Expire(t)).0
    {
      hide Apart, Everywhere, NoLostWakeup, Intact;
      ExpireInv(Abs(), t);
      DelElements(receivers, t);
      receivers := Del(receivers, t);
      stat := stat[t := Woken(ETIMEOUT, stat[t].size)];
      forall u ensures Closed(u) { assert old(Closed(u)); }
    }

    /** rt_ipc_list_resume_all. */
    method ResumeAll()
      modifies `receivers, `stat
      ensures receivers == [] && stat == WakeAll(old(stat), old(receivers))
    {
      while receivers != []
        invariant WakeAll(stat, receivers) == WakeAll(old(stat), old(receivers))
        decreases |receivers|
      {
        var t := receivers[0];
        if t in stat && stat[t].Blocked? { stat := stat[t := Woken(ERROR, stat[t].size)]; }
        receivers := receivers[1..];
      }
    }

    /** The loop of rt_mq_control that frees the messages. */
    method FreeMessages()
      requires Shape() && Distinct(chain) && Distinct(free) && forall b :: b in chain ==> b !in free
      modifies `next, `queueFree, `queueHead, `queueTail, `free, `chain
      ensures Chained(next, queueFree, free) && free == FreeAll(old(free), old(chain))
      ensures chain == [] && queueHead == NULL && queueTail == NULL
      ensures forall x :: x !in old(chain) && x in old(next) ==> x in next && next[x] == old(next[x])
    {
      ChainedNotNull(next, queueHead, chain);
      while queueHead != NULL
        invariant Chained(next, queueHead, chain) && Chained(next, queueFree, free) && queueTail == LastOf(chain)
        invariant Distinct(chain) && Distinct(free) && forall b :: b in chain ==> b !in free
        invariant queueHead == NULL <==> chain == []
        invariant forall b :: b in chain ==> b in old(chain)
        invariant FreeAll(free, chain) == FreeAll(old(free), old(chain))
        invariant forall x :: x !in old(chain) && x in old(next) ==> x in next && next[x] == old(next[x])
        decreases |chain|
      {
        FreeFirst();
        ChainedNotNull(next, queueHead, chain);
      }
    }

    method FreeFirst()
      requires Chained(next, queueHead, chain) && Chained(next, queueFree, free) && queueTail == LastOf(chain) &&
                chain != []
      requires Distinct(chain) && Distinct(free) && forall b :: b in chain ==> b !in free
      modifies `next, `queueFree, `queueHead, `queueTail, `free, `chain
      ensures Chained(next, queueHead, chain) && Chained(next, queueFree, free) && queueTail == LastOf(chain)
      ensures Distinct(chain) && Distinct(free) && forall b :: b in chain ==> b !in free
      ensures old(chain) == [old(chain[0])] + chain && free == [old(chain[0])] + old(free)
      ensures forall x :: x != old(chain[0]) && x in old(next) ==> x in next && next[x] == old(next[x])
    {
      ghost var was := next;
      var msg := queueHead;
      PopList(chain);
      assert |chain| > 1 ==> chain[0] != chain[|chain| - 1];
      queueHead := next[msg];
      if queueTail == msg { queueTail := NULL; }
      next := next[msg := queueFree];
      queueFree := msg;
      ChainedFrame(was, next, old(queueFree), free);
      ChainedFrame(was, next, queueHead, chain[1..]);
      ghost var none: map<int, int> := map[];
      ConsOk(msg, free, none);
      chain := chain[1..];
      free := [msg] + free;
      assert free[1..] == old(free);
    }

    /** rt_mq_control with RT_IPC_CMD_RESET. */
    method Control()
      requires Valid()
      modifies `next, `queueFree, `queueHead, `queueTail, `entry, `receivers, `stat, `free, `chain
      ensures Valid() && Abs() == Next(old(Abs()), Reset).0
    {
      hide Chained, Inv, LastOf, WakeAll, FreeAll;
      ghost var m := Abs();
      ResetInv(m);
      ListsApart();
      forall u | StatOf(m, u).Filled? ensures StatOf(m, u).block !in m.chain { FilledBlock(u); }
      forall u ensures StatOf(Next(m, Reset).0, u).Filled? ==> StatOf(Next(m, Reset).0, u) == StatOf(m, u) {
        ResetWakes(m, u);
      }
      ResumeAll();
      FreeMessages();
      entry := 0;
      EmptyChain();
      assert Abs() == Next(m, Reset).0;
      forall u ensures Closed(u) { assert old(Closed(u)); }
    }

    lemma ListsApart()
      requires Valid()
      ensures Distinct(chain) && Distinct(free) && forall b :: b in chain ==> b !in free
    {
    }

    lemma EmptyChain()
      ensures LastOf([]) == NULL && Chained(next, NULL, [])
    {
    }
  }
}
