/** The blocking mailbox of ipc.c as a protocol: every section of rt_mb_send_wait and rt_mb_recv that
    runs with interrupts disabled is one step, and a woken thread goes on in a later step. */
module MailboxSpec {
  import opened RtList
  import opened SortedList
  import opened IpcList

  /** Where a thread is: blocked in a call, or woken with thread->error but not yet running again. */
  datatype Stat =
    | Outside
    | RecvBlocked
    | SendBlocked(mail: int)
    | RecvWoken(error: int)
    | SendWoken(mail: int, error: int)

  /** A mailbox, its waiting lists, the threads, and what was sent and received since the last reset. */
  datatype Mb = Mb(size: nat, flag: Flag, prio: map<int, int>, mails: seq<int>, receivers: seq<int>, senders: seq<int>,
                   stat: map<int, Stat>, sent: seq<int>, got: seq<int>)

  datatype Outcome = Wait | Return(code: int) | Deliver(mail: int)

  /** A thread calls send or recv; a woken thread runs again, with so much of its timeout left; the
      timer of a blocked thread expires; somebody resets the mailbox. */
  datatype Step =
    | Send(t: int, mail: int, timeout: int)
    | Recv(t: int, timeout: int)
    | Resume(t: int, timeout: int)
    | Expire(t: int)
    | Reset

  function StatOf(m: Mb, t: int): Stat { if t in m.stat then m.stat[t] else Outside }

  function Woken(s: Stat, error: int): Stat {
    match s
    case RecvBlocked => RecvWoken(error)
    case SendBlocked(v) => SendWoken(v, error)
    case _ => s
  }

  function Leave(m: Mb, t: int): Mb { m.(stat := m.stat[t := Outside]) }

  function ResumeReceiver(m: Mb): Mb {
    if m.receivers == [] then m
    else m.(receivers := m.receivers[1..], stat := m.stat[m.receivers[0] := Woken(StatOf(m, m.receivers[0]), EOK)])
  }

  function ResumeSender(m: Mb): Mb {
    if m.senders == [] then m
    else m.(senders := m.senders[1..], stat := m.stat[m.senders[0] := Woken(StatOf(m, m.senders[0]), EOK)])
  }

  /** From the test of entry to the end of the critical section. */
  function SendSection(m: Mb, t: int, mail: int, timeout: int): (Mb, Outcome) {
    if |m.mails| == m.size then
      if timeout == 0 then (Leave(m, t), Return(EFULL))
      else (m.(senders := Queued(m.flag, m.prio, m.senders, t), stat := m.stat[t := SendBlocked(mail)]), Wait)
    else (ResumeReceiver(Leave(m, t).(mails := m.mails + [mail], sent := m.sent + [mail])), Return(EOK))
  }

  function RecvSection(m: Mb, t: int, timeout: int): (Mb, Outcome) {
    if m.mails == [] then
      if timeout == 0 then (Leave(m, t), Return(ETIMEOUT))
      else (m.(receivers := Queued(m.flag, m.prio, m.receivers, t), stat := m.stat[t := RecvBlocked]), Wait)
    else (ResumeSender(Leave(m, t).(mails := m.mails[1..], got := m.got + [m.mails[0]])), Deliver(m.mails[0]))
  }

  function WakeAll(stat: map<int, Stat>, q: seq<int>): map<int, Stat>
    decreases |q|
  {
    if q == [] then stat
    else WakeAll(stat[q[0] := Woken(if q[0] in stat then stat[q[0]] else Outside, ERROR)], q[1..])
  }

  function Next(m: Mb, step: Step): (Mb, Outcome) {
    match step
    case Send(t, v, timeout) => SendSection(m, t, v, timeout)
    case Recv(t, timeout) => RecvSection(m, t, timeout)
    case Resume(t, timeout) => (
      match StatOf(m, t)
      case RecvWoken(e) => if e == EOK then RecvSection(m, t, timeout) else (Leave(m, t), Return(e))
      case SendWoken(v, e) => if e == EOK then SendSection(m, t, v, timeout) else (Leave(m, t), Return(e))
      case _ => (m, Wait))
    case Expire(t) =>
      (m.(receivers := Del(m.receivers, t), senders := Del(m.senders, t),
          stat := m.stat[t := Woken(StatOf(m, t), ETIMEOUT)]), Wait)
    case Reset =>
      (m.(receivers := [], senders := [], stat := WakeAll(WakeAll(m.stat, m.receivers), m.senders), mails := [],
          sent := [], got := []), Wait)
  }

  /** Which steps can happen. */
  ghost predicate Enabled(m: Mb, step: Step) {
    match step
    case Send(t, _, _) => StatOf(m, t).Outside?
    case Recv(t, _) => StatOf(m, t).Outside?
    case Resume(t, _) => StatOf(m, t).RecvWoken? || StatOf(m, t).SendWoken?
    case Expire(t) => StatOf(m, t).RecvBlocked? || StatOf(m, t).SendBlocked?
    case Reset => true
  }

  /** The threads that were woken to receive, or to send, and have not run yet. */
  ghost function ReceiversToRun(stat: map<int, Stat>): set<int> { set t | t in stat && stat[t] == RecvWoken(EOK) }
  ghost function SendersToRun(stat: map<int, Stat>): set<int> {
    set t | t in stat && stat[t].SendWoken? && stat[t].error == EOK
  }

  /** The waiting lists hold the blocked threads, once each. */
  ghost predicate Lists(m: Mb) {
    && Distinct(m.receivers) && Distinct(m.senders)
    && (forall t :: t in m.receivers <==> StatOf(m, t).RecvBlocked?)
    && (forall t :: t in m.senders <==> StatOf(m, t).SendBlocked?)
  }

  /** While receivers are blocked, there are at most as many mails as woken receivers that have not run;
      while senders are blocked, at most as many free places as woken senders. */
  ghost predicate NoLostWakeup(m: Mb) {
    && (m.receivers != [] ==> |m.mails| <= |ReceiversToRun(m.stat)|)
    && (m.senders != [] ==> m.size - |m.mails| <= |SendersToRun(m.stat)|)
  }

  /** Nothing is lost, duplicated or reordered. */
  ghost predicate Conserved(m: Mb) { m.sent == m.got + m.mails && |m.mails| <= m.size }

  ghost predicate Inv(m: Mb) { Lists(m) && NoLostWakeup(m) && Conserved(m) }

  // ---- Counting woken threads ----

  lemma CountSet(stat: map<int, Stat>, t: int, s: Stat)
    ensures var u, r, n := stat[t := s], ReceiversToRun(stat), SendersToRun(stat);
            |ReceiversToRun(u)| == |r| - (if t in r then 1 else 0) + (if s == RecvWoken(EOK) then 1 else 0) &&
            |SendersToRun(u)| == |n| - (if t in n then 1 else 0) + (if s.SendWoken? && s.error == EOK then 1 else 0)
  {
    var u := stat[t := s];
    CountOne(ReceiversToRun(stat), ReceiversToRun(u), t);
    CountOne(SendersToRun(stat), SendersToRun(u), t);
  }

  // ---- Every step keeps the invariant ----

  lemma ResumeReceiverInv(m: Mb)
    requires Lists(m) && Conserved(m)
    requires m.receivers != [] ==> |m.mails| <= |ReceiversToRun(m.stat)| + 1
    requires m.senders != [] ==> m.size - |m.mails| <= |SendersToRun(m.stat)|
    ensures Inv(ResumeReceiver(m))
  {
    if m.receivers != [] {
      PopList(m.receivers);
      assert StatOf(m, m.receivers[0]).RecvBlocked?;
      CountSet(m.stat, m.receivers[0], RecvWoken(EOK));
    }
  }

  lemma ResumeSenderInv(m: Mb)
    requires Lists(m) && Conserved(m)
    requires m.receivers != [] ==> |m.mails| <= |ReceiversToRun(m.stat)|
    requires m.senders != [] ==> m.size - |m.mails| <= |SendersToRun(m.stat)| + 1
    ensures Inv(ResumeSender(m))
  {
    if m.senders != [] {
      PopList(m.senders);
      assert StatOf(m, m.senders[0]).SendBlocked?;
      CountSet(m.stat, m.senders[0], Woken(StatOf(m, m.senders[0]), EOK));
    }
  }

  lemma SendSectionInv(m: Mb, t: int, mail: int, timeout: int)
    requires Inv(m) && (StatOf(m, t).Outside? || (StatOf(m, t).SendWoken? && StatOf(m, t).error == EOK))
    ensures Inv(SendSection(m, t, mail, timeout).0)
  {
    if |m.mails| == m.size && timeout != 0 {
      QueuedOk(m.flag, m.prio, m.senders, t);
      CountSet(m.stat, t, SendBlocked(mail));
    } else {
      CountSet(m.stat, t, Outside);
      var l := Leave(m, t);
      if |m.mails| != m.size {
        var p := l.(mails := m.mails + [mail], sent := m.sent + [mail]);
        assert p.sent == p.got + p.mails;
        ResumeReceiverInv(p);
      }
    }
  }

  lemma RecvSectionInv(m: Mb, t: int, timeout: int)
    requires Inv(m) && (StatOf(m, t).Outside? || StatOf(m, t) == RecvWoken(EOK))
    ensures Inv(RecvSection(m, t, timeout).0)
  {
    if m.mails == [] && timeout != 0 {
      QueuedOk(m.flag, m.prio, m.receivers, t);
      CountSet(m.stat, t, RecvBlocked);
    } else {
      CountSet(m.stat, t, Outside);
      var l := Leave(m, t);
      if m.mails != [] {
        var p := l.(mails := m.mails[1..], got := m.got + [m.mails[0]]);
        assert p.sent == p.got + p.mails;
        ResumeSenderInv(p);
      }
    }
  }

  lemma {:induction false} WakeAllIs(stat: map<int, Stat>, q: seq<int>)
    requires Distinct(q)
    ensures var r := WakeAll(stat, q);
            forall t :: (if t in r then r[t] else Outside) ==
                        (if t in q then Woken(if t in stat then stat[t] else Outside, ERROR)
                            else if t in stat then stat[t] else Outside)
    decreases |q|
  {
    if q != [] {
      PopList(q);
      WakeAllIs(stat[q[0] := Woken(if q[0] in stat then stat[q[0]] else Outside, ERROR)], q[1..]);
    }
  }

  lemma {:induction false} StepInv(m: Mb, step: Step)
    requires Inv(m) && Enabled(m, step)
    ensures Inv(Next(m, step).0)
  {
    match step
    case Send(t, v, timeout) => SendSectionInv(m, t, v, timeout);
    case Recv(t, timeout) => RecvSectionInv(m, t, timeout);
    case Resume(t, timeout) =>
      match StatOf(m, t) {
        case RecvWoken(e) => if e == EOK { RecvSectionInv(m, t, timeout); } else { CountSet(m.stat, t, Outside); }
        case SendWoken(v, e) => if e == EOK { SendSectionInv(m, t, v, timeout); } else { CountSet(m.stat, t, Outside); }
      }
    case Expire(t) =>
      DelElements(m.receivers, t);
      DelElements(m.senders, t);
      CountSet(m.stat, t, Woken(StatOf(m, t), ETIMEOUT));
      if m.receivers == [] { DelAbsent(m.receivers, t); }
      if m.senders == [] { DelAbsent(m.senders, t); }
    case Reset =>
      WakeAllIs(m.stat, m.receivers);
      WakeAllIs(WakeAll(m.stat, m.receivers), m.senders);
  }

  // ---- Runs ----

  ghost predicate Possible(m: Mb, steps: seq<Step>)
    decreases |steps|
  {
    steps == [] || (Enabled(m, steps[0]) && Possible(Next(m, steps[0]).0, steps[1..]))
  }

  function After(m: Mb, steps: seq<Step>): Mb
    decreases |steps|
  {
    if steps == [] then m else After(Next(m, steps[0]).0, steps[1..])
  }

  /** Over every interleaving of steps. */
  lemma {:induction false} RunInv(m: Mb, steps: seq<Step>)
    requires Inv(m) && Possible(m, steps)
    ensures Inv(After(m, steps))
    decreases |steps|
  {
    if steps != [] {
      StepInv(m, steps[0]);
      RunInv(Next(m, steps[0]).0, steps[1..]);
    }
  }

  /** A mail never waits beside a blocked receiver without a woken receiver that will take it when it
      runs, whatever its timeout; likewise a free place and a blocked sender. */
  lemma SomebodyWillRun(m: Mb, timeout: int)
    requires Inv(m)
    ensures m.receivers != [] && m.mails != [] ==>
              exists t :: StatOf(m, t) == RecvWoken(EOK) && Next(m, Resume(t, timeout)).1 == Deliver(m.mails[0])
    ensures m.senders != [] && |m.mails| < m.size ==>
              exists t ::
                  StatOf(m, t).SendWoken? && StatOf(m, t).error == EOK && Next(m, Resume(t, timeout)).1 == Return(EOK)
    ensures m.receivers != [] && m.senders != [] && m.size > 0 ==>
              ReceiversToRun(m.stat) != {} || SendersToRun(m.stat) != {}
  {
    if m.receivers != [] && m.mails != [] {
      var t := Member(ReceiversToRun(m.stat));
      assert StatOf(m, t) == RecvWoken(EOK);
    }
    if m.senders != [] && |m.mails| < m.size {
      var t := Member(SendersToRun(m.stat));
      assert StatOf(m, t).SendWoken?;
    }
  }
}

/** The mailbox object and its critical sections. */
module Mailbox {
  import opened RtList
  import opened SortedList
  import opened IpcList
  import opened MailboxSpec

  /** The n mails from position out on, around the end of the pool. */
  function Contents(pool: seq<int>, out: nat, n: nat): seq<int>
    requires n > 0 ==> out < |pool|
    decreases n
  {
    if n == 0 then [] else [pool[out]] + Contents(pool, After1(out, |pool|), n - 1)
  }

  /** An offset moved on by one. */
  function After1(offset: nat, size: nat): (r: nat)
    ensures size > 0 && offset < size ==> r < size
  {
    if offset + 1 >= size then 0 else offset + 1
  }

  /** The offset n places after out. */
  function Slot(out: nat, n: nat, size: nat): int { if out + n >= size then out + n - size else out + n }

  lemma {:induction false} RingPut(pool: seq<int>, out: nat, n: nat, v: int)
    requires n < |pool| && out < |pool|
    ensures 0 <= Slot(out, n, |pool|) < |pool|
    ensures Contents(pool[Slot(out, n, |pool|) := v], out, n + 1) == Contents(pool, out, n) + [v]
    decreases n
  {
    var i := Slot(out, n, |pool|);
    var p := pool[i := v];
    if n == 0 {
      assert Contents(p, After1(out, |p|), 0) == [];
    } else {
      var o := After1(out, |pool|);
      assert Slot(o, n - 1, |pool|) == i && i != out;
      RingPut(pool, o, n - 1, v);
    }
  }

  lemma {:induction false} RingLength(pool: seq<int>, out: nat, n: nat)
    requires n > 0 ==> out < |pool|
    ensures |Contents(pool, out, n)| == n
    decreases n
  {
    if n > 0 { RingLength(pool, After1(out, |pool|), n - 1); }
  }

  class Mailbox {
    const flag: Flag
    const prio: map<int, int>        // current_priority of the threads
    const pool: array<int>           // msg_pool, of `size` mails
    var inOffset: nat
    var outOffset: nat
    var entry: nat
    var receivers: seq<int>          // parent.suspend_thread
    var senders: seq<int>            // suspend_sender_thread
    var stat: map<int, Stat>         // the threads that use the mailbox
    ghost var sent: seq<int>
    ghost var got: seq<int>

    ghost predicate Shape()
      reads this, pool
    {
      && entry <= pool.Length && (pool.Length > 0 ==> outOffset < pool.Length) && (pool.Length == 0 ==> outOffset == 0)
      && inOffset == Slot(outOffset, entry, pool.Length)
    }

    ghost function Abs(): Mb
      requires Shape()
      reads this, pool
    {
      Mb(pool.Length, flag, prio, Contents(pool[..], outOffset, entry), receivers, senders, stat, sent, got)
    }

    ghost predicate Valid()
      reads this, pool
    {
      Shape() && Inv(Abs()) && (forall t :: t in receivers || t in senders ==> t in prio)
    }

    /** rt_mb_init. */
    constructor (size: nat, flag: Flag, prio: map<int, int>)
      ensures Valid() && fresh(pool) && pool.Length == size && this.flag == flag && this.prio == prio
      ensures Abs() == Mb(size, flag, prio, [], [], [], map[], [], [])
    {
      this.flag, this.prio, pool := flag, prio, new int[size];
      inOffset, outOffset, entry, receivers, senders, stat, sent, got := 0, 0, 0, [], [], map[], [], [];
    }

    /** rt_ipc_list_resume of the first blocked receiver, if there is one. */
    method ResumeFirstReceiver()
      requires Shape()
      modifies `receivers, `stat
      ensures Shape() && Abs() == ResumeReceiver(old(Abs()))
      ensures forall t :: t in receivers ==> t in old(receivers)
    {
      if receivers != [] {
        var t := receivers[0];
        stat := stat[t := Woken(if t in stat then stat[t] else Outside, EOK)];
        receivers := receivers[1..];
      }
    }

    method ResumeFirstSender()
      requires Shape()
      modifies `senders, `stat
      ensures Shape() && Abs() == ResumeSender(old(Abs()))
      ensures forall t :: t in senders ==> t in old(senders)
    {
      if senders != [] {
        var t := senders[0];
        stat := stat[t := Woken(if t in stat then stat[t] else Outside, EOK)];
        senders := senders[1..];
      }
    }

    /** One pass of rt_mb_send_wait through its critical section, for thread t. */
    method Send(t: int, mail: int, timeout: int) returns (r: Outcome)
      requires Valid() && t in prio
      requires StatOf(Abs(), t).Outside? || (StatOf(Abs(), t).SendWoken? && StatOf(Abs(), t).error == EOK)
      modifies this, pool
      ensures Valid() && (Abs(), r) == SendSection(old(Abs()), t, mail, timeout)
    {
      hide Lists, NoLostWakeup;
      ghost var m := Abs();
      RingLength(pool[..], outOffset, entry);
      SendSectionInv(m, t, mail, timeout);
      if entry == pool.Length {
        if timeout == 0 {
          stat := stat[t := Outside];
          return Return(EFULL);
        }
        QueuedElements(flag, prio, senders, t);
        senders := Suspend(flag, prio, senders, t);
        stat := stat[t := SendBlocked(mail)];
        return Wait;
      }
      RingPut(pool[..], outOffset, entry, mail);
      pool[inOffset] := mail;
      inOffset := inOffset + 1;
      if inOffset >= pool.Length { inOffset := 0; }
      entry := entry + 1;
      sent := sent + [mail];
      stat := stat[t := Outside];
      ResumeFirstReceiver();
      return Return(EOK);
    }

    /** One pass of rt_mb_recv through its critical section. */
    method Recv(t: int, timeout: int) returns (r: Outcome)
      requires Valid() && t in prio && (StatOf(Abs(), t).Outside? || StatOf(Abs(), t) == RecvWoken(EOK))
      modifies this
      ensures Valid() && (Abs(), r) == RecvSection(old(Abs()), t, timeout)
    {
      hide Lists, NoLostWakeup;
      ghost var m := Abs();
      RingLength(pool[..], outOffset, entry);
      RecvSectionInv(m, t, timeout);
      if entry == 0 {
        if timeout == 0 {
          stat := stat[t := Outside];
          return Return(ETIMEOUT);
        }
        QueuedElements(flag, prio, receivers, t);
        receivers := Suspend(flag, prio, receivers, t);
        stat := stat[t := RecvBlocked];
        return Wait;
      }
      var mail := pool[outOffset];
      outOffset := outOffset + 1;
      if outOffset >= pool.Length { outOffset := 0; }
      entry := entry - 1;
      got := got + [mail];
      stat := stat[t := Outside];
      ResumeFirstSender();
      return Deliver(mail);
    }

    /** A woken thread runs again: back to its loop, or out with its error. */
    method Resumed(t: int, timeout: int) returns (r: Outcome)
      requires Valid() && t in prio && Enabled(Abs(), Resume(t, timeout))
      modifies this, pool
      ensures Valid() && (Abs(), r) == Next(old(Abs()), Resume(t, timeout))
    {
      StepInv(Abs(), Resume(t, timeout));
      match stat[t]
      case RecvWoken(error) =>
        if error != EOK {
          stat := stat[t := Outside];
          return Return(error);
        }
        r := Recv(t, timeout);
      case SendWoken(mail, error) =>
        if error != EOK {
          stat := stat[t := Outside];
          return Return(error);
        }
        r := Send(t, mail, timeout);
    }

    /** rt_thread_timeout of a thread that is blocked here. */
    method ThreadTimeout(t: int)
      requires Valid() && Enabled(Abs(), Expire(t))
      modifies `receivers, `senders, `stat
      ensures Valid() && Abs() == Next(old(Abs()), Expire(t)).0
    {
      StepInv(Abs(), Expire(t));
      DelElements(receivers, t);
      DelElements(senders, t);
      receivers, senders := Del(receivers, t), Del(senders, t);
      stat := stat[t := Woken(stat[t], ETIMEOUT)];
    }

    /** rt_ipc_list_resume_all. */
    method ResumeAll(q: seq<int>)
      modifies `stat
      ensures stat == WakeAll(old(stat), q)
    {
      for i := 0 to |q|
        invariant WakeAll(stat, q[i..]) == WakeAll(old(stat), q)
      {
        assert q[i..][1..] == q[i + 1..];
        stat := stat[q[i] := Woken(if q[i] in stat then stat[q[i]] else Outside, ERROR)];
      }
    }

    /** rt_mb_control with RT_IPC_CMD_RESET. */
    method Control()
      requires Valid()
      modifies this
      ensures Valid() && Abs() == Next(old(Abs()), Reset).0
    {
      StepInv(Abs(), Reset);
      ResumeAll(receivers);
      receivers := [];
      ResumeAll(senders);
      senders := [];
      entry, inOffset, outOffset := 0, 0, 0;
      sent, got := [], [];
    }
  }
}
