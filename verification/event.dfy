/** Event flags of ipc.c: threads wait for all or for any of some bits, and may consume them. */
module EventSpec {
  import opened RtList
  import opened SortedList
  import opened IpcList

  // The 32-bit set operations.
  function And(a: bv32, b: bv32): bv32 { a & b }
  function Or(a: bv32, b: bv32): bv32 { a | b }
  function Minus(a: bv32, b: bv32): bv32 { a & !b }

  /** event_set and event_info of a thread; the latter by its bits RT_EVENT_FLAG_AND, RT_EVENT_FLAG_OR
      and RT_EVENT_FLAG_CLEAR. */
  datatype Request = Request(bits: bv32, all: bool, any: bool, clear: bool)

  /** Also the error of each thread. */
  datatype Event = Event(bits: bv32, waiters: seq<int>, requests: map<int, Request>, errors: map<int, int>)

  /** A blocked thread, one that is not, and what a call returns. */
  datatype Outcome = Wait | Return(code: int, recved: bv32)

  function RequestOf(requests: map<int, Request>, t: int): Request {
    if t in requests then requests[t] else Request(0, false, false, false)
  }

  function ErrorOf(errors: map<int, int>, t: int): int { if t in errors then errors[t] else EOK }

  /** A request that names at least one bit and says how to wait for it. */
  predicate Proper(r: Request) { r.bits != 0 && (r.all || r.any) }

  /** The condition that rt_event_recv and rt_event_send test. */
  predicate Satisfied(r: Request, bits: bv32) {
    if r.all then And(bits, r.bits) == r.bits else r.any && And(bits, r.bits) != 0
  }

  /** What a satisfied request receives. */
  function Received(r: Request, bits: bv32): bv32 { if r.all then r.bits else And(r.bits, bits) }

  /** The bits that remain after a satisfied request was served. */
  function Left(r: Request, bits: bv32): bv32 { if r.clear then Minus(bits, Received(r, bits)) else bits }

  /** The bits after the scan of rt_event_send passed the threads of q. */
  function BitsAfter(bits: bv32, q: seq<int>, requests: map<int, Request>): bv32
    decreases |q|
  {
    if q == [] then bits
    else
      var r := RequestOf(requests, q[0]);
      BitsAfter(if Satisfied(r, bits) then Left(r, bits) else bits, q[1..], requests)
  }

  /** The threads that stay blocked. */
  function Skipped(bits: bv32, q: seq<int>, requests: map<int, Request>): seq<int>
    decreases |q|
  {
    if q == [] then []
    else
      var r := RequestOf(requests, q[0]);
      if Satisfied(r, bits) then Skipped(Left(r, bits), q[1..], requests) else [q[0]] + Skipped(bits, q[1..], requests)
  }

  /** What the threads have in event_set afterwards. */
  function Served(bits: bv32, q: seq<int>, requests: map<int, Request>, now: map<int, Request>): map<int, Request>
    decreases |q|
  {
    if q == [] then now
    else
      var r := RequestOf(requests, q[0]);
      if Satisfied(r, bits) then Served(Left(r, bits), q[1..], requests, now[q[0] := r.(bits := Received(r, bits))])
      else Served(bits, q[1..], requests, now)
  }

  /** rt_event_send. */
  function Send(e: Event, bits: bv32): Event {
    if bits == 0 then e
    else
      var all := Or(e.bits, bits);
      Event(BitsAfter(all, e.waiters, e.requests), Skipped(all, e.waiters, e.requests),
            Served(all, e.waiters, e.requests, e.requests), e.errors)
  }

  /** rt_event_recv up to the point where the thread returns or blocks. */
  function Recv(flag: Flag, prio: map<int, int>, e: Event, t: int, r: Request, timeout: int): (Event, Outcome) {
    if r.bits == 0 then (e, Return(ERROR, 0))
    else if Satisfied(r, e.bits) then
      (e.(bits := if r.clear then Minus(e.bits, r.bits) else e.bits, errors := e.errors[t := EOK]),
       Return(EOK, And(e.bits, r.bits)))
    else if timeout == 0 then (e.(errors := e.errors[t := ETIMEOUT]), Return(ETIMEOUT, 0))
    else
      (e.(waiters := Queued(flag, prio, e.waiters, t), requests := e.requests[t := r], errors := e.errors[t := EOK]),
       Wait)
  }

  /** What rt_event_recv returns when the blocked thread runs again. */
  function Answer(e: Event, t: int): Outcome {
    if ErrorOf(e.errors, t) != EOK then Return(ErrorOf(e.errors, t), 0) else Return(EOK, RequestOf(e.requests, t).bits)
  }

  /** The errors after rt_ipc_list_resume_all woke the threads of q. */
  function Failed(errors: map<int, int>, q: seq<int>): map<int, int>
    decreases |q|
  {
    if q == [] then errors else Failed(errors[q[0] := ERROR], q[1..])
  }

  /** Blocked threads are listed once, have proper requests and no error, and none of them is satisfied. */
  ghost predicate Unmet(e: Event, t: int) {
    && Proper(RequestOf(e.requests, t)) && !Satisfied(RequestOf(e.requests, t), e.bits)
    && ErrorOf(e.errors, t) == EOK
  }

  ghost predicate Inv(e: Event) { Distinct(e.waiters) && forall t :: t in e.waiters ==> Unmet(e, t) }

  // ---- Bits ----

  lemma AndParts(a: bv32, b: bv32)
    ensures And(a, b) == And(b, a) && And(And(a, b), a) == And(a, b) && And(And(a, b), b) == And(a, b)
  {
  }

  lemma MinusParts(a: bv32, b: bv32)
    ensures Minus(a, And(b, a)) == Minus(a, b) && And(Minus(a, b), a) == Minus(a, b)
    ensures And(a, a) == a
  {
  }

  lemma Covers(more: bv32, less: bv32, c: bv32)
    requires And(less, more) == less
    ensures And(less, c) == c ==> And(more, c) == c
    ensures And(less, c) != 0 ==> And(more, c) != 0
  {
  }

  lemma CoversMore(more: bv32, less: bv32, least: bv32)
    requires And(less, more) == less && And(least, less) == least
    ensures And(least, more) == least
  {
  }

  // ---- Requests ----

  /** Fewer bits never satisfy more. */
  lemma Monotone(r: Request, more: bv32, less: bv32)
    requires And(less, more) == less && Satisfied(r, less)
    ensures Satisfied(r, more)
  {
    hide And;
    Covers(more, less, r.bits);
  }

  /** A satisfied request receives a non-empty part of what it asked for, all of it in the AND case, and
      only bits that are set. */
  lemma ReceivedIs(r: Request, bits: bv32)
    requires Proper(r) && Satisfied(r, bits)
    ensures Received(r, bits) == And(bits, r.bits) && Received(r, bits) != 0
    ensures And(Received(r, bits), r.bits) == Received(r, bits) && And(Received(r, bits), bits) == Received(r, bits)
    ensures r.all ==> Received(r, bits) == r.bits
  {
    hide And;
    AndParts(bits, r.bits);
  }

  /** Consuming takes the bits asked for. */
  lemma LeftIs(r: Request, bits: bv32)
    requires Satisfied(r, bits)
    ensures Left(r, bits) == if r.clear then Minus(bits, r.bits) else bits
    ensures And(Left(r, bits), bits) == Left(r, bits)
  {
    hide And, Minus;
    MinusParts(bits, r.bits);
  }

  // ---- The scan of rt_event_send ----

  /** What the scan leaves: fewer bits, and only threads that were waiting. */
  lemma {:induction false} ScanShrinks(bits: bv32, q: seq<int>, requests: map<int, Request>)
    ensures And(BitsAfter(bits, q, requests), bits) == BitsAfter(bits, q, requests)
    ensures Subsequence(Skipped(bits, q, requests), q)
    decreases |q|
  {
    hide And, Minus, Left;
    MinusParts(bits, 0);
    if q != [] {
      var r := RequestOf(requests, q[0]);
      if Satisfied(r, bits) {
        LeftIs(r, bits);
        ScanShrinks(Left(r, bits), q[1..], requests);
        CoversMore(bits, Left(r, bits), BitsAfter(Left(r, bits), q[1..], requests));
      } else {
        ScanShrinks(bits, q[1..], requests);
      }
    }
  }

  /** The bits when the scan reaches position i of the waiting list. */
  function BitsAt(bits: bv32, q: seq<int>, requests: map<int, Request>, i: nat): bv32
    requires i <= |q|
  {
    BitsAfter(bits, q[..i], requests)
  }

  /** A thread that stays blocked is not satisfied by the bits that are left. */
  lemma {:induction false} SkippedUnmet(bits: bv32, q: seq<int>, requests: map<int, Request>)
    ensures forall t ::
              t in Skipped(bits, q, requests) ==>
              t in q && !Satisfied(RequestOf(requests, t), BitsAfter(bits, q, requests))
    decreases |q|
  {
    hide And, Minus, Left, Satisfied;
    if q != [] {
      var r := RequestOf(requests, q[0]);
      if Satisfied(r, bits) {
        SkippedUnmet(Left(r, bits), q[1..], requests);
      } else {
        SkippedUnmet(bits, q[1..], requests);
        ScanShrinks(bits, q[1..], requests);
        if Satisfied(r, BitsAfter(bits, q[1..], requests)) { Monotone(r, bits, BitsAfter(bits, q[1..], requests)); }
      }
    }
  }

  /** Exactly the threads whose condition holds when the scan reaches them are resumed; such a thread
      has received the part of its request that was set then, the others keep their requests. */
  lemma {:induction false} ScanServes(bits: bv32, q: seq<int>, requests: map<int, Request>, now: map<int, Request>,
                                      i: nat)
    requires Distinct(q) && i < |q|
    ensures var r, b := RequestOf(requests, q[i]), BitsAt(bits, q, requests, i);
            (q[i] in Skipped(bits, q, requests) <==> !Satisfied(r, b)) &&
            RequestOf(Served(bits, q, requests, now), q[i]) ==
              (if Satisfied(r, b) then r.(bits := Received(r, b)) else RequestOf(now, q[i]))
    decreases |q|
  {
    hide And, Minus, Left, Satisfied, Received;
    var r := RequestOf(requests, q[0]);
    var left := if Satisfied(r, bits) then Left(r, bits) else bits;
    var mine := if Satisfied(r, bits) then now[q[0] := r.(bits := Received(r, bits))] else now;
    PopList(q);
    ScanShrinks(left, q[1..], requests);
    SubElements(Skipped(left, q[1..], requests), q[1..]);
    if i == 0 {
      ServedElsewhere(left, q[1..], requests, mine, q[0]);
    } else {
      ScanServes(left, q[1..], requests, mine, i - 1);
      assert q[..i][1..] == q[1..][..i - 1];
      assert q[i] == q[1..][i - 1];
      assert q[i] != q[0];
    }
  }

  lemma {:induction false} ServedElsewhere(bits: bv32, q: seq<int>, requests: map<int, Request>,
                                           now: map<int, Request>, t: int)
    requires t !in q
    ensures RequestOf(Served(bits, q, requests, now), t) == RequestOf(now, t)
    decreases |q|
  {
    hide And, Minus, Left, Satisfied, Received;
    if q != [] {
      var r := RequestOf(requests, q[0]);
      if Satisfied(r, bits) {
        ServedElsewhere(Left(r, bits), q[1..], requests, now[q[0] := r.(bits := Received(r, bits))], t);
      } else {
        ServedElsewhere(bits, q[1..], requests, now, t);
      }
    }
  }

  lemma {:induction false} SubDistinct(a: seq<int>, b: seq<int>)
    requires Subsequence(a, b) && Distinct(b)
    ensures Distinct(a)
    decreases |b|
  {
    if a != [] {
      PopList(b);
      if a[0] == b[0] && Subsequence(a[1..], b[1..]) {
        SubDistinct(a[1..], b[1..]);
        SubElements(a[1..], b[1..]);
        var none: map<int, int> := map[];
        ConsOk(a[0], a[1..], none);
        assert a == [a[0]] + a[1..];
      } else {
        SubDistinct(a, b[1..]);
      }
    }
  }

  /** Threads that stay blocked keep their requests. */
  lemma SkippedKept(bits: bv32, q: seq<int>, requests: map<int, Request>, t: int)
    requires Distinct(q) && t in Skipped(bits, q, requests)
    ensures RequestOf(Served(bits, q, requests, requests), t) == RequestOf(requests, t)
  {
    hide Satisfied, Received, Left, And, Minus;
    ScanShrinks(bits, q, requests);
    SubElements(Skipped(bits, q, requests), q);
    var i :| 0 <= i < |q| && q[i] == t;
    ScanServes(bits, q, requests, requests, i);
  }

  // ---- No blocked thread could go on, in every reachable state ----

  lemma SendInv(e: Event, bits: bv32)
    requires Inv(e)
    ensures Inv(Send(e, bits))
  {
    hide And, Or, Minus, Left, Satisfied, Received;
    if bits != 0 {
      var all, q := Or(e.bits, bits), e.waiters;
      ScanShrinks(all, q, e.requests);
      SubDistinct(Skipped(all, q, e.requests), q);
      SkippedUnmet(all, q, e.requests);
      forall t | t in Skipped(all, q, e.requests) ensures Unmet(Send(e, bits), t) {
        SkippedKept(all, q, e.requests, t);
        assert Unmet(e, t);
      }
    }
  }

  lemma FewerBits(e: Event, bits: bv32)
    requires Inv(e) && And(bits, e.bits) == bits
    ensures Inv(e.(bits := bits))
  {
    hide And, Satisfied;
    forall u | u in e.waiters ensures Unmet(e.(bits := bits), u) {
      assert Unmet(e, u);
      if Satisfied(RequestOf(e.requests, u), bits) { Monotone(RequestOf(e.requests, u), e.bits, bits); }
    }
  }

  lemma BlockInv(flag: Flag, prio: map<int, int>, e: Event, t: int, r: Request)
    requires Inv(e) && t !in e.waiters && Proper(r) && !Satisfied(r, e.bits)
    ensures Inv(e.(waiters := Queued(flag, prio, e.waiters, t), requests := e.requests[t := r],
                   errors := e.errors[t := EOK]))
  {
    hide And, Satisfied, Queued;
    QueuedOk(flag, prio, e.waiters, t);
    var e' := e.(waiters := Queued(flag, prio, e.waiters, t), requests := e.requests[t := r],
                 errors := e.errors[t := EOK]);
    forall u | u in e'.waiters ensures Unmet(e', u) { assert u == t || Unmet(e, u); }
  }

  lemma OtherError(e: Event, t: int, code: int)
    requires Inv(e) && t !in e.waiters
    ensures Inv(e.(errors := e.errors[t := code]))
  {
    hide Satisfied;
    forall u | u in e.waiters ensures Unmet(e.(errors := e.errors[t := code]), u) { assert Unmet(e, u); }
  }

  lemma RecvInv(flag: Flag, prio: map<int, int>, e: Event, t: int, r: Request, timeout: int)
    requires Inv(e) && t !in e.waiters && (r.all || r.any)
    ensures Inv(Recv(flag, prio, e, t, r, timeout).0)
  {
    hide And, Minus, Satisfied, Queued, Inv;
    MinusParts(e.bits, r.bits);
    if r.bits != 0 {
      if Satisfied(r, e.bits) {
        OtherError(e, t, EOK);
        if r.clear { FewerBits(e.(errors := e.errors[t := EOK]), Minus(e.bits, r.bits)); }
      } else if timeout == 0 {
        OtherError(e, t, ETIMEOUT);
      } else {
        BlockInv(flag, prio, e, t, r);
      }
    }
  }

  lemma ExpireInv(e: Event, t: int)
    requires Inv(e)
    ensures Inv(e.(waiters := Del(e.waiters, t), errors := e.errors[t := ETIMEOUT]))
  {
    hide Satisfied, And;
    DelElements(e.waiters, t);
    var e' := e.(waiters := Del(e.waiters, t), errors := e.errors[t := ETIMEOUT]);
    forall u | u in e'.waiters ensures Unmet(e', u) { assert Unmet(e, u); }
  }

  /** The operations of a run: send, receive, the timeout of a blocked thread, and reset. */
  datatype Step = SendBits(bits: bv32) | RecvBits(t: int, request: Request, timeout: int) | Expire(t: int) | Reset

  function Next(flag: Flag, prio: map<int, int>, e: Event, step: Step): Event {
    match step
    case SendBits(bits) => Send(e, bits)
    case RecvBits(t, r, timeout) => Recv(flag, prio, e, t, r, timeout).0
    case Expire(t) => e.(waiters := Del(e.waiters, t), errors := e.errors[t := ETIMEOUT])
    case Reset => Event(0, [], e.requests, Failed(e.errors, e.waiters))
  }

  ghost predicate Enabled(e: Event, step: Step) {
    match step
    case RecvBits(t, r, _) => t !in e.waiters && (r.all || r.any)
    case Expire(t) => t in e.waiters
    case _ => true
  }

  ghost predicate Possible(flag: Flag, prio: map<int, int>, e: Event, steps: seq<Step>)
    decreases |steps|
  {
    steps == [] || (Enabled(e, steps[0]) && Possible(flag, prio, Next(flag, prio, e, steps[0]), steps[1..]))
  }

  function After(flag: Flag, prio: map<int, int>, e: Event, steps: seq<Step>): Event
    decreases |steps|
  {
    if steps == [] then e else After(flag, prio, Next(flag, prio, e, steps[0]), steps[1..])
  }

  lemma StepInv(flag: Flag, prio: map<int, int>, e: Event, step: Step)
    requires Inv(e) && Enabled(e, step)
    ensures Inv(Next(flag, prio, e, step))
  {
    hide Send, Recv;
    match step
    case SendBits(bits) => SendInv(e, bits);
    case RecvBits(t, r, timeout) => RecvInv(flag, prio, e, t, r, timeout);
    case Expire(t) => ExpireInv(e, t);
    case Reset =>
  }

  lemma {:induction false} RunInv(flag: Flag, prio: map<int, int>, e: Event, steps: seq<Step>)
    requires Inv(e) && Possible(flag, prio, e, steps)
    ensures Inv(After(flag, prio, e, steps))
    decreases |steps|
  {
    if steps != [] {
      hide Inv, Next;
      StepInv(flag, prio, e, steps[0]);
      RunInv(flag, prio, Next(flag, prio, e, steps[0]), steps[1..]);
    }
  }

  // ---- What a blocked thread gets ----

  /** The bits b are what a send of `sent` with the bits `before` set may give to the request r: some of those asked
      for, all of them for AND, and set at that moment. */
  predicate Granted(r: Request, before: bv32, sent: bv32, b: bv32) {
    b != 0 && And(b, r.bits) == b && And(b, Or(before, sent)) == b && (r.all ==> b == r.bits)
  }

  /** What the thread that this step woke returns. */
  ghost predicate Deserved(e: Event, step: Step, t: int, o: Outcome) {
    match step
    case SendBits(bits) =>
      o.Return? && o.code == EOK && Granted(RequestOf(e.requests, t), e.bits, bits, o.recved)
    case Expire(_) => o == Return(ETIMEOUT, 0)
    case Reset => o == Return(ERROR, 0)
    case RecvBits(_, _, _) => false
  }

  lemma SendGrants(e: Event, bits: bv32, t: int)
    requires Inv(e) && t in e.waiters && t !in Send(e, bits).waiters
    ensures ErrorOf(Send(e, bits).errors, t) == EOK
    ensures Granted(RequestOf(e.requests, t), e.bits, bits, RequestOf(Send(e, bits).requests, t).bits)
  {
    hide And, Or, Minus, Left, Satisfied, Received;
    assert Unmet(e, t);
    var all, q := Or(e.bits, bits), e.waiters;
    var i :| 0 <= i < |q| && q[i] == t;
    var r, b := RequestOf(e.requests, t), BitsAt(all, q, e.requests, i);
    ScanServes(all, q, e.requests, e.requests, i);
    ReceivedIs(r, b);
    ScanShrinks(all, q[..i], e.requests);
    CoversMore(all, b, Received(r, b));
  }

  lemma {:induction false} FailedIs(errors: map<int, int>, q: seq<int>, t: int)
    ensures ErrorOf(Failed(errors, q), t) == if t in q then ERROR else ErrorOf(errors, t)
    decreases |q|
  {
    if q != [] {
      FailedIs(errors[q[0] := ERROR], q[1..], t);
      assert t in q <==> t == q[0] || t in q[1..];
    }
  }

  /** A thread leaves the waiting list with what it asked for, or with the error that took it off. */
  lemma WokenGets(flag: Flag, prio: map<int, int>, e: Event, step: Step, t: int)
    requires Inv(e) && Enabled(e, step) && t in e.waiters && t !in Next(flag, prio, e, step).waiters
    ensures Deserved(e, step, t, Answer(Next(flag, prio, e, step), t))
  {
    hide Send, Granted;
    match step
    case SendBits(bits) => SendGrants(e, bits, t);
    case RecvBits(u, r, timeout) => QueuedElements(flag, prio, e.waiters, u);
    case Expire(u) => DelElements(e.waiters, u);
    case Reset => FailedIs(e.errors, e.waiters, t);
  }

  /** Nobody else changes that before the thread runs. */
  lemma AnswerStays(flag: Flag, prio: map<int, int>, e: Event, step: Step, t: int)
    requires Inv(e) && Enabled(e, step) && t !in e.waiters && !(step.RecvBits? && step.t == t)
    ensures t !in Next(flag, prio, e, step).waiters
    ensures Answer(Next(flag, prio, e, step), t) == Answer(e, t)
  {
    hide And, Or, Minus, Left, Satisfied, Received;
    match step
    case SendBits(bits) =>
      var all := Or(e.bits, bits);
      ServedElsewhere(all, e.waiters, e.requests, e.requests, t);
      ScanShrinks(all, e.waiters, e.requests);
      SubElements(Skipped(all, e.waiters, e.requests), e.waiters);
    case RecvBits(u, r, timeout) => QueuedElements(flag, prio, e.waiters, u);
    case Expire(u) => DelElements(e.waiters, u);
    case Reset => FailedIs(e.errors, e.waiters, t);
  }

  /** In this run t does not call rt_event_recv. */
  predicate Quiet(steps: seq<Step>, t: int) {
    forall i :: 0 <= i < |steps| ==> !(steps[i].RecvBits? && steps[i].t == t)
  }

  lemma {:induction false} AnswerKept(flag: Flag, prio: map<int, int>, e: Event, steps: seq<Step>, t: int)
    requires Inv(e) && Possible(flag, prio, e, steps) && t !in e.waiters && Quiet(steps, t)
    ensures t !in After(flag, prio, e, steps).waiters && Answer(After(flag, prio, e, steps), t) == Answer(e, t)
    decreases |steps|
  {
    if steps != [] {
      hide Inv, Next, Answer;
      assert !(steps[0].RecvBits? && steps[0].t == t);
      StepInv(flag, prio, e, steps[0]);
      AnswerStays(flag, prio, e, steps[0], t);
      AnswerKept(flag, prio, Next(flag, prio, e, steps[0]), steps[1..], t);
    }
  }

  /** So whenever the thread runs again, after whatever run, rt_event_recv returns what the step that woke
      it owes: after a send part of the bits asked for, all of them for AND; else the error. */
  lemma ReturnsDeserved(flag: Flag, prio: map<int, int>, e: Event, step: Step, t: int, steps: seq<Step>)
    requires Inv(e) && Enabled(e, step) && t in e.waiters && t !in Next(flag, prio, e, step).waiters
    requires Possible(flag, prio, Next(flag, prio, e, step), steps) && Quiet(steps, t)
    ensures Deserved(e, step, t, Answer(After(flag, prio, Next(flag, prio, e, step), steps), t))
  {
    hide Inv, Next, Answer, Deserved;
    StepInv(flag, prio, e, step);
    WokenGets(flag, prio, e, step, t);
    AnswerKept(flag, prio, Next(flag, prio, e, step), steps, t);
  }
}

/** The event object. */
module EventFlags {
  import opened RtList
  import opened SortedList
  import opened IpcList
  import opened EventSpec

  class EventObject {
    const flag: Flag
    const prio: map<int, int>
    var bits: bv32                       // set
    var waiters: seq<int>                // parent.suspend_thread
    var requests: map<int, Request>      // event_set and event_info of the threads
    var errors: map<int, int>            // error of the threads

    ghost function Abs(): Event
      reads this
    {
      Event(bits, waiters, requests, errors)
    }

    ghost predicate Valid()
      reads this
    {
      Inv(Abs()) && forall t :: t in waiters ==> t in prio && t in requests
    }

    /** rt_event_init. */
    constructor (flag: Flag, prio: map<int, int>)
      ensures Valid() && Abs() == Event(0, [], map[], map[]) && this.flag == flag && this.prio == prio
    {
      this.flag, this.prio := flag, prio;
      bits, waiters, requests, errors := 0, [], map[], map[];
    }

    /** One round of the loop of rt_event_send: thread n of the list is resumed if it is satisfied. */
    method Serve(n: nat) returns (resumed: bool)
      requires n < |waiters| && waiters[n] in requests
      modifies `bits, `waiters, `requests
      ensures var t := old(waiters[n]);
              var r := old(requests)[t];
              resumed == Satisfied(r, old(bits)) &&
              bits == (if resumed then Left(r, old(bits)) else old(bits)) &&
              waiters == (if resumed then old(waiters)[..n] + old(waiters)[n + 1..] else old(waiters)) &&
              requests == (if resumed then old(requests)[t := r.(bits := Received(r, old(bits)))] else old(requests))
    {
      hide And, Minus;
      AndParts(bits, requests[waiters[n]].bits);
      var thread := waiters[n];
      resumed := false;
      if requests[thread].all {
        resumed := And(requests[thread].bits, bits) == requests[thread].bits;
      } else if requests[thread].any {
        if And(requests[thread].bits, bits) != 0 {
          requests := requests[thread := requests[thread].(bits := And(requests[thread].bits, bits))];
          resumed := true;
        }
      }
      if resumed {
        if requests[thread].clear { bits := Minus(bits, requests[thread].bits); }
        waiters := waiters[..n] + waiters[n + 1..];
      }
    }

    /** One round, with the place to go on from. */
    method Round(n: nat, ghost e: Event, ghost all: bv32, ghost rest: seq<int>) returns (m: nat)
      requires n < |waiters| && waiters[n] in requests && waiters[n..] == rest
      requires Scanned(e, all, bits, waiters[..n], rest, requests)
      modifies `bits, `waiters, `requests
      ensures m <= |waiters| && waiters[m..] == rest[1..] && requests.Keys == old(requests).Keys
      ensures Scanned(e, all, bits, waiters[..m], rest[1..], requests)
    {
      hide And, Or, Minus, Satisfied, Left, Received, Scanned;
      ghost var kept := waiters[..n];
      assert rest[0] == waiters[n];
      ScannedNext(e, all, bits, kept, rest, requests);
      var resumed := Serve(n);
      m := if resumed then n else n + 1;
      assert waiters[..m] == if resumed then kept else kept + [rest[0]];
      assert waiters[m..] == rest[1..];
    }

    /** rt_event_send. */
    method SendEvent(more: bv32) returns (code: int)
      requires Valid()
      modifies `bits, `waiters, `requests
      ensures Valid() && Abs() == Send(old(Abs()), more) && code == if more == 0 then ERROR else EOK
    {
      if more == 0 { return ERROR; }
      hide And, Or, Minus, Satisfied, Left, Received, Inv, Scanned, Among, Send, Distinct;
      ghost var e := Abs();
      StartScan(e, Or(bits, more));
      SendIs(e, more);
      SendInv(e, more);
      bits := Or(bits, more);
      ghost var all := bits;
      ghost var rest := e.waiters;
      var n := 0;
      SliceAll(waiters);
      assert forall t :: t in e.waiters ==> t in e.requests;
      while n < |waiters|
        invariant 0 <= n <= |waiters| && waiters[n..] == rest && requests.Keys == e.requests.Keys
        invariant Scanned(e, all, bits, waiters[..n], rest, requests)
        invariant Among(rest, e.waiters)
        decreases |rest|
      {
        Onward(waiters, n, rest, e.waiters);
        assert waiters[n] in e.requests;
        n := Round(n, e, all, rest);
        rest := rest[1..];
      }
      SliceEnd(waiters, n);
      ScannedAll(e, all, bits, waiters, requests);
      return EOK;
    }

    /** rt_event_recv up to the point where the thread returns or blocks. */
    method RecvEvent(t: int, r: Request, timeout: int) returns (o: Outcome)
      requires Valid() && t in prio && t !in waiters && (r.all || r.any)
      modifies `bits, `waiters, `requests, `errors
      ensures Valid() && (Abs(), o) == Recv(flag, prio, old(Abs()), t, r, timeout)
    {
      hide And, Minus, Inv, Queued;
      RecvInv(flag, prio, Abs(), t, r, timeout);
      if r.bits == 0 { return Return(ERROR, 0); }
      var status := false;
      errors := errors[t := EOK];
      if r.all {
        status := And(bits, r.bits) == r.bits;
      } else if r.any {
        status := And(bits, r.bits) != 0;
      }
      if status {
        var recved := And(bits, r.bits);
        if r.clear { bits := Minus(bits, r.bits); }
        return Return(EOK, recved);
      }
      if timeout == 0 {
        errors := errors[t := ETIMEOUT];
        assert errors == old(errors)[t := ETIMEOUT];
        return Return(ETIMEOUT, 0);
      }
      QueuedElements(flag, prio, waiters, t);
      requests := requests[t := r];
      waiters := Suspend(flag, prio, waiters, t);
      return Wait;
    }

    /** The rest of rt_event_recv, when the thread runs again. */
    method Resumed(t: int) returns (o: Outcome)
      requires t in errors && t in requests
      ensures o == Answer(Abs(), t)
    {
      if errors[t] != EOK { return Return(errors[t], 0); }
      return Return(EOK, requests[t].bits);
    }

    /** rt_thread_timeout of a thread that is blocked here. */
    method ThreadTimeout(t: int)
      requires Valid() && t in waiters
      modifies `waiters, `errors
      ensures Valid() && Abs() == Next(flag, prio, old(Abs()), Expire(t))
    {
      hide Satisfied;
      ExpireInv(Abs(), t);
      DelElements(waiters, t);
      errors := errors[t := ETIMEOUT];
      waiters := Del(waiters, t);
    }

    /** rt_event_control with RT_IPC_CMD_RESET: rt_ipc_list_resume_all, then no bit is set. */
    method Control()
      requires Valid()
      modifies `bits, `waiters, `errors
      ensures Valid() && Abs() == Next(flag, prio, old(Abs()), Reset)
    {
      while waiters != []
        invariant Failed(errors, waiters) == old(Failed(errors, waiters))
        decreases |waiters|
      {
        errors := errors[waiters[0] := ERROR];
        waiters := waiters[1..];
      }
      bits := 0;
    }

    static lemma SliceAll(q: seq<int>)
      ensures q[0..] == q && q[..0] == [] && Among(q, q)
    {
    }

    static lemma SliceEnd(q: seq<int>, n: nat)
      requires n == |q|
      ensures q[n..] == [] && q[..n] == q
    {
    }

    static lemma Onward(q: seq<int>, n: nat, rest: seq<int>, all: seq<int>)
      requires n < |q| && q[n..] == rest && Among(rest, all)
      ensures rest != [] && q[n] in all && Among(rest[1..], all)
    {
      assert q[n] == rest[0] && rest[0] in rest;
    }
  }

  ghost predicate Among(q: seq<int>, all: seq<int>) { forall t :: t in q ==> t in all }

  /** The scan of the waiting list of e with the bits `all` has come so far: it has kept `kept`, and
      `rest` is to come. */
  ghost predicate Scanned(e: Event, all: bv32, bits: bv32, kept: seq<int>, rest: seq<int>,
                          requests: map<int, Request>) {
    && BitsAfter(all, e.waiters, e.requests) == BitsAfter(bits, rest, e.requests)
    && Skipped(all, e.waiters, e.requests) == kept + Skipped(bits, rest, e.requests)
    && Served(all, e.waiters, e.requests, e.requests) == Served(bits, rest, e.requests, requests)
    && Distinct(rest) && forall t :: t in rest ==> RequestOf(requests, t) == RequestOf(e.requests, t)
  }

  lemma SendIs(e: Event, bits: bv32)
    requires bits != 0
    ensures var all := Or(e.bits, bits);
            Send(e, bits) == Event(BitsAfter(all, e.waiters, e.requests), Skipped(all, e.waiters, e.requests),
                                   Served(all, e.waiters, e.requests, e.requests), e.errors)
  {
  }

  lemma StartScan(e: Event, all: bv32)
    requires Inv(e)
    ensures Scanned(e, all, all, [], e.waiters, e.requests)
  {
  }

  lemma ScannedNext(e: Event, all: bv32, bits: bv32, kept: seq<int>, rest: seq<int>, requests: map<int, Request>)
    requires rest != [] && Scanned(e, all, bits, kept, rest, requests)
    ensures var r := RequestOf(e.requests, rest[0]);
            RequestOf(requests, rest[0]) == r &&
            if Satisfied(r, bits) then
              Scanned(e, all, Left(r, bits), kept, rest[1..], requests[rest[0] := r.(bits := Received(r, bits))])
            else
              Scanned(e, all, bits, kept + [rest[0]], rest[1..], requests)
  {
    hide Satisfied, Left, Received, And, Minus;
    PopList(rest);
  }

  lemma ScannedAll(e: Event, all: bv32, bits: bv32, kept: seq<int>, requests: map<int, Request>)
    requires Scanned(e, all, bits, kept, [], requests)
    ensures Event(bits, kept, requests, e.errors) ==
            Event(BitsAfter(all, e.waiters, e.requests), Skipped(all, e.waiters, e.requests),
                  Served(all, e.waiters, e.requests, e.requests), e.errors)
    ensures forall t :: t in kept ==> t in e.waiters
  {
    ScanShrinks(all, e.waiters, e.requests);
    SubElements(Skipped(all, e.waiters, e.requests), e.waiters);
    assert kept + [] == kept;
  }
}
