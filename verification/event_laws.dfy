/** What a call of rt_event_recv that need not wait means, and what a send adds. */
module EventLaws {
  import opened RtList
  import opened SortedList
  import opened IpcList
  import opened EventSpec

  // The three operations are those of sets of bits.

  lemma OrHolds(a: bv32, b: bv32)
    ensures And(Or(a, b), a) == a
  {
  }

  lemma OrNothing(a: bv32)
    ensures Or(a, 0) == a
  {
  }

  lemma OrOnly(a: bv32, b: bv32)
    ensures Minus(Or(a, b), a) == Minus(b, a)
  {
  }

  lemma MinusDrops(a: bv32, b: bv32)
    ensures And(Minus(a, b), b) == 0
  {
  }

  lemma MinusKeeps(a: bv32, b: bv32)
    ensures Or(Minus(a, b), And(a, b)) == a
  {
  }

  /** Nothing of what was asked is set, or, for AND, some of it is missing. */
  predicate Missing(r: Request, bits: bv32) { if r.all then And(bits, r.bits) != r.bits else And(bits, r.bits) == 0 }

  /** A call with an empty request is refused.  If the bits are there, it returns them, all that were asked for in the
      AND case, and with CLEAR exactly those are no longer set.  Otherwise it waits, if it may, and changes no bits. */
  lemma RecvLaw(flag: Flag, prio: map<int, int>, e: Event, t: int, r: Request, timeout: int)
    requires r.all || r.any
    ensures var (e', o) := Recv(flag, prio, e, t, r, timeout);
            && (o == Return(ERROR, 0) <==> r.bits == 0)
            && (o.Return? && o.code == EOK <==> r.bits != 0 && !Missing(r, e.bits))
            && (o.Return? && o.code == EOK ==>
                && Granted(r, e.bits, 0, o.recved)
                && (r.clear ==> And(e'.bits, r.bits) == 0 && Or(e'.bits, o.recved) == e.bits)
                && (!r.clear ==> e'.bits == e.bits)
                && e'.waiters == e.waiters)
            && (o == Return(ETIMEOUT, 0) <==> r.bits != 0 && Missing(r, e.bits) && timeout == 0)
            && (o == Wait <==> r.bits != 0 && Missing(r, e.bits) && timeout != 0)
            && (!(o.Return? && o.code == EOK) ==> e'.bits == e.bits)
            && (o == Wait ==> t in e'.waiters && RequestOf(e'.requests, t) == r && ErrorOf(e'.errors, t) == EOK)
  {
    hide And, Or, Minus, Queued;
    QueuedElements(flag, prio, e.waiters, t);
    AndParts(e.bits, r.bits);
    OrNothing(e.bits);
    MinusDrops(e.bits, r.bits);
    MinusKeeps(e.bits, r.bits);
  }

  /** A send sets the bits sent, and the waiting threads take some; it refuses only to send none. */
  lemma SendLaw(e: Event, bits: bv32, t: int)
    requires Inv(e)
    ensures bits == 0 ==> Send(e, bits) == e
    ensures And(Send(e, bits).bits, Or(e.bits, bits)) == Send(e, bits).bits
    ensures e.waiters == [] ==> Send(e, bits).bits == Or(e.bits, bits) && And(Send(e, bits).bits, e.bits) == e.bits
    ensures e.waiters == [] ==> Minus(Send(e, bits).bits, e.bits) == Minus(bits, e.bits)
    ensures t in Send(e, bits).waiters ==>
              t in e.waiters && RequestOf(Send(e, bits).requests, t) == RequestOf(e.requests, t)
  {
    hide And, Or, Minus, Left, Satisfied, Received;
    var all, q := Or(e.bits, bits), e.waiters;
    OrNothing(e.bits);
    OrHolds(e.bits, bits);
    OrOnly(e.bits, bits);
    MinusParts(all, all);
    if bits != 0 {
      ScanShrinks(all, q, e.requests);
      SubElements(Skipped(all, q, e.requests), q);
      if t in Skipped(all, q, e.requests) { SkippedKept(all, q, e.requests, t); }
    }
  }

  /** When its timer expires a thread waits no more, and will return ETIMEOUT; the others wait on, in their order. */
  lemma ExpireLaw(flag: Flag, prio: map<int, int>, e: Event, t: int)
    requires Inv(e) && t in e.waiters
    ensures var e' := Next(flag, prio, e, Expire(t));
            && t !in e'.waiters && Answer(e', t) == Return(ETIMEOUT, 0) && e'.bits == e.bits
            && Subsequence(e'.waiters, e.waiters) && |e'.waiters| == |e.waiters| - 1
            && forall u :: u != t ==> Answer(e', u) == Answer(e, u)
  {
    DelElements(e.waiters, t);
    SubDel(e.waiters, t);
    var k :| 0 <= k < |e.waiters| && e.waiters[k] == t;
    DelWithout(e.waiters, k);
  }

  /** After a reset no bit is set and nobody waits; all that did will return ERROR. */
  lemma ResetLaw(flag: Flag, prio: map<int, int>, e: Event)
    requires Inv(e)
    ensures var e' := Next(flag, prio, e, Reset);
            e'.bits == 0 && e'.waiters == [] && forall t :: t in e.waiters ==> Answer(e', t) == Return(ERROR, 0)
  {
    forall t | t in e.waiters ensures Answer(Next(flag, prio, e, Reset), t) == Return(ERROR, 0) {
      FailedIs(e.errors, e.waiters, t);
    }
  }
}
