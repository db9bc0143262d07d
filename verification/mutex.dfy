/** Mutexes with priority inheritance: ipc.c and the priority change of thread.c. */
module MutexSpec {
  import opened RtList
  import opened SortedList
  import opened IpcList

  const NOBODY := -1
  const NONE := 0xFF        // original_priority of a free mutex
  const MAX_HOLD := 255     // hold is an rt_uint8_t

  datatype Mutex = Mutex(value: int, owner: int, original: int, hold: int, waiters: seq<int>)

  datatype Outcome = Wait | Return(code: int)

  /** rt_mutex_init. */
  function Fresh(): Mutex { Mutex(1, NOBODY, NONE, 0, []) }

  /** rt_mutex_take by thread t, up to the point where it returns or blocks: the priorities, the mutex. */
  function Take(flag: Flag, prio: map<int, int>, x: Mutex, t: int, time: int): (map<int, int>, Mutex, Outcome) {
    if x.owner == t then (prio, x.(hold := (x.hold + 1) % 256), Return(EOK))
    else if x.value > 0 then
      (prio, x.(value := x.value - 1, owner := t, original := At(prio, t), hold := (x.hold + 1) % 256), Return(EOK))
    else if time == 0 then (prio, x, Return(ETIMEOUT))
    else
      var boosted := if At(prio, t) < At(prio, x.owner) then prio[x.owner := At(prio, t)] else prio;
      (boosted, x.(waiters := Queued(flag, boosted, x.waiters, t)), Wait)
  }

  /** rt_mutex_release by thread t. */
  function Release(prio: map<int, int>, x: Mutex, t: int): (map<int, int>, Mutex, Outcome) {
    if t != x.owner then (prio, x, Return(ERROR))
    else if x.hold != 1 then (prio, x.(hold := (x.hold - 1) % 256), Return(EOK))
    else
      var restored := if x.original != At(prio, t) then prio[t := x.original] else prio;
      if x.waiters != [] then
        var h := x.waiters[0];
        (restored, x.(owner := h, original := At(restored, h), hold := 1, waiters := x.waiters[1..]), Return(EOK))
      else
        (restored, Mutex(x.value + 1, NOBODY, NONE, 0, []), Return(EOK))
  }

  /** The threads at their current priorities, all mutexes, and who waits for them, in the order of arrival. */
  datatype Sys = Sys(prio: map<int, int>, mutexes: map<int, Mutex>, arrivals: map<int, seq<int>>)

  datatype Step = TakeIt(i: int, t: int, time: int) | ReleaseIt(i: int, t: int) | Expire(i: int, t: int)

  function MutexOf(s: Sys, i: int): Mutex { if i in s.mutexes then s.mutexes[i] else Fresh() }

  function ArrivalsOf(s: Sys, i: int): seq<int> { if i in s.arrivals then s.arrivals[i] else [] }

  function Next(s: Sys, step: Step): Sys {
    match step
    case TakeIt(i, t, time) =>
      var r := Take(Prio, s.prio, MutexOf(s, i), t, time);
      Sys(r.0, s.mutexes[i := r.1], if r.2 == Wait then s.arrivals[i := ArrivalsOf(s, i) + [t]] else s.arrivals)
    case ReleaseIt(i, t) =>
      var r := Release(s.prio, MutexOf(s, i), t);
      Sys(r.0, s.mutexes[i := r.1], s.arrivals[i := Del(ArrivalsOf(s, i), r.1.owner)])
    case Expire(i, t) =>
      var x := MutexOf(s, i);
      Sys(s.prio, s.mutexes[i := x.(waiters := Del(x.waiters, t))], s.arrivals[i := Del(ArrivalsOf(s, i), t)])
  }

  ghost predicate Involved(s: Sys, i: int, t: int) { MutexOf(s, i).owner == t || t in MutexOf(s, i).waiters }

  ghost predicate Waiting(s: Sys, i: int, t: int) { t in MutexOf(s, i).waiters }

  /** The discipline: a thread that runs takes a mutex only if it has no other, and not more than
      MAX_HOLD times. */
  ghost predicate Enabled(s: Sys, step: Step) {
    match step
    case TakeIt(i, t, _) =>
      t != NOBODY && (forall j :: !Waiting(s, j, t)) && (forall j :: j != i ==> !Involved(s, j, t)) &&
      !(MutexOf(s, i).owner == t && MutexOf(s, i).hold == MAX_HOLD)
    case ReleaseIt(i, t) => t != NOBODY && forall j :: !Waiting(s, j, t)
    case Expire(i, t) => Waiting(s, i, t)
  }

  /** Value, owner and hold agree; the owner is as urgent as every waiter and remembers its own priority;
      the waiters are sorted. */
  ghost predicate MutexOk(base: map<int, int>, prio: map<int, int>, x: Mutex) {
    && 0 <= x.value <= 1 && (x.value == 1 <==> x.owner == NOBODY) && (x.owner == NOBODY <==> x.hold == 0) &&
        0 <= x.hold <= MAX_HOLD
    && (x.owner == NOBODY ==> x.waiters == [])
    && Distinct(x.waiters) && NOBODY !in x.waiters && x.owner !in x.waiters && Sorted(x.waiters, base)
    && (x.owner != NOBODY ==> x.original == At(base, x.owner) && At(prio, x.owner) <= At(base, x.owner))
    && forall w :: w in x.waiters ==> At(prio, x.owner) <= At(base, w)
  }

  /** No thread has to do with two mutexes. */
  ghost predicate Single(s: Sys) {
    forall i, j, t :: t != NOBODY && Involved(s, i, t) && Involved(s, j, t) ==> i == j
  }

  ghost predicate Owns(s: Sys, t: int) { exists i :: MutexOf(s, i).owner == t }

  /** Who owns no mutex runs at its own priority. */
  ghost predicate Restored(base: map<int, int>, s: Sys) {
    forall t :: t != NOBODY ==> At(s.prio, t) == At(base, t) || Owns(s, t)
  }

  ghost predicate Boosted(base: map<int, int>, s: Sys) {
    Single(s) && Restored(base, s) && forall i {:trigger MutexOf(s, i)} :: MutexOk(base, s.prio, MutexOf(s, i))
  }

  /** The waiters w stand in the order of their arrival a, within each priority. */
  ghost predicate InOrder(base: map<int, int>, a: seq<int>, w: seq<int>) {
    forall p :: Class(w, base, p) == Class(a, base, p)
  }

  /** First come, first served. */
  ghost predicate FirstCome(base: map<int, int>, s: Sys) {
    forall i {:trigger MutexOf(s, i)} :: InOrder(base, ArrivalsOf(s, i), MutexOf(s, i).waiters)
  }

  ghost predicate Inv(base: map<int, int>, s: Sys) { Boosted(base, s) && FirstCome(base, s) }

  // ---- Every step keeps the invariant ----

  /** Mutexes other than i do not notice a change of the priority of a thread that is not their owner. */
  lemma OtherMutexes(base: map<int, int>, s: Sys, s': Sys, i: int)
    requires Boosted(base, s) && forall j :: j != i ==> MutexOf(s', j) == MutexOf(s, j)
    requires forall j {:trigger MutexOf(s, j)} :: j != i && MutexOf(s, j).owner != NOBODY ==>
               At(s'.prio, MutexOf(s, j).owner) == At(s.prio, MutexOf(s, j).owner)
    requires MutexOk(base, s'.prio, MutexOf(s', i))
    ensures forall j {:trigger MutexOf(s', j)} :: MutexOk(base, s'.prio, MutexOf(s', j))
  {
    forall j ensures MutexOk(base, s'.prio, MutexOf(s', j)) {
      if j != i { assert MutexOk(base, s.prio, MutexOf(s, j)); }
    }
  }

  /** A thread that waits, or has nothing to do with any mutex, owns none. */
  lemma AtBase(base: map<int, int>, s: Sys, i: int, t: int)
    requires Boosted(base, s) && t != NOBODY && MutexOf(s, i).owner != t
    requires forall j :: j != i ==> !Involved(s, j, t)
    ensures At(s.prio, t) == At(base, t)
  {
    if Owns(s, t) {
      var j :| MutexOf(s, j).owner == t;
      assert Involved(s, j, t);
    }
  }

  lemma WaiterAtBase(base: map<int, int>, s: Sys, i: int, w: int)
    requires Boosted(base, s) && w in MutexOf(s, i).waiters
    ensures w != NOBODY && At(s.prio, w) == At(base, w) && forall j :: j != i ==> !Involved(s, j, w)
  {
    assert MutexOk(base, s.prio, MutexOf(s, i)) && Involved(s, i, w);
    AtBase(base, s, i, w);
  }

  /** One mutex changes, and nobody gets involved with it who has to do with another. */
  lemma SingleStill(s: Sys, s': Sys, i: int)
    requires Single(s) && forall j :: j != i ==> MutexOf(s', j) == MutexOf(s, j)
    requires forall t {:trigger Involved(s', i, t)} ::
              t != NOBODY && Involved(s', i, t) ==> Involved(s, i, t) || forall j :: j != i ==> !Involved(s, j, t)
    ensures Single(s')
  {
    forall j, k, t | t != NOBODY && Involved(s', j, t) && Involved(s', k, t) ensures j == k {
      assert j != i ==> Involved(s, j, t);
      assert k != i ==> Involved(s, k, t);
    }
  }

  lemma TakeFreeInv(base: map<int, int>, s: Sys, i: int, t: int, time: int)
    requires Boosted(base, s) && Enabled(s, TakeIt(i, t, time)) && MutexOf(s, i).owner == NOBODY
    ensures Boosted(base, Next(s, TakeIt(i, t, time)))
  {
    var x, s' := MutexOf(s, i), Next(s, TakeIt(i, t, time));
    assert MutexOk(base, s.prio, x) && !Waiting(s, i, t);
    AtBase(base, s, i, t);
    SingleStill(s, s', i);
    OtherMutexes(base, s, s', i);
    RestoredStill(base, s, s', i, t);
  }

  lemma TakeAgainInv(base: map<int, int>, s: Sys, i: int, t: int, time: int)
    requires Boosted(base, s) && Enabled(s, TakeIt(i, t, time)) && MutexOf(s, i).owner == t
    ensures Boosted(base, Next(s, TakeIt(i, t, time)))
  {
    var x, s' := MutexOf(s, i), Next(s, TakeIt(i, t, time));
    assert MutexOk(base, s.prio, x);
    SingleStill(s, s', i);
    OtherMutexes(base, s, s', i);
    RestoredStill(base, s, s', i, t);
  }

  /** Who owned no mutex, or one that did not change, is still fine. */
  lemma RestoredStill(base: map<int, int>, s: Sys, s': Sys, i: int, t: int)
    requires Restored(base, s) && forall j :: j != i ==> MutexOf(s', j) == MutexOf(s, j)
    requires MutexOf(s, i).owner == NOBODY || MutexOf(s', i).owner == MutexOf(s, i).owner ||
              At(s'.prio, MutexOf(s, i).owner) == At(base, MutexOf(s, i).owner)
    requires forall u :: u != NOBODY && u != MutexOf(s, i).owner ==> At(s'.prio, u) == At(s.prio, u)
    ensures Restored(base, s')
  {
    forall u | u != NOBODY ensures At(s'.prio, u) == At(base, u) || Owns(s', u) {
      if Owns(s, u) {
        var j :| MutexOf(s, j).owner == u;
        if j != i || MutexOf(s', i).owner == u { assert MutexOf(s', j).owner == u; }
      }
    }
  }

  lemma TakeWaitInv(base: map<int, int>, s: Sys, i: int, t: int, time: int)
    requires Boosted(base, s) && Enabled(s, TakeIt(i, t, time)) && time != 0
    requires MutexOf(s, i).owner != NOBODY && MutexOf(s, i).owner != t
    ensures Boosted(base, Next(s, TakeIt(i, t, time)))
  {
    var x, s' := MutexOf(s, i), Next(s, TakeIt(i, t, time));
    assert MutexOk(base, s.prio, x) && !Waiting(s, i, t) && Involved(s, i, x.owner);
    AtBase(base, s, i, t);
    forall w | w in x.waiters ensures At(s'.prio, w) == At(base, w) { WaiterAtBase(base, s, i, w); }
    InsertFrame(x.waiters, s'.prio, base, t);
    InsertOk(x.waiters, base, t);
    SingleStill(s, s', i);
    forall j | j != i && MutexOf(s, j).owner != NOBODY ensures MutexOf(s, j).owner != x.owner {
      assert Involved(s, j, MutexOf(s, j).owner);
    }
    OtherMutexes(base, s, s', i);
    RestoredStill(base, s, s', i, t);
  }

  /** The released mutex itself, and the priority of its former owner. */
  lemma ReleaseLocal(base: map<int, int>, s: Sys, i: int, t: int)
    requires Boosted(base, s) && Enabled(s, ReleaseIt(i, t)) && MutexOf(s, i).owner == t
    ensures var s' := Next(s, ReleaseIt(i, t));
            && MutexOk(base, s'.prio, MutexOf(s', i))
            && (MutexOf(s', i).owner == t || At(s'.prio, t) == At(base, t))
  {
    hide Sorted, Distinct;
    var x := MutexOf(s, i);
    assert MutexOk(base, s.prio, x) && Involved(s, i, t);
    if x.hold == 1 && x.waiters != [] {
      var h := x.waiters[0];
      WaiterAtBase(base, s, i, h);
      PopList(x.waiters);
      HeadLeast(x.waiters, base);
      assert forall w :: w in x.waiters[1..] ==> At(base, h) <= At(base, w);
    } else if x.hold == 1 {
      EmptySorted(base);
    }
  }

  lemma ReleaseInv(base: map<int, int>, s: Sys, i: int, t: int)
    requires Boosted(base, s) && Enabled(s, ReleaseIt(i, t)) && MutexOf(s, i).owner == t
    ensures Boosted(base, Next(s, ReleaseIt(i, t)))
  {
    hide Sorted, Distinct, MutexOk;
    var x, s' := MutexOf(s, i), Next(s, ReleaseIt(i, t));
    ReleaseLocal(base, s, i, t);
    assert Involved(s, i, t);
    SingleStill(s, s', i);
    forall j | j != i && MutexOf(s, j).owner != NOBODY ensures MutexOf(s, j).owner != t {
      assert Involved(s, j, MutexOf(s, j).owner);
    }
    OtherMutexes(base, s, s', i);
    RestoredStill(base, s, s', i, t);
  }

  lemma ExpireInv(base: map<int, int>, s: Sys, i: int, t: int)
    requires Boosted(base, s) && Enabled(s, Expire(i, t))
    ensures Boosted(base, Next(s, Expire(i, t)))
  {
    var x, s' := MutexOf(s, i), Next(s, Expire(i, t));
    assert MutexOk(base, s.prio, x);
    DelOk(x.waiters, base, t);
    SingleStill(s, s', i);
    OtherMutexes(base, s, s', i);
    RestoredStill(base, s, s', i, t);
  }

  lemma StepBoosted(base: map<int, int>, s: Sys, step: Step)
    requires Boosted(base, s) && Enabled(s, step)
    ensures Boosted(base, Next(s, step))
  {
    match step
    case TakeIt(i, t, time) =>
      var x := MutexOf(s, i);
      assert MutexOk(base, s.prio, x);
      if x.owner == t { TakeAgainInv(base, s, i, t, time); }
      else if x.owner == NOBODY { TakeFreeInv(base, s, i, t, time); }
      else if time != 0 { TakeWaitInv(base, s, i, t, time); }
      else { SameInv(base, s, Next(s, step)); }
    case ReleaseIt(i, t) =>
      if MutexOf(s, i).owner == t { ReleaseInv(base, s, i, t); } else { SameInv(base, s, Next(s, step)); }
    case Expire(i, t) => ExpireInv(base, s, i, t);
  }

  /** A call that changes nothing. */
  lemma SameInv(base: map<int, int>, s: Sys, s': Sys)
    requires Boosted(base, s) && s'.prio == s.prio && forall j :: MutexOf(s', j) == MutexOf(s, j)
    ensures Boosted(base, s')
  {
    forall j ensures MutexOk(base, s'.prio, MutexOf(s', j)) { assert MutexOk(base, s.prio, MutexOf(s, j)); }
    SingleStill(s, s', 0);
    RestoredStill(base, s, s', 0, 0);
  }

  // ---- First come, first served ----

  /** Of the waiters of mutex i one leaves, or none: those that stay keep their order. */
  lemma OrderDel(base: map<int, int>, s: Sys, s': Sys, i: int, t: int)
    requires FirstCome(base, s) && forall j ::
              j != i ==> MutexOf(s', j) == MutexOf(s, j) && ArrivalsOf(s', j) == ArrivalsOf(s, j)
    requires MutexOf(s', i).waiters == Del(MutexOf(s, i).waiters, t) && ArrivalsOf(s', i) == Del(ArrivalsOf(s, i), t)
    ensures FirstCome(base, s')
  {
    forall j ensures InOrder(base, ArrivalsOf(s', j), MutexOf(s', j).waiters) {
      assert InOrder(base, ArrivalsOf(s, j), MutexOf(s, j).waiters);
      if j == i {
        forall p ensures Class(MutexOf(s', i).waiters, base, p) == Class(ArrivalsOf(s', i), base, p) {
          ClassDel(MutexOf(s, i).waiters, base, t, p);
          ClassDel(ArrivalsOf(s, i), base, t, p);
        }
      }
    }
  }

  /** A new waiter goes behind all of the same priority, and the old ones keep their order. */
  lemma OrderInsert(base: map<int, int>, s: Sys, s': Sys, i: int, t: int)
    requires FirstCome(base, s) && forall j ::
              j != i ==> MutexOf(s', j) == MutexOf(s, j) && ArrivalsOf(s', j) == ArrivalsOf(s, j)
    requires Sorted(MutexOf(s, i).waiters, base)
    requires MutexOf(s', i).waiters == Insert(MutexOf(s, i).waiters, base, t) &&
              ArrivalsOf(s', i) == ArrivalsOf(s, i) + [t]
    ensures FirstCome(base, s')
  {
    forall j ensures InOrder(base, ArrivalsOf(s', j), MutexOf(s', j).waiters) {
      assert InOrder(base, ArrivalsOf(s, j), MutexOf(s, j).waiters);
      if j == i {
        forall p ensures Class(MutexOf(s', i).waiters, base, p) == Class(ArrivalsOf(s', i), base, p) {
          ClassInsert(MutexOf(s, i).waiters, base, t, p);
          ClassAppend(ArrivalsOf(s, i), base, t, p);
        }
      }
    }
  }

  lemma OrderSame(base: map<int, int>, s: Sys, s': Sys)
    requires FirstCome(base, s)
    requires forall j :: MutexOf(s', j).waiters == MutexOf(s, j).waiters && ArrivalsOf(s', j) == ArrivalsOf(s, j)
    ensures FirstCome(base, s')
  {
    forall j ensures InOrder(base, ArrivalsOf(s', j), MutexOf(s', j).waiters) {
      assert InOrder(base, ArrivalsOf(s, j), MutexOf(s, j).waiters);
    }
  }

  lemma TakeOrder(base: map<int, int>, s: Sys, i: int, t: int, time: int)
    requires Inv(base, s) && Enabled(s, TakeIt(i, t, time))
    ensures FirstCome(base, Next(s, TakeIt(i, t, time)))
  {
    hide FirstCome, InOrder, Sorted, Distinct;
    var x, s' := MutexOf(s, i), Next(s, TakeIt(i, t, time));
    assert MutexOk(base, s.prio, x);
    hide MutexOk;
    if x.owner != t && x.value <= 0 && time != 0 {
      WaiterKeys(base, s, i, t, time);
      OrderInsert(base, s, s', i, t);
    } else {
      OrderSame(base, s, s');
    }
  }

  lemma ReleaseOrder(base: map<int, int>, s: Sys, i: int, t: int)
    requires Inv(base, s) && t != NOBODY
    ensures FirstCome(base, Next(s, ReleaseIt(i, t)))
  {
    hide FirstCome, InOrder, Sorted, Distinct;
    var x, s' := MutexOf(s, i), Next(s, ReleaseIt(i, t));
    var o := MutexOf(s', i).owner;
    assert MutexOk(base, s.prio, x);
    if x.owner == t && x.hold == 1 && x.waiters != [] {
      assert Del(x.waiters, o) == x.waiters[1..];
    } else {
      DelAbsent(x.waiters, o);
    }
    OrderDel(base, s, s', i, o);
  }

  lemma StepOrder(base: map<int, int>, s: Sys, step: Step)
    requires Inv(base, s) && Enabled(s, step)
    ensures FirstCome(base, Next(s, step))
  {
    hide Inv, FirstCome;
    match step
    case TakeIt(i, t, time) => TakeOrder(base, s, i, t, time);
    case ReleaseIt(i, t) => ReleaseOrder(base, s, i, t);
    case Expire(i, t) => ExpireOrder(base, s, i, t);
  }

  lemma ExpireOrder(base: map<int, int>, s: Sys, i: int, t: int)
    requires Inv(base, s)
    ensures FirstCome(base, Next(s, Expire(i, t)))
  {
    OrderDel(base, s, Next(s, Expire(i, t)), i, t);
  }

  /** Waiting threads run at their own priorities, so they are inserted by these. */
  lemma WaiterKeys(base: map<int, int>, s: Sys, i: int, t: int, time: int)
    requires Boosted(base, s) && Enabled(s, TakeIt(i, t, time)) && time != 0
    requires MutexOf(s, i).owner != NOBODY && MutexOf(s, i).owner != t
    ensures Sorted(MutexOf(s, i).waiters, base)
    ensures MutexOf(Next(s, TakeIt(i, t, time)), i).waiters == Insert(MutexOf(s, i).waiters, base, t)
  {
    hide Sorted, Distinct;
    var x, s' := MutexOf(s, i), Next(s, TakeIt(i, t, time));
    assert MutexOk(base, s.prio, x) && !Waiting(s, i, t);
    AtBase(base, s, i, t);
    forall w | w in x.waiters ensures At(s'.prio, w) == At(base, w) { WaiterAtBase(base, s, i, w); }
    InsertFrame(x.waiters, s'.prio, base, t);
  }

  /** Every step keeps the invariant. */
  lemma StepInv(base: map<int, int>, s: Sys, step: Step)
    requires Inv(base, s) && Enabled(s, step)
    ensures Inv(base, Next(s, step))
  {
    StepBoosted(base, s, step);
    StepOrder(base, s, step);
  }

  // ---- Runs ----

  ghost predicate Possible(s: Sys, steps: seq<Step>)
    decreases |steps|
  {
    steps == [] || (Enabled(s, steps[0]) && Possible(Next(s, steps[0]), steps[1..]))
  }

  function After(s: Sys, steps: seq<Step>): Sys
    decreases |steps|
  {
    if steps == [] then s else After(Next(s, steps[0]), steps[1..])
  }

  /** From the initialisation on, in every run that keeps the discipline. */
  lemma Inherited(base: map<int, int>, steps: seq<Step>)
    requires Possible(Sys(base, map[], map[]), steps)
    ensures Inv(base, After(Sys(base, map[], map[]), steps))
  {
    EmptySorted(base);
    assert Inv(base, Sys(base, map[], map[]));
    RunInv(base, Sys(base, map[], map[]), steps);
  }

  lemma {:induction false} RunInv(base: map<int, int>, s: Sys, steps: seq<Step>)
    requires Inv(base, s) && Possible(s, steps)
    ensures Inv(base, After(s, steps))
    decreases |steps|
  {
    if steps != [] {
      StepInv(base, s, steps[0]);
      RunInv(base, Next(s, steps[0]), steps[1..]);
    }
  }

  // ---- Where it ends ----

  /** With RT_IPC_FLAG_FIFO the new owner is not boosted: it is as urgent as the threads that still wait
      exactly if the head of the list was the most urgent of it. */
  lemma HandOff(prio: map<int, int>, x: Mutex, t: int)
    requires x.owner == t && x.hold == 1 && x.waiters != [] && Distinct(x.waiters) && t !in x.waiters
    ensures var (p, y, o) := Release(prio, x, t);
            y.owner == x.waiters[0] &&
            ((forall w :: w in y.waiters ==> At(p, y.owner) <= At(p, w)) <==>
             (forall w :: w in x.waiters ==> At(prio, x.waiters[0]) <= At(prio, w)))
  {
    PopList(x.waiters);
    var (p, y, o) := Release(prio, x, t);
    assert forall w :: w in x.waiters ==> At(p, w) == At(prio, w);
    assert forall w :: w in x.waiters ==> w in y.waiters || w == x.waiters[0];
    assert x.waiters[0] in x.waiters;
  }

  /** ... which can fail: 0 owns the mutex, 1 and then the more urgent 2 wait for it. */
  lemma FifoHandOffFails()
    ensures var prio := map[0 := 10, 1 := 9, 2 := 3];
            var a := Take(Fifo, prio, Fresh(), 0, -1);
            var b := Take(Fifo, a.0, a.1, 1, -1);
            var c := Take(Fifo, b.0, b.1, 2, -1);
            var d := Release(c.0, c.1, 0);
            d.1.owner == 1 && d.1.waiters == [2] && At(d.0, 1) == 9 && At(d.0, 2) == 3
  {
    var prio := map[0 := 10, 1 := 9, 2 := 3];
    var a := Take(Fifo, prio, Fresh(), 0, -1);
    var b := Take(Fifo, a.0, a.1, 1, -1);
    assert b.1.waiters == [1];
    var c := Take(Fifo, b.0, b.1, 2, -1);
    assert c.1.waiters == [1, 2];
  }

  /** A thread that takes a second mutex while it is boosted keeps the boost for good: 0 takes mutex 0,
      is boosted by 1, takes mutex 1, and releases both; it owns nothing and still runs at priority 5. */
  lemma SecondMutexKeepsBoost()
    ensures var s0 := Sys(map[0 := 10, 1 := 5], map[], map[]);
            var steps := [TakeIt(0, 0, -1), TakeIt(0, 1, -1), TakeIt(1, 0, -1), ReleaseIt(0, 0), ReleaseIt(1, 0)];
            var s := After(s0, steps);
            At(s.prio, 0) == 5 && !Owns(s, 0)
  {
    var s0 := Sys(map[0 := 10, 1 := 5], map[], map[]);
    var s1 := Next(s0, TakeIt(0, 0, -1));
    var s2 := Next(s1, TakeIt(0, 1, -1));
    var s3 := Next(s2, TakeIt(1, 0, -1));
    var s4 := Next(s3, ReleaseIt(0, 0));
    var s5 := Next(s4, ReleaseIt(1, 0));
    assert s5 == After(s4, [ReleaseIt(1, 0)]);
    assert s5 == After(s3, [ReleaseIt(0, 0), ReleaseIt(1, 0)]);
    assert s5 == After(s2, [TakeIt(1, 0, -1), ReleaseIt(0, 0), ReleaseIt(1, 0)]);
    assert s5 == After(s1, [TakeIt(0, 1, -1), TakeIt(1, 0, -1), ReleaseIt(0, 0), ReleaseIt(1, 0)]);
    assert MutexOf(s5, 0).owner == 1 && MutexOf(s5, 1).owner == NOBODY;
  }

  /** Taking a free mutex keeps its invariant exactly if the thread runs at its own priority. */
  lemma TakeFreeExact(base: map<int, int>, prio: map<int, int>, x: Mutex, t: int, time: int)
    requires MutexOk(base, prio, x) && x.owner == NOBODY && t != NOBODY
    ensures var (p, y, o) := Take(Prio, prio, x, t, time);
            MutexOk(base, p, y) <==> At(prio, t) == At(base, t)
  {
  }

  /** In this run t never gives mutex i up. */
  ghost predicate Keeps(s: Sys, steps: seq<Step>, i: int, t: int)
    decreases |steps|
  {
    && MutexOf(s, i).owner == t
    && (steps != [] ==>
        !(steps[0] == ReleaseIt(i, t) && MutexOf(s, i).hold == 1) && Keeps(Next(s, steps[0]), steps[1..], i, t))
  }

  lemma {:induction false} KeepsOriginal(s: Sys, steps: seq<Step>, i: int, t: int)
    requires t != NOBODY && Keeps(s, steps, i, t)
    ensures MutexOf(After(s, steps), i).owner == t && MutexOf(After(s, steps), i).original == MutexOf(s, i).original
    decreases |steps|
  {
    if steps != [] {
      KeepsOriginal(Next(s, steps[0]), steps[1..], i, t);
    }
  }

  /** Thread t becomes the owner of mutex i by a step: it takes it free, or it waits and is handed it. */
  ghost predicate Becomes(s: Sys, step: Step, i: int, t: int) {
    MutexOf(s, i).owner != t && MutexOf(Next(s, step), i).owner == t
  }

  /** A step by which a thread becomes an owner saves the priority that it has, and does not change it. */
  lemma Saves(s: Sys, step: Step, i: int, t: int)
    requires t != NOBODY && Becomes(s, step, i, t)
    ensures At(Next(s, step).prio, t) == At(s.prio, t) == MutexOf(Next(s, step), i).original
  {
  }

  /** Whatever happens while a thread holds a mutex, also with other mutexes, and however it got it: the last
      release leaves it at the priority it had when it became the owner; so at its own priority if and only
      if it was at that then. */
  lemma ReleaseRestores(base: map<int, int>, s: Sys, step: Step, i: int, t: int, steps: seq<Step>)
    requires t != NOBODY && Becomes(s, step, i, t) && Keeps(Next(s, step), steps, i, t)
    requires MutexOf(After(Next(s, step), steps), i).hold == 1
    ensures var s' := Next(After(Next(s, step), steps), ReleaseIt(i, t));
            At(s'.prio, t) == At(s.prio, t) && (At(s'.prio, t) == At(base, t) <==> At(s.prio, t) == At(base, t))
  {
    Saves(s, step, i, t);
    KeepsOriginal(Next(s, step), steps, i, t);
  }

  /** In this run t owns no mutex before the end. */
  ghost predicate Without(s: Sys, steps: seq<Step>, t: int)
    decreases |steps|
  {
    steps != [] ==> !Owns(s, t) && Without(Next(s, steps[0]), steps[1..], t)
  }

  /** Until then its priority stays, from the call of take on. */
  lemma {:induction false} WaitsUnchanged(s: Sys, steps: seq<Step>, t: int)
    requires t != NOBODY && Without(s, steps, t)
    ensures At(After(s, steps).prio, t) == At(s.prio, t)
    decreases |steps|
  {
    if steps != [] {
      assert MutexOf(s, steps[0].i).owner != t;
      WaitsUnchanged(Next(s, steps[0]), steps[1..], t);
    }
  }

  /** A thread can also be boosted while it waits, and then keeps the boost for good: 1 owns mutex 1, waits for
      mutex 0 at its own priority 10, is boosted by 2, becomes the owner of mutex 0, and releases both. */
  lemma HandOffKeepsBoost()
    ensures var s0 := Sys(map[0 := 10, 1 := 10, 2 := 5], map[], map[]);
            var waits := After(s0, [TakeIt(0, 0, -1), TakeIt(1, 1, -1), TakeIt(0, 1, -1)]);
            var s := After(waits, [TakeIt(1, 2, -1), ReleaseIt(0, 0), ReleaseIt(1, 1), ReleaseIt(0, 1)]);
            MutexOf(waits, 0).waiters == [1] && At(waits.prio, 1) == 10 && At(s.prio, 1) == 5 && !Owns(s, 1)
  {
    var s0 := Sys(map[0 := 10, 1 := 10, 2 := 5], map[], map[]);
    var s1 := Next(s0, TakeIt(0, 0, -1));
    var s2 := Next(s1, TakeIt(1, 1, -1));
    var s3 := Next(s2, TakeIt(0, 1, -1));
    var s4 := Next(s3, TakeIt(1, 2, -1));
    var s5 := Next(s4, ReleaseIt(0, 0));
    var s6 := Next(s5, ReleaseIt(1, 1));
    var s7 := Next(s6, ReleaseIt(0, 1));
    assert s3 == After(s2, [TakeIt(0, 1, -1)]) == After(s1, [TakeIt(1, 1, -1), TakeIt(0, 1, -1)]);
    assert MutexOf(s3, 0).waiters == [1] && MutexOf(s4, 1).waiters == [2];
    assert At(s4.prio, 1) == 5 && MutexOf(s5, 0).original == 5;
    assert s7 == After(s6, [ReleaseIt(0, 1)]) == After(s5, [ReleaseIt(1, 1), ReleaseIt(0, 1)]);
    assert s7 == After(s4, [ReleaseIt(0, 0), ReleaseIt(1, 1), ReleaseIt(0, 1)]);
    assert MutexOf(s7, 0).owner == NOBODY && MutexOf(s7, 1).owner == 2;
  }

  /** The thread that owns mutex j is as urgent as its waiters. */
  ghost predicate Covers(s: Sys, j: int, t: int) {
    MutexOf(s, j).owner == t ==> forall w :: w in MutexOf(s, j).waiters ==> At(s.prio, t) <= At(s.prio, w)
  }

  /** The priority p would do for them. */
  ghost predicate Suffices(s: Sys, j: int, t: int, p: int) {
    MutexOf(s, j).owner == t ==> forall w :: w in MutexOf(s, j).waiters ==> p <= At(s.prio, w)
  }

  /** The last release of a mutex leaves its owner as urgent as the waiters of its other mutexes if and only
      if the priority it had when it took this one is that urgent. */
  lemma InnerRelease(s: Sys, i: int, t: int)
    requires t != NOBODY && MutexOf(s, i).owner == t && MutexOf(s, i).hold == 1 && forall j :: !Waiting(s, j, t)
    ensures (forall j :: j != i ==> Covers(Next(s, ReleaseIt(i, t)), j, t)) <==>
            (forall j :: j != i ==> Suffices(s, j, t, MutexOf(s, i).original))
  {
    var s' := Next(s, ReleaseIt(i, t));
    assert At(s'.prio, t) == MutexOf(s, i).original;
    forall j | j != i ensures Covers(s', j, t) <==> Suffices(s, j, t, MutexOf(s, i).original) {
      assert !Waiting(s, j, t) && MutexOf(s', j) == MutexOf(s, j);
    }
  }

  /** ... which can fail: 0 takes the mutexes 0 and 1 at its own priority 10, 1 waits for mutex 0 with
      priority 5, and 0 releases mutex 1. */
  lemma InnerReleaseDropsBoost()
    ensures var s0 := Sys(map[0 := 10, 1 := 5], map[], map[]);
            var s := After(s0, [TakeIt(0, 0, -1), TakeIt(1, 0, -1), TakeIt(0, 1, -1), ReleaseIt(1, 0)]);
            MutexOf(s, 0).owner == 0 && MutexOf(s, 0).waiters == [1] && At(s.prio, 0) == 10 && At(s.prio, 1) == 5
  {
    var s0 := Sys(map[0 := 10, 1 := 5], map[], map[]);
    var s1 := Next(s0, TakeIt(0, 0, -1));
    var s2 := Next(s1, TakeIt(1, 0, -1));
    var s3 := Next(s2, TakeIt(0, 1, -1));
    var s4 := Next(s3, ReleaseIt(1, 0));
    assert MutexOf(s3, 0).waiters == [1] && At(s3.prio, 0) == 5;
    assert s4 == After(s3, [ReleaseIt(1, 0)]);
    assert s4 == After(s2, [TakeIt(0, 1, -1), ReleaseIt(1, 0)]);
    assert s4 == After(s1, [TakeIt(1, 0, -1), TakeIt(0, 1, -1), ReleaseIt(1, 0)]);
  }

  // ---- Nesting and the width of hold ----

  /** Thread t takes the mutex n times, and then releases it m times. */
  function Taken(prio: map<int, int>, t: int, n: nat): Mutex {
    if n == 0 then Fresh() else Take(Prio, prio, Taken(prio, t, n - 1), t, 0).1
  }

  function Released(prio: map<int, int>, t: int, n: nat, m: nat): Mutex {
    if m == 0 then Taken(prio, t, n) else Release(prio, Released(prio, t, n, m - 1), t).1
  }

  lemma {:induction false} TakenHold(prio: map<int, int>, t: int, n: nat)
    requires t != NOBODY && n > 0
    ensures Taken(prio, t, n) == Mutex(0, t, At(prio, t), n % 256, [])
  {
    if n > 1 {
      TakenHold(prio, t, n - 1);
      OneMore(n - 1);
    }
  }

  lemma OneMore(n: nat)
    ensures (n % 256 + 1) % 256 == (n + 1) % 256
  {
  }

  lemma {:induction false} ReleasedHold(prio: map<int, int>, t: int, n: nat, m: nat)
    requires t != NOBODY && 0 < n && m < n && (m == 0 || n <= 256)
    ensures Released(prio, t, n, m) == Mutex(0, t, At(prio, t), (n - m) % 256, [])
  {
    if m == 0 { TakenHold(prio, t, n); } else { ReleasedHold(prio, t, n, m - 1); }
  }

  /** A mutex stays with the thread that took it n times until the n-th release exactly if n is at most
      256: hold has eight bits. */
  lemma NestingDepth(prio: map<int, int>, t: int, n: nat)
    requires t != NOBODY && n > 0
    ensures (forall m :: 0 <= m < n ==> Released(prio, t, n, m).owner == t) <==> n <= 256
    ensures n <= 256 ==> Released(prio, t, n, n) == Fresh()
  {
    if n <= 256 {
      forall m | 0 <= m < n ensures Released(prio, t, n, m).owner == t { ReleasedHold(prio, t, n, m); }
      ReleasedHold(prio, t, n, n - 1);
    } else {
      EarlyRelease(prio, t, n, n % 256);
    }
  }

  /** With more than 256 nested takes some release before the last one frees the mutex. */
  lemma EarlyRelease(prio: map<int, int>, t: int, n: nat, r: nat)
    requires t != NOBODY && n > 256 && r == n % 256
    ensures exists m :: 0 <= m < n && Released(prio, t, n, m).owner != t
  {
    var k := if r == 0 then 256 else r;
    CountDown(prio, t, n, k, k - 1);
    assert Released(prio, t, n, k).owner == NOBODY;
  }

  lemma CountOneDown(h: nat)
    requires 2 <= h <= 256
    ensures h % 256 != 1 && (h % 256 - 1) % 256 == h - 1
  {
  }

  lemma {:induction false} CountDown(prio: map<int, int>, t: int, n: nat, k: nat, m: nat)
    requires t != NOBODY && n > 256 && k == (if n % 256 == 0 then 256 else n % 256) && m < k
    ensures Released(prio, t, n, m) == Mutex(0, t, At(prio, t), (k - m) % 256, [])
  {
    if m == 0 {
      TakenHold(prio, t, n);
      assert k % 256 == n % 256;
    } else {
      CountDown(prio, t, n, k, m - 1);
      CountOneDown(k - m + 1);
    }
  }
}

/** The mutex object; the current priorities are those of the threads. */
module MutexObject {
  import opened RtList
  import opened SortedList
  import opened IpcList
  import opened MutexSpec

  class Threads {
    var current: map<int, int>      // current_priority

    /** rt_thread_control with RT_THREAD_CTRL_CHANGE_PRIORITY, as far as the priority goes. */
    method ChangePriority(t: int, priority: int)
      modifies this
      ensures current == old(current)[t := priority]
    {
      current := current[t := priority];
    }
  }

  class RtMutex {
    const flag: Flag
    const threads: Threads
    var value: int
    var owner: int
    var original: int               // original_priority
    var hold: int
    var waiters: seq<int>           // parent.suspend_thread

    ghost function Abs(): Mutex
      reads this
    {
      Mutex(value, owner, original, hold, waiters)
    }

    ghost predicate Known(t: int)
      reads this, threads
    {
      t in threads.current && (owner != NOBODY ==> owner in threads.current) && (value <= 0 ==> owner != NOBODY) &&
      forall w :: w in waiters ==> w in threads.current
    }

    constructor (flag: Flag, threads: Threads)
      ensures Abs() == Fresh() && this.flag == flag && this.threads == threads
    {
      this.flag, this.threads := flag, threads;
      value, owner, original, hold, waiters := 1, NOBODY, NONE, 0, [];
    }

    /** rt_mutex_take. */
    method TakeMutex(thread: int, time: int) returns (r: Outcome)
      requires Known(thread) && thread != NOBODY && 0 <= hold <= MAX_HOLD
      modifies this, threads
      ensures (threads.current, Abs(), r) == Take(flag, old(threads.current), old(Abs()), thread, time)
    {
      if owner == thread {
        hold := (hold + 1) % 256;
        return Return(EOK);
      }
      if value > 0 {
        value := value - 1;
        owner := thread;
        original := threads.current[thread];
        hold := (hold + 1) % 256;
        return Return(EOK);
      }
      if time == 0 { return Return(ETIMEOUT); }
      if threads.current[thread] < threads.current[owner] {
        threads.ChangePriority(owner, threads.current[thread]);
      }
      waiters := Suspend(flag, threads.current, waiters, thread);
      return Wait;
    }

    /** rt_mutex_release. */
    method ReleaseMutex(thread: int) returns (r: Outcome)
      requires Known(thread) && thread != NOBODY && 0 <= hold <= MAX_HOLD
      modifies this, threads
      ensures (threads.current, Abs(), r) == Release(old(threads.current), old(Abs()), thread)
    {
      if thread != owner { return Return(ERROR); }
      hold := (hold - 1) % 256;
      if hold == 0 {
        if original != threads.current[owner] {
          threads.ChangePriority(owner, original);
        }
        if waiters != [] {
          owner := waiters[0];
          original := threads.current[owner];
          hold := hold + 1;
          waiters := waiters[1..];
        } else {
          value := value + 1;
          owner := NOBODY;
          original := NONE;
        }
      }
      return Return(EOK);
    }
  }
}
