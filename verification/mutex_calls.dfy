/** What taking and releasing a mutex return, what they do to priorities, and who gets the mutex next. */
module MutexCalls {
  import opened RtList
  import opened SortedList
  import opened IpcList
  import opened IpcOrder
  import opened MutexSpec

  /** A take returns EOK if and only if the caller owns the mutex afterwards; ETIMEOUT if and only if another thread has
      it and the caller may not wait; and then it waits if and only if it may. */
  lemma TakeReturns(flag: Flag, prio: map<int, int>, x: Mutex, t: int, time: int)
    requires t != NOBODY && (x.value > 0 <==> x.owner == NOBODY)
    ensures var (p, y, o) := Take(flag, prio, x, t, time);
            && (o == Return(EOK) <==> y.owner == t)
            && (o == Return(EOK) <==> x.owner == t || x.owner == NOBODY)
            && (o == Return(ETIMEOUT) <==> x.owner != t && x.owner != NOBODY && time == 0)
            && (o == Wait <==> x.owner != t && x.owner != NOBODY && time != 0)
            && (o == Wait <==> y.waiters != x.waiters)
            && (o == Wait ==> forall u :: u in y.waiters <==> u in x.waiters || u == t)
            && (o != Return(EOK) ==> y.owner == x.owner && y.hold == x.hold)
            && (o == Return(ETIMEOUT) ==> y == x && p == prio)
            && (o == Return(EOK) ==> y.hold == (x.hold + 1) % 256 && y.waiters == x.waiters && p == prio)
  {
    if x.owner != t && x.owner != NOBODY && time != 0 {
      var boosted := Take(flag, prio, x, t, time).0;
      QueuedElements(flag, boosted, x.waiters, t);
      QueuedLonger(flag, boosted, x.waiters, t);
    }
  }

  lemma QueuedLonger(flag: Flag, prio: map<int, int>, q: seq<int>, t: int)
    ensures |Queued(flag, prio, q, t)| == |q| + 1
  {
    if flag.Prio? { InsertPlace(q, prio, t); }
  }

  /** A waiting thread makes the owner as urgent as itself, and not more so; no other priority changes. */
  lemma TakeBoosts(flag: Flag, prio: map<int, int>, x: Mutex, t: int, time: int)
    requires t != NOBODY && (x.value > 0 <==> x.owner == NOBODY)
    ensures var (p, y, o) := Take(flag, prio, x, t, time);
            && (forall u :: u != x.owner || o != Wait ==> At(p, u) == At(prio, u))
            && (o == Wait ==>
                At(p, x.owner) == if At(prio, t) < At(prio, x.owner) then At(prio, t) else At(prio, x.owner))
  {
  }

  /** Only the owner may release.  The mutex stays with it but for the last release; then the first waiting thread has
      it, once, or nobody; and only the priority of the former owner changes, to what it had. */
  lemma ReleaseReturns(prio: map<int, int>, x: Mutex, t: int)
    requires t != NOBODY && 0 <= x.hold <= MAX_HOLD
    ensures var (p, y, o) := Release(prio, x, t);
            && (o == Return(EOK) <==> x.owner == t)
            && (o == Return(ERROR) <==> x.owner != t)
            && (o == Return(ERROR) ==> y == x && p == prio)
            && (o == Return(EOK) && x.hold > 1 ==> y == x.(hold := x.hold - 1) && p == prio)
            && (o == Return(EOK) && x.hold == 1 ==>
                && (forall u :: u != t ==> At(p, u) == At(prio, u)) && At(p, t) == x.original
                && (x.waiters == [] ==> y.owner == NOBODY && y.value == x.value + 1 && y.hold == 0 && y.waiters == [])
                && (x.waiters != [] ==>
                    y.owner == x.waiters[0] && y.value == x.value && y.hold == 1 && y.waiters == x.waiters[1..] &&
                    y.original == At(p, y.owner)))
  {
  }

  /** When its timer expires a thread waits no more; the owner, all priorities and the order of the others stay. */
  lemma ExpireLeaves(base: map<int, int>, s: Sys, i: int, t: int)
    requires Inv(base, s) && Enabled(s, Expire(i, t))
    ensures var s' := Next(s, Expire(i, t));
            && s'.prio == s.prio && !Waiting(s', i, t)
            && MutexOf(s', i).owner == MutexOf(s, i).owner && MutexOf(s', i).hold == MutexOf(s, i).hold
            && Subsequence(MutexOf(s', i).waiters, MutexOf(s, i).waiters)
            && (forall u :: Waiting(s', i, u) <==> Waiting(s, i, u) && u != t)
            && forall j :: j != i ==> MutexOf(s', j) == MutexOf(s, j)
  {
    assert MutexOk(base, s.prio, MutexOf(s, i));
    DelElements(MutexOf(s, i).waiters, t);
    SubDel(MutexOf(s, i).waiters, t);
  }

  // ---- Who gets it next ----

  lemma {:induction false} ClassCounts(s: seq<int>, d: map<int, int>, x: int)
    ensures multiset(Class(s, d, At(d, x)))[x] == multiset(s)[x]
    decreases |s|
  {
    if s != [] {
      assert s == [s[0]] + s[1..];
      ClassCounts(s[1..], d, x);
    }
  }

  lemma {:induction false} Once(q: seq<int>, x: int)
    requires Distinct(q)
    ensures multiset(q)[x] <= 1
    decreases |q|
  {
    if q != [] {
      assert q == [q[0]] + q[1..];
      PopList(q);
      Once(q[1..], x);
    }
  }

  lemma {:induction false} OnceEach(q: seq<int>)
    requires forall x :: multiset(q)[x] <= 1
    ensures Distinct(q)
    decreases |q|
  {
    if q != [] {
      assert q == [q[0]] + q[1..];
      forall x ensures multiset(q[1..])[x] <= 1 { assert multiset(q)[x] <= 1; }
      var h := q[0];
      assert multiset(q)[h] <= 1;
      OnceEach(q[1..]);
    }
  }

  /** The waiting list of a mutex in a reachable state is in order. */
  lemma WaitersOrdered(base: map<int, int>, s: Sys, i: int)
    requires Inv(base, s)
    ensures Ordered(Prio, base, ArrivalsOf(s, i), MutexOf(s, i).waiters)
  {
    var a, q := ArrivalsOf(s, i), MutexOf(s, i).waiters;
    assert MutexOk(base, s.prio, MutexOf(s, i)) && InOrder(base, a, q);
    hide Class, Inv, MutexOk;
    forall x ensures multiset(a)[x] == multiset(q)[x] && multiset(a)[x] <= 1 {
      ClassCounts(a, base, x);
      ClassCounts(q, base, x);
      Once(q, x);
    }
    OnceEach(a);
    forall t ensures t in a <==> t in q { assert t in multiset(a) <==> t in multiset(q); }
  }

  /** In every reachable state: by the last release the mutex goes to the most urgent waiting thread, and among those
      to the one that came first. */
  lemma NewOwnerIsNext(base: map<int, int>, s: Sys, i: int, t: int)
    requires Inv(base, s) && Enabled(s, ReleaseIt(i, t)) && MutexOf(s, i).owner == t && MutexOf(s, i).hold == 1
    requires MutexOf(s, i).waiters != []
    ensures IsNext(Prio, base, ArrivalsOf(s, i), MutexOf(Next(s, ReleaseIt(i, t)), i).owner)
  {
    WaitersOrdered(base, s, i);
    HeadIsNext(Prio, base, ArrivalsOf(s, i), MutexOf(s, i).waiters);
  }
}
