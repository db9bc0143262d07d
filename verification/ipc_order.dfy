/** Who is the next to be woken, said by the order in which threads came to wait and by their priorities. */
module IpcOrder {
  import opened RtList
  import opened SortedList
  import opened IpcList

  /** Of the threads a, in the order of their arrival, t is the next: the earliest, or with priorities the most
      urgent, and among those the earliest. */
  ghost predicate IsNext(flag: Flag, prio: map<int, int>, a: seq<int>, t: int) {
    exists i :: 0 <= i < |a| && a[i] == t && forall j :: 0 <= j < |a| && j != i ==> Precedes(flag, prio, a, i, j)
  }

  ghost predicate Precedes(flag: Flag, prio: map<int, int>, a: seq<int>, i: int, j: int)
    requires 0 <= i < |a| && 0 <= j < |a|
  {
    match flag
    case Fifo => i < j
    case Prio => At(prio, a[i]) < At(prio, a[j]) || (At(prio, a[i]) == At(prio, a[j]) && i < j)
  }

  /** There is only one next. */
  lemma NextUnique(flag: Flag, prio: map<int, int>, a: seq<int>, t: int, u: int)
    requires IsNext(flag, prio, a, t) && IsNext(flag, prio, a, u)
    ensures t == u
  {
    var i :| 0 <= i < |a| && a[i] == t && forall j :: 0 <= j < |a| && j != i ==> Precedes(flag, prio, a, i, j);
    var k :| 0 <= k < |a| && a[k] == u && forall j :: 0 <= j < |a| && j != k ==> Precedes(flag, prio, a, k, j);
    assert i != k ==> Precedes(flag, prio, a, i, k) && Precedes(flag, prio, a, k, i);
  }

  /** The waiting list q of the threads that came in the order a. */
  ghost predicate Ordered(flag: Flag, prio: map<int, int>, a: seq<int>, q: seq<int>) {
    && Distinct(a) && Distinct(q) && (forall t :: t in a <==> t in q)
    && match flag
       case Fifo => q == a
       case Prio => Sorted(q, prio) && forall p :: Class(q, prio, p) == Class(a, prio, p)
  }

  lemma OrderedEmpty(flag: Flag, prio: map<int, int>)
    ensures Ordered(flag, prio, [], [])
  {
  }

  lemma OrderedJoin(flag: Flag, prio: map<int, int>, a: seq<int>, q: seq<int>, t: int)
    requires Ordered(flag, prio, a, q) && t !in a
    ensures Ordered(flag, prio, a + [t], Queued(flag, prio, q, t))
  {
    hide Sorted, Distinct, Class, Insert;
    QueuedOk(flag, prio, q, t);
    QueuedOk(Fifo, prio, a, t);
    if flag.Prio? {
      forall p ensures Class(Insert(q, prio, t), prio, p) == Class(a + [t], prio, p) {
        ClassInsert(q, prio, t, p);
        ClassAppend(a, prio, t, p);
      }
    }
  }

  lemma OrderedLeave(flag: Flag, prio: map<int, int>, a: seq<int>, q: seq<int>, t: int)
    requires Ordered(flag, prio, a, q)
    ensures Ordered(flag, prio, Del(a, t), Del(q, t))
  {
    hide Sorted, Distinct, Class;
    DelElements(a, t);
    DelElements(q, t);
    if flag.Prio? {
      DelOk(q, prio, t);
      forall p ensures Class(Del(q, t), prio, p) == Class(Del(a, t), prio, p) {
        ClassDel(q, prio, t, p);
        ClassDel(a, prio, t, p);
      }
    }
  }

  /** The first thread of the class of a priority is the earliest with it. */
  lemma {:induction false} ClassFirst(a: seq<int>, d: map<int, int>, p: int, i: nat, j: nat)
    requires Distinct(a) && i < |a| && j < |a| && At(d, a[i]) == p && At(d, a[j]) == p
    requires Class(a, d, p) != [] && Class(a, d, p)[0] == a[i]
    ensures i <= j
    decreases |a|
  {
    if At(d, a[0]) != p {
      PopList(a);
      ClassFirst(a[1..], d, p, i - 1, j - 1);
    }
  }

  /** The head of the waiting list is the next. */
  lemma HeadIsNext(flag: Flag, prio: map<int, int>, a: seq<int>, q: seq<int>)
    requires Ordered(flag, prio, a, q) && q != []
    ensures IsNext(flag, prio, a, q[0])
  {
    var t := q[0];
    assert t in a;
    var i :| 0 <= i < |a| && a[i] == t;
    forall j | 0 <= j < |a| && j != i ensures Precedes(flag, prio, a, i, j) {
      if flag.Prio? {
        HeadLeast(q, prio);
        assert a[j] in q;
        if At(prio, a[j]) == At(prio, t) {
          assert Class(q, prio, At(prio, t))[0] == t;
          ClassFirst(a, prio, At(prio, t), i, j);
        }
      }
    }
  }

  /** Taking the head is taking it out. */
  lemma PopIsDel(q: seq<int>)
    requires q != []
    ensures Del(q, q[0]) == q[1..]
  {
  }

  // ---- Why a wait ends ----

  /** Why a thread was woken. */
  datatype Cause = Unknown | Served | TimedOut | WasReset

  function CodeOf(c: Cause): int {
    match c case Unknown => EOK case Served => EOK case TimedOut => ETIMEOUT case WasReset => ERROR
  }

  // ---- The order of arrival over a step ----

  /** The threads that are still blocked, in their order. */
  function Kept(a: seq<int>, blocked: set<int>): seq<int> {
    if a == [] then [] else if a[0] in blocked then [a[0]] + Kept(a[1..], blocked) else Kept(a[1..], blocked)
  }

  lemma {:induction false} KeptAll(a: seq<int>, blocked: set<int>)
    requires forall t :: t in a ==> t in blocked
    ensures Kept(a, blocked) == a
  {
    if a != [] {
      var h := a[0];
      assert h in a;
      assert h in blocked;
      KeptAll(a[1..], blocked);
    }
  }

  lemma {:induction false} KeptNone(a: seq<int>, blocked: set<int>)
    requires forall t :: t in a ==> t !in blocked
    ensures Kept(a, blocked) == []
  {
    if a != [] {
      var h := a[0];
      assert h in a;
      assert h !in blocked;
      KeptNone(a[1..], blocked);
    }
  }

  lemma {:induction false} KeptDel(a: seq<int>, blocked: set<int>, t: int)
    requires Distinct(a) && forall u :: u in a ==> (u in blocked <==> u != t)
    ensures Kept(a, blocked) == Del(a, t)
  {
    if a != [] {
      PopList(a);
      if a[0] == t { KeptAll(a[1..], blocked); } else { KeptDel(a[1..], blocked, t); }
    }
  }

  /** What becomes of a waiting list in one step: one thread joins, one leaves, none, or all. */
  ghost predicate ListStep(flag: Flag, prio: map<int, int>, q: seq<int>, now: seq<int>, q': seq<int>) {
    || q' == q
    || (now != [] && q' == Queued(flag, prio, q, now[0]))
    || (exists t :: q' == Del(q, t))
    || q' == []
  }


  lemma OrderedStep(flag: Flag, prio: map<int, int>, a: seq<int>, q: seq<int>, now: seq<int>, blocked: set<int>,
                    q': seq<int>)
    requires Ordered(flag, prio, a, q) && |now| <= 1 && forall t :: t in now ==> t !in a
    requires forall t :: t in blocked <==> t in q'
    requires ListStep(flag, prio, q, now, q')
    ensures Ordered(flag, prio, Kept(a, blocked) + Kept(now, blocked), q')
  {
    hide Sorted, Class, Insert, Queued;
    if q' == [] {
      KeptNone(a, blocked);
      KeptNone(now, blocked);
      OrderedEmpty(flag, prio);
    } else if q' == q {
      KeptAll(a, blocked);
      KeptNone(now, blocked);
      assert a + [] == a;
    } else if now != [] && q' == Queued(flag, prio, q, now[0]) {
      assert now == [now[0]] && now[0] in now;
      QueuedElements(flag, prio, q, now[0]);
      KeptAll(a, blocked);
      KeptAll(now, blocked);
      OrderedJoin(flag, prio, a, q, now[0]);
    } else {
      var t :| q' == Del(q, t);
      DelElements(q, t);
      KeptDel(a, blocked, t);
      KeptNone(now, blocked);
      OrderedLeave(flag, prio, a, q, t);
      assert Del(a, t) + [] == Del(a, t);
    }
  }
}
