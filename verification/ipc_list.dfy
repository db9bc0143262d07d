/** The list of threads that wait for an IPC object. */
module IpcList {
  import opened RtList
  import opened SortedList

  // Error codes, as the functions return them.
  const EOK := 0
  const ERROR := -1
  const ETIMEOUT := -2
  const EFULL := -3

  /** RT_IPC_FLAG_FIFO and RT_IPC_FLAG_PRIO. */
  datatype Flag = Fifo | Prio

  /** A waiting list after thread t joined it: at the end, or behind the threads that are at least as
      urgent, a smaller number being more urgent. */
  function Queued(flag: Flag, prio: map<int, int>, q: seq<int>, t: int): seq<int> {
    if flag.Fifo? then q + [t] else Insert(q, prio, t)
  }

  lemma QueuedOk(flag: Flag, prio: map<int, int>, q: seq<int>, t: int)
    requires Distinct(q) && t !in q
    ensures var r := Queued(flag, prio, q, t);
            Distinct(r) && r != [] && (forall u :: u in r <==> u in q || u == t) && |r| == |q| + 1
    ensures flag.Prio? && Sorted(q, prio) ==> Sorted(Queued(flag, prio, q, t), prio)
  {
    if flag.Prio? {
      InsertPlace(q, prio, t);
      var k := Place(q, prio, t);
      WithElements(q, k, t);
      WithDistinct(q, k, t);
      if Sorted(q, prio) { InsertOk(q, prio, t); }
    } else {
      assert With(q, |q|, t) == q + [t];
      WithElements(q, |q|, t);
      WithDistinct(q, |q|, t);
    }
  }

  lemma QueuedElements(flag: Flag, prio: map<int, int>, q: seq<int>, t: int)
    ensures forall u :: u in Queued(flag, prio, q, t) <==> u in q || u == t
  {
    if flag.Prio? { InsertElements(q, prio, t); }
  }

  /** How many waiting threads precede a new one. */
  function Place(q: seq<int>, prio: map<int, int>, t: int): (k: nat)
    ensures k <= |q|
  {
    if q == [] || At(prio, q[0]) > At(prio, t) then 0 else 1 + Place(q[1..], prio, t)
  }

  lemma {:induction false} InsertPlace(q: seq<int>, prio: map<int, int>, t: int)
    ensures Insert(q, prio, t) == With(q, Place(q, prio, t), t)
    ensures forall i :: 0 <= i < Place(q, prio, t) ==> At(prio, q[i]) <= At(prio, t)
    ensures Place(q, prio, t) < |q| ==> At(prio, q[Place(q, prio, t)]) > At(prio, t)
  {
    if q != [] && At(prio, q[0]) <= At(prio, t) {
      InsertPlace(q[1..], prio, t);
      WithStep(q, Place(q, prio, t), t);
    }
  }

  lemma WithDistinct(q: seq<int>, k: nat, t: int)
    requires Distinct(q) && t !in q && k <= |q|
    ensures Distinct(With(q, k, t))
  {
    var w := With(q, k, t);
    forall i, j | 0 <= i < |w| && 0 <= j < |w| && i != j ensures w[i] != w[j] {
      assert i < k ==> w[i] == q[i];
      assert i > k ==> w[i] == q[i - 1];
      assert j < k ==> w[j] == q[j];
      assert j > k ==> w[j] == q[j - 1];
    }
  }

  /** rt_ipc_list_suspend: a node is inserted before the first thread that is less urgent. */
  method Suspend(flag: Flag, prio: map<int, int>, q: seq<int>, t: int) returns (r: seq<int>)
    requires t in prio && forall u :: u in q ==> u in prio
    ensures r == Queued(flag, prio, q, t)
  {
    match flag
    case Fifo =>
      r := q + [t];
    case Prio =>
      var n := 0;
      while n < |q|
        invariant 0 <= n <= |q| && n <= Place(q, prio, t)
        invariant Place(q, prio, t) == n + Place(q[n..], prio, t)
      {
        if prio[t] < prio[q[n]] {
          break;
        }
        assert q[n..][1..] == q[n + 1..];
        n := n + 1;
      }
      InsertPlace(q, prio, t);
      r := With(q, n, t);
  }

  // ---- Sets of woken threads ----

  lemma CountOne(s: set<int>, u: set<int>, t: int)
    requires forall x :: x != t ==> (x in s <==> x in u)
    ensures |u| == |s| - (if t in s then 1 else 0) + (if t in u then 1 else 0)
  {
    forall x ensures x in u - {t} <==> x in s - {t} {}
    assert u - {t} == s - {t};
    if t in s { assert s == (s - {t}) + {t}; } else { assert s == s - {t}; }
    if t in u { assert u == (u - {t}) + {t}; } else { assert u == u - {t}; }
  }

  lemma Member(s: set<int>) returns (t: int)
    requires |s| > 0
    ensures t in s
  {
    if forall x :: x !in s { NoMember(s); }
    t :| t in s;
  }

  lemma NoMember(s: set<int>)
    requires forall x :: x !in s
    ensures |s| == 0
  {
    forall x ensures x in s <==> x in {} {}
    assert s == {};
  }

  lemma PopList(q: seq<int>)
    requires Distinct(q) && q != []
    ensures Distinct(q[1..]) && forall t :: t in q[1..] <==> t in q && t != q[0]
  {
    HeadDistinct(q);
    assert forall t :: t in q <==> t == q[0] || t in q[1..];
  }
}
