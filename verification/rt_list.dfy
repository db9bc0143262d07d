/** Circular doubly linked lists with a list head, as in rtservice.h.  Nodes are identified by
    integers; the two link fields of all nodes are two maps. */
module RtList {
  datatype Links = Links(next: map<int, int>, prev: map<int, int>)

  /** rt_list_init. */
  function Init(l: Links, n: int): Links { Links(l.next[n := n], l.prev[n := n]) }

  /** rt_list_insert_after. */
  function InsertAfter(l: Links, at: int, n: int): Links
    requires at in l.next
  {
    var p1 := l.prev[l.next[at] := n];
    var n1 := l.next[n := l.next[at]];
    Links(n1[at := n], p1[n := at])
  }

  /** rt_list_insert_before. */
  function InsertBefore(l: Links, at: int, n: int): Links
    requires at in l.prev
  {
    var n1 := l.next[l.prev[at] := n];
    var p1 := l.prev[n := l.prev[at]];
    Links(n1[n := at], p1[at := n])
  }

  /** Take a node out of its list, leaving its own links as they are. */
  function Unlink(l: Links, n: int): Links
    requires n in l.next && n in l.prev
  {
    Links(l.next[l.prev[n] := l.next[n]], l.prev[l.next[n] := l.prev[n]])
  }

  /** rt_list_remove. */
  function Remove(l: Links, n: int): Links
    requires n in l.next && n in l.prev
  {
    Init(Unlink(l, n), n)
  }

  ghost predicate Distinct(s: seq<int>) {
    forall i, j :: 0 <= i < |s| && 0 <= j < |s| && i != j ==> s[i] != s[j]
  }

  ghost predicate Linked(l: Links, a: int, b: int) {
    a in l.next && b in l.prev && l.next[a] == b && l.prev[b] == a
  }

  /** The node at position i of a circular list, with the head again at the end. */
  function Node(s: seq<int>, i: nat): int
    requires i <= |s| && s != []
  {
    if i < |s| then s[i] else s[0]
  }

  ghost predicate LinkedAt(l: Links, s: seq<int>, i: nat)
    requires i < |s|
  {
    Linked(l, Node(s, i), Node(s, i + 1))
  }

  /** The links of the nodes of s, head first, form the circular list s. */
  ghost predicate Ring(l: Links, s: seq<int>) {
    s != [] && Distinct(s) && forall i {:trigger LinkedAt(l, s, i)} :: 0 <= i < |s| ==> LinkedAt(l, s, i)
  }

  function Without<T>(s: seq<T>, k: nat): seq<T>
    requires k < |s|
  {
    s[..k] + s[k + 1..]
  }

  function With<T>(s: seq<T>, k: nat, x: T): seq<T>
    requires k <= |s|
  {
    s[..k] + [x] + s[k..]
  }

  /** Delete an element from a list. */
  function Del(s: seq<int>, x: int): seq<int> {
    if s == [] then [] else if s[0] == x then s[1..] else [s[0]] + Del(s[1..], x)
  }

  lemma {:induction false} DelWithout(s: seq<int>, k: nat)
    requires Distinct(s) && k < |s|
    ensures Del(s, s[k]) == Without(s, k)
    decreases k
  {
    if k > 0 {
      assert s[0] != s[k];
      DelWithout(s[1..], k - 1);
      assert [s[0]] + Without(s[1..], k - 1) == Without(s, k);
    }
  }

  lemma WithoutElements(s: seq<int>, k: nat)
    requires k < |s|
    ensures forall x :: x in s ==> x == s[k] || x in Without(s, k)
    ensures forall x :: x in Without(s, k) ==> x in s
    ensures Distinct(s) ==> s[k] !in Without(s, k)
  {
    forall x | x in s && x != s[k] ensures x in Without(s, k) {
      var i :| 0 <= i < |s| && s[i] == x;
      assert Without(s, k)[if i < k then i else i - 1] == x;
    }
  }

  lemma WithElements(s: seq<int>, k: nat, t: int)
    requires k <= |s|
    ensures forall u :: u in With(s, k, t) <==> u in s || u == t
  {
    var w := With(s, k, t);
    assert w[k] == t;
    forall u | u in s ensures u in w {
      var i :| 0 <= i < |s| && s[i] == u;
      assert w[if i < k then i else i + 1] == u;
    }
  }

  lemma RingInsertAfter(l: Links, s: seq<int>, k: nat, n: int)
    requires Ring(l, s) && k < |s| && n !in s
    ensures s[k] in l.next && Ring(InsertAfter(l, s[k], n), With(s, k + 1, n))
  {
    var t := With(s, k + 1, n);
    assert LinkedAt(l, s, k);
    var m := InsertAfter(l, s[k], n);
    forall i | 0 <= i < |t|
      ensures LinkedAt(m, t, i)
    {
      if i < k { assert LinkedAt(l, s, i); } else if i > k + 1 { assert LinkedAt(l, s, i - 1); }
    }
  }

  lemma RingInsertBefore(l: Links, s: seq<int>, k: nat, n: int)
    requires Ring(l, s) && 0 < k < |s| && n !in s
    ensures s[k] in l.prev && Ring(InsertBefore(l, s[k], n), With(s, k, n))
  {
    assert LinkedAt(l, s, k - 1);
    assert InsertBefore(l, s[k], n) == InsertAfter(l, s[k - 1], n);
    RingInsertAfter(l, s, k - 1, n);
  }

  lemma RingUnlink(l: Links, s: seq<int>, k: nat)
    requires Ring(l, s) && 0 < k < |s|
    ensures s[k] in l.next && s[k] in l.prev && Ring(Unlink(l, s[k]), Without(s, k))
  {
    var t := Without(s, k);
    assert LinkedAt(l, s, k - 1) && LinkedAt(l, s, k);
    var m := Unlink(l, s[k]);
    forall i | 0 <= i < |t|
      ensures LinkedAt(m, t, i)
    {
      if i < k - 1 { assert LinkedAt(l, s, i); } else if i >= k { assert LinkedAt(l, s, i + 1); }
    }
  }

  lemma RingRemove(l: Links, s: seq<int>, k: nat)
    requires Ring(l, s) && 0 < k < |s|
    ensures s[k] in l.next && s[k] in l.prev && Ring(Remove(l, s[k]), Without(s, k)) && s[k] !in Without(s, k)
  {
    RingUnlink(l, s, k);
    RingFrame(Unlink(l, s[k]), Remove(l, s[k]), Without(s, k));
  }

  /** A ring depends on the links of its own nodes only. */
  lemma RingFrame(l: Links, m: Links, s: seq<int>)
    requires Ring(l, s)
    requires forall x :: x in s && x in l.next ==> x in m.next && m.next[x] == l.next[x]
    requires forall x :: x in s && x in l.prev ==> x in m.prev && m.prev[x] == l.prev[x]
    ensures Ring(m, s)
  {
    forall i | 0 <= i < |s|
      ensures LinkedAt(m, s, i)
    {
      assert LinkedAt(l, s, i) && Node(s, i) in s && Node(s, i + 1) in s;
    }
  }

  /** The neighbours of a node of a ring. */
  lemma RingAt(l: Links, s: seq<int>, i: nat)
    requires Ring(l, s) && i < |s|
    ensures s[i] in l.next && s[i] in l.prev
    ensures l.next[s[i]] == Node(s, i + 1)
    ensures l.prev[s[i]] == if i == 0 then s[|s| - 1] else s[i - 1]
  {
    assert LinkedAt(l, s, i) && LinkedAt(l, s, if i == 0 then |s| - 1 else i - 1);
  }

  /** A node in a list of its own is unaffected by removal, and removing it changes nothing. */
  lemma RemoveLone(l: Links, n: int)
    requires n in l.next && n in l.prev && l.next[n] == n && l.prev[n] == n
    ensures Remove(l, n) == l
  {
  }

  /** Insertion and removal are inverse: only the links of the node itself differ afterwards. */
  lemma UnlinkUndoesInsert(l: Links, s: seq<int>, k: nat, n: int)
    requires Ring(l, s) && k < |s| && n !in s
    ensures s[k] in l.next
    ensures var m := Unlink(InsertAfter(l, s[k], n), n);
            (forall x :: x in l.next && x != n ==> x in m.next && m.next[x] == l.next[x]) &&
            (forall x :: x in l.prev && x != n ==> x in m.prev && m.prev[x] == l.prev[x])
  {
    assert LinkedAt(l, s, k);
  }
}
