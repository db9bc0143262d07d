/** Lists of nodes sorted by a key, equal keys in order of insertion: timers by deadline, waiting
    threads by priority. */
module SortedList {
  import opened RtList

  /** The key of a node. */
  function At(d: map<int, int>, t: int): int { if t in d then d[t] else 0 }

  /** Stable insertion: after every node that is not greater. */
  function Insert(s: seq<int>, d: map<int, int>, x: int): seq<int> {
    if s == [] || At(d, s[0]) > At(d, x) then [x] + s else [s[0]] + Insert(s[1..], d, x)
  }

  ghost predicate Sorted(s: seq<int>, d: map<int, int>) {
    forall i, j :: 0 <= i < j < |s| ==> At(d, s[i]) <= At(d, s[j])
  }

  lemma EmptySorted(d: map<int, int>)
    ensures Sorted([], d) && Distinct([])
  {
  }

  lemma HeadLeast(s: seq<int>, d: map<int, int>)
    requires Sorted(s, d) && s != []
    ensures Sorted(s[1..], d) && forall t :: t in s ==> At(d, s[0]) <= At(d, t)
  {
    var r := s[1..];
    forall i, j | 0 <= i < j < |r| ensures At(d, r[i]) <= At(d, r[j]) { assert r[i] == s[i + 1] && r[j] == s[j + 1]; }
  }

  lemma HeadDistinct(s: seq<int>)
    requires Distinct(s) && s != []
    ensures Distinct(s[1..]) && s[0] !in s[1..]
  {
    var r := s[1..];
    forall i, j | 0 <= i < |r| && 0 <= j < |r| && i != j ensures r[i] != r[j] {
      assert r[i] == s[i + 1] && r[j] == s[j + 1];
    }
  }

  /** A new head that is not greater than anything. */
  lemma ConsOk(x: int, s: seq<int>, d: map<int, int>)
    requires Sorted(s, d) && Distinct(s) && x !in s && forall y :: y in s ==> At(d, x) <= At(d, y)
    ensures Sorted([x] + s, d) && Distinct([x] + s)
  {
    var r := [x] + s;
    assert forall i :: 0 < i < |r| ==> r[i] == s[i - 1] && r[i] in s;
  }

  lemma {:induction false} InsertOk(s: seq<int>, d: map<int, int>, x: int)
    requires Sorted(s, d) && Distinct(s) && x !in s
    ensures Sorted(Insert(s, d, x), d) && Distinct(Insert(s, d, x))
    ensures forall y :: y in Insert(s, d, x) <==> y in s || y == x
  {
    hide Sorted, Distinct;
    InsertElements(s, d, x);
    if s != [] {
      HeadLeast(s, d);
      HeadDistinct(s);
    }
    if s == [] || At(d, s[0]) > At(d, x) {
      ConsOk(x, s, d);
    } else {
      InsertOk(s[1..], d, x);
      InsertElements(s[1..], d, x);
      ConsOk(s[0], Insert(s[1..], d, x), d);
    }
  }

  lemma {:induction false} InsertElements(s: seq<int>, d: map<int, int>, x: int)
    ensures forall y :: y in Insert(s, d, x) <==> y in s || y == x
  {
    if s != [] {
      InsertElements(s[1..], d, x);
      assert forall y :: y in s <==> y == s[0] || y in s[1..];
    }
  }

  /** Only the keys of the listed nodes and of the new one matter. */
  lemma {:induction false} InsertFrame(s: seq<int>, d: map<int, int>, e: map<int, int>, x: int)
    requires At(d, x) == At(e, x) && forall y :: y in s ==> At(d, y) == At(e, y)
    ensures Insert(s, d, x) == Insert(s, e, x)
  {
    if s != [] { InsertFrame(s[1..], d, e, x); }
  }

  lemma WithoutSorted(s: seq<int>, d: map<int, int>, k: nat)
    requires Sorted(s, d) && Distinct(s) && k < |s|
    ensures Sorted(Without(s, k), d) && Distinct(Without(s, k))
  {
    var r := Without(s, k);
    forall i, j | 0 <= i < j < |r| ensures At(d, r[i]) <= At(d, r[j]) && r[i] != r[j] {
      var x, y := if i < k then i else i + 1, if j < k then j else j + 1;
      assert r[i] == s[x] && r[j] == s[y] && x < y;
    }
  }

  lemma {:induction false} DelOk(s: seq<int>, d: map<int, int>, x: int)
    requires Sorted(s, d) && Distinct(s)
    ensures var r := Del(s, x);
            Sorted(r, d) && Distinct(r) && (x !in s ==> r == s) && forall y :: y in r <==> y in s && y != x
  {
    if x in s {
      var k :| 0 <= k < |s| && s[k] == x;
      DelWithout(s, k);
      WithoutElements(s, k);
      WithoutSorted(s, d, k);
    } else {
      DelAbsent(s, x);
    }
  }

  lemma {:induction false} DelAbsent(s: seq<int>, x: int)
    requires x !in s
    ensures Del(s, x) == s
  {
    if s != [] { DelAbsent(s[1..], x); }
  }

  lemma DelElements(s: seq<int>, x: int)
    requires Distinct(s)
    ensures Distinct(Del(s, x)) && forall y :: y in Del(s, x) <==> y in s && y != x
  {
    var none: map<int, int> := map[];
    DelOk(s, none, x);
  }

  /** Only the keys of the listed nodes matter. */
  lemma SortedFrame(s: seq<int>, d: map<int, int>, e: map<int, int>)
    requires Sorted(s, d) && forall y :: y in s ==> At(d, y) == At(e, y)
    ensures Sorted(s, e)
  {
  }

  /** A place with nothing greater before it and only greater keys after it. */
  lemma {:induction false} InsertIs(s: seq<int>, d: map<int, int>, x: int, k: nat)
    requires Sorted(s, d) && k <= |s|
    requires k > 0 ==> At(d, s[k - 1]) <= At(d, x)
    requires k < |s| ==> At(d, s[k]) > At(d, x)
    ensures Insert(s, d, x) == With(s, k, x)
    decreases k
  {
    if k > 0 {
      HeadLeast(s, d);
      hide Sorted, With;
      assert s[k - 1] in s;
      InsertIs(s[1..], d, x, k - 1);
      WithStep(s, k, x);
    }
  }

  lemma WithStep(s: seq<int>, k: nat, x: int)
    requires 0 < k <= |s|
    ensures With(s, k, x) == [s[0]] + With(s[1..], k - 1, x)
  {
  }

  // ---- Subsequences ----

  /** a is b with some elements left out. */
  predicate Subsequence(a: seq<int>, b: seq<int>) {
    a == [] || (b != [] && ((a[0] == b[0] && Subsequence(a[1..], b[1..])) || Subsequence(a, b[1..])))
  }

  lemma {:induction false} SubRefl(a: seq<int>)
    ensures Subsequence(a, a)
  {
    if a != [] { SubRefl(a[1..]); }
  }

  lemma {:induction false} SubTrans(a: seq<int>, b: seq<int>, c: seq<int>)
    requires Subsequence(a, b) && Subsequence(b, c)
    ensures Subsequence(a, c) && |a| <= |b|
    decreases |c|
  {
    if a == [] {
    } else if b[0] == c[0] && Subsequence(b[1..], c[1..]) {
      if a[0] == b[0] && Subsequence(a[1..], b[1..]) {
        SubTrans(a[1..], b[1..], c[1..]);
      } else {
        SubTrans(a, b[1..], c[1..]);
      }
    } else {
      SubTrans(a, b, c[1..]);
    }
  }

  lemma {:induction false} SubDel(s: seq<int>, x: int)
    ensures Subsequence(Del(s, x), s)
  {
    if s != [] {
      SubRefl(s[1..]);
      SubDel(s[1..], x);
    }
  }

  lemma {:induction false} SubElements(a: seq<int>, b: seq<int>)
    requires Subsequence(a, b)
    ensures forall x :: x in a ==> x in b
    decreases |b|
  {
    if a != [] {
      assert forall x :: x in b[1..] ==> x in b;
      assert forall x :: x in a ==> x == a[0] || x in a[1..];
      if a[0] == b[0] && Subsequence(a[1..], b[1..]) { SubElements(a[1..], b[1..]); } else { SubElements(a, b[1..]); }
    }
  }

  // ---- Equal keys ----

  /** The nodes with key p, in their order. */
  function Class(s: seq<int>, d: map<int, int>, p: int): seq<int> {
    if s == [] then [] else if At(d, s[0]) == p then [s[0]] + Class(s[1..], d, p) else Class(s[1..], d, p)
  }

  lemma {:induction false} ClassAppend(s: seq<int>, d: map<int, int>, x: int, p: int)
    ensures Class(s + [x], d, p) == Class(s, d, p) + if At(d, x) == p then [x] else []
  {
    if s != [] {
      assert (s + [x])[1..] == s[1..] + [x];
      ClassAppend(s[1..], d, x, p);
    } else {
      assert s + [x] == [x] && [x][1..] == [];
    }
  }

  lemma {:induction false} ClassAbove(s: seq<int>, d: map<int, int>, p: int)
    requires forall t :: t in s ==> At(d, t) != p
    ensures Class(s, d, p) == []
  {
    if s != [] { ClassAbove(s[1..], d, p); }
  }

  /** Stable insertion puts a node behind all of the same key, and leaves the other keys alone. */
  lemma {:induction false} ClassInsert(s: seq<int>, d: map<int, int>, x: int, p: int)
    requires Sorted(s, d)
    ensures Class(Insert(s, d, x), d, p) == Class(s, d, p) + if At(d, x) == p then [x] else []
  {
    if s != [] { HeadLeast(s, d); }
    if s == [] || At(d, s[0]) > At(d, x) {
      assert ([x] + s)[1..] == s;
      if At(d, x) == p { ClassAbove(s, d, p); }
    } else {
      var rest := Insert(s[1..], d, x);
      assert ([s[0]] + rest)[1..] == rest;
      ClassInsert(s[1..], d, x, p);
    }
  }

  lemma {:induction false} ClassDel(s: seq<int>, d: map<int, int>, x: int, p: int)
    ensures Class(Del(s, x), d, p) == if At(d, x) == p then Del(Class(s, d, p), x) else Class(s, d, p)
  {
    if s != [] && s[0] != x {
      ClassDel(s[1..], d, x, p);
      assert ([s[0]] + Del(s[1..], x))[1..] == Del(s[1..], x);
      if At(d, s[0]) == p {
        assert ([s[0]] + Class(s[1..], d, p))[1..] == Class(s[1..], d, p);
      }
    } else if s != [] {
      assert ([x] + Class(s[1..], d, p))[1..] == Class(s[1..], d, p);
    }
  }
}
