/** The page allocator of slab.c: an address-ordered list of runs of free pages. */
module PageSpec {
  const NULL := 0

  /** A run of `count` free pages from page `start` on. */
  datatype Run = Run(start: int, count: int)

  /** The pages a, ..., a + n - 1. */
  function Pages(a: int, n: int): set<int> { set p: int | a <= p < a + n && Within(p, a, n) }

  predicate Within(p: int, a: int, n: int) { a <= p < a + n }

  /** All free pages. */
  function FreePages(l: seq<Run>): set<int> {
    if l == [] then {} else Pages(l[0].start, l[0].count) + FreePages(l[1..])
  }

  /** Non-empty runs in address order with a gap between neighbours. */
  ghost predicate Canonical(l: seq<Run>) {
    l == [] || (l[0].start > NULL && l[0].count > 0 && Canonical(l[1..]) &&
                (|l| > 1 ==> l[0].start + l[0].count < l[1].start))
  }

  /** rt_page_alloc: the first run that is long enough gives its first pages. */
  function Alloc(l: seq<Run>, n: int): (seq<Run>, int) {
    if l == [] then (l, NULL)
    else if l[0].count > n then ([Run(l[0].start + n, l[0].count - n)] + l[1..], l[0].start)
    else if l[0].count == n then (l[1..], l[0].start)
    else var r := Alloc(l[1..], n); ([l[0]] + r.0, r.1)
  }

  /** rt_page_free. */
  function Free(l: seq<Run>, a: int, n: int): seq<Run> {
    if l == [] then [Run(a, n)]
    else if l[0].start + l[0].count == a then
      if |l| > 1 && a + n == l[1].start then [Run(l[0].start, l[0].count + n + l[1].count)] + l[2..]
      else [Run(l[0].start, l[0].count + n)] + l[1..]
    else if l[0].start == a + n then [Run(a, n + l[0].count)] + l[1..]
    else if l[0].start > a + n then [Run(a, n)] + l
    else [l[0]] + Free(l[1..], a, n)
  }

  // ---- The list is determined by the set of free pages ----

  lemma PageAt(p: int, a: int, n: int)
    ensures p in Pages(a, n) <==> a <= p < a + n
  {
  }

  /** Nothing before the first run is free, and nothing between it and the second. */
  lemma {:induction false} FreeAfter(l: seq<Run>)
    requires Canonical(l) && l != []
    ensures forall p :: p in FreePages(l) ==> l[0].start <= p
    ensures forall p :: p in FreePages(l[1..]) ==> l[0].start + l[0].count < p
    decreases |l|
  {
    if |l| > 1 { FreeAfter(l[1..]); }
  }

  lemma FirstIsFree(l: seq<Run>)
    requires Canonical(l)
    ensures l != [] ==> l[0].start in FreePages(l)
  {
    if l != [] { PageAt(l[0].start, l[0].start, l[0].count); }
  }

  /** The unique sorted list of the maximal runs of its set of pages. */
  lemma {:induction false} CanonicalUnique(l: seq<Run>, m: seq<Run>)
    requires Canonical(l) && Canonical(m) && FreePages(l) == FreePages(m)
    ensures l == m
    decreases |l|
  {
    FirstIsFree(l);
    FirstIsFree(m);
    if l != [] && m != [] {
      FreeAfter(l);
      FreeAfter(m);
      var a, b := l[0], m[0];
      assert a.start == b.start;
      PageAt(a.start + a.count, b.start, b.count);
      PageAt(b.start + b.count, a.start, a.count);
      assert a.start + a.count !in FreePages(l) && b.start + b.count !in FreePages(m);
      assert a == b;
      forall p ensures p in FreePages(l[1..]) <==> p in FreePages(m[1..]) {
        assert p in FreePages(l) <==> p in FreePages(m);
      }
      CanonicalUnique(l[1..], m[1..]);
    }
  }

  // ---- Allocation ----

  /** The n pages from p on are free. */
  ghost predicate Fits(l: seq<Run>, p: int, n: int) { Pages(p, n) <= FreePages(l) }

  /** Free pages that follow one another lie in one run. */
  lemma FitsFirst(l: seq<Run>, p: int, n: int)
    requires Canonical(l) && l != [] && n > 0 && Fits(l, p, n)
    ensures l[0].start <= p
    ensures p + n <= l[0].start + l[0].count || Fits(l[1..], p, n)
  {
    FreeAfter(l);
    assert p in Pages(p, n) && p + n - 1 in Pages(p, n);
    PageAt(l[0].start + l[0].count, p, n);
  }

  /** rt_page_alloc returns the lowest page from which n pages are free, and fails exactly if there is
      none; the list stays the canonical one for the pages that are left. */
  lemma {:induction false} AllocIs(l: seq<Run>, n: int)
    requires Canonical(l) && n > 0
    ensures var (l', r) := Alloc(l, n);
            Canonical(l') && (r == NULL <==> forall p :: !Fits(l, p, n)) &&
            (r == NULL ==> l' == l) &&
            (r != NULL ==> Fits(l, r, n) && FreePages(l') == FreePages(l) - Pages(r, n)) &&
            (r != NULL ==> forall p :: Fits(l, p, n) ==> r <= p) &&
            (l' != [] ==> l != [] && l[0].start <= l'[0].start)
    decreases |l|
  {
    var (l', r) := Alloc(l, n);
    if l == [] {
      forall p ensures !Fits(l, p, n) { assert p in Pages(p, n); }
    } else {
      FreeAfter(l);
      forall p | Fits(l, p, n) ensures l[0].start <= p &&
          (p + n <= l[0].start + l[0].count || Fits(l[1..], p, n)) { FitsFirst(l, p, n); }
      if l[0].count >= n {
        assert Fits(l, l[0].start, n);
      } else {
        AllocIs(l[1..], n);
        forall p | Fits(l[1..], p, n) ensures Fits(l, p, n) {}
        if r != NULL {
          assert r in Pages(r, n);
          assert FreePages(l) - Pages(r, n) == Pages(l[0].start, l[0].count) + (FreePages(l[1..]) - Pages(r, n));
        }
      }
    }
  }

  // ---- Release ----

  /** rt_page_free of pages that are not free adds them to the set, and the list stays canonical. */
  lemma {:induction false} FreeIs(l: seq<Run>, a: int, n: int)
    requires Canonical(l) && a > NULL && n > 0 && forall p :: p in FreePages(l) ==> p !in Pages(a, n)
    ensures Canonical(Free(l, a, n)) && FreePages(Free(l, a, n)) == FreePages(l) + Pages(a, n)
    ensures Free(l, a, n) != [] && (Free(l, a, n)[0].start == a || (l != [] && Free(l, a, n)[0].start == l[0].start))
    decreases |l|
  {
    if l != [] {
      FreeAfter(l);
      var b := l[0];
      PageAt(b.start, b.start, b.count);
      PageAt(a, b.start, b.count);
      PageAt(b.start, a, n);
      PageAt(a, a, n);
      FreeStep(l, a, n);
    }
  }

  lemma FreeStep(l: seq<Run>, a: int, n: int)
    requires Canonical(l) && a > NULL && n > 0 && l != [] && forall p :: p in FreePages(l) ==> p !in Pages(a, n)
    requires a + n <= l[0].start || l[0].start + l[0].count <= a
    ensures Canonical(Free(l, a, n)) && FreePages(Free(l, a, n)) == FreePages(l) + Pages(a, n)
    ensures Free(l, a, n) != [] && (Free(l, a, n)[0].start == a || Free(l, a, n)[0].start == l[0].start)
    decreases |l|, 0
  {
    FreeAfter(l);
    var b, r := l[0], l[1..];
    if b.start + b.count == a {
      FirstIsFree(r);
      if r != [] { PageAt(r[0].start, a, n); }
    } else if b.start > a + n || b.start == a + n {
    } else {
      FreeIs(r, a, n);
      FreeAfter(Free(r, a, n));
    }
  }

  /** Freeing what was just allocated restores the identical list. */
  lemma FreeUndoesAlloc(l: seq<Run>, n: int)
    requires Canonical(l) && n > 0 && Alloc(l, n).1 != NULL
    ensures Free(Alloc(l, n).0, Alloc(l, n).1, n) == l
  {
    var (l', r) := Alloc(l, n);
    AllocIs(l, n);
    assert r in Pages(r, n) && r in FreePages(l);
    if l != [] { FreeAfter(l); }
    FreeIs(l', r, n);
    assert FreePages(l) - Pages(r, n) + Pages(r, n) == FreePages(l);
    CanonicalUnique(Free(l', r, n), l);
  }

  /** The order of releases does not matter. */
  lemma FreesCommute(l: seq<Run>, a: int, n: int, b: int, m: int)
    requires Canonical(l) && a > NULL && n > 0 && b > NULL && m > 0
    requires forall p :: p in FreePages(l) ==> p !in Pages(a, n) && p !in Pages(b, m)
    requires forall p :: p in Pages(a, n) ==> p !in Pages(b, m)
    ensures Free(Free(l, a, n), b, m) == Free(Free(l, b, m), a, n)
  {
    FreeIs(l, a, n);
    FreeIs(l, b, m);
    FreeIs(Free(l, a, n), b, m);
    FreeIs(Free(l, b, m), a, n);
    CanonicalUnique(Free(Free(l, a, n), b, m), Free(Free(l, b, m), a, n));
  }
}

/** The page list in memory: a page that starts a run holds its length and the start of the next run. */
module PageList {
  import opened PageSpec

  const HEAD := -1     // stands for the address of rt_page_list

  /** The runs s are linked, from page h to the link e. */
  ghost predicate Seg(next: map<int, int>, page: map<int, int>, h: int, s: seq<Run>, e: int)
    decreases |s|
  {
    if s == [] then h == e
    else
      h == s[0].start && h != NULL && h in next && h in page && page[h] == s[0].count &&
      Seg(next, page, next[h], s[1..], e)
  }

  ghost predicate SameHead(next: map<int, int>, page: map<int, int>, next': map<int, int>, page': map<int, int>,
                           p: int) {
    && (p in next ==> p in next' && next'[p] == next[p])
    && (p in page ==> p in page' && page'[p] == page[p])
  }

  lemma {:induction false} SegFrame(next: map<int, int>, page: map<int, int>, next': map<int, int>,
                                    page': map<int, int>, h: int, s: seq<Run>, e: int)
    requires Seg(next, page, h, s, e)
    requires forall i :: 0 <= i < |s| ==> SameHead(next, page, next', page', s[i].start)
    ensures Seg(next', page', h, s, e)
    decreases |s|
  {
    if s != [] {
      assert SameHead(next, page, next', page', s[0].start);
      SegFrame(next, page, next', page', next[h], s[1..], e);
    }
  }

  lemma {:induction false} SegJoin(next: map<int, int>, page: map<int, int>, h: int, s: seq<Run>, m: int, t: seq<Run>,
                                   e: int)
    requires Seg(next, page, h, s, m) && Seg(next, page, m, t, e)
    ensures Seg(next, page, h, s + t, e)
    decreases |s|
  {
    if s == [] {
      assert s + t == t;
    } else {
      SegJoin(next, page, next[h], s[1..], m, t, e);
      assert (s + t)[1..] == s[1..] + t;
    }
  }

  /** The link of the last run of s is changed. */
  lemma {:induction false} SegRelink(next: map<int, int>, page: map<int, int>, h: int, s: seq<Run>, e: int, x: int)
    requires Seg(next, page, h, s, e) && s != [] && forall i :: 0 <= i < |s| - 1 ==> s[i].start != s[|s| - 1].start
    ensures Seg(next[s[|s| - 1].start := x], page, h, s, x)
    decreases |s|
  {
    if |s| > 1 {
      assert s[0].start != s[|s| - 1].start;
      SegRelink(next, page, next[h], s[1..], e, x);
    }
  }

  /** In a canonical list everything before a run ends before it, everything after it starts after it. */
  lemma {:induction false} Around(done: seq<Run>, rest: seq<Run>)
    requires Canonical(done + rest) && rest != []
    ensures Canonical(rest) && rest[0].start > NULL && rest[0].count > 0
    ensures forall r :: r in done ==> NULL < r.start < r.start + r.count < rest[0].start
    ensures forall r :: r in rest[1..] ==> r.start > rest[0].start + rest[0].count
    ensures forall i, j :: 0 <= i < j < |done| ==> done[i].start != done[j].start
    decreases |done| + |rest|
  {
    if done == [] {
      assert done + rest == rest;
      if |rest| > 1 {
        assert rest == [] + rest && rest[1..] == [] + rest[1..];
        Around([], rest[1..]);
        assert forall r :: r in rest[1..] ==> r == rest[1] || r in rest[1..][1..];
      }
    } else {
      assert (done + rest)[1..] == done[1..] + rest;
      Around(done[1..], rest);
      assert |done| > 1 ==> (done + rest)[1] == done[1] && done[1] in done[1..];
      if |done| == 1 { assert (done + rest)[1] == rest[0]; }
      HeadBefore(done, rest);
      assert forall r :: r in done ==> r == done[0] || r in done[1..];
    }
  }

  lemma HeadBefore(done: seq<Run>, rest: seq<Run>)
    requires Canonical(done + rest) && done != []
    ensures forall j :: 0 < j < |done| ==> done[0].start < done[j].start
  {
    var l := done + rest;
    FreeAfter(l);
    forall j | 0 < j < |done| ensures done[0].start < done[j].start {
      InFree(l, j);
      assert l[j] == done[j] && l[0] == done[0];
    }
  }

  lemma {:induction false} InFree(l: seq<Run>, j: nat)
    requires Canonical(l) && 0 < j < |l|
    ensures l[j].start in FreePages(l[1..])
    decreases j
  {
    if j == 1 {
      PageAt(l[1].start, l[1].start, l[1].count);
    } else {
      InFree(l[1..], j - 1);
    }
  }

  lemma Shift(done: seq<Run>, r: Run, more: seq<Run>)
    ensures done + ([r] + more) == (done + [r]) + more
  {
  }

  class PageAllocator {
    var head: int                  // rt_page_list
    var next: map<int, int>        // the header of a run, in its first page
    var page: map<int, int>
    ghost var runs: seq<Run>

    ghost predicate Valid()
      reads this
    {
      Canonical(runs) && Seg(next, page, head, runs, NULL)
    }

    /** The loops walk with a pointer to the link to look at: `done` lies behind, b and `rest` ahead. */
    ghost predicate At(prev: int, b: int, done: seq<Run>, rest: seq<Run>)
      reads this
    {
      && runs == done + rest && Seg(next, page, head, done, b) && Seg(next, page, b, rest, NULL)
      && prev == if done == [] then HEAD else done[|done| - 1].start
    }

    /** Assignment through that pointer, after which the list is done + more. */
    method SetLink(prev: int, n: int, ghost b: int, ghost done: seq<Run>, ghost more: seq<Run>)
      requires Seg(next, page, head, done, b) && prev == (if done == [] then HEAD else done[|done| - 1].start)
      requires Seg(next, page, n, more, NULL) && Canonical(done + more)
      modifies `head, `next, `runs
      ensures Valid() && runs == done + more
    {
      if prev == HEAD {
        HeadIsNone(done, more);
        head := n;
      } else {
        ghost var was, k := next, |done| - 1;
        assert done[..k] + ([done[k]] + more) == done + more && ([done[k]] + more)[1..] == more;
        Around(done[..k], [done[k]] + more);
        assert forall i :: 0 <= i < k ==> done[i] in done[..k];
        SegRelink(next, page, head, done, b, n);
        next := next[prev := n];
        forall i | 0 <= i < |more| ensures SameHead(was, page, next, page, more[i].start) { assert more[i] in more; }
        SegFrame(was, page, next, page, n, more, NULL);
      }
      SegJoin(next, page, head, done, n, more, NULL);
      runs := done + more;
    }

    lemma HeadIsNone(done: seq<Run>, more: seq<Run>)
      requires Canonical(done + more) && (done != [] ==> done[|done| - 1].start == HEAD)
      ensures done == []
    {
      if done != [] {
        var k := |done| - 1;
        assert done[..k] + ([done[k]] + more) == done + more;
        Around(done[..k], [done[k]] + more);
      }
    }

    lemma AtStart()
      requires Valid()
      ensures At(HEAD, head, [], runs)
    {
    }

    lemma AtEnd(prev: int, done: seq<Run>, rest: seq<Run>)
      requires At(prev, NULL, done, rest)
      ensures rest == [] && done == runs
    {
    }

    /** The next run. */
    lemma AtNext(prev: int, b: int, done: seq<Run>, rest: seq<Run>)
      requires Valid() && At(prev, b, done, rest) && b != NULL
      ensures rest != [] && b == rest[0].start && b in next && b in page && page[b] == rest[0].count
      ensures At(b, next[b], done + [rest[0]], rest[1..])
    {
      var r := rest[0];
      assert runs == (done + [r]) + rest[1..];
      assert Seg(next, page, b, [r], next[b]) by { assert [r][1..] == []; }
      SegJoin(next, page, head, done, b, [r], next[b]);
    }

    /** The loop of rt_page_alloc. */
    method FindRun(npages: nat) returns (prev: int, b: int, ghost done: seq<Run>, ghost rest: seq<Run>)
      requires Valid() && npages > 0
      ensures At(prev, b, done, rest)
      ensures Alloc(runs, npages) == (done + Alloc(rest, npages).0, Alloc(rest, npages).1)
      ensures b == NULL <==> rest == []
      ensures b != NULL ==> b == rest[0].start && b in next && b in page && page[b] == rest[0].count >= npages
    {
      hide Seg, Canonical;
      prev, b := HEAD, head;
      done, rest := [], runs;
      AtStart();
      assert [] + Alloc(runs, npages).0 == Alloc(runs, npages).0;
      while b != NULL
        invariant At(prev, b, done, rest)
        invariant Alloc(runs, npages) == (done + Alloc(rest, npages).0, Alloc(rest, npages).1)
        decreases |rest|
      {
        AtNext(prev, b, done, rest);
        if page[b] >= npages { return; }
        Shift(done, rest[0], Alloc(rest[1..], npages).0);
        done, rest := done + [rest[0]], rest[1..];
        prev := b;
        b := next[b];
      }
      AtEnd(prev, done, rest);
    }

    /** rt_page_alloc. */
    method AllocPages(npages: nat) returns (b: int)
      requires Valid()
      modifies `head, `next, `page, `runs
      ensures Valid() && (npages == 0 ==> b == NULL && runs == old(runs))
      ensures npages > 0 ==> (runs, b) == Alloc(old(runs), npages)
    {
      if npages == 0 { return NULL; }
      hide Seg, Canonical, PageSpec.FreePages, Fits;
      AllocIs(runs, npages);
      var prev;
      ghost var done, rest;
      prev, b, done, rest := FindRun(npages);
      if b != NULL {
        Cut(prev, b, npages, done, rest);
      } else {
        assert done + rest == done;
      }
    }

    /** The run at b is long enough: its first pages leave the list. */
    method Cut(prev: int, b: int, npages: nat, ghost done: seq<Run>, ghost rest: seq<Run>)
      requires Valid() && At(prev, b, done, rest) && rest != [] && b == rest[0].start && npages > 0
      requires b in next && b in page && page[b] == rest[0].count >= npages && Canonical(done + Alloc(rest, npages).0)
      modifies `head, `next, `page, `runs
      ensures Valid() && runs == done + Alloc(rest, npages).0
    {
      Around(done, rest);
      if page[b] > npages {
        var n := b + npages;
        ghost var nx, pg := next, page;
        next := next[n := next[b]];
        page := page[n := page[b] - npages];
        forall i | 0 <= i < |done| ensures SameHead(nx, pg, next, page, done[i].start) { assert done[i] in done; }
        SegFrame(nx, pg, next, page, head, done, b);
        forall i | 0 <= i < |rest[1..]| ensures SameHead(nx, pg, next, page, rest[1..][i].start) {
          assert rest[1..][i] in rest[1..];
        }
        SegFrame(nx, pg, next, page, nx[b], rest[1..], NULL);
        ghost var more := [Run(n, page[n])] + rest[1..];
        assert more[1..] == rest[1..];
        SetLink(prev, n, b, done, more);
      } else {
        SetLink(prev, next[b], b, done, rest[1..]);
      }
    }

    /** The loop of rt_page_free, up to the branch that returns or leaves it. */
    method FindPlace(addr: int, npages: nat) returns (prev: int, b: int, ghost done: seq<Run>, ghost rest: seq<Run>)
      requires Valid()
      ensures At(prev, b, done, rest)
      ensures Free(runs, addr, npages) == done + Free(rest, addr, npages)
      ensures b == NULL <==> rest == []
      ensures b != NULL ==> b == rest[0].start && b in next && b in page && page[b] == rest[0].count
      ensures b != NULL ==> b + page[b] == addr || b >= addr + npages
    {
      hide Seg, Canonical;
      prev, b := HEAD, head;
      done, rest := [], runs;
      AtStart();
      assert [] + Free(runs, addr, npages) == Free(runs, addr, npages);
      while b != NULL
        invariant At(prev, b, done, rest)
        invariant Free(runs, addr, npages) == done + Free(rest, addr, npages)
        decreases |rest|
      {
        AtNext(prev, b, done, rest);
        if b + page[b] == addr || b == addr + npages || b > addr + npages { return; }
        Shift(done, rest[0], Free(rest[1..], addr, npages));
        done, rest := done + [rest[0]], rest[1..];
        prev := b;
        b := next[b];
      }
      AtEnd(prev, done, rest);
    }

    /** rt_page_free. */
    method FreePages(addr: int, npages: nat)
      requires Valid() && addr > NULL && npages > 0
      requires forall p :: p in PageSpec.FreePages(runs) ==> p !in Pages(addr, npages)
      modifies `head, `next, `page, `runs
      ensures Valid() && runs == Free(old(runs), addr, npages)
    {
      hide Seg, Canonical, PageSpec.FreePages;
      FreeIs(runs, addr, npages);
      var prev, b;
      ghost var done, rest;
      prev, b, done, rest := FindPlace(addr, npages);
      assert [Run(addr, npages)] + [] == [Run(addr, npages)];
      if b == NULL || (b + page[b] != addr && b != addr + npages) {
        Insert(prev, addr, npages, b, done, rest);
      } else if b + page[b] == addr {
        Extend(prev, b, npages, done, rest);
      } else {
        Prepend(prev, b, addr, npages, done, rest);
      }
    }

    /** No neighbour is free: a run of its own. */
    method Insert(prev: int, n: int, npages: nat, b: int, ghost done: seq<Run>, ghost rest: seq<Run>)
      requires Valid() && At(prev, b, done, rest) && n > NULL
      requires Canonical(done + ([Run(n, npages)] + rest))
      modifies `head, `next, `page, `runs
      ensures Valid() && runs == done + ([Run(n, npages)] + rest)
    {
      ghost var more := [Run(n, npages)] + rest;
      Around(done, more);
      assert more[1..] == rest;
      ghost var nx, pg := next, page;
      page := page[n := npages];
      next := next[n := b];
      forall i | 0 <= i < |done| ensures SameHead(nx, pg, next, page, done[i].start) { assert done[i] in done; }
      SegFrame(nx, pg, next, page, head, done, b);
      forall i | 0 <= i < |rest| ensures SameHead(nx, pg, next, page, rest[i].start) { assert rest[i] in rest; }
      SegFrame(nx, pg, next, page, b, rest, NULL);
      SetLink(prev, n, b, done, more);
    }

    /** The pages lie before the run at b. */
    method Prepend(prev: int, b: int, n: int, npages: nat, ghost done: seq<Run>, ghost rest: seq<Run>)
      requires Valid() && At(prev, b, done, rest) && n > NULL && npages > 0 && rest != [] && b == rest[0].start &&
                b == n + npages
      requires b in next && b in page && page[b] == rest[0].count
      requires Canonical(done + ([Run(n, npages + rest[0].count)] + rest[1..]))
      modifies `head, `next, `page, `runs
      ensures Valid() && runs == done + ([Run(n, npages + rest[0].count)] + rest[1..])
    {
      ghost var more := [Run(n, npages + rest[0].count)] + rest[1..];
      Around(done, more);
      assert more[1..] == rest[1..];
      ghost var nx, pg := next, page;
      page := page[n := page[b] + npages];
      next := next[n := next[b]];
      forall i | 0 <= i < |done| ensures SameHead(nx, pg, next, page, done[i].start) { assert done[i] in done; }
      SegFrame(nx, pg, next, page, head, done, b);
      forall i | 0 <= i < |rest[1..]| ensures SameHead(nx, pg, next, page, rest[1..][i].start) {
        assert rest[1..][i] in more[1..];
      }
      SegFrame(nx, pg, next, page, nx[b], rest[1..], NULL);
      SetLink(prev, n, b, done, more);
    }

    /** The pages follow the run at b, and perhaps fill the gap to the next one. */
    method Extend(prev: int, b: int, npages: nat, ghost done: seq<Run>, ghost rest: seq<Run>)
      requires Valid() && At(prev, b, done, rest) && npages > 0 && rest != [] && b == rest[0].start
      requires b in next && b in page && page[b] == rest[0].count
      requires Canonical(done + Free(rest, b + rest[0].count, npages))
      modifies `next, `page, `runs
      ensures Valid() && runs == done + Free(rest, b + old(page)[b], npages)
    {
      Around(done, rest);
      ghost var nx, pg, r := next, page, rest[0];
      FollowingRun(nx, pg, b, rest);
      page := page[b := page[b] + npages];
      if b + page[b] == next[b] {
        page := page[b := page[b] + page[next[b]]];
        next := next[b := next[next[b]]];
      }
      ghost var more := Free(rest, b + r.count, npages);
      forall i | 0 <= i < |done| ensures SameHead(nx, pg, next, page, done[i].start) { assert done[i] in done; }
      SegFrame(nx, pg, next, page, head, done, b);
      Extended(nx, pg, next, page, b, npages, rest);
      SegJoin(next, page, head, done, b, more, NULL);
      runs := done + more;
    }

    /** The link of a run leads to the next run, or nowhere. */
    static lemma FollowingRun(next: map<int, int>, page: map<int, int>, b: int, rest: seq<Run>)
      requires Seg(next, page, b, rest, NULL) && rest != []
      ensures next[b] != NULL <==> |rest| > 1
      ensures |rest| > 1 ==>
                next[b] == rest[1].start && next[b] in next && next[b] in page && page[next[b]] == rest[1].count &&
                             Seg(next, page, next[next[b]], rest[2..], NULL)
    {
      if |rest| > 1 { assert rest[1..][1..] == rest[2..]; }
    }

    static lemma Extended(nx: map<int, int>, pg: map<int, int>, next: map<int, int>, page: map<int, int>, b: int,
                          npages: nat, rest: seq<Run>)
      requires Seg(nx, pg, b, rest, NULL) && rest != [] && Canonical(rest) && npages > 0
      requires var fill := |rest| > 1 && b + rest[0].count + npages == rest[1].start;
               next == (if fill && nx[b] in nx then nx[b := nx[nx[b]]] else nx) &&
               page == pg[b := rest[0].count + npages + (if fill then rest[1].count else 0)]
      ensures Seg(next, page, b, Free(rest, b + rest[0].count, npages), NULL)
    {
      var more := Free(rest, b + rest[0].count, npages);
      FollowingRun(nx, pg, b, rest);
      assert [] + rest == rest;
      Around([], rest);
      var tail := if |rest| > 1 && b + rest[0].count + npages == rest[1].start then rest[2..] else rest[1..];
      assert more[1..] == tail;
      forall i | 0 <= i < |tail| ensures SameHead(nx, pg, next, page, tail[i].start) {
        assert tail[i] in rest[1..] by { if tail != rest[1..] { assert tail[i] == rest[1..][i + 1]; } }
      }
      SegFrame(nx, pg, next, page, next[b], tail, NULL);
    }

    /** rt_page_init. */
    constructor (addr: int, npages: nat)
      requires addr > NULL && npages > 0
      ensures Valid() && runs == [Run(addr, npages)]
    {
      head, next, page, runs := NULL, map[], map[], [];
      new;
      FreePages(addr, npages);
    }
  }
}
