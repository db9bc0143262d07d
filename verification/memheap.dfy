/** The memheap allocator of memheap.c: a circular, address-ordered list of blocks that ends in a
    used tail, and a circular free list, most recently freed block first. */
module MemHeap {
  import opened Blocks
  import opened RtList

  const ALIGN := 4
  const HDR := 24      // RT_MEMHEAP_SIZE
  const MINI := 12     // RT_MEMHEAP_MINIALLOC
  const NULL := 0
  const HEAD := -1     // free_header, which lies outside the pool

  function Align(size: nat): (r: nat)
    ensures size <= r < size + ALIGN && r % ALIGN == 0
  {
    (size + ALIGN - 1) / ALIGN * ALIGN
  }

  function Rounded(size: nat): (r: nat)
    ensures size <= r && MINI <= r && r % ALIGN == 0 && (r < size + ALIGN || r == MINI)
  {
    if Align(size) < MINI then MINI else Align(size)
  }

  lemma FreeDistinct(l: Links, f: seq<int>)
    requires Ring(l, [HEAD] + f)
    ensures Distinct(f) && HEAD !in f
  {
    var ring := [HEAD] + f;
    assert ring[0] == HEAD && forall i :: 0 <= i < |f| ==> f[i] == ring[i + 1];
  }

  /** Position of the first block of the free list with room for n bytes, or its length. */
  ghost function FirstFit(t: Tiling, free: seq<int>, n: int): (k: nat)
    ensures k <= |free|
    ensures k < |free| ==> Payload(t, free[k]) >= n
    ensures forall i :: 0 <= i < k ==> Payload(t, free[i]) < n
  {
    if free == [] || Payload(t, free[0]) >= n then 0 else 1 + FirstFit(t, free[1..], n)
  }

  /** When rt_memheap_alloc fails: n bytes are not less than all that is available, or no unused block
      is large enough. */
  ghost predicate NoRoom(t: Tiling, s: set<int>, available: int, n: int) {
    n >= available || forall b :: b in t.blocks && b !in s ==> Payload(t, b) < n
  }

  /** The free block at position k of the free list now serves n bytes: cut in two when enough is
      left for a header and MINI bytes, the rest then going to the front of the free list. */
  ghost predicate Allocated(t: Tiling, s: set<int>, f: seq<int>, t': Tiling, s': set<int>, f': seq<int>, k: nat, n: int)
    requires k < |f|
  {
    var b := f[k];
    var cut := Payload(t, b) >= n + HDR + MINI;
    && Taken(t, s, t', s', b, n, MINI)
    && f' == (if cut then [b + HDR + n] else []) + Without(f, k)
  }

  /** What rt_memheap_alloc returns is in use then, large enough and clear of every block that was in use;
      and these stay where they are, as long as before. */
  lemma AllocIsSafe(t: Tiling, s: set<int>, f: seq<int>, t': Tiling, s': set<int>, f': seq<int>, k: nat, n: int)
    requires Tiles(t) && Tiles(t') && t.hi in s && k < |f| && Allocated(t, s, f, t', s', f', k, n)
    requires f[k] in t.blocks && f[k] !in s && Payload(t, f[k]) >= n >= 0
    ensures Taken(t, s, t', s', f[k], n, MINI) && Still(t, s, t', s')
    ensures InUse(t', s', f[k]) && Payload(t', f[k]) >= n && ClearOf(t, s, t', f[k])
  {
    var c := f[k];
    TakenNext(t, s, t', s', c, n, MINI);
    assert BlockAt(t, c);
    forall b | InUse(t, s, b) ensures t.next[b] <= c || t'.next[c] <= b { PayloadsDisjoint(t, b, c); }
  }

  /** The sets of blocks after the free block b at position k was cut at n2, and is in use. */
  lemma CutSets(blocks: set<int>, s: set<int>, f: seq<int>, b: int, n2: int, k: nat)
    requires Distinct(f) && k < |f| && f[k] == b && b in blocks && n2 !in blocks
    requires forall x :: x in blocks ==> (x in f <==> x !in s)
    ensures var s', f' := s - {n2} + {b}, [n2] + Without(f, k);
            && (forall x :: x in blocks + {n2} ==> (x in f' <==> x !in s'))
            && (blocks + {n2}) * s' == blocks * s + {b}
            && blocks - s - {b} + {n2} == blocks + {n2} - s'
  {
    WithoutElements(f, k);
  }

  /** What the tiling becomes when the end of the used block b, from n2 on, is free. */
  ghost function CutTiling(t: Tiling, s: set<int>, b: int, n2: int): Tiling
    requires b in t.next
  {
    if t.next[b] in s then Split(t, b, n2) else Merge(Split(t, b, n2), n2)
  }

  /** Cutting adds to the unused bytes what the end of b holds, less a header if it stays a block of its own. */
  lemma CutCounts(t: Tiling, s: set<int>, b: int, n2: int)
    requires Tiles(t) && t.hdr == HDR && Coalesced(t, s) && b in t.blocks && b != t.hi && b in s && t.hi in s
    requires b + HDR <= n2 && n2 + HDR <= t.next[b]
    ensures var t', s', c := CutTiling(t, s, b, n2), s - {n2}, t.next[b];
            && Tiles(t') && Coalesced(t', s') && n2 in t'.blocks && n2 != t.hi && (c !in s ==> c in t.next)
            && t'.blocks == t.blocks + {n2} - (if c in s then {} else {c})
            && Extents(t', t'.blocks - s', HDR, t.lo) ==
               Extents(t, t.blocks - s, HDR, t.lo) + t'.next[n2] - n2 - HDR -
                 (if c in s then 0 else t.next[c] - c - HDR)
  {
    hide Extents, Coalesced;
    var sel, c := t.blocks - s, t.next[b];
    assert BlockAt(t, b) && (c !in s ==> BlockAt(t, c));
    CoalesceShrink(t, s, b, n2);
    ExtentsShrink(t, sel, HDR, b, n2);
    assert t.blocks + {n2} - (s - {n2}) == sel + {n2};
    assert c !in s ==> t.blocks + {n2} - {c} - (s - {n2}) == sel - {c} + {n2};
  }

  /** Moving the boundary after the used block b up to n2 takes what b gets from the unused bytes. */
  lemma RegrowCounts(t: Tiling, s: set<int>, b: int, n2: int)
    requires Tiles(t) && t.hdr == HDR && Coalesced(t, s) && b in t.blocks && b != t.hi && b in s
    requires t.next[b] in t.next && t.next[b] !in s && t.next[b] != t.hi
    requires t.next[b] < n2 && n2 + HDR <= t.next[t.next[b]]
    ensures var m, c := Merge(t, b), t.next[b]; var t', s' := Split(m, b, n2), s - {n2};
            && Tiles(m) && b in m.next && b + HDR <= n2 && n2 + HDR <= m.next[b] && n2 !in t.blocks
            && Tiles(t') && Coalesced(t', s') && b in t'.blocks && b in t'.next && t'.next[b] == n2
            && t'.blocks == t.blocks - {c} + {n2}
            && Extents(t', t'.blocks - s', HDR, t.lo) == Extents(t, t.blocks - s, HDR, t.lo) - (n2 - c)
  {
    hide Extents, Coalesced;
    var c := t.next[b];
    assert BlockAt(t, b) && BlockAt(t, c);
    MergeTiles(t, b);
    CoalesceRegrow(t, s, b, n2);
    ExtentsRegrow(t, t.blocks - s, HDR, b, n2);
    SplitTiles(Merge(t, b), b, n2);
    assert t.blocks - {c} + {n2} - (s - {n2}) == t.blocks - s - {c} + {n2};
  }

  /** The bytes that the free block at b takes from what is available when it serves n bytes. */
  ghost function Charged(t: Tiling, b: int, n: int): int {
    if Payload(t, b) >= n + HDR + MINI then n + HDR else Payload(t, b)
  }

  /** The used block b was given back: merged with its unused neighbours, and put at the front of the
      free list unless it became part of the block before it. */
  ghost predicate Freed(t: Tiling, s: set<int>, f: seq<int>, t': Tiling, s': set<int>, f': seq<int>, b: int)
    requires b in t.next
  {
    var left := exists p :: p in t.blocks && p !in s && p in t.next && t.next[p] == b;
    var right := t.next[b] !in s;
    var rest := if right then Del(f, t.next[b]) else f;
    && t'.blocks == t.blocks - (if right then {t.next[b]} else {}) - (if left then {b} else {})
    && s' == s - {b}
    && f' == if left then rest else [b] + rest
  }

  /** The used block b has n bytes now; what is left of the block after it went to the front of the
      free list. */
  ghost predicate Regrown(t: Tiling, s: set<int>, f: seq<int>, t': Tiling, s': set<int>, f': seq<int>, b: int, n: int) {
    && b in t.next
    && t' == Split(Merge(t, b), b, b + HDR + n)
    && s' == s - {b + HDR + n}
    && f' == [b + HDR + n] + Del(f, t.next[b])
  }

  /** The used block b has n bytes now; the rest of it, with the free block after it if there was one,
      went to the front of the free list. */
  ghost predicate Shrunk(t: Tiling, s: set<int>, f: seq<int>, t': Tiling, s': set<int>, f': seq<int>, b: int, n: int)
    requires b in t.next
  {
    var right := t.next[b] !in s;
    && t'.blocks == t.blocks + {b + HDR + n} - (if right then {t.next[b]} else {})
    && s' == s - {b + HDR + n}
    && f' == [b + HDR + n] + (if right then Del(f, t.next[b]) else f)
  }

  /** Block b's bytes now start block c, which has n bytes at least; the other blocks in use are the
      same, and so are their bytes. */
  ghost predicate Reallocated(t: Tiling, s: set<int>, t': Tiling, s': set<int>, was: seq<int>, now: seq<int>, b: int,
                              c: int, n: int) {
    && t'.blocks * s' == t.blocks * s - {b} + {c}
    && Payload(t', c) >= n
    && Kept(was, b + HDR, now, c + HDR, Min(Payload(t, b), n))
    && SamePayloads(t', s' - {c}, was, now)
  }

  lemma MovedIsReallocated(t: Tiling, s: set<int>, t': Tiling, s': set<int>, was: seq<int>, now: seq<int>, b: int,
                           c: int, n: int)
    requires Moved(t, s, t', s', was, now, b, c, n) && t.hdr == t'.hdr == HDR
    ensures Reallocated(t, s, t', s', was, now, b, c, n)
  {
  }

  lemma GrownIsReallocated(t: Tiling, s: set<int>, f: seq<int>, t': Tiling, s': set<int>, f': seq<int>,
                           was: seq<int>, now: seq<int>, b: int, n: int)
    requires Tiles(t) && t.hdr == HDR && t.lo == 0 && t.hi + HDR == |was| && Regrown(t, s, f, t', s', f', b, n)
    requires b in t.blocks && b in s && b != t.hi && t.next[b] in t.next && t.next[b] !in s && Payload(t, b) < n
    requires n <= Payload(t, b) + HDR + Payload(t, t.next[b]) - HDR && t.next[b] != t.hi
    requires SamePayloads(t, s, was, now)
    requires SamePayloads(t', s' - {b}, was, now)
    ensures Reallocated(t, s, t', s', was, now, b, b, n)
  {
    assert BlockAt(t, b) && BlockAt(t, t.next[b]);
    KeptInPlace(t, s, was, now, b, Payload(t, b));
    SplitTiles(Merge(t, b), b, b + HDR + n) by { MergeTiles(t, b); }
  }

  /** Freed, with the question of the block before b answered. */
  lemma FreedIs(t: Tiling, s: set<int>, f: seq<int>, t': Tiling, s': set<int>, f': seq<int>, b: int, p: int, left: bool)
    requires b in t.next && p in t.blocks && p in t.next && left == (p !in s)
    requires p !in s ==> t.next[p] == b
    requires forall q :: q in t.blocks && q !in s && q in t.next && t.next[q] == b ==> q == p
    requires t'.blocks == t.blocks - (if t.next[b] !in s then {t.next[b]} else {}) - (if left then {b} else {})
    requires s' == s - {b}
    requires f' == (if left then [] else [b]) + (if t.next[b] !in s then Del(f, t.next[b]) else f)
    ensures Freed(t, s, f, t', s', f', b)
  {
  }

  /** After rt_memheap_free all bytes of the block, and its header, lie in one unused block. */
  lemma FreeLeaves(t: Tiling, s: set<int>, f: seq<int>, t': Tiling, s': set<int>, f': seq<int>, b: int)
    requires Tiles(t) && Tiles(t') && t'.hi == t.hi && t.hi in s && InUse(t, s, b) && Freed(t, s, f, t', s', f', b)
    ensures exists c :: c in t'.blocks && c !in s' && c != t'.hi && c <= b && t.next[b] <= t'.next[c]
  {
    assert BlockAt(t, b);
    var c := b;
    if p :| p in t.blocks && p !in s && p in t.next && t.next[p] == b {
      assert BlockAt(t, p);
      c := p;
    }
    assert c in t'.blocks && c !in s';
    assert BlockAt(t', c);
  }

  class Heap {
    const start: int                 // address of the pool; blocks are named by their offset from it
    const poolSize: nat
    const bytes: array<int>
    var next: map<int, int>          // header fields
    var prev: map<int, int>
    var nextFree: map<int, int>
    var prevFree: map<int, int>
    var used: set<int>               // headers with the USED bit
    var available: int
    var maxUsed: int
    ghost var blocks: set<int>
    ghost var free: seq<int>         // the free list, after its header

    function Tail(): int { poolSize - HDR }

    ghost function T(): Tiling
      reads this
    {
      Tiling(blocks, next, 0, Tail(), HDR)
    }

    ghost function Ghosts(): Links
      reads this
    {
      Links(nextFree, prevFree)
    }

    /** The block list: tiled, doubly linked, circular through the used tail. */
    ghost predicate Shape()
      reads this
    {
      && start > 0 && bytes.Length == poolSize && poolSize % ALIGN == 0
      && Tiles(T()) && 0 != Tail() && Backs(T(), prev)
      && Tail() in used && next[Tail()] == 0
      && 0 in prev && prev[0] == Tail()
      && Tail() in prev && prev[Tail()] in blocks && prev[Tail()] < Tail() && next[prev[Tail()]] == Tail()
      && forall b :: b in blocks ==> b % ALIGN == 0
    }

    /** The free list: circular, doubly linked, made of existing blocks. */
    ghost predicate FreeRing()
      reads this
    {
      Ring(Ghosts(), [HEAD] + free) && forall b :: b in free ==> b in blocks
    }

    /** The free list holds exactly the unused blocks. */
    ghost predicate FreeExact()
      reads this
    {
      forall b :: b in blocks ==> (b in free <==> b !in used)
    }

    ghost predicate Accounted()
      requires Shape()
      reads this
    {
      && Coalesced(T(), used)
      && available == Extents(T(), blocks - used, HDR, 0)
      && poolSize - available <= maxUsed
    }

    ghost predicate Valid()
      reads this
    {
      Shape() && FreeRing() && FreeExact() && Accounted()
    }

    ghost predicate Live(p: int)
      reads this
    {
      var b := p - start - HDR; b in blocks && b in used && b != Tail()
    }

    // ---- The four list operations ----

    /** A header is written into the pool's own bytes; what it holds is in the maps. */
    method Header(b: int)
      requires Tiles(T()) && b in blocks && bytes.Length == poolSize
      modifies bytes
      ensures SamePayloads(T(), used, old(bytes[..]), bytes[..])
    {
      ghost var was := bytes[..];
      for i := 0 to HDR
        invariant OnlyHeader(HDR, b, was, bytes[..])
      {
        bytes[b + i] := *;
      }
      HeaderHarmless(T(), used, b, was, bytes[..]);
    }

    /** Break a block in two: a new header at n after the one at b. */
    method SplitHeader(b: int, n: int)
      requires Shape() && b in blocks && b != Tail()
      requires b + HDR <= n && n + HDR <= next[b] && n % ALIGN == 0
      modifies `next, `prev, `used, `blocks, bytes
      ensures Shape() && T() == Split(old(T()), b, n)
      ensures n !in old(blocks) && used == old(used) - {n}
      ensures SamePayloads(T(), used, old(bytes[..]), bytes[..])
    {
      ghost var t, p := T(), prev;
      BacksSplit(t, p, b, n);
      SplitTiles(t, b, n);
      assert BlockAt(t, b);
      used := used - {n};
      prev := prev[n := b];
      next := next[n := next[b]];
      prev := prev[next[b] := n];
      next := next[b := n];
      blocks := blocks + {n};
      assert T() == Split(t, b, n);
      Header(n);
      Header(next[n]);
      Header(b);
    }

    /** Drop the header after b. */
    method MergeHeader(b: int)
      requires Shape() && b in blocks && b != Tail() && next[b] != Tail()
      modifies `next, `prev, `blocks, bytes
      ensures Shape() && T() == Merge(old(T()), b) && blocks == old(blocks) - {old(next[b])}
      ensures SamePayloads(T(), used, old(bytes[..]), bytes[..])
    {
      ghost var t, p := T(), prev;
      BacksMerge(t, p, b);
      MergeTiles(t, b);
      var c := next[b];
      assert BlockAt(t, b) && BlockAt(t, c);
      prev := prev[next[c] := b];
      next := next[b := next[c]];
      blocks := blocks - {c};
      assert T() == Merge(t, b);
      Header(next[b]);
      Header(b);
    }

    /** Take a block out of the free list. */
    method FreeUnlink(x: int, ghost k: nat)
      requires Tiles(T()) && bytes.Length == poolSize && FreeRing() && k < |free| && free[k] == x
      modifies `nextFree, `prevFree, `free, bytes
      ensures FreeRing() && free == Without(old(free), k) && x !in free
      ensures SamePayloads(T(), used, old(bytes[..]), bytes[..])
    {
      ghost var ring := [HEAD] + free;
      RingUnlink(Ghosts(), ring, k + 1);
      RingAt(Ghosts(), ring, k + 1);
      assert Without(ring, k + 1) == [HEAD] + Without(free, k);
      FreeDistinct(Ghosts(), free);
      WithoutElements(free, k);
      var n, p := nextFree[x], prevFree[x];
      assert ring[k + 1] == x;
      assert Node(ring, k + 2) == n && ring[k] == p;
      prevFree := prevFree[n := p];
      nextFree := nextFree[p := n];
      free := Without(free, k);
      if n != HEAD { Header(n); }
      if p != HEAD { Header(p); }
    }

    /** Put a block at the front of the free list. */
    method FreePush(x: int)
      requires Tiles(T()) && bytes.Length == poolSize && FreeRing() && x in blocks && x !in free && x != HEAD
      modifies `nextFree, `prevFree, `free, bytes
      ensures FreeRing() && free == [x] + old(free)
      ensures SamePayloads(T(), used, old(bytes[..]), bytes[..])
    {
      ghost var ring := [HEAD] + free;
      RingInsertAfter(Ghosts(), ring, 0, x);
      RingAt(Ghosts(), ring, 0);
      assert With(ring, 1, x) == [HEAD] + ([x] + free);
      var n := nextFree[HEAD];
      assert n == Node(ring, 1);
      nextFree := nextFree[x := n];
      prevFree := prevFree[x := HEAD];
      prevFree := prevFree[n := x];
      nextFree := nextFree[HEAD := x];
      assert Ghosts() == InsertAfter(old(Ghosts()), HEAD, x);
      free := [x] + free;
      Header(x);
      if n != HEAD { Header(n); }
    }
  
    // ---- rt_memheap_alloc ----

    /** Charge bytes to the heap. */
    method Charge(n: int)
      modifies `available, `maxUsed
      ensures available == old(available) - n && maxUsed == Max(old(maxUsed), poolSize - available)
    {
      available := available - n;
      if poolSize - available > maxUsed { maxUsed := poolSize - available; }
    }

    /** The list operations when a block at position k of the free list is cut at n2. */
    method CutLists(b: int, n2: int, ghost k: nat)
      requires Shape() && FreeRing() && FreeExact() && k < |free| && free[k] == b && b !in used
      requires b != Tail() && b + HDR <= n2 && n2 + HDR <= next[b] && n2 % ALIGN == 0
      modifies `next, `prev, `nextFree, `prevFree, `used, `blocks, `free, bytes
      ensures Shape() && FreeRing() && T() == Split(old(T()), b, n2) && used == old(used) - {n2} && n2 !in old(blocks)
      ensures free == [n2] + Without(old(free), k) && b !in free
      ensures SamePayloads(old(T()), old(used), old(bytes[..]), bytes[..])
    {
      hide Extents, Coalesced, Backs, Ring;
      SplitTiles(T(), b, n2);
      SplitHeader(b, n2);
      FreeUnlink(b, k);
      FreePush(n2);
    }

    /** A large block was found: cut it at n bytes and use the first part. */
    method TakeCut(b: int, n: nat, ghost k: nat)
      requires Valid() && k < |free| && free[k] == b && n >= MINI && n % ALIGN == 0
      requires Payload(T(), b) >= n + HDR + MINI
      modifies this, bytes
      ensures Valid() && Allocated(old(T()), old(used), old(free), T(), used, free, k, n)
      ensures SamePayloads(old(T()), old(used), old(bytes[..]), bytes[..])
      ensures available == old(available) - Charged(old(T()), b, n) &&
                maxUsed == Max(old(maxUsed), poolSize - available)
    {
      hide Extents, Coalesced, Backs, Ring, SamePayloads;
      ghost var t, s, f := T(), used, free;
      assert b in free && b in blocks && BlockAt(t, b);
      var n2 := b + HDR + n;
      CoalesceSplit(t, s, b, n2);
      ExtentsCut(t, t.blocks - s, HDR, b, n2);
      FreeDistinct(Ghosts(), f);
      CutLists(b, n2, k);
      CutSets(t.blocks, s, f, b, n2, k);
      Charge(n + HDR);
      used := used + {b};
    }

    /** A block was found that is not worth cutting: use all of it. */
    method TakeWhole(b: int, ghost n: nat, ghost k: nat)
      requires Valid() && k < |free| && free[k] == b && n <= Payload(T(), b) < n + HDR + MINI
      modifies this, bytes
      ensures Valid() && Allocated(old(T()), old(used), old(free), T(), used, free, k, n)
      ensures SamePayloads(old(T()), old(used), old(bytes[..]), bytes[..])
      ensures available == old(available) - Charged(old(T()), b, n) &&
                maxUsed == Max(old(maxUsed), poolSize - available)
    {
      hide Extents, Coalesced, Backs, Ring;
      ghost var t, s := T(), used;
      assert b in free && b in blocks && BlockAt(t, b);
      ExtentsSelect(t, t.blocks - s - {b}, HDR, b);
      assert t.blocks - s - {b} + {b} == t.blocks - s;
      CoalesceTake(t, s, b);
      Charge(next[b] - b - HDR);
      FreeUnlink(b, k);
      assert t.blocks - s - {b} == blocks - (used + {b});
      used := used + {b};
    }

    /** The search loop of rt_memheap_alloc: the first free block with room for n bytes. */
    method Search(n: nat) returns (header: int, freeSize: int, ghost k: nat)
      requires Valid() && n > 0
      ensures k == FirstFit(T(), free, n)
      ensures freeSize >= n <==> k < |free|
      ensures k < |free| ==> header == free[k] && header in free && freeSize == Payload(T(), header)
    {
      freeSize := 0;
      ghost var ring := [HEAD] + free;
      k := 0;
      RingAt(Ghosts(), ring, 0);
      header := nextFree[HEAD];
      while header != HEAD && freeSize < n
        invariant 0 <= k <= |free| && header == Node(ring, k + 1)
        invariant forall i :: 0 <= i < k ==> Payload(T(), free[i]) < n
        invariant freeSize >= n ==> k < |free| && freeSize == Payload(T(), free[k])
        decreases |free| - k, if freeSize < n then 1 else 0
      {
        assert free[k] == ring[k + 1] == header && header in free;
        freeSize := next[header] - header - HDR;
        if freeSize < n {
          RingAt(Ghosts(), ring, k + 1);
          header := nextFree[header];
          k := k + 1;
        }
      }
      if k < |free| { assert free[k] == ring[k + 1] == header && header in free; }
    }

    /** The block that was found serves n bytes: cut in two if that is worth it. */
    method Serve(b: int, freeSize: int, n: nat, ghost k: nat)
      requires Valid() && k < |free| && free[k] == b && n >= MINI && n % ALIGN == 0 && freeSize == Payload(T(), b) >= n
      modifies this, bytes
      ensures Valid() && Allocated(old(T()), old(used), old(free), T(), used, free, k, n)
      ensures SamePayloads(old(T()), old(used), old(bytes[..]), bytes[..])
      ensures available == old(available) - Charged(old(T()), b, n) &&
                maxUsed == Max(old(maxUsed), poolSize - available)
      ensures b in old(blocks) && b !in old(used) && b != Tail() && Taken(old(T()), old(used), T(), used, b, n, MINI)
      ensures InUse(T(), used, b) && Payload(T(), b) >= n
      ensures ClearOf(old(T()), old(used), T(), b) && Still(old(T()), old(used), T(), used)
    {
      hide Extents, Coalesced, Backs, Ring, SamePayloads, Allocated, Taken, Still, ClearOf;
      ghost var t, s, f := T(), used, free;
      assert b in free && b in blocks && b !in used;
      if freeSize >= n + HDR + MINI {
        TakeCut(b, n, k);
      } else {
        TakeWhole(b, n, k);
      }
      AllocIsSafe(t, s, f, T(), used, free, k, n);
    }

    /** rt_memheap_alloc. */
    method Alloc(wanted: nat) returns (r: int)
      requires Valid()
      modifies this, bytes
      ensures Valid()
      ensures r == NULL <==> NoRoom(old(T()), old(used), old(available), Rounded(wanted))
      ensures r == NULL ==> unchanged(this) && unchanged(bytes)
      ensures r != NULL ==> var k := FirstFit(old(T()), old(free), Rounded(wanted));
                k < |old(free)| && r == start + old(free)[k] + HDR &&
                Allocated(old(T()), old(used), old(free), T(), used, free, k, Rounded(wanted))
      ensures r != NULL ==> var b, n := r - start - HDR, Rounded(wanted);
                b in old(blocks) && b !in old(used) && b != Tail() && Payload(old(T()), b) >= n &&
                Taken(old(T()), old(used), T(), used, b, n, MINI)
      ensures r != NULL ==> Live(r) && Payload(T(), r - start - HDR) >= Rounded(wanted)
      ensures r != NULL ==> ClearOf(old(T()), old(used), T(), r - start - HDR) && Still(old(T()), old(used), T(), used)
      ensures SamePayloads(old(T()), old(used), old(bytes[..]), bytes[..])
      ensures r != NULL ==> available == old(available) - Charged(old(T()), r - start - HDR, Rounded(wanted))
      ensures r != NULL ==> maxUsed == Max(old(maxUsed), poolSize - available)
    {
      hide Extents, Coalesced, Backs, Ring, SamePayloads, Allocated, Taken, Still, ClearOf, Charged;
      SamePayloadsRefl(T(), used, bytes[..]);
      var n := Align(wanted);
      if n < MINI { n := MINI; }
      assert n == Rounded(wanted) && n % ALIGN == 0;
      if n < available {
        var header, freeSize;
        ghost var k;
        header, freeSize, k := Search(n);
        if freeSize >= n {
          assert header in blocks && header !in used;
          Serve(header, freeSize, n, k);
          return start + header + HDR;
        }
        assert forall b :: b in blocks && b !in used ==> b in free;
      }
      return NULL;
    }
  
    // ---- rt_memheap_free ----

    /** Everything but what concerns the unused block x: whether it is in the free list, and whether
        it should merge with the block after it. */
    ghost predicate ValidUpTo(x: int)
      reads this
    {
      && Shape() && FreeRing() && x in blocks && x !in used && x != Tail()
      && CoalescedUpTo(T(), used, x)
      && available == Extents(T(), blocks - used, HDR, 0)
      && poolSize - available <= maxUsed
      && forall b :: b in blocks && b != x ==> (b in free <==> b !in used)
    }

    /** The block before b. */
    lemma PrevKnown(b: int)
      requires Shape() && b in blocks
      ensures b in prev && prev[b] in blocks && (b == 0 ==> prev[b] == Tail())
      ensures b != 0 ==> prev[b] < b && next[prev[b]] == b
      ensures forall p :: p in blocks && p != Tail() && next[p] == b ==> p == prev[b] && b != 0
    {
      if b != 0 && b != Tail() {
        var q := Predecessor(T(), b);
        assert BackAt(T(), prev, q);
      }
      forall p | p in blocks && p != Tail() && next[p] == b
        ensures p == prev[b] && b != 0
      {
        assert BlockAt(T(), p);
        PredecessorUnique(T(), p, prev[b]);
      }
    }

    /** Give back a block and merge it with the unused block before it; h is where it starts now. */
    method ReleaseLeft(b: int) returns (h: int, insert: bool)
      requires Valid() && b in blocks && b in used && b != Tail()
      modifies `next, `prev, `used, `available, `blocks, bytes
      ensures ValidUpTo(h) && used == old(used) - {b} && b in old(prev)
      ensures insert <==> old(prev[b]) in used
      ensures insert ==> h == b && T() == old(T()) && h !in free
      ensures !insert ==> h == old(prev[b]) && T() == Merge(old(T()), h) && h in free
      ensures SamePayloads(T(), used, old(bytes[..]), bytes[..])
    {
      hide Extents, CoalescedBut, CoalescedUpTo, Coalesced, Backs, Ring;
      ghost var t, s := T(), used;
      assert BlockAt(t, b);
      CoalesceDrop(t, s, b);
      ExtentsSelect(t, t.blocks - s, HDR, b);
      ExtentsBounds(t, t.blocks - s + {b}, HDR, 0);
      used := used - {b};
      assert t.blocks - s + {b} == blocks - used;
      available := available + (next[b] - b - HDR);
      h, insert := b, true;
      PrevKnown(b);
      var p := prev[b];
      if b == 0 { CoalesceStart(t, used); } else { CoalesceLeft(t, used, p); }
      if p !in used {
        assert BlockAt(t, p);
        available := available + HDR;
        ExtentsMergeSelected(t, blocks - used, HDR, p);
        ghost var sel := blocks - used;
        MergeHeader(p);
        ExtentsIgnore(T(), sel, blocks - used, HDR);
        h, insert := p, false;
      }
    }
  
    /** The list operations when the free block after h is merged into it. */
    method MergeRight(h: int)
      requires Shape() && FreeRing() && h in blocks && h != Tail() && h !in used
      requires next[h] != Tail() && next[h] in free && next[h] !in used
      modifies `next, `prev, `nextFree, `prevFree, `blocks, `free, bytes
      ensures Shape() && FreeRing() && T() == Merge(old(T()), h) && blocks == old(blocks) - {old(next[h])}
      ensures free == Del(old(free), old(next[h]))
      ensures forall x :: x in free <==> x in old(free) && x != old(next[h])
      ensures SamePayloads(T(), used, old(bytes[..]), bytes[..])
    {
      hide Extents, Backs, Ring;
      var c := next[h];
      ghost var k :| 0 <= k < |free| && free[k] == c;
      ghost var f := free;
      FreeDistinct(Ghosts(), f);
      DelWithout(f, k);
      WithoutElements(f, k);
      assert BlockAt(T(), h) && BlockAt(T(), c);
      FreeUnlink(c, k);
      MergeTiles(T(), h);
      MergeHeader(h);
    }

    /** Merge the block at h with the unused block after it, if that is unused. */
    method ReleaseRight(h: int)
      requires ValidUpTo(h)
      modifies `next, `prev, `nextFree, `prevFree, `available, `blocks, `free, bytes
      ensures ValidUpTo(h) && Coalesced(T(), used)
      ensures h in old(next)
      ensures old(next[h]) in used ==> T() == old(T()) && free == old(free)
      ensures old(next[h]) !in used ==> T() == Merge(old(T()), h) && free == Del(old(free), old(next[h]))
      ensures h in free <==> h in old(free)
      ensures SamePayloads(T(), used, old(bytes[..]), bytes[..])
    {
      hide Extents, Coalesced, Backs, Ring, SamePayloads;
      ghost var t, sel := T(), blocks - used;
      assert BlockAt(t, h);
      SamePayloadsRefl(T(), used, bytes[..]);
      CoalesceRight(t, used, h);
      if next[h] !in used {
        assert BlockAt(t, next[h]);
        available := available + HDR;
        ExtentsMergeSelected(t, sel, HDR, h);
        MergeRight(h);
        ExtentsIgnore(T(), sel, blocks - used, HDR);
        ExtentsBounds(T(), blocks - used, HDR, 0);
        CoalescedAll(T(), used, h);
      }
    }

    /** Both merges of rt_memheap_free; `insert` tells that there was none on the left. */
    method Unite(b: int) returns (h: int, insert: bool)
      requires Valid() && b in blocks && b in used && b != Tail()
      modifies `next, `prev, `nextFree, `prevFree, `used, `available, `blocks, `free, bytes
      ensures ValidUpTo(h) && Coalesced(T(), used) && used == old(used) - {b} && b in old(prev) && b in old(next)
      ensures insert <==> old(prev[b]) in used
      ensures h == (if insert then b else old(prev[b])) && (h in free <==> !insert)
      ensures blocks ==
                old(blocks) - (if old(next[b]) !in old(used) then {old(next[b])} else {}) - (if insert then {} else {b})
      ensures free == if old(next[b]) !in old(used) then Del(old(free), old(next[b])) else old(free)
      ensures Still(old(T()), used, T(), used) && Still(T(), used, old(T()), old(used))
      ensures SamePayloads(T(), used, old(bytes[..]), bytes[..])
    {
      hide Extents, Coalesced, CoalescedUpTo, Backs, Ring, SamePayloads;
      assert BlockAt(T(), b);
      PrevKnown(b);
      ghost var m0 := bytes[..];
      h, insert := ReleaseLeft(b);
      assert next[h] == old(next[b]);
      ghost var m1, t1 := bytes[..], T();
      ReleaseRight(h);
      SamePayloadsSub(t1, used, T(), used, m0, m1);
      SamePayloadsTrans(T(), used, T(), used, m0, m1, bytes[..]);
    }

    /** rt_memheap_free. */
    method Free(ptr: int)
      requires Valid() && (ptr != NULL ==> Live(ptr))
      modifies `next, `prev, `nextFree, `prevFree, `used, `available, `blocks, `free, bytes
      ensures Valid()
      ensures ptr == NULL ==> unchanged(this) && unchanged(bytes)
      ensures ptr != NULL ==> Freed(old(T()), old(used), old(free), T(), used, free, ptr - start - HDR)
      ensures ptr != NULL ==> used == old(used) - {ptr - start - HDR}
      ensures Still(old(T()), used, T(), used) && Still(T(), used, old(T()), old(used))
      ensures SamePayloads(T(), used, old(bytes[..]), bytes[..])
    {
      if ptr == NULL { return; }
      hide Extents, Coalesced, CoalescedUpTo, Backs, Ring, SamePayloads, Freed, Still;
      var b := ptr - start - HDR;
      PrevKnown(b);
      assert BlockAt(T(), b);
      ghost var t, s, f, p, m0 := T(), used, free, prev[b], bytes[..];
      var h, insert := Unite(b);
      ghost var m1 := bytes[..];
      if insert {
        FreePush(h);
        SamePayloadsTrans(T(), used, T(), used, m0, m1, bytes[..]);
      }
      FreedIs(t, s, f, T(), used, free, b, p, !insert);
    }
  
    // ---- rt_memheap_realloc ----

    /** Grow the block at b in place: the free block after it starts later. */
    method Grow(b: int, n: nat)
      requires Valid() && b in blocks && b in used && b != Tail() && n % ALIGN == 0
      requires next[b] in next && next[b] !in used && Payload(T(), b) < n
      requires Payload(T(), next[b]) + Payload(T(), b) > n + MINI
      modifies this, bytes
      ensures Valid() && Regrown(old(T()), old(used), old(free), T(), used, free, b, n)
      ensures b in blocks && b in used && next[b] == b + HDR + n
      ensures SamePayloads(old(T()), old(used), old(bytes[..]), bytes[..])
      ensures SamePayloads(T(), used - {b}, old(bytes[..]), bytes[..])
      ensures available == old(available) - (n - Payload(old(T()), b)) &&
                maxUsed == Max(old(maxUsed), poolSize - available)
    {
      hide Extents, Coalesced, Backs, Ring, Merge, Split, SamePayloads;
      ghost var t, s, f := T(), used, free;
      var c, n2 := next[b], b + HDR + n;
      assert BlockAt(t, b) && BlockAt(t, c);
      RegrowCounts(t, s, b, n2);
      Charge(n - (c - b - HDR));
      MoveBoundary(b, n2);
    }

    /** The free block after the used block b is taken out of both lists. */
    method Swallow(b: int)
      requires Shape() && FreeRing() && FreeExact() && b in blocks && b in used && b != Tail()
      requires next[b] in next && next[b] in free && next[b] != Tail()
      modifies `next, `prev, `nextFree, `prevFree, `blocks, `free, bytes
      ensures Shape() && FreeRing() && FreeExact() && T() == Merge(old(T()), b)
      ensures free == Del(old(free), old(next[b])) && old(next[b]) !in free
      ensures SamePayloads(old(T()), used, old(bytes[..]), bytes[..])
    {
      hide Extents, Backs, Ring, SamePayloads;
      var c := next[b];
      ghost var f, t, m0 := free, T(), bytes[..];
      ghost var k :| 0 <= k < |free| && free[k] == c;
      FreeDistinct(Ghosts(), f);
      DelWithout(f, k);
      WithoutElements(f, k);
      assert BlockAt(T(), b) && BlockAt(T(), c);
      FreeUnlink(c, k);
      ghost var m1 := bytes[..];
      MergeHeader(b);
      SamePayloadsSub(T(), used, t, used, m1, bytes[..]);
      SamePayloadsTrans(t, used, t, used, m0, m1, bytes[..]);
    }

    /** The list operations when the boundary after the used block b moves up to n2. */
    method MoveBoundary(b: int, n2: int)
      requires Shape() && FreeRing() && FreeExact() && b in blocks && b in used && b != Tail() && n2 % ALIGN == 0
      requires next[b] in next && next[b] in free && next[b] != Tail() && next[b] < n2 && n2 + HDR <= next[next[b]]
      requires Tiles(Merge(T(), b)) && b + HDR <= n2 && n2 + HDR <= Merge(T(), b).next[b] && n2 !in blocks
      modifies `next, `prev, `nextFree, `prevFree, `used, `blocks, `free, bytes
      ensures Shape() && FreeRing() && FreeExact() && T() == Split(Merge(old(T()), b), b, n2) &&
                used == old(used) - {n2}
      ensures blocks == old(blocks) - {old(next[b])} + {n2}
      ensures free == [n2] + Del(old(free), old(next[b]))
      ensures SamePayloads(old(T()), old(used), old(bytes[..]), bytes[..])
      ensures SamePayloads(T(), used - {b}, old(bytes[..]), bytes[..])
    {
      hide Extents, Backs, Ring, SamePayloads;
      ghost var t, s, m0 := T(), used, bytes[..];
      assert BlockAt(t, b);
      Swallow(b);
      ghost var m1 := bytes[..];
      SplitHeader(b, n2);
      ghost var m2 := bytes[..];
      FreePush(n2);
      SamePayloadsTrans(T(), used, T(), used, m1, m2, bytes[..]);
      SamePayloadsSub(T(), used, t, s, m1, bytes[..]);
      SamePayloadsTrans(t, s, t, s, m0, m1, bytes[..]);
      SamePayloadsSub(t, s, T(), used - {b}, m0, bytes[..]);
    }

    /** Shrink the block at b in place; what is given back merges with the free block after it. */
    method Shrink(b: int, n: nat)
      requires Valid() && b in blocks && b in used && b != Tail() && n % ALIGN == 0
      requires n + HDR + MINI < Payload(T(), b)
      modifies `next, `prev, `nextFree, `prevFree, `used, `available, `blocks, `free, bytes
      ensures Valid() && b in old(next) && b in blocks && b in used && next[b] == b + HDR + n
      ensures Shrunk(old(T()), old(used), old(free), T(), used, free, b, n)
      ensures SamePayloads(T(), used, old(bytes[..]), bytes[..])
    {
      hide Extents, Coalesced, Backs, Ring, SamePayloads, Split, Merge;
      assert BlockAt(T(), b);
      var n2 := b + HDR + n;
      var c := next[b];
      CutCounts(T(), used, b, n2);
      if c !in used {
        assert BlockAt(T(), c);
        available := available - (next[c] - c - HDR);
      }
      CutOff(b, n2);
      assert BlockAt(T(), n2);
      available := available + (next[n2] - n2 - HDR);
    }

    /** The list operations when the end of the used block b, from n2 on, becomes free. */
    method CutOff(b: int, n2: int)
      requires Shape() && FreeRing() && FreeExact() && b in blocks && b in used && b != Tail() && n2 % ALIGN == 0
      requires b + HDR <= n2 && n2 + HDR <= next[b]
      modifies `next, `prev, `nextFree, `prevFree, `used, `blocks, `free, bytes
      ensures Shape() && FreeRing() && FreeExact() && used == old(used) - {n2} && b in old(next) && n2 !in old(blocks)
      ensures var t1, c := Split(old(T()), b, n2), old(next[b]);
              T() == (if c !in old(used) then Merge(t1, n2) else t1) &&
              free == [n2] + (if c !in old(used) then Del(old(free), c) else old(free))
      ensures b in blocks && b in used && next[b] == n2
      ensures SamePayloads(T(), used, old(bytes[..]), bytes[..])
    {
      hide Extents, Backs, Ring, SamePayloads;
      ghost var m0 := bytes[..];
      assert BlockAt(T(), b);
      SplitTiles(T(), b, n2);
      SplitHeader(b, n2);
      ghost var m1, t1 := bytes[..], T();
      assert BlockAt(t1, n2);
      SamePayloadsRefl(T(), used, m1);
      if next[n2] !in used {
        MergeRight(n2);
        SamePayloadsSub(t1, used, T(), used, m0, m1);
        SamePayloadsTrans(T(), used, T(), used, m0, m1, bytes[..]);
      }
      ghost var m2 := bytes[..];
      FreePush(n2);
      SamePayloadsTrans(T(), used, T(), used, m0, m2, bytes[..]);
    }
  
    /** Copy the first k bytes of the block at b to the block at c, and free b. */
    method CopyOver(b: int, ghost c: int, k: nat, dst: int)
      requires Valid() && Live(start + b + HDR) && Live(start + c + HDR) && b != c
      requires c + HDR + k <= next[c] && b + HDR + k <= next[b] && dst == c + HDR
      modifies `next, `prev, `nextFree, `prevFree, `used, `available, `blocks, `free, bytes
      ensures Valid() && used == old(used) - {b} && c in blocks
      ensures Still(old(T()), used, T(), used) && Still(T(), used, old(T()), old(used))
      ensures Kept(old(bytes[..]), b + HDR, bytes[..], c + HDR, k)
      ensures SamePayloads(T(), used - {c}, old(bytes[..]), bytes[..])
    {
      hide Extents, Coalesced, Backs, SamePayloads, Freed, Kept, Ring;
      ghost var t1, s1, m1 := T(), used, bytes[..];
      assert BlockAt(t1, b) && BlockAt(t1, c);
      PayloadsDisjoint(t1, b, c);
      CopyBytes(bytes, dst, b + HDR, k);
      ghost var m2 := bytes[..];
      Free(start + b + HDR);
      MovedBytes(t1, s1, T(), used, m1, m2, bytes[..], b, c, k);
    }

    /** Reallocate elsewhere: a new block, the old bytes copied into it, the old block freed. */
    method Move(ptr: int, n: nat) returns (r: int)
      requires Valid() && Live(ptr) && n == Rounded(n)
      modifies this, bytes
      ensures Valid()
      ensures r == NULL <==> NoRoom(old(T()), old(used), old(available), n)
      ensures r == NULL ==> unchanged(this) && unchanged(bytes)
      ensures r != NULL ==> var k := FirstFit(old(T()), old(free), n);
                k < |old(free)| && r == start + old(free)[k] + HDR &&
                Moved(old(T()), old(used), T(), used, old(bytes[..]), bytes[..], ptr - start - HDR, r - start - HDR, n)
      ensures r != NULL ==>
                maxUsed == Max(old(maxUsed), poolSize - old(available) + Charged(old(T()), r - start - HDR, n))
    {
      hide Extents, Coalesced, Backs, SamePayloads, Taken, Moved, Ring, Allocated, NoRoom, Charged, ClearOf, Still;
      hide FreeRing, FreeExact, Accounted, FirstFit;
      ghost var t0, s0, m0 := T(), used, bytes[..];
      var b := ptr - start - HDR;
      assert BlockAt(t0, b);
      var was := next[b] - b - HDR;
      r := Alloc(n);
      if r != NULL {
        ghost var c := r - start - HDR;
        Relocate(b, c, was, n, r - start, t0, s0, m0);
      }
    }

    /** The rest of the move, once block c was taken from the state t0, s0 with the bytes m0. */
    method Relocate(b: int, ghost c: int, was: nat, n: nat, dst: int, ghost t0: Tiling, ghost s0: set<int>,
                    ghost m0: seq<int>)
      requires Valid() && Tiles(t0) && t0.lo == 0 && t0.hi == Tail() && t0.hdr == HDR && |m0| == bytes.Length
      requires b in t0.blocks && b in s0 && b != Tail() && was == Payload(t0, b) && dst == c + HDR
      requires c in t0.blocks && c !in s0 && c != Tail() && Payload(t0, c) >= n
      requires Taken(t0, s0, T(), used, c, n, MINI) && SamePayloads(t0, s0, m0, bytes[..])
      modifies `next, `prev, `nextFree, `prevFree, `used, `available, `blocks, `free, bytes
      ensures Valid() && Moved(t0, s0, T(), used, m0, bytes[..], b, c, n)
    {
      hide Extents, Coalesced, Backs, SamePayloads, Taken, Freed, Moved, Kept, Ring;
      ghost var t1, s1, m1 := T(), used, bytes[..];
      assert BlockAt(t0, b) && BlockAt(t0, c);
      TakenNext(t0, s0, t1, s1, c, n, MINI);
      assert BlockAt(t1, c);
      CopyOver(b, c, Min(was, n), dst);
      hide Still;
      MovedWhole(t0, s0, t1, s1, T(), used, m0, m1, bytes[..], b, c, n);
    }

    /** When rt_memheap_realloc grows a block without moving it. */
    ghost predicate CanGrow(b: int, n: int)
      reads this
    {
      && b in next && next[b] in blocks && next[b] !in used
      && Payload(T(), next[b]) + Payload(T(), b) > n + MINI
    }

    /** rt_memheap_realloc of a block that is to get larger. */
    method Enlarge(ptr: int, n: nat) returns (r: int)
      requires Valid() && Live(ptr) && n == Rounded(n) && Payload(T(), ptr - start - HDR) < n
      modifies this, bytes
      ensures Valid()
      ensures old(CanGrow(ptr - start - HDR, n)) ==> r == ptr
      ensures old(CanGrow(ptr - start - HDR, n)) ==>
                Regrown(old(T()), old(used), old(free), T(), used, free, ptr - start - HDR, n)
      ensures !old(CanGrow(ptr - start - HDR, n)) ==>
                (r == NULL <==> NoRoom(old(T()), old(used), old(available), n)) &&
                (r != NULL ==> r == start + old(free)[FirstFit(old(T()), old(free), n)] + HDR)
      ensures r == NULL ==> unchanged(this) && unchanged(bytes)
      ensures r != NULL ==>
                Reallocated(old(T()), old(used), T(), used, old(bytes[..]), bytes[..],
                            ptr - start - HDR, r - start - HDR, n)
      ensures old(CanGrow(ptr - start - HDR, n)) ==>
                maxUsed == Max(old(maxUsed), poolSize - old(available) + n - Payload(old(T()), ptr - start - HDR))
      ensures !old(CanGrow(ptr - start - HDR, n)) && r != NULL ==>
                maxUsed == Max(old(maxUsed), poolSize - old(available) + Charged(old(T()), r - start - HDR, n))
    {
      hide Extents, Coalesced, Backs, SamePayloads, Kept, Ring, NoRoom, FirstFit, Regrown, Moved, Reallocated, Charged;
      ghost var m, t, s, f := bytes[..], T(), used, free;
      var b := ptr - start - HDR;
      assert BlockAt(T(), b);
      if next[b] !in used {
        var c := next[b];
        if next[c] - c - HDR + (next[b] - b - HDR) > n + MINI {
          Grow(b, n);
          GrownIsReallocated(t, s, f, T(), used, free, m, bytes[..], b, n);
          return ptr;
        }
      }
      r := Move(ptr, n);
      if r != NULL { MovedIsReallocated(t, s, T(), used, m, bytes[..], b, r - start - HDR, n); }
    }

    /** rt_memheap_realloc of a block that is to get smaller, or to stay as it is. */
    method Reduce(ptr: int, n: nat)
      requires Valid() && Live(ptr) && n == Rounded(n) && n <= Payload(T(), ptr - start - HDR)
      modifies `next, `prev, `nextFree, `prevFree, `used, `available, `blocks, `free, bytes
      ensures Valid() && ptr - start - HDR in old(next)
      ensures n + HDR + MINI >= Payload(old(T()), ptr - start - HDR) ==> unchanged(this) && unchanged(bytes)
      ensures n + HDR + MINI < Payload(old(T()), ptr - start - HDR) ==>
                Shrunk(old(T()), old(used), old(free), T(), used, free, ptr - start - HDR, n)
      ensures Reallocated(old(T()), old(used), T(), used, old(bytes[..]), bytes[..],
                          ptr - start - HDR, ptr - start - HDR, n)
    {
      hide Extents, Coalesced, Backs, SamePayloads, Kept, Ring;
      var b := ptr - start - HDR;
      assert BlockAt(T(), b);
      ghost var m := bytes[..];
      SamePayloadsRefl(T(), used, m);
      if n + HDR + MINI < next[b] - b - HDR {
        Shrink(b, n);
        assert BlockAt(T(), b);
      }
      KeptInPlace(T(), used, m, bytes[..], b, n);
      SamePayloadsSub(T(), used, T(), used - {b}, m, bytes[..]);
    }

    /** rt_memheap_realloc. */
    method Realloc(ptr: int, wanted: nat) returns (r: int)
      requires Valid() && (ptr != NULL ==> Live(ptr))
      modifies this, bytes
      ensures Valid()
      ensures wanted == 0 ==> r == NULL
      ensures wanted == 0 && ptr != NULL ==> Freed(old(T()), old(used), old(free), T(), used, free, ptr - start - HDR)
      ensures wanted == 0 ==> SamePayloads(T(), used, old(bytes[..]), bytes[..])
      ensures wanted > 0 && (ptr == NULL || old(MustMove(ptr - start - HDR, Rounded(wanted)))) ==>
                (r == NULL <==> NoRoom(old(T()), old(used), old(available), Rounded(wanted)))
      ensures wanted > 0 && (ptr == NULL || old(MustMove(ptr - start - HDR, Rounded(wanted)))) && r != NULL ==>
                r == start + old(free)[FirstFit(old(T()), old(free), Rounded(wanted))] + HDR
      ensures ptr != NULL && wanted > 0 && !old(MustMove(ptr - start - HDR, Rounded(wanted))) ==> r == ptr
      ensures ptr != NULL && wanted > 0 &&
              old(var b, n := ptr - start - HDR, Rounded(wanted);
                  Payload(T(), b) >= n ||
                  (b in next && next[b] in blocks && next[b] !in used &&
                   Payload(T(), next[b]) + Payload(T(), b) > n + MINI)) ==>
                r == ptr
      ensures wanted > 0 && r == NULL ==> unchanged(this) && unchanged(bytes)
      ensures ptr == NULL && r != NULL ==>
                Allocated(old(T()), old(used), old(free), T(), used, free,
                          FirstFit(old(T()), old(free), Rounded(wanted)), Rounded(wanted)) &&
                SamePayloads(old(T()), old(used), old(bytes[..]), bytes[..])
      ensures ptr != NULL && r != NULL ==>
                Reallocated(old(T()), old(used), T(), used, old(bytes[..]), bytes[..],
                            ptr - start - HDR, r - start - HDR, Rounded(wanted))
      ensures r == NULL || (ptr != NULL && Rounded(wanted) <= old(Payload(T(), ptr - start - HDR))) ==>
                maxUsed == old(maxUsed)
      ensures r != NULL && ptr != NULL && old(Payload(T(), ptr - start - HDR)) < Rounded(wanted) &&
              old(CanGrow(ptr - start - HDR, Rounded(wanted))) ==>
                maxUsed == Max(old(maxUsed),
                               poolSize - old(available) + Rounded(wanted) - old(Payload(T(), ptr - start - HDR)))
      ensures r != NULL && (ptr == NULL || old(MustMove(ptr - start - HDR, Rounded(wanted)))) ==>
                maxUsed == Max(old(maxUsed),
                               poolSize - old(available) + Charged(old(T()), r - start - HDR, Rounded(wanted)))
    {
      hide Extents, Coalesced, Backs, SamePayloads, Kept, Ring, NoRoom, FirstFit, Reallocated, Allocated, Freed;
      hide Regrown, Charged, ClearOf, Still;
      SamePayloadsRefl(T(), used, bytes[..]);
      if wanted == 0 {
        Free(ptr);
        return NULL;
      }
      var n := Align(wanted);
      if n < MINI { n := MINI; }
      assert n == Rounded(wanted) == Rounded(n);
      if ptr == NULL {
        r := Alloc(n);
        return;
      }
      var b := ptr - start - HDR;
      assert BlockAt(T(), b);
      if n > next[b] - b - HDR {
        r := Enlarge(ptr, n);
      } else {
        Reduce(ptr, n);
        r := ptr;
      }
    }

    /** When rt_memheap_realloc has to look for another block. */
    ghost predicate MustMove(b: int, n: int)
      reads this
    {
      Payload(T(), b) < n && !CanGrow(b, n)
    }

    /** rt_memheap_init: one free block and the used tail. */
    constructor (address: int, size: nat)
      requires address > 0 && size / ALIGN * ALIGN >= 2 * HDR
      ensures Valid() && fresh(bytes) && start == address && poolSize == size / ALIGN * ALIGN
      ensures blocks == {0, Tail()} && free == [0] && available == poolSize - 2 * HDR && maxUsed == 2 * HDR
      ensures forall p :: !Live(p)
    {
      var pool := size / ALIGN * ALIGN;
      start, poolSize := address, pool;
      bytes := new int[pool];
      next := map[0 := pool - HDR, pool - HDR := 0];
      prev := map[0 := pool - HDR, pool - HDR := 0];
      nextFree := map[0 := HEAD, HEAD := 0];
      prevFree := map[0 := HEAD, HEAD := 0];
      used := {pool - HDR};
      available, maxUsed := pool - 2 * HDR, 2 * HDR;
      blocks, free := {0, pool - HDR}, [0];
      new;
      assert BlockAt(T(), 0) && OneOfPair(T(), used, 0);
      assert Extents(T(), blocks - used, HDR, Tail()) == 0;
      assert LinkedAt(Ghosts(), [HEAD] + free, 0) && LinkedAt(Ghosts(), [HEAD] + free, 1);
    }
  }

  /** rt_memheap_alloc fails for want of a block that is large enough, and in one other case: the block takes exactly
      all that is available. */
  lemma AllocFails(h: Heap, wanted: nat)
    requires h.Valid()
    ensures NoRoom(h.T(), h.used, h.available, Rounded(wanted)) <==>
            Rounded(wanted) == h.available ||
            forall b :: b in h.blocks && b !in h.used ==> h.next[b] - b - HDR < Rounded(wanted)
  {
    ExtentsBounds(h.T(), h.blocks - h.used, HDR, 0);
  }
}
