/** The small-memory heap of mem.c: block headers linked by offsets, first fit from a hint. */
module SmallMem {
  import opened Blocks

  const ALIGN := 4
  const HDR := 12      // SIZEOF_STRUCT_MEM
  const MIN_SIZE := 12
  const NULL := 0

  /** RT_ALIGN. */
  function Align(size: nat): (r: nat)
    ensures size <= r < size + ALIGN && r % ALIGN == 0
  {
    (size + ALIGN - 1) / ALIGN * ALIGN
  }

  /** The payload rt_malloc looks for. */
  function Rounded(size: nat): (r: nat)
    ensures size <= r && MIN_SIZE <= r && r % ALIGN == 0 && (r < size + ALIGN || r == MIN_SIZE)
  {
    if Align(size) < MIN_SIZE then MIN_SIZE else Align(size)
  }

  /** The block at b was in use; it is not, and has merged with its unused neighbours. */
  ghost predicate Freed(t: Tiling, s: set<int>, t': Tiling, s': set<int>, b: int)
    requires b in t.next
  {
    var left := exists p :: p in t.blocks && p !in s && p in t.next && t.next[p] == b;
    && t'.blocks == t.blocks - (if t.next[b] !in s then {t.next[b]} else {}) - (if left then {b} else {})
    && s' == s - {b}
  }

  /** Freed, with the question of the block before b answered: p is the only candidate. */
  lemma FreedIs(t: Tiling, s: set<int>, t': Tiling, s': set<int>, b: int, p: int, left: bool)
    requires b in t.next && p in t.blocks && p in t.next
    requires left == (p != b && p !in s) && (left ==> t.next[p] == b) && b in s
    requires forall q :: q in t.blocks && q !in s && q in t.next && t.next[q] == b ==> q == p
    requires t'.blocks == t.blocks - (if t.next[b] !in s then {t.next[b]} else {}) - (if left then {b} else {})
    requires s' == s - {b}
    ensures Freed(t, s, t', s', b)
  {
  }

  /** The block at b stays in use with n bytes; the rest of it is a block of its own, or part of the
      unused block that followed. */
  ghost predicate Shrunk(t: Tiling, s: set<int>, t': Tiling, s': set<int>, b: int, n: int)
    requires b in t.next
  {
    && t'.blocks == t.blocks + {b + HDR + n} - (if t.next[b] !in s then {t.next[b]} else {})
    && t'.blocks * s' == t.blocks * s
  }

  /** rt_realloc of block b to n bytes: refused (not ok), kept, shrunk, or moved to block c. */
  ghost predicate Resized(t: Tiling, s: set<int>, t': Tiling, s': set<int>, was: seq<int>, now: seq<int>,
                          b: int, c: int, n: int, ok: bool) {
    && b in t.next
    && (!ok ==> t' == t && s' == s && now == was)
    && (ok ==> SamePayloads(t', s' - {c}, was, now) && Kept(was, b + HDR, now, c + HDR, Min(t.next[b] - b - HDR, n)))
    && (ok && c == b ==>
        (t' == t && s' == s && t.next[b] - b - HDR == n) || (Shrunk(t, s, t', s', b, n) && n < t.next[b] - b - HDR))
    && (ok && c != b ==> Moved(t, s, t', s', was, now, b, c, n))
  }

  lemma MovedIsResized(t: Tiling, s: set<int>, t': Tiling, s': set<int>, was: seq<int>, now: seq<int>, b: int, c: int,
                       n: int)
    requires Moved(t, s, t', s', was, now, b, c, n) && t.hdr == HDR
    ensures Resized(t, s, t', s', was, now, b, c, n, true)
  {
  }

  class Heap {
    const base: int              // heap_ptr
    const size: nat              // mem_size_aligned
    const bytes: array<int>      // what heap_ptr points at
    var next: map<int, int>      // the header fields, by offset
    var prev: map<int, int>
    var used: set<int>           // the headers whose used flag is set
    var magic: set<int>          // the headers that hold HEAP_MAGIC
    var lfree: int
    var usedMem: int
    var maxMem: int
    ghost var blocks: set<int>

    ghost function T(): Tiling
      reads this
    {
      Tiling(blocks, next, 0, size + HDR, HDR)
    }

    /** Offset of heap_end. */
    function End(): int { size + HDR }

    /** The headers form a doubly linked tiling of the heap. */
    ghost predicate Shape()
      reads this
    {
      && base >= 0 && bytes.Length == size + 2 * HDR && size >= MIN_SIZE && size % ALIGN == 0
      && Tiles(T()) && Backs(T(), prev)
      && 0 in prev && prev[0] == 0
      && (forall b :: b in blocks ==> b % ALIGN == 0)
      && End() in used && next[End()] == End()
      && (forall b :: b in blocks && b in used && b != End() ==> b in magic)
    }

    /** The hint is an existing block that is unused, or the end. */
    ghost predicate HintOk()
      reads this
    {
      lfree in blocks && (lfree != End() ==> lfree !in used)
    }

    ghost predicate Structure()
      reads this
    {
      Shape() && HintOk()
    }

    ghost predicate Accounted()
      requires Shape()
      reads this
    {
      && Coalesced(T(), used)
      && usedMem == Extents(T(), used, 0, 0)
      && usedMem <= maxMem
    }

    ghost predicate Valid()
      reads this
    {
      Structure() && Accounted()
    }

    /** The hint is at or below every unused block. */
    ghost predicate HintIsLowest()
      reads this
    {
      forall b :: b in blocks && b !in used ==> lfree <= b
    }

    /** p is the address of the payload of a block in use. */
    ghost predicate Live(p: int)
      reads this
    {
      var b := p - base - HDR; b in blocks && b != End() && b in used
    }

    /** A header is written into the heap's own bytes; what it holds is in the maps. */
    method Header(b: int)
      requires 0 <= b && b + HDR <= bytes.Length
      modifies bytes
      ensures OnlyHeader(HDR, b, old(bytes[..]), bytes[..])
    {
      for i := 0 to HDR
        invariant OnlyHeader(HDR, b, old(bytes[..]), bytes[..])
      {
        bytes[b + i] := *;
      }
    }

    /** One merge of plug_holes: b takes over the unused block after it. */
    method Absorb(b: int)
      requires Structure() && b in blocks && b != End() && b !in used
      requires next[b] != End() && next[b] !in used
      modifies `next, `prev, `lfree, `blocks, bytes
      ensures Structure() && T() == Merge(old(T()), b) && blocks == old(blocks) - {old(next[b])}
      ensures lfree == if old(lfree) == old(next[b]) then b else old(lfree)
      ensures Extents(T(), used, 0, 0) == old(Extents(T(), used, 0, 0))
      ensures SamePayloads(T(), used, old(bytes[..]), bytes[..])
    {
      ghost var t, p, was := T(), prev, bytes[..];
      MergeTiles(t, b);
      BacksMerge(t, p, b);
      ExtentsMergeFree(t, used, 0, b);
      var c := next[b];
      assert BlockAt(t, b) && BlockAt(t, c);
      if lfree == c { lfree := b; }
      next := next[b := next[c]];
      prev := prev[next[c] := b];
      blocks := blocks - {c};
      assert T() == Merge(t, b);
      Header(b);
      HeaderHarmless(T(), used, b, was, bytes[..]);
      ghost var mid := bytes[..];
      Header(next[c]);
      HeaderHarmless(T(), used, next[c], mid, bytes[..]);
    }
  
    /** plug_holes: merge an unused block with its unused neighbours, forward then backward. */
    method PlugHoles(mem: int)
      requires Structure() && mem in blocks && mem != End() && mem !in used
      requires CoalescedBut(T(), used, mem)
      modifies `next, `prev, `lfree, `blocks, bytes
      ensures Structure() && Coalesced(T(), used)
      ensures mem in old(next) && mem in old(prev)
      ensures var c, p := old(next[mem]), old(prev[mem]);
              var forward, backward := c !in used, p != mem && p !in used;
              var l := if forward && old(lfree) == c then mem else old(lfree);
              blocks == old(blocks) - (if forward then {c} else {}) - (if backward then {mem} else {}) &&
              lfree == if backward && l == mem then p else l
      ensures Extents(T(), used, 0, 0) == old(Extents(T(), used, 0, 0))
      ensures forall b :: b in blocks && b in used ==> next[b] == old(next[b])
      ensures SamePayloads(T(), used, old(bytes[..]), bytes[..])
    {
      hide Extents, Coalesced, CoalescedBut;
      ghost var t0, was := T(), bytes[..];
      assert BlockAt(t0, mem);
      PrevKnown(mem);
      ghost var p := prev[mem];
      assert BlockAt(t0, p);
      var nmem := next[mem];
      if mem != nmem && nmem !in used && nmem != End() {
        CoalesceForward(t0, used, mem);
        assert BlockAt(t0, nmem);
        Absorb(mem);
      }
      ghost var mid, t1 := bytes[..], T();
      assert BlockAt(t1, mem);
      PrevKnown(mem);
      var pmem := prev[mem];
      assert pmem == p by {
        assert BlockAt(t1, pmem) && BlockAt(t0, pmem);
      }
      if mem == 0 { CoalesceFirst(t1, used); } else { CoalesceBackward(t1, used, pmem); }
      if pmem != mem && pmem !in used {
        Absorb(pmem);
      }
    }

    /** A new unused header at n, inside the block at b. */
    method SplitHeader(b: int, n: int)
      requires Structure() && b in blocks && b != End()
      requires b + HDR <= n && n + HDR <= next[b] && n % ALIGN == 0
      modifies `next, `prev, `used, `blocks, bytes
      ensures Structure() && T() == Split(old(T()), b, n)
      ensures n !in old(blocks) && used == old(used) - {n}
      ensures SamePayloads(T(), used, old(bytes[..]), bytes[..])
    {
      ghost var t, p, was := T(), prev, bytes[..];
      BacksSplit(t, p, b, n);
      SplitTiles(t, b, n);
      assert BlockAt(t, b);
      used := used - {n};
      prev := prev[n := b];
      next := next[n := next[b]];
      next := next[b := n];
      blocks := blocks + {n};
      assert T() == Split(t, b, n);
      Header(n);
      HeaderHarmless(T(), used, n, was, bytes[..]);
      if next[n] != size + HDR {
        ghost var mid := bytes[..];
        prev := prev[next[n] := n];
        Header(next[n]);
        HeaderHarmless(T(), used, next[n], mid, bytes[..]);
      }
    }

    /** What rt_malloc accepts: an unused block, from the hint on, with room for n bytes. */
    ghost predicate Fits(b: int, n: int)
      reads this
    {
      b in blocks && b !in used && lfree <= b < size - n && b in next && next[b] - b - HDR >= n
    }

    /** Cut an unused block to n bytes; what follows becomes a block of its own. */
    method CutFree(mem: int, n: nat)
      requires Valid() && mem in blocks && mem != End() && mem !in used && n >= MIN_SIZE && n % ALIGN == 0
      requires next[mem] - mem - HDR >= n + HDR + MIN_SIZE
      modifies `next, `prev, `used, `blocks, bytes
      ensures Structure() && T() == Split(old(T()), mem, mem + HDR + n) && used == old(used) - {mem + HDR + n}
      ensures Coalesced(T(), used + {mem}) && usedMem == Extents(T(), used, 0, 0)
      ensures blocks * used == old(blocks) * old(used)
      ensures SamePayloads(old(T()), old(used), old(bytes[..]), bytes[..])
    {
      hide Extents, Coalesced, Backs;
      ghost var t, s := T(), used;
      var ptr2 := mem + HDR + n;
      CoalesceSplit(t, s, mem, ptr2);
      SplitHeader(mem, ptr2);
      ExtentsIgnore(t, s, used, 0);
      ExtentsSplitFree(t, used, 0, mem, ptr2);
    }

    /** The middle part of rt_malloc: use the block at mem for n bytes, splitting it if it is large. */
    method Take(mem: int, n: nat)
      requires Valid() && Fits(mem, n) && n >= MIN_SIZE && n % ALIGN == 0
      modifies `next, `prev, `used, `magic, `usedMem, `maxMem, `blocks, bytes
      ensures Shape() && Accounted()
      ensures Taken(old(T()), old(used), T(), used, mem, n, MIN_SIZE)
      ensures SamePayloads(old(T()), old(used), old(bytes[..]), bytes[..])
      ensures mem in next && usedMem == old(usedMem) + (next[mem] - mem) && maxMem == Max(old(maxMem), usedMem)
    {
      hide Extents, Coalesced, Backs, SamePayloads;
      assert BlockAt(T(), mem);
      if next[mem] - (mem + HDR) >= n + HDR + MIN_SIZE {
        CutFree(mem, n);
        ExtentsSelect(T(), used, 0, mem);
        usedMem := usedMem + n + HDR;
      } else {
        CoalesceTake(T(), used, mem);
        ExtentsSelect(T(), used, 0, mem);
        SamePayloadsRefl(T(), used, bytes[..]);
        usedMem := usedMem + next[mem] - mem;
      }
      assert BlockAt(T(), mem);
      used := used + {mem};
      magic := magic + {mem};
      if maxMem < usedMem { maxMem := usedMem; }
    }

    /** rt_malloc. */
    method Malloc(wanted: nat) returns (r: int)
      requires Valid()
      modifies this, bytes
      ensures Valid()
      ensures r == NULL <==> wanted == 0 || Align(wanted) > size || forall b :: !old(Fits(b, Rounded(wanted)))
      ensures r == NULL ==> unchanged(this) && unchanged(bytes)
      ensures r != NULL ==> var b, n := r - base - HDR, Rounded(wanted);
                old(Fits(b, n)) && (forall c :: old(Fits(c, n)) ==> b <= c) &&
                Taken(old(T()), old(used), T(), used, b, n, MIN_SIZE)
      ensures r != NULL ==> var b := r - base - HDR;
                b in next && usedMem == old(usedMem) + (next[b] - b) && maxMem == Max(old(maxMem), usedMem)
      ensures SamePayloads(old(T()), old(used), old(bytes[..]), bytes[..])
      ensures old(HintIsLowest()) ==> HintIsLowest()
    {
      if wanted == 0 { return NULL; }
      var n := Align(wanted);
      if n > size { return NULL; }
      if n < MIN_SIZE { n := MIN_SIZE; }
      assert n % ALIGN == 0 && n == Rounded(wanted);
      var ptr := lfree;
      while ptr < size - n
        invariant ptr in blocks && lfree <= ptr <= End()
        invariant forall b :: Fits(b, n) ==> ptr <= b
        decreases End() - ptr
      {
        assert BlockAt(T(), ptr);
        if ptr !in used && next[ptr] - (ptr + HDR) >= n {
          label Found:
          ghost var t := T();
          Take(ptr, n);
          TakenFrame(t, old(used), T(), used, ptr, n, MIN_SIZE);
          if ptr == lfree {
            AdvanceHint(t, old(used), ptr);
          }
          return base + ptr + HDR;
        }
        ptr := next[ptr];
      }
      return NULL;
    }

    /** The last part of rt_malloc: move the hint from the block just taken to the next unused one. */
    method AdvanceHint(ghost t: Tiling, ghost s: set<int>, ghost mem: int)
      requires Shape() && Accounted() && lfree in blocks
      modifies `lfree
      ensures Valid() && old(lfree) <= lfree
      ensures forall b :: b in blocks && b !in used && old(lfree) <= b ==> lfree <= b
    {
      while lfree in used && lfree != size + HDR
        invariant lfree in blocks && old(lfree) <= lfree
        invariant forall b :: b in blocks && b !in used && old(lfree) <= b ==> lfree <= b
        decreases End() - lfree
      {
        assert BlockAt(T(), lfree);
        lfree := next[lfree];
      }
    }

    predicate InRange(rmem: int) { rmem != NULL && base <= rmem < base + size + HDR }

    /** Give back the block at mem: rt_free once the header is found. */
    method Release(mem: int)
      requires Valid() && mem in blocks && mem in used && mem != End() && mem in prev && prev[mem] in next
      modifies `next, `prev, `used, `magic, `lfree, `usedMem, `blocks, bytes
      ensures Valid() && used == old(used) - {mem} && mem in old(next)
      ensures var c, p := old(next[mem]), old(prev[mem]);
              var forward, backward := c !in used, p != mem && p !in used;
              var m := if mem < old(lfree) then mem else old(lfree);
              var l := if forward && m == c then mem else m;
              blocks == old(blocks) - (if forward then {c} else {}) - (if backward then {mem} else {}) &&
              lfree == if backward && l == mem then p else l
      ensures forall b :: b in blocks && b in used ==> next[b] == old(next[b])
      ensures SamePayloads(T(), used, old(bytes[..]), bytes[..])
    {
      hide Extents, Coalesced, CoalescedBut, Backs, SamePayloads;
      ghost var t, s := T(), used;
      assert BlockAt(t, mem);
      CoalesceDrop(t, s, mem);
      ExtentsSelect(t, s - {mem}, 0, mem);
      assert s - {mem} + {mem} == s;
      used := used - {mem};
      magic := magic - {mem};
      if mem < lfree { lfree := mem; }
      usedMem := usedMem - (next[mem] - mem);
      ExtentsBounds(t, used, 0, 0);
      PlugHoles(mem);
    }

    /** rt_free. */
    method Free(rmem: int)
      requires Valid() && (InRange(rmem) ==> Live(rmem))
      modifies `next, `prev, `used, `magic, `lfree, `usedMem, `blocks, bytes
      ensures Valid()
      ensures !InRange(rmem) ==> unchanged(this) && unchanged(bytes)
      ensures InRange(rmem) ==> Freed(old(T()), old(used), T(), used, rmem - base - HDR)
      ensures InRange(rmem) ==> used == old(used) - {rmem - base - HDR}
      ensures Still(old(T()), used, T(), used) && Still(T(), used, old(T()), old(used))
      ensures SamePayloads(T(), used, old(bytes[..]), bytes[..])
      ensures old(HintIsLowest()) ==> HintIsLowest()
    {
      if rmem == NULL { return; }
      if rmem < base || rmem >= base + size + HDR { return; }
      hide Extents, Coalesced, CoalescedBut, Backs, SamePayloads, Freed;
      var mem := rmem - HDR - base;
      PrevKnown(mem);
      ghost var t, s, p := T(), used, prev[mem];
      assert BlockAt(t, mem);
      assert mem in magic;
      Release(mem);
      FreedIs(t, s, T(), used, mem, p, p != mem && p !in s);
    }

    /** The in-place half of rt_realloc: give back the end of a block in use. */
    method Shrink(mem: int, n: nat)
      requires Valid() && mem in blocks && mem != End() && mem in used && n % ALIGN == 0
      requires n + HDR + MIN_SIZE < next[mem] - mem - HDR
      modifies `next, `prev, `used, `lfree, `usedMem, `blocks, bytes
      ensures Valid() && Shrunk(old(T()), old(used), T(), used, mem, n)
      ensures mem in blocks && mem in used && next[mem] == mem + HDR + n
      ensures SamePayloads(T(), used, old(bytes[..]), bytes[..])
      ensures old(HintIsLowest()) ==> (HintIsLowest() <==> old(lfree) <= old(next[mem]) && old(lfree) != End())
    {
      hide Extents, Coalesced, CoalescedBut, Backs, SamePayloads;
      assert BlockAt(T(), mem);
      CutEnd(mem, n);
    }

    /** The end of the block at mem becomes an unused block, or part of the one behind. */
    method CutEnd(mem: int, n: nat)
      requires Valid() && mem in blocks && mem != End() && mem in used && n % ALIGN == 0
      requires n + HDR + MIN_SIZE < next[mem] - mem - HDR
      modifies `next, `prev, `used, `lfree, `usedMem, `blocks, bytes
      ensures Valid() && Shrunk(old(T()), old(used), T(), used, mem, n) && used == old(used) - {mem + HDR + n}
      ensures mem in blocks && mem in used && next[mem] == mem + HDR + n
      ensures SamePayloads(T(), used, old(bytes[..]), bytes[..])
      ensures lfree == if old(next[mem] !in used && lfree == next[mem]) then mem + HDR + n else old(lfree)
    {
      hide Extents, Coalesced, CoalescedBut, Backs, SamePayloads;
      ghost var t, s := T(), used;
      assert BlockAt(t, mem);
      var ptr2 := mem + HDR + n;
      usedMem := usedMem - (next[mem] - mem - HDR - n);
      CoalesceSplitUsed(t, s, mem, ptr2);
      ghost var was := bytes[..];
      SplitHeader(mem, ptr2);
      ghost var mid, t1 := bytes[..], T();
      ExtentsIgnore(t, s, used, 0);
      ExtentsSplitUsed(t, used, 0, mem, ptr2);
      ExtentsBounds(t1, used, 0, 0);
      PrevKnown(ptr2);
      PlugHoles(ptr2);
      SamePayloadsTrans(T(), used, T(), used, was, mid, bytes[..]) by {
        SamePayloadsSub(t1, used, T(), used, was, mid);
      }
    }

    /** The other half of rt_realloc: a new block, the old bytes copied into it, the old block freed. */
    method Move(rmem: int, n: nat) returns (r: int)
      requires Valid() && InRange(rmem) && Live(rmem)
      requires n % ALIGN == 0 && n <= size
      modifies this, bytes
      ensures Valid()
      ensures r == NULL <==> n == 0 || forall b :: !old(Fits(b, Rounded(n)))
      ensures r == NULL ==> unchanged(this) && unchanged(bytes)
      ensures r != NULL ==> old(Fits(r - base - HDR, Rounded(n)))
      ensures r != NULL ==>
                Moved(old(T()), old(used), T(), used, old(bytes[..]), bytes[..], rmem - base - HDR, r - base - HDR, n)
      ensures r != NULL ==> var c := r - base - HDR;
                c in next && maxMem == Max(old(maxMem), old(usedMem) + (next[c] - c))
      ensures old(HintIsLowest()) ==> HintIsLowest()
    {
      hide Extents, Coalesced, Backs, SamePayloads, Taken, Freed, Moved, Kept, Fits, HintIsLowest;
      ghost var t0, s0, m0 := T(), used, bytes[..];
      var mem := rmem - HDR - base;
      assert BlockAt(t0, mem);
      var was := next[mem] - mem - HDR;
      r := Malloc(n);
      if r != NULL {
        ghost var c, t1, s1, m1 := r - base - HDR, T(), used, bytes[..];
        TakenNext(t0, s0, t1, s1, c, Rounded(n), MIN_SIZE);
        assert BlockAt(t1, c);
        CopyOver(mem, c, Min(was, n), r - base);
        MovedWhole(t0, s0, t1, s1, T(), used, m0, m1, bytes[..], mem, c, n);
      }
    }

    /** Copy the first k bytes of the block at b to the block at c, and free b. */
    method CopyOver(b: int, ghost c: int, k: nat, dst: int)
      requires Valid() && InRange(base + b + HDR) && Live(base + b + HDR) && Live(base + c + HDR) && b != c
      requires c + HDR + k <= next[c] && b + HDR + k <= next[b] && dst == c + HDR
      modifies `next, `prev, `used, `magic, `lfree, `usedMem, `blocks, bytes
      ensures Valid() && used == old(used) - {b} && c in blocks
      ensures Still(old(T()), used, T(), used) && Still(T(), used, old(T()), old(used))
      ensures Kept(old(bytes[..]), b + HDR, bytes[..], c + HDR, k)
      ensures SamePayloads(T(), used - {c}, old(bytes[..]), bytes[..])
      ensures c in next && next[c] == old(next[c]) && (old(HintIsLowest()) ==> HintIsLowest())
    {
      hide Extents, Coalesced, Backs, SamePayloads, Freed, Kept;
      ghost var t1, s1, m1 := T(), used, bytes[..];
      assert BlockAt(t1, b) && BlockAt(t1, c);
      PayloadsDisjoint(t1, b, c);
      CopyBytes(bytes, dst, b + HDR, k);
      ghost var m2 := bytes[..];
      Free(base + b + HDR);
      MovedBytes(t1, s1, T(), used, m1, m2, bytes[..], b, c, k);
    }

    /** rt_realloc of a block in use: keep it, shrink it in place, or move it. */
    method Resize(rmem: int, n: nat) returns (r: int)
      requires Valid() && InRange(rmem) && Live(rmem) && n % ALIGN == 0 && n <= size
      modifies this, bytes
      ensures Valid() &&
                Resized(old(T()), old(used), T(), used, old(bytes[..]), bytes[..],
                        rmem - base - HDR, r - base - HDR, n, r != NULL)
      ensures old(InPlace(rmem, n)) ==> r == rmem
      ensures r == rmem <==>
              old(var b := rmem - base - HDR;
                  b in next && (next[b] - b - HDR == n || next[b] - b - HDR > n + HDR + MIN_SIZE))
      ensures !old(InPlace(rmem, n)) ==> (r == NULL <==> n == 0 || forall b :: !old(Fits(b, Rounded(n))))
      ensures !old(InPlace(rmem, n)) && r != NULL ==> old(Fits(r - base - HDR, Rounded(n)))
      ensures old(InPlace(rmem, n)) || r == NULL ==> maxMem == old(maxMem)
      ensures !old(InPlace(rmem, n)) && r != NULL ==> var c := r - base - HDR;
                c in next && maxMem == Max(old(maxMem), old(usedMem) + (next[c] - c))
      ensures old(HintIsLowest()) ==> (HintIsLowest() <==> !old(Cuts(rmem, n)) || old(HintStays(rmem)))
    {
      hide Extents, Coalesced, Backs, Taken, Moved, Kept, SamePayloads, Fits;
      ghost var t, s, m := T(), used, bytes[..];
      var mem := rmem - HDR - base;
      assert BlockAt(t, mem);
      var was := next[mem] - mem - HDR;
      SamePayloadsRefl(t, s, m);
      SamePayloadsRefl(t, s - {mem}, m);
      KeptInPlace(t, s, m, m, mem, was);
      if was == n {
        return rmem;
      }
      if n + HDR + MIN_SIZE < was {
        Shrink(mem, n);
        assert BlockAt(T(), mem);
        KeptInPlace(T(), used, m, bytes[..], mem, n);
        SamePayloadsSub(T(), used, T(), used - {mem}, m, bytes[..]);
        return rmem;
      }
      UsedFitsNot(mem, Rounded(n));
      r := Move(rmem, n);
      if r != NULL { MovedIsResized(t, s, T(), used, m, bytes[..], mem, r - base - HDR, n); }
    }

    lemma UsedFitsNot(b: int, n: int)
      requires b in used
      ensures !Fits(b, n)
    {
    }

    /** rt_realloc to n bytes gives back the end of the block in place. */
    ghost predicate Cuts(rmem: int, n: int)
      reads this
    {
      var b := rmem - base - HDR;
      b in next && n + HDR + MIN_SIZE < next[b] - b - HDR
    }

    /** ... which leaves the hint lowest exactly if it is not above the block behind, and not at the end. */
    ghost predicate HintStays(rmem: int)
      reads this
    {
      var b := rmem - base - HDR;
      b in next && lfree <= next[b] && lfree != End()
    }

    /** rt_realloc. */
    method Realloc(rmem: int, wanted: nat) returns (r: int)
      requires Valid() && (InRange(rmem) ==> Live(rmem))
      modifies this, bytes
      ensures Valid()
      ensures Align(wanted) > size ==> r == NULL && unchanged(this) && unchanged(bytes)
      ensures Align(wanted) <= size && rmem != NULL && !InRange(rmem) ==>
                r == rmem && unchanged(this) && unchanged(bytes)
      ensures Align(wanted) <= size && rmem == NULL ==>
                (r == NULL <==> wanted == 0 || forall b :: !old(Fits(b, Rounded(wanted))))
      ensures rmem == NULL && r != NULL ==>
                old(Fits(r - base - HDR, Rounded(wanted))) &&
                Taken(old(T()), old(used), T(), used, r - base - HDR, Rounded(wanted), MIN_SIZE) &&
                SamePayloads(old(T()), old(used), old(bytes[..]), bytes[..])
      ensures rmem == NULL && r == NULL ==> unchanged(this) && unchanged(bytes)
      ensures Align(wanted) <= size && InRange(rmem) ==>
                Resized(old(T()), old(used), T(), used, old(bytes[..]), bytes[..],
                        rmem - base - HDR, r - base - HDR, Align(wanted), r != NULL)
      ensures Align(wanted) <= size && InRange(rmem) && old(InPlace(rmem, Align(wanted))) ==> r == rmem
      ensures Align(wanted) <= size && InRange(rmem) && !old(InPlace(rmem, Align(wanted))) ==>
                (r == NULL <==> wanted == 0 || forall b :: !old(Fits(b, Rounded(wanted))))
      ensures r == NULL || (rmem != NULL && (!InRange(rmem) || old(InPlace(rmem, Align(wanted))))) ==>
                maxMem == old(maxMem)
      ensures r != NULL && (rmem == NULL || (InRange(rmem) && !old(InPlace(rmem, Align(wanted))))) ==>
                var c := r - base - HDR;
                c in next && maxMem == Max(old(maxMem), old(usedMem) + (next[c] - c))
      ensures old(HintIsLowest()) ==>
                (HintIsLowest() <==>
                 !(Align(wanted) <= size && InRange(rmem) && old(Cuts(rmem, Align(wanted)))) || old(HintStays(rmem)))
    {
      hide Extents, Coalesced, Backs, Taken, SamePayloads, Resized;
      var n := Align(wanted);
      assert Align(n) == n && Rounded(n) == Rounded(wanted) && (n == 0 <==> wanted == 0);
      if n > size {
        return NULL;
      }
      if rmem == NULL {
        r := Malloc(n);
        return;
      }
      if rmem < base || rmem >= base + size + HDR {
        return rmem;
      }
      r := Resize(rmem, n);
    }

    /** The block already has n bytes, or enough more to split. */
    ghost predicate InPlace(rmem: int, n: int)
      reads this
    {
      var b := rmem - base - HDR;
      b in next && (next[b] - b - HDR == n || Cuts(rmem, n))
    }

    /** The headers of a new heap: one unused block and the end marker. */
    ghost predicate Initial()
      reads this
    {
      && base >= 0 && bytes.Length == size + 2 * HDR && size % ALIGN == 0
      && next == map[0 := End(), End() := End()] && prev == map[0 := 0, End() := End()]
      && blocks == {0, End()} && used == {End()} && magic == blocks
      && lfree == 0 && usedMem == 0 && maxMem == 0
    }

    /** rt_system_heap_init, where there is room for two headers.  The invariant holds if and only if there is
        room for one minimal block between them. */
    constructor (begin: nat, end: nat)
      requires HasRoom(begin, end)
      ensures fresh(bytes) && Initial() && base == Align(begin) && base + size + 2 * HDR == end / ALIGN * ALIGN
      ensures (Valid() && HintIsLowest() && forall p :: !Live(p)) <==> size >= MIN_SIZE
    {
      base := Align(begin);
      size := end / ALIGN * ALIGN - Align(begin) - 2 * HDR;
      bytes := new int[end / ALIGN * ALIGN - Align(begin)];
      next := map[0 := end / ALIGN * ALIGN - Align(begin) - HDR,
                  end / ALIGN * ALIGN - Align(begin) - HDR := end / ALIGN * ALIGN - Align(begin) - HDR];
      prev := map[0 := 0, end / ALIGN * ALIGN - Align(begin) - HDR := end / ALIGN * ALIGN - Align(begin) - HDR];
      used := {end / ALIGN * ALIGN - Align(begin) - HDR};
      magic := {0, end / ALIGN * ALIGN - Align(begin) - HDR};
      lfree, usedMem, maxMem := 0, 0, 0;
      blocks := {0, end / ALIGN * ALIGN - Align(begin) - HDR};
      new;
      if size >= MIN_SIZE { InitialValid(); }
    }

    lemma InitialValid()
      requires Initial() && size >= MIN_SIZE
      ensures Valid() && HintIsLowest() && forall p :: !Live(p)
    {
      assert BlockAt(T(), 0);
      assert Extents(T(), used, 0, End()) == 0;
      assert OneOfPair(T(), used, 0);
    }

    lemma PrevKnown(b: int)
      requires Structure() && b in blocks && b != End()
      ensures b in prev && prev[b] in blocks && prev[b] <= b && (prev[b] == b <==> b == 0)
      ensures b != 0 ==> next[prev[b]] == b
      ensures forall p :: p in blocks && p != End() && next[p] == b ==> p == prev[b] && b != 0
    {
      if b != 0 {
        var q := Predecessor(T(), b);
        assert BackAt(T(), prev, q);
      }
      forall p | p in blocks && p != End() && next[p] == b
        ensures p == prev[b] && b != 0
      {
        assert BlockAt(T(), p);
        PredecessorUnique(T(), p, prev[b]);
      }
    }
  }

  // ---- Initialisation ----

  /** The test of rt_system_heap_init. */
  predicate HasRoom(begin: nat, end: nat) {
    end / ALIGN * ALIGN > 2 * HDR && end / ALIGN * ALIGN - 2 * HDR >= Align(begin)
  }

  /** rt_system_heap_init: if the test fails there is no heap. */
  method SystemHeapInit(begin: nat, end: nat) returns (h: Heap?)
    ensures h != null <==> HasRoom(begin, end)
    ensures h != null ==> fresh(h) && fresh(h.bytes) && h.Initial() && h.base == Align(begin)
    ensures h != null ==> (h.Valid() <==> h.size >= MIN_SIZE)
  {
    if end / ALIGN * ALIGN > 2 * HDR && end / ALIGN * ALIGN - 2 * HDR >= Align(begin) {
      h := new Heap(begin, end);
    } else {
      h := null;
    }
  }

  /** Where the search of rt_malloc is after k rounds, if it is not stopped. */
  function Visited(next: map<int, int>, start: int, k: nat): int {
    if k == 0 then start
    else
      var p := Visited(next, start, k - 1);
      if p in next then next[p] else p
  }

  /** The search goes on after k rounds: it is below the limit, which is computed without sign in 32 bits, and
      the block there does not serve n bytes. */
  ghost predicate GoesOn(h: Heap, n: nat, k: nat)
    reads h
  {
    var p := Visited(h.next, h.lfree, k);
    p in h.next && p < (h.size - n) % 0x1_0000_0000 && (p in h.used || h.next[p] - p - HDR < n)
  }

  /** On a new heap without room for a minimal block the limit wraps below zero: no request that passes the
      tests before the search ever comes to an end. */
  lemma {:induction false} SearchNeverEnds(h: Heap, wanted: nat, k: nat)
    requires h.Initial() && h.size < MIN_SIZE && 0 < wanted && Align(wanted) <= h.size
    ensures GoesOn(h, Rounded(wanted), k)
    decreases k
  {
    if k > 0 { SearchNeverEnds(h, wanted, k - 1); }
  }

  // ---- What the hint means for rt_malloc ----

  /** With the lowest hint rt_malloc finds every unused block that is large enough, save one that
      fits exactly at the very end of the heap. */
  lemma MallocMissesOnlyTheEnd(h: Heap, n: nat)
    requires h.Valid() && h.HintIsLowest() && n > 0
    ensures (forall b :: !h.Fits(b, n)) <==>
            (forall b :: b in h.blocks && b !in h.used && h.next[b] - b - HDR >= n ==>
               b == h.size - n && h.next[b] == h.End())
  {
    forall b | b in h.blocks && b !in h.used && h.next[b] - b - HDR >= n
      ensures h.Fits(b, n) || (b == h.size - n && h.next[b] == h.End())
    {
      assert BlockAt(h.T(), b);
    }
  }

  /** Once the hint stands at the end, rt_malloc fails whatever is unused: the state that shrinking a
      block of a full heap leads to, as Shrink states. */
  lemma HintAtEndFindsNothing(h: Heap, n: nat)
    requires h.Valid() && h.lfree == h.End()
    ensures forall b :: !h.Fits(b, n)
    ensures h.HintIsLowest() <==> h.blocks <= h.used
  {
    if h.HintIsLowest() {
      assert forall b :: b in h.blocks ==> b in h.used;
    }
  }

  /** The accounting adds up: bytes in use, bytes unused, and the extent of the heap. */
  lemma UsedAndUnused(h: Heap)
    requires h.Valid()
    ensures h.usedMem + Extents(h.T(), h.blocks - h.used, 0, 0) == h.End()
    ensures 0 <= h.usedMem <= h.End()
  {
    ExtentsSum(h.T(), h.used, 0);
    ExtentsBounds(h.T(), h.used, 0, 0);
  }
}
