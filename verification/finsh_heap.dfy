/** The heap of finsh_heap.c: blocks that tile a byte array, on two address-ordered lists. */
module FinshHeapSpec {
  import opened Blocks
  import opened RtList

  const HDR := 8        // sizeof(struct finsh_block_header)
  const NULL := -1

  /** HEAP_ALIGN_SIZE. */
  function Align(n: nat): (r: nat)
    ensures n <= r < n + 4 && r % 4 == 0
  {
    (n + 3) / 4 * 4
  }

  ghost predicate Shape(t: Tiling, used: set<int>) {
    && Tiles(t) && t.lo == 0 < t.hi && t.hdr == HDR && used <= t.blocks - {t.hi}
    && forall b :: b in used ==> t.next[b] != t.hi
  }

  /** What every operation keeps: the blocks tile the heap, the topmost one is free, and no two
      neighbours are. */
  ghost predicate Good(t: Tiling, used: set<int>) { Shape(t, used) && Coalesced(t, used + {t.hi}) }

  function Frees(t: Tiling, used: set<int>): set<int> { t.blocks - used - {t.hi} }

  /** The blocks of `used` are where they were, and as long. */
  ghost predicate SameUsed(t: Tiling, t': Tiling, used: set<int>) {
    t'.hi == t.hi && forall b :: b in used ==> b in t.next && b in t'.next && t'.next[b] == t.next[b]
  }

  // ---- The used blocks determine the heap ----

  /** A good heap has a block at b and another has it too: so do their successors. */
  lemma SameStep(t: Tiling, u: Tiling, used: set<int>, b: int)
    requires Good(t, used) && Good(u, used) && SameUsed(t, u, used) && b in t.blocks && b in u.blocks && b != t.hi
    ensures t.next[b] <= u.next[b]
  {
    var s := used + {t.hi};
    assert BlockAt(t, b) && BlockAt(u, b);
    if b !in used { assert OneOfPair(u, s, b); }
  }

  /** Two good heaps with the same used blocks have the same free blocks, too. */
  lemma {:induction false} CanonicalUnique(t: Tiling, u: Tiling, used: set<int>)
    requires Good(t, used) && Good(u, used) && SameUsed(t, u, used)
    ensures t.blocks == u.blocks && forall b :: b in t.blocks && b != t.hi ==> t.next[b] == u.next[b]
  {
    var k := 0;
    while k != t.hi
      invariant k in t.blocks && k in u.blocks
      invariant forall b :: b <= k ==> (b in t.blocks <==> b in u.blocks)
      invariant forall b :: b < k && b in t.blocks ==> t.next[b] == u.next[b]
      decreases t.hi - k
    {
      SameStep(t, u, used, k);
      SameStep(u, t, used, k);
      assert BlockAt(t, k) && BlockAt(u, k);
      k := t.next[k];
    }
    forall b ensures b in t.blocks <==> b in u.blocks {}
  }

  // ---- Allocation ----

  /** A new block of n bytes at the start of the free block b. */
  ghost predicate Placed(t: Tiling, used: set<int>, t': Tiling, used': set<int>, b: int, n: nat) {
    b in Frees(t, used) && t' == Split(t, b, b + HDR + n) && used' == used + {b} && b in t'.next && Payload(t', b) == n
  }

  /** The rest of a free block stays free behind the new block, so the topmost block is still free. */
  lemma PlacedGood(t: Tiling, used: set<int>, b: int, n: nat)
    requires Good(t, used) && b in Frees(t, used) && Payload(t, b) >= n + HDR
    ensures var c := b + HDR + n;
            var t' := Split(t, b, c);
            Good(t', used + {b}) && Shape(t', used) && Placed(t, used, t', used + {b}, b, n) &&
                SameUsed(t, t', used) && c !in t.blocks &&
            Frees(t', used) == Frees(t, used) + {c} && t'.next[c] == t.next[b]
  {
    var c, s := b + HDR + n, used + {t.hi};
    assert BlockAt(t, b);
    SplitTiles(t, b, c);
    CoalesceSplit(t, s, b, c);
    assert s - {c} + {b} == used + {b} + {t.hi};
  }

  /** A block that is freed at once leaves the heap as it was before it was allocated. */
  lemma FreeUndoesAllocate(t: Tiling, used: set<int>, t1: Tiling, b: int, n: nat, t2: Tiling)
    requires Good(t, used) && Payload(t, b) >= n + HDR && Placed(t, used, t1, used + {b}, b, n)
    requires Good(t2, used) && SameUsed(t1, t2, used)
    ensures t2.blocks == t.blocks && forall c :: c in t.blocks && c != t.hi ==> t2.next[c] == t.next[c]
  {
    PlacedGood(t, used, b, n);
    CanonicalUnique(t2, t, used);
  }

  // ---- Release ----

  lemma ShapeMerge(t: Tiling, used: set<int>, x: int)
    requires Shape(t, used) && x in Frees(t, used) && t.next[x] in Frees(t, used)
    ensures Shape(Merge(t, x), used) && SameUsed(t, Merge(t, x), used)
    ensures Frees(Merge(t, x), used) == Frees(t, used) - {t.next[x]}
    ensures Merge(t, x).next[x] == t.next[t.next[x]]
    ensures Payload(Merge(t, x), x) == Payload(t, x) + Payload(t, t.next[x]) + HDR
  {
    assert BlockAt(t, x);
    MergeTiles(t, x);
  }

  lemma DropShape(t: Tiling, used: set<int>, x: int)
    requires Good(t, used) && x in used
    ensures Shape(t, used - {x}) && CoalescedBut(t, used - {x} + {t.hi}, x) &&
              Frees(t, used - {x}) == Frees(t, used) + {x}
    ensures t.next[x] != t.hi
  {
    CoalesceDrop(t, used + {t.hi}, x);
    assert used + {t.hi} - {x} == used - {x} + {t.hi};
  }

  lemma SameTrans(t: Tiling, u: Tiling, v: Tiling, used: set<int>, used': set<int>)
    requires SameUsed(t, u, used) && SameUsed(u, v, used') && used' <= used
    ensures SameUsed(t, v, used')
  {
  }

  /** The free block x has its successor joined to it, if that is free. */
  lemma ForwardOk(t: Tiling, used: set<int>, x: int)
    requires Shape(t, used) && CoalescedBut(t, used + {t.hi}, x) && x in Frees(t, used)
    ensures var u := if t.next[x] in Frees(t, used) then Merge(t, x) else t;
            Shape(u, used) && CoalescedBut(u, used + {t.hi}, x) && x in Frees(u, used) && u.next[x] in used + {t.hi} &&
                u.hi == t.hi
  {
    assert BlockAt(t, x);
    if t.next[x] in Frees(t, used) {
      ShapeMerge(t, used, x);
      CoalesceForward(t, used + {t.hi}, x);
    }
  }

  /** Then it is joined to its predecessor, if that is free. */
  lemma BackwardOk(t: Tiling, used: set<int>, x: int, p: int)
    requires Shape(t, used) && CoalescedBut(t, used + {t.hi}, x) && x in Frees(t, used) && t.next[x] in used + {t.hi}
    requires p in Frees(t, used) && t.next[p] == x
    ensures Good(Merge(t, p), used)
  {
    assert BlockAt(t, x);
    ShapeMerge(t, used, p);
    CoalesceBackward(t, used + {t.hi}, p);
  }

  lemma NoBackward(t: Tiling, used: set<int>, x: int)
    requires Shape(t, used) && CoalescedBut(t, used + {t.hi}, x) && x in Frees(t, used) && t.next[x] in used + {t.hi}
    requires forall p :: p in Frees(t, used) ==> t.next[p] != x
    ensures Good(t, used)
  {
    assert BlockAt(t, x);
    if x == t.lo {
      CoalesceFirst(t, used + {t.hi});
    } else {
      var p := Predecessor(t, x);
      CoalesceBackward(t, used + {t.hi}, p);
    }
  }

  /** Every used block has a free one behind it. */
  lemma FreeAbove(t: Tiling, used: set<int>, x: int) returns (f: int)
    requires Shape(t, used) && x in used
    ensures f in Frees(t, used) && x < f
  {
    f := Predecessor(t, t.hi);
    assert BlockAt(t, x) && BlockAt(t, f);
  }

  // ---- Lists in address order ----

  function Elems(s: seq<int>): set<int> { set x | x in s }

  ghost predicate Ascending(s: seq<int>) { forall i, j :: 0 <= i < j < |s| ==> s[i] < s[j] }

  function First(s: seq<int>): int { if s == [] then NULL else s[0] }

  ghost predicate LinkAt(next: map<int, int>, s: seq<int>, i: nat)
    requires i < |s|
  {
    0 <= s[i] && s[i] in next && next[s[i]] == if i + 1 < |s| then s[i + 1] else NULL
  }

  /** The headers s are linked in address order, from h on. */
  ghost predicate List(next: map<int, int>, h: int, s: seq<int>) {
    h == First(s) && Ascending(s) && forall i {:trigger LinkAt(next, s, i)} :: 0 <= i < |s| ==> LinkAt(next, s, i)
  }

  /** Links outside the list do not matter. */
  lemma ListFrame(next: map<int, int>, next': map<int, int>, h: int, s: seq<int>)
    requires List(next, h, s) && forall x :: x in s && x in next ==> x in next' && next'[x] == next[x]
    ensures List(next', h, s)
  {
    forall i | 0 <= i < |s| ensures LinkAt(next', s, i) { assert LinkAt(next, s, i) && s[i] in s; }
  }

  lemma WithElems(s: seq<int>, k: nat, x: int)
    requires k <= |s|
    ensures Elems(With(s, k, x)) == Elems(s) + {x}
  {
    WithElements(s, k, x);
    forall y ensures y in Elems(With(s, k, x)) <==> y in Elems(s) + {x} {}
  }

  lemma WithoutElems(s: seq<int>, k: nat)
    requires k < |s| && Ascending(s)
    ensures Elems(Without(s, k)) == Elems(s) - {s[k]} && Ascending(Without(s, k))
  {
    var c := Without(s, k);
    assert s == s[..k] + [s[k]] + s[k + 1..];
    assert forall i :: 0 <= i < |c| ==> c[i] == s[if i < k then i else i + 1] && c[i] != s[k];
    forall y ensures y in c <==> y in s && y != s[k] {}
  }

  lemma WithAscends(s: seq<int>, k: nat, x: int)
    requires Ascending(s) && k <= |s| && (k > 0 ==> s[k - 1] < x) && (k < |s| ==> x < s[k])
    ensures Ascending(With(s, k, x))
  {
  }

  lemma Inserted(next: map<int, int>, h: int, s: seq<int>, k: nat, x: int)
    requires List(next, h, s) && k <= |s| && 0 <= x && (k > 0 ==> s[k - 1] < x) && (k < |s| ==> x < s[k])
    ensures var own := next[x := if k < |s| then s[k] else NULL];
            List(if k > 0 then own[s[k - 1] := x] else own, if k > 0 then h else x, With(s, k, x)) &&
                Elems(With(s, k, x)) == Elems(s) + {x}
  {
    var own := next[x := if k < |s| then s[k] else NULL];
    var next', s' := if k > 0 then own[s[k - 1] := x] else own, With(s, k, x);
    hide Elems;
    WithElems(s, k, x);
    WithAscends(s, k, x);
    forall i | 0 <= i < |s'| ensures LinkAt(next', s', i) { InsertedLink(next, h, s, k, x, i); }
  }

  lemma InsertedLink(next: map<int, int>, h: int, s: seq<int>, k: nat, x: int, i: nat)
    requires List(next, h, s) && k <= |s| && 0 <= x && (k > 0 ==> s[k - 1] < x) && (k < |s| ==> x < s[k]) && i <= |s|
    ensures var own := next[x := if k < |s| then s[k] else NULL];
            LinkAt(if k > 0 then own[s[k - 1] := x] else own, With(s, k, x), i)
  {
    if i < k { assert LinkAt(next, s, i); } else if i > k { assert LinkAt(next, s, i - 1); }
  }

  lemma Removed(next: map<int, int>, h: int, s: seq<int>, k: nat)
    requires List(next, h, s) && k < |s|
    ensures s[k] in next
    ensures List(if k > 0 then next[s[k - 1] := next[s[k]]] else next, if k > 0 then h else next[h], Without(s, k))
    ensures Elems(Without(s, k)) == Elems(s) - {s[k]}
  {
    hide Elems;
    assert LinkAt(next, s, k);
    var next', s' := if k > 0 then next[s[k - 1] := next[s[k]]] else next, Without(s, k);
    WithoutElems(s, k);
    forall i | 0 <= i < |s'| ensures LinkAt(next', s', i) {
      if i < k { assert LinkAt(next, s, i); } else { assert LinkAt(next, s, i + 1); }
    }
  }

  /** What a header's link says. */
  lemma Following(next: map<int, int>, h: int, s: seq<int>, k: nat)
    requires List(next, h, s) && k < |s|
    ensures 0 <= s[k] && s[k] in next && next[s[k]] == (if k + 1 < |s| then s[k + 1] else NULL)
    ensures forall y :: y in s && s[k] < y ==> k + 1 < |s| && next[s[k]] <= y
    ensures k + 1 < |s| ==> next[s[k]] in s && s[k] < next[s[k]]
  {
    assert LinkAt(next, s, k);
  }
}

/** The allocator in place. */
module FinshHeap {
  import opened Blocks
  import opened RtList
  import opened FinshHeapSpec

  /** An entry of global_variable: its type is not finsh_type_unknown, and its value as a pointer. */
  datatype Variable = Variable(known: bool, ptr: int)

  predicate PointsTo(v: Variable, b: int) { v.known && v.ptr == b + HDR }

  /** Some variable points to the data of block b. */
  predicate PointedAt(vars: seq<Variable>, b: int) { exists i :: 0 <= i < |vars| && PointsTo(vars[i], b) }

  /** The header of every block holds its length. */
  ghost predicate Lengths(length: map<int, int>, t: Tiling) {
    forall b :: b in t.blocks && b != t.hi ==> b in length && length[b] == Payload(t, b)
  }

  /** No links but those of s and of x differ. */
  ghost predicate SameLinks(next: map<int, int>, next': map<int, int>, s: seq<int>, x: int) {
    forall y :: y in next && y !in s && y != x ==> y in next' && next'[y] == next[y]
  }

  ghost predicate ListsAt(t: Tiling, used: set<int>, length: map<int, int>, next: map<int, int>, freeList: int,
                          frees: seq<int>,
                          allocateList: int, allocs: seq<int>)
  {
    && Shape(t, used) && Lengths(length, t)
    && List(next, freeList, frees) && Elems(frees) == Frees(t, used)
    && List(next, allocateList, allocs) && Elems(allocs) == used
  }

  class Heap {
    const size: nat                // FINSH_HEAP_MAX
    var length: map<int, int>      // struct finsh_block_header, by address
    var next: map<int, int>
    var freeList: int              // free_list
    var allocateList: int          // allocate_list
    ghost var t: Tiling
    ghost var used: set<int>
    ghost var frees: seq<int>
    ghost var allocs: seq<int>

    /** The two lists hold the free and the used blocks. */
    ghost predicate Lists()
      reads this
    {
      t.hi == size && ListsAt(t, used, length, next, freeList, frees, allocateList, allocs)
    }

    ghost predicate Valid()
      reads this
    {
      Lists() && Good(t, used)
    }

    /** finsh_block_insert.  A header that goes to the end of the list must not have an old link. */
    method BlockInsert(list: int, header: int, ghost s: seq<int>) returns (list': int, ghost s': seq<int>)
      requires List(next, list, s) && 0 <= header && header !in s && header in next
      requires next[header] != NULL ==> s != [] && header < s[|s| - 1]
      modifies `next
      ensures List(next, list', s') && Elems(s') == Elems(s) + {header} && SameLinks(old(next), next, s, header)
    {
      hide Elems;
      ghost var was := next;
      if s != [] { Following(next, list, s, 0); }
      if list == NULL {
        Inserted(next, list, s, 0, header);
        assert next[header := NULL] == next;
        return header, With(s, 0, header);
      }
      var node := list;
      if node > header {
        Inserted(next, list, s, 0, header);
        next := next[header := node];
        return header, With(s, 0, header);
      }
      ghost var k := 0;
      while node != NULL
        invariant k < |s| && node == s[k] && 0 <= node < header && next == was
        decreases |s| - k
      {
        Following(next, list, s, k);
        if next[node] > header { break; }
        if next[node] == NULL { break; }
        node := next[node];
        k := k + 1;
      }
      Following(next, list, s, k);
      Inserted(next, list, s, k + 1, header);
      assert next[node] == NULL ==> next[header := NULL] == next;
      if next[node] != NULL { next := next[header := next[node]]; }
      next := next[node := header];
      return list, With(s, k + 1, header);
    }

    /** finsh_block_remove.  The header keeps its link, unless it was the first. */
    method BlockRemove(list: int, header: int, ghost s: seq<int>) returns (list': int, ghost s': seq<int>)
      requires List(next, list, s) && header in s
      modifies `next
      ensures List(next, list', s') && Elems(s') == Elems(s) - {header} && SameLinks(old(next), next, s, header) &&
                header in next
    {
      hide Elems;
      ghost var was := next;
      Following(next, list, s, 0);
      var node := list;
      if node == header {
        Removed(next, list, s, 0);
        list', s' := next[header], Without(s, 0);
        next := next[header := NULL];
        ListFrame(was, next, list', s');
        return;
      }
      list' := list;
      ghost var k := 0;
      s' := s;
      while node != NULL
        invariant k < |s| && node == s[k] && 0 <= node < header && next == was
        decreases |s| - k
      {
        Following(next, list, s, k);
        if next[node] == header {
          Removed(next, list, s, k + 1);
          s' := Without(s, k + 1);
          next := next[node := next[header]];
          break;
        }
        node := next[node];
        k := k + 1;
      }
    }

    /** The loops over the free list in finsh_heap_allocate: the first block of at least `least` bytes. */
    method FirstFit(least: int) returns (header: int)
      requires Valid()
      ensures header == NULL ==> forall b :: b in Frees(t, used) ==> Payload(t, b) < least
      ensures header != NULL ==> FirstFree(t, used, header, least)
    {
      header := freeList;
      ghost var k := 0;
      if frees != [] { Following(next, freeList, frees, 0); }
      while header != NULL && length[header] < least
        invariant k <= |frees| && header == (if k < |frees| then frees[k] else NULL) &&
                  (k < |frees| ==> 0 <= header && header in Elems(frees))
        invariant forall i :: 0 <= i < k ==> Payload(t, frees[i]) < least
        decreases |frees| - k
      {
        Following(next, freeList, frees, k);
        header := next[header];
        k := k + 1;
      }
      forall b | b in Frees(t, used) && (header == NULL || b < header) ensures Payload(t, b) < least {
        assert b in Elems(frees);
      }
    }

    /** finsh_block_split: the rest of the free block becomes a free block, behind it on the list. */
    method BlockSplit(header: int, n: nat)
      requires Valid() && header in Frees(t, used) && Payload(t, header) >= n + HDR
      modifies `length, `next, `t, `frees
      ensures Lists() && t == Split(old(t), header, header + HDR + n) && Good(t, used + {header})
      ensures Frees(t, used) == Frees(old(t), used) + {header + HDR + n} && header in Frees(t, used)
    {
      hide Good, Tiles;
      var rest := header + HDR + n;
      PlacedGood(t, used, header, n);
      ghost var was := next;
      ghost var k := Position(header, frees);
      Following(next, freeList, frees, k);
      FreeBounds(t, used, frees, k);
      Inserted(next, freeList, frees, k + 1, rest);
      length := length[rest := length[header] - HDR - n][header := n];
      next := next[rest := next[header]];
      next := next[header := rest];
      frees := With(frees, k + 1, rest);
      ListFrame(was, next, allocateList, allocs);
      SplitLengths(t, used, header, n, old(length), length);
      t := Split(t, header, rest);
    }

    /** The second half of finsh_heap_allocate: the block at header gets n bytes and changes lists. */
    method Take(header: int, n: nat)
      requires Valid() && header in Frees(t, used) && Payload(t, header) >= n + HDR
      modifies this
      ensures Valid() && Placed(old(t), old(used), t, used, header, n)
    {
      hide Good, Shape, Elems, List, SameLinks, Lengths;
      PlacedGood(t, used, header, n);
      BlockSplit(header, n);
      ghost var was := next;
      ghost var at := Position(header, frees);
      Neighbours(t, used, next, freeList, frees, at, length);
      Apart(t, used, frees, allocs);
      InElems(header, allocs);
      ghost var before := frees;
      freeList, frees := BlockRemove(freeList, header, frees);
      SubElems(frees, before);
      InElems(header, frees);
      OtherList(was, next, allocateList, allocs, before, header);
      ListFrame(next, next[header := NULL], allocateList, allocs);
      ListFrame(next, next[header := NULL], freeList, frees);
      next := next[header := NULL];
      was, before := next, allocs;
      allocateList, allocs := BlockInsert(allocateList, header, allocs);
      OtherList(was, next, freeList, frees, before, header);
      used := used + {header};
    }

    /** The predecessor on the free list, as found by finsh_block_merge. */
    method PrevFree(header: int, ghost k: nat) returns (prev: int)
      requires Lists() && k < |frees| && frees[k] == header
      ensures prev == if k == 0 then NULL else frees[k - 1]
    {
      Following(next, freeList, frees, 0);
      if freeList == header { return NULL; }
      prev := freeList;
      ghost var i := 0;
      while prev != NULL
        invariant i < k && prev == frees[i] && 0 <= prev
        decreases k - i
      {
        Following(next, freeList, frees, i);
        if next[prev] == header { break; }
        prev := next[prev];
        i := i + 1;
      }
      Following(next, freeList, frees, i);
    }

    /** finsh_block_merge on the free list: a block that was just put there joins its free neighbours. */
    method BlockMerge(header: int)
      requires Lists() && header in Frees(t, used) && CoalescedBut(t, used + {t.hi}, header)
      modifies `length, `next, `t, `frees
      ensures Valid() && SameUsed(old(t), t, used)
    {
      hide ListsAt, Elems, CoalescedBut, Good, SameUsed, Frees;
      ghost var k := MergePlan(t, used, length, next, freeList, frees, allocateList, allocs, header);
      var next_node := next[header];
      var prev_node := PrevFree(header, k);
      if prev_node != NULL && prev_node + length[prev_node] + HDR == header {
        if next_node != NULL && header + length[header] + HDR == next_node {
          JoinBoth(t, used, length, next, freeList, frees, allocateList, allocs, k);
          length := length[prev_node := length[prev_node] + (length[header] + length[next_node] + 2 * HDR)];
          next := next[prev_node := next[next_node]];
          t := Merge(Merge(t, header), prev_node);
          frees := Without(Without(frees, k + 1), k);
        } else {
          JoinPrev(t, used, length, next, freeList, frees, allocateList, allocs, k);
          length := length[prev_node := length[prev_node] + (length[header] + HDR)];
          next := next[prev_node := next[header]];
          t := Merge(t, prev_node);
          frees := Without(frees, k);
        }
      } else if next_node != NULL && header + length[header] + HDR == next_node {
        JoinNext(t, used, length, next, freeList, frees, allocateList, allocs, k);
        length := length[header := length[header] + (length[next_node] + HDR)];
        next := next[header := next[next_node]];
        t := Merge(t, header);
        frees := Without(frees, k + 1);
      } else {
        JoinNone(t, used, length, next, freeList, frees, allocateList, allocs, k);
      }
    }

    /** finsh_heap_free of a block in use: it is free, and nothing else changes for the others. */
    method Free(p: int)
      requires Valid() && p - HDR in used
      modifies this
      ensures Valid() && used == old(used) - {p - HDR} && SameUsed(old(t), t, used)
    {
      hide Good, Shape, Elems, List, SameLinks, Lengths;
      var header := p - HDR;
      DropShape(t, used, header);
      UsedBlock(t, used, length, next, freeList, frees, allocateList, allocs, header);
      ghost var was, before := next, allocs;
      allocateList, allocs := BlockRemove(allocateList, header, allocs);
      OtherList(was, next, freeList, frees, before, header);
      SubElems(allocs, before);
      InElems(header, allocs);
      was, before := next, frees;
      freeList, frees := BlockInsert(freeList, header, frees);
      OtherList(was, next, allocateList, allocs, before, header);
      used := used - {header};
      BlockMerge(header);
    }

    /** The search of finsh_heap_gc through the variables. */
    method Referenced(vars: seq<Variable>, header: int) returns (found: bool)
      ensures found <==> PointedAt(vars, header)
    {
      var i := 0;
      while i < |vars|
        invariant 0 <= i <= |vars| && forall j :: 0 <= j < i ==> !PointsTo(vars[j], header)
      {
        if vars[i].known {
          if vars[i].ptr == header + HDR { break; }
        }
        i := i + 1;
      }
      found := i < |vars|;
    }

    /** finsh_heap_gc: exactly the blocks that some variable points to stay in use. */
    method Gc(vars: seq<Variable>)
      requires Valid()
      modifies this
      ensures Valid() && Collected(old(t), old(used), vars, t, used)
    {
      hide Good, Shape, Elems, List, Lengths, PointedAt;
      var header := allocateList;
      ListStarts(t, used, length, next, freeList, frees, allocateList, allocs);
      while header != NULL
        invariant Valid() && (header != NULL ==> header in used)
        invariant used <= old(used) && SameUsed(old(t), t, used)
        invariant forall b :: b in used && (header == NULL || b < header) ==> PointedAt(vars, b)
        invariant forall b :: b in old(used) && b !in used ==> !PointedAt(vars, b)
        decreases if header == NULL then 0 else size - header
      {
        var found := Referenced(vars, header);
        var temp := header;
        ListGoesOn(t, used, length, next, freeList, frees, allocateList, allocs, header);
        header := next[header];
        if !found { Free(temp + HDR); }
      }
    }

    /** finsh_heap_allocate.  The heap (t1, used1) is the one it takes the block from: that at the call, or
        that after collecting garbage. */
    method Allocate(request: nat, vars: seq<Variable>) returns (p: int, ghost t1: Tiling, ghost used1: set<int>)
      requires Valid()
      modifies this
      ensures Valid()
      ensures if HasFree(old(t), old(used), Align(request) + HDR + 1) then t1 == old(t) && used1 == old(used)
                else Collected(old(t), old(used), vars, t1, used1)
      ensures p == NULL <==> !HasFree(t1, used1, Align(request) + HDR)
      ensures p == NULL ==> t == t1 && used == used1
      ensures p != NULL ==> Placed(t1, used1, t, used, p - HDR, Align(request))
      ensures p != NULL ==>
                FirstFree(t1, used1, p - HDR,
                          Align(request) + HDR + if HasFree(old(t), old(used), Align(request) + HDR + 1) then 1 else 0)
    {
      var size := Align(request);
      var header := FirstFit(size + HDR + 1);
      if header == NULL {
        Gc(vars);
        header := FirstFit(size + HDR);
      }
      t1, used1 := t, used;
      if header == NULL { return NULL, t1, used1; }
      Take(header, size);
      p := header + HDR;
    }

    /** finsh_heap_init: one free block. */
    constructor (size: nat)
      requires size >= HDR
      ensures Valid() && this.size == size && used == {} && t.blocks == {0, size}
    {
      this.size := size;
      length, next := map[0 := size - HDR], map[0 := NULL];
      freeList, allocateList := 0, NULL;
      t, used, frees, allocs := Tiling({0, size}, map[0 := size, size := size], 0, size, HDR), {}, [0], [];
      new;
      assert BlockAt(t, 0);
      assert OneOfPair(t, used + {t.hi}, 0);
    }
  }

  ghost predicate HasFree(t: Tiling, used: set<int>,
                          least: int) { exists b :: b in Frees(t, used) && Payload(t, b) >= least }

  /** What garbage collection does: of the blocks in use those that a variable points to stay, as they were. */
  ghost predicate Collected(t: Tiling, used: set<int>, vars: seq<Variable>, t': Tiling, used': set<int>) {
    && Good(t', used') && SameUsed(t, t', used')
    && forall b :: b in used' <==> b in used && PointedAt(vars, b)
  }

  /** Collecting garbage leaves no choice, so the order of the releases does not matter. */
  lemma CollectedUnique(t: Tiling, used: set<int>, vars: seq<Variable>, t1: Tiling, used1: set<int>, t2: Tiling,
                        used2: set<int>)
    requires Collected(t, used, vars, t1, used1) && Collected(t, used, vars, t2, used2)
    ensures used1 == used2 && t1.blocks == t2.blocks && forall b ::
              b in t1.blocks && b != t1.hi ==> t1.next[b] == t2.next[b]
  {
    assert used1 == used2 by { forall b ensures b in used1 <==> b in used2 {} }
    CanonicalUnique(t1, t2, used1);
  }

  lemma UsedBlock(t: Tiling, used: set<int>, length: map<int, int>, next: map<int, int>, freeList: int, frees: seq<int>,
                  allocateList: int, allocs: seq<int>, x: int)
    requires ListsAt(t, used, length, next, freeList, frees, allocateList, allocs) && x in used
    ensures 0 <= x && x in allocs && x !in frees && x in next && frees != [] && x < frees[|frees| - 1]
    ensures forall y :: (y in allocs ==> y !in frees) && (y in frees ==> y !in allocs)
  {
    Apart(t, used, frees, allocs);
    var k := Position(x, allocs);
    Following(next, allocateList, allocs, k);
    var f := FreeAbove(t, used, x);
    var i := Position(f, frees);
  }

  lemma ListStarts(t: Tiling, used: set<int>, length: map<int, int>, next: map<int, int>, freeList: int,
                   frees: seq<int>,
                   allocateList: int, allocs: seq<int>)
    requires ListsAt(t, used, length, next, freeList, frees, allocateList, allocs)
    ensures if allocateList == NULL then used == {} else allocateList in used && forall b ::
              b in used ==> allocateList <= b
    ensures SameUsed(t, t, used)
  {
    if allocs != [] {
      Following(next, allocateList, allocs, 0);
      assert allocs[0] in Elems(allocs);
    }
    forall b | b in used ensures allocs != [] && allocs[0] <= b { var k := Position(b, allocs); }
  }

  /** From a block in use the list leads to the next one. */
  lemma ListGoesOn(t: Tiling, used: set<int>, length: map<int, int>, next: map<int, int>, freeList: int,
                   frees: seq<int>,
                   allocateList: int, allocs: seq<int>, x: int)
    requires ListsAt(t, used, length, next, freeList, frees, allocateList, allocs) && x in used
    ensures 0 <= x < t.hi && x in next
    ensures next[x] != NULL ==> next[x] in used && x < next[x]
    ensures forall b :: b in used && x < b ==> next[x] != NULL && next[x] <= b
  {
    var k := Position(x, allocs);
    Following(next, allocateList, allocs, k);
    if k + 1 < |allocs| { assert allocs[k + 1] in Elems(allocs); }
    forall b | b in used && x < b ensures next[x] != NULL && next[x] <= b {
      var j := Position(b, allocs);
      Following(next, allocateList, allocs, j);
    }
  }

  /** The lowest free block with at least `least` bytes. */
  ghost predicate FirstFree(t: Tiling, used: set<int>, b: int, least: int) {
    b in Frees(t, used) && Payload(t, b) >= least && forall c :: c in Frees(t, used) && c < b ==> Payload(t, c) < least
  }

  lemma Apart(t: Tiling, used: set<int>, frees: seq<int>, allocs: seq<int>)
    requires Elems(frees) == Frees(t, used) && Elems(allocs) == used
    ensures forall x :: x in allocs ==> x !in frees
  {
    forall x | x in allocs ensures x !in frees { assert x in Elems(allocs) && x !in Elems(frees); }
  }

  /** What the neighbours on the free list say about the neighbours in memory. */
  lemma Neighbours(t: Tiling, used: set<int>, next: map<int, int>, h: int, frees: seq<int>, k: nat,
                   length: map<int, int>)
    requires Shape(t, used) && List(next, h, frees) && Elems(frees) == Frees(t, used) && k < |frees| &&
              Lengths(length, t)
    ensures forall i ::
              0 <= i < |frees| ==> 0 <= frees[i] && frees[i] in t.next && frees[i] in Frees(t, used) && frees[i] in next
    ensures forall i :: 0 <= i < |frees| ==> frees[i] in length && frees[i] + HDR + length[frees[i]] == t.next[frees[i]]
    ensures next[frees[k]] == (if k + 1 < |frees| then frees[k + 1] else NULL)
    ensures if k + 1 < |frees| && t.next[frees[k]] == frees[k + 1] then true else t.next[frees[k]] in used + {t.hi}
    ensures if k > 0 && t.next[frees[k - 1]] == frees[k] then true else forall p ::
              p in Frees(t, used) ==> t.next[p] != frees[k]
  {
    forall i | 0 <= i < |frees| ensures 0 <= frees[i] && frees[i] in Frees(t, used) && frees[i] in t.next &&
        frees[i] in next {
      assert frees[i] in Elems(frees) && frees[i] in t.blocks && LinkAt(next, frees, i);
    }
    assert LinkAt(next, frees, k);
    var x := frees[k];
    assert BlockAt(t, x);
    var y := t.next[x];
    if y in Frees(t, used) {
      var i := Position(y, frees);
    }
    forall p | p in Frees(t, used) && t.next[p] == x ensures k > 0 && t.next[frees[k - 1]] == x {
      assert BlockAt(t, p);
      var i := Position(p, frees);
      assert BlockAt(t, frees[k - 1]);
    }
  }

  lemma RemovedTwo(next: map<int, int>, h: int, s: seq<int>, k: nat)
    requires List(next, h, s) && k + 2 < |s|
    ensures s[k + 2] in next && List(next[s[k] := next[s[k + 2]]], h, Without(Without(s, k + 2), k + 1))
    ensures Elems(Without(Without(s, k + 2), k + 1)) == Elems(s) - {s[k + 1], s[k + 2]}
  {
    hide Elems, Ascending;
    Removed(next, h, s, k + 2);
    var mid, c := next[s[k + 1] := next[s[k + 2]]], Without(s, k + 2);
    Removed(mid, h, c, k + 1);
    var d := Without(c, k + 1);
    assert s[k + 1] !in d by { assert s[k + 1] !in Elems(d); hide *; InElems(s[k + 1], d); }
    ListFrame(mid[s[k] := mid[s[k + 1]]], next[s[k] := next[s[k + 2]]], h, d);
  }

  lemma SubElems(s: seq<int>, u: seq<int>)
    requires Elems(s) <= Elems(u)
    ensures forall x :: x in s ==> x in u
  {
    forall x | x in s ensures x in u { assert x in Elems(s) && x in Elems(u); }
  }

  lemma InElems(x: int, s: seq<int>)
    ensures x in s <==> x in Elems(s)
  {
  }

  lemma SameSelf(t: Tiling, used: set<int>)
    requires Shape(t, used)
    ensures SameUsed(t, t, used)
  {
  }

  lemma MergeLengths(t: Tiling, used: set<int>, x: int, length: map<int, int>)
    requires Shape(t, used) && x in Frees(t, used) && t.next[x] in Frees(t, used) && Lengths(length, t)
    ensures Lengths(length[x := length[x] + (length[t.next[x]] + HDR)], Merge(t, x))
  {
    ShapeMerge(t, used, x);
  }

  lemma MergeNext(t: Tiling, used: set<int>, x: int, n: int, length: map<int, int>)
    requires Shape(t, used) && CoalescedBut(t, used + {t.hi}, x) && Lengths(length, t)
    requires x in Frees(t, used) && n in Frees(t, used) && t.next[x] == n && forall p ::
              p in Frees(t, used) ==> t.next[p] != x
    ensures var u := Merge(t, x);
              Good(u, used) && SameUsed(t, u, used) && Frees(u, used) == Frees(t, used) - {n} && u.hi == t.hi
    ensures n in length && x in length && Lengths(length[x := length[x] + (length[n] + HDR)], Merge(t, x))
  {
    ShapeMerge(t, used, x);
    ForwardOk(t, used, x);
    NoBackward(Merge(t, x), used, x);
    MergeLengths(t, used, x, length);
  }

  lemma MergePrev(t: Tiling, used: set<int>, p: int, x: int, length: map<int, int>)
    requires Shape(t, used) && CoalescedBut(t, used + {t.hi}, x) && Lengths(length, t)
    requires x in Frees(t, used) && p in Frees(t, used) && t.next[p] == x && t.next[x] in used + {t.hi}
    ensures var u := Merge(t, p);
              Good(u, used) && SameUsed(t, u, used) && Frees(u, used) == Frees(t, used) - {x} && u.hi == t.hi
    ensures p in length && x in length && Lengths(length[p := length[p] + (length[x] + HDR)], Merge(t, p))
  {
    ShapeMerge(t, used, p);
    BackwardOk(t, used, x, p);
    MergeLengths(t, used, p, length);
  }

  lemma MergeBoth(t: Tiling, used: set<int>, p: int, x: int, n: int, length: map<int, int>)
    requires Shape(t, used) && CoalescedBut(t, used + {t.hi}, x) && Lengths(length, t)
    requires x in Frees(t, used) && p in Frees(t, used) && n in Frees(t, used) && t.next[p] == x && t.next[x] == n
    ensures var u := Merge(Merge(t, x), p);
              Good(u, used) && SameUsed(t, u, used) && Frees(u, used) == Frees(t, used) - {x, n} && u.hi == t.hi
    ensures p in length && x in length && n in length
    ensures Lengths(length[p := length[p] + (length[x] + length[n] + 2 * HDR)], Merge(Merge(t, x), p))
  {
    assert BlockAt(t, p) && BlockAt(t, x);
    ForwardOk(t, used, x);
    MergeLengths(t, used, x, length);
    ShapeMerge(t, used, x);
    var u, l := Merge(t, x), length[x := length[x] + (length[n] + HDR)];
    MergePrev(u, used, p, x, l);
    SameTrans(t, u, Merge(u, p), used, used);
  }

  /** Changes on one list leave the other alone. */
  lemma OtherList(next: map<int, int>, next': map<int, int>, h: int, s: seq<int>, other: seq<int>, x: int)
    requires List(next, h, s) && SameLinks(next, next', other, x) && x !in s && forall y :: y in s ==> y !in other
    ensures List(next', h, s)
  {
    ListFrame(next, next', h, s);
  }

  /** Relinking a free block leaves the list of used blocks alone. */
  lemma AllocsStay(t: Tiling, used: set<int>, next: map<int, int>, freeList: int, frees: seq<int>, allocateList: int,
                   allocs: seq<int>, k: nat, n: int)
    requires Elems(frees) == Frees(t, used) && Elems(allocs) == used && List(next, allocateList, allocs) && k < |frees|
    ensures List(next[frees[k] := n], allocateList, allocs)
  {
    Apart(t, used, frees, allocs);
    ListFrame(next, next[frees[k] := n], allocateList, allocs);
  }

  /** Which of its neighbours a free block joins can be read off the free list. */
  lemma MergePlan(t: Tiling, used: set<int>, length: map<int, int>, next: map<int, int>, freeList: int, frees: seq<int>,
                  allocateList: int, allocs: seq<int>, x: int) returns (k: nat)
    requires ListsAt(t, used, length, next, freeList, frees, allocateList, allocs) && x in Frees(t, used)
    ensures && k < |frees| && frees[k] == x && x in next && x in length &&
              next[x] == (if k + 1 < |frees| then frees[k + 1] else NULL)
            && (k > 0 ==> 0 <= frees[k - 1] && frees[k - 1] in length)
            && (k + 1 < |frees| ==> 0 <= frees[k + 1] && frees[k + 1] in length && frees[k + 1] in next)
            && JoinsAs(t, used, frees, k,
                       k > 0 && frees[k - 1] + length[frees[k - 1]] + HDR == x,
                       k + 1 < |frees| && x + length[x] + HDR == frees[k + 1])
  {
    k := Position(x, frees);
    Neighbours(t, used, next, freeList, frees, k, length);
  }

  ghost predicate JoinsAs(t: Tiling, used: set<int>, frees: seq<int>, k: nat, prev: bool, next: bool)
    requires k < |frees| && Shape(t, used)
  {
    && (forall i :: 0 <= i < |frees| ==> frees[i] in t.next)
    && (if prev then k > 0 && t.next[frees[k - 1]] == frees[k] else forall p ::
        p in Frees(t, used) ==> t.next[p] != frees[k])
    && (if next then k + 1 < |frees| && t.next[frees[k]] == frees[k + 1] else t.next[frees[k]] in used + {t.hi})
  }

  lemma JoinBoth(t: Tiling, used: set<int>, length: map<int, int>, next: map<int, int>, freeList: int, frees: seq<int>,
                 allocateList: int, allocs: seq<int>, k: nat)
    requires ListsAt(t, used, length, next, freeList, frees, allocateList, allocs) && k < |frees| &&
              CoalescedBut(t, used + {t.hi}, frees[k])
    requires JoinsAs(t, used, frees, k, true, true)
    ensures var p, x, n := frees[k - 1], frees[k], frees[k + 1];
            var u := Merge(Merge(t, x), p);
            p in length && x in length && n in length && n in next &&
            u.hi == t.hi && Good(u, used) && SameUsed(t, u, used) &&
            ListsAt(u, used, length[p := length[p] + (length[x] + length[n] + 2 * HDR)], next[p := next[n]],
                    freeList, Without(Without(frees, k + 1), k), allocateList, allocs)
  {
    hide Shape, Elems, Ascending, CoalescedBut, Good, Lengths, SameUsed, Frees, List;
    Neighbours(t, used, next, freeList, frees, k, length);
    MergeBoth(t, used, frees[k - 1], frees[k], frees[k + 1], length);
    RemovedTwo(next, freeList, frees, k - 1);
    AllocsStay(t, used, next, freeList, frees, allocateList, allocs, k - 1, next[frees[k + 1]]);
  }

  lemma JoinPrev(t: Tiling, used: set<int>, length: map<int, int>, next: map<int, int>, freeList: int, frees: seq<int>,
                 allocateList: int, allocs: seq<int>, k: nat)
    requires ListsAt(t, used, length, next, freeList, frees, allocateList, allocs) && k < |frees| &&
              CoalescedBut(t, used + {t.hi}, frees[k])
    requires JoinsAs(t, used, frees, k, true, false)
    ensures var p, x := frees[k - 1], frees[k];
            var u := Merge(t, p);
            p in length && x in length && x in next && u.hi == t.hi && Good(u, used) && SameUsed(t, u, used) &&
            ListsAt(u, used, length[p := length[p] + (length[x] + HDR)], next[p := next[x]],
                    freeList, Without(frees, k), allocateList, allocs)
  {
    hide Shape, Elems, Ascending, CoalescedBut, Good, Lengths, SameUsed, Frees, List;
    Neighbours(t, used, next, freeList, frees, k, length);
    MergePrev(t, used, frees[k - 1], frees[k], length);
    Removed(next, freeList, frees, k);
    AllocsStay(t, used, next, freeList, frees, allocateList, allocs, k - 1, next[frees[k]]);
  }

  lemma JoinNext(t: Tiling, used: set<int>, length: map<int, int>, next: map<int, int>, freeList: int, frees: seq<int>,
                 allocateList: int, allocs: seq<int>, k: nat)
    requires ListsAt(t, used, length, next, freeList, frees, allocateList, allocs) && k < |frees| &&
              CoalescedBut(t, used + {t.hi}, frees[k])
    requires JoinsAs(t, used, frees, k, false, true)
    ensures var x, n := frees[k], frees[k + 1];
            var u := Merge(t, x);
            x in length && n in length && n in next && u.hi == t.hi && Good(u, used) && SameUsed(t, u, used) &&
            ListsAt(u, used, length[x := length[x] + (length[n] + HDR)], next[x := next[n]],
                    freeList, Without(frees, k + 1), allocateList, allocs)
  {
    hide Shape, Elems, Ascending, CoalescedBut, Good, Lengths, SameUsed, Frees, List;
    Neighbours(t, used, next, freeList, frees, k, length);
    MergeNext(t, used, frees[k], frees[k + 1], length);
    Removed(next, freeList, frees, k + 1);
    AllocsStay(t, used, next, freeList, frees, allocateList, allocs, k, next[frees[k + 1]]);
  }

  lemma JoinNone(t: Tiling, used: set<int>, length: map<int, int>, next: map<int, int>, freeList: int, frees: seq<int>,
                 allocateList: int, allocs: seq<int>, k: nat)
    requires ListsAt(t, used, length, next, freeList, frees, allocateList, allocs) && k < |frees| &&
              CoalescedBut(t, used + {t.hi}, frees[k])
    requires JoinsAs(t, used, frees, k, false, false)
    ensures Good(t, used) && SameUsed(t, t, used)
  {
    hide Shape, Elems, Ascending, CoalescedBut, Good, Lengths, SameUsed, Frees, List;
    Neighbours(t, used, next, freeList, frees, k, length);
    NoBackward(t, used, frees[k]);
    SameSelf(t, used);
  }

  /** The block at position k of the free list ends before the next one starts. */
  lemma FreeBounds(t: Tiling, used: set<int>, frees: seq<int>, k: nat)
    requires Shape(t, used) && Ascending(frees) && Elems(frees) == Frees(t, used) && k < |frees|
    ensures frees[k] in t.next && (k + 1 < |frees| ==> t.next[frees[k]] <= frees[k + 1])
  {
    assert frees[k] in Elems(frees);
    assert BlockAt(t, frees[k]);
    if k + 1 < |frees| { assert frees[k + 1] in Elems(frees); }
  }

  lemma SplitLengths(t: Tiling, used: set<int>, b: int, n: nat, length: map<int, int>, length': map<int, int>)
    requires Shape(t, used) && b in Frees(t, used) && Payload(t, b) >= n + HDR && Lengths(length, t)
    requires b in length && length' == length[b + HDR + n := length[b] - HDR - n][b := n]
    ensures Lengths(length', Split(t, b, b + HDR + n))
  {
    assert BlockAt(t, b);
  }

  lemma Position(x: int, s: seq<int>) returns (k: nat)
    requires x in Elems(s)
    ensures k < |s| && s[k] == x
  {
    k :| 0 <= k < |s| && s[k] == x;
  }
}
