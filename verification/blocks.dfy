/** Address-ordered block headers that tile a region: what the memheap and the small-memory
    allocator have in common. */
module Blocks {
  /** Headers at the addresses `blocks`, each `hdr` bytes, from `lo` to the end marker `hi`. */
  datatype Tiling = Tiling(blocks: set<int>, next: map<int, int>, lo: int, hi: int, hdr: nat)

  /** The bytes a block can hold. */
  function Payload(t: Tiling, b: int): int { if b in t.next then t.next[b] - b - t.hdr else 0 }

  /** The block at b ends where its successor starts, with no header in between. */
  ghost predicate BlockAt(t: Tiling, b: int)
    requires b in t.next
  {
    && t.next[b] in t.blocks && b + t.hdr <= t.next[b]
    && forall c :: c in t.blocks ==> c <= b || t.next[b] <= c
  }

  ghost predicate Tiles(t: Tiling) {
    && t.hdr > 0 && t.lo in t.blocks && t.hi in t.blocks
    && (forall b :: b in t.blocks ==> t.lo <= b <= t.hi && b in t.next)
    && (forall b {:trigger BlockAt(t, b)} :: b in t.blocks && b != t.hi ==> BlockAt(t, b))
  }

  /** The back link of every successor but the end marker leads back. */
  ghost predicate Backs(t: Tiling, prev: map<int, int>)
    requires Tiles(t)
  {
    forall b {:trigger BackAt(t, prev, b)} :: b in t.blocks && b != t.hi && t.next[b] != t.hi ==> BackAt(t, prev, b)
  }

  ghost predicate BackAt(t: Tiling, prev: map<int, int>, b: int)
    requires b in t.next
  {
    t.next[b] in prev && prev[t.next[b]] == b
  }

  /** Walking along next from lo reaches every block: each has a predecessor. */
  lemma Predecessor(t: Tiling, b: int) returns (p: int)
    requires Tiles(t) && b in t.blocks && b != t.lo
    ensures p in t.blocks && p < b && t.next[p] == b
  {
    p := t.lo;
    while t.next[p] != b
      invariant p in t.blocks && p < b
      decreases b - p
    {
      assert BlockAt(t, p);
      p := t.next[p];
    }
  }

  lemma PredecessorUnique(t: Tiling, p: int, q: int)
    requires Tiles(t) && p in t.blocks && q in t.blocks && p != t.hi && q != t.hi && t.next[p] == t.next[q]
    ensures p == q
  {
    assert BlockAt(t, p) && BlockAt(t, q);
  }

  /** The payloads of two blocks never overlap. */
  lemma PayloadsDisjoint(t: Tiling, b: int, c: int)
    requires Tiles(t) && b in t.blocks && c in t.blocks && b != c && b != t.hi && c != t.hi
    ensures t.next[b] <= c || t.next[c] <= b
  {
    assert BlockAt(t, b) && BlockAt(t, c);
  }

  // ---- Splitting and merging ----

  function Split(t: Tiling, b: int, n: int): Tiling {
    if b !in t.next then t else
    t.(blocks := t.blocks + {n}, next := t.next[n := t.next[b]][b := n])
  }

  lemma SplitTiles(t: Tiling, b: int, n: int)
    requires Tiles(t) && b in t.blocks && b != t.hi
    requires b + t.hdr <= n && n + t.hdr <= t.next[b]
    ensures n !in t.blocks && Tiles(Split(t, b, n))
  {
    assert BlockAt(t, b);
    var t' := Split(t, b, n);
    assert forall c :: c in t'.blocks <==> c in t.blocks || c == n;
    forall c | c in t'.blocks && c != t.hi
      ensures BlockAt(t', c)
    {
      if c != n && c != b { assert BlockAt(t, c); }
    }
  }

  /** Drop the header of the block after b. */
  function Merge(t: Tiling, b: int): Tiling {
    if b !in t.next || t.next[b] !in t.next then t else
    t.(blocks := t.blocks - {t.next[b]}, next := t.next[b := t.next[t.next[b]]])
  }

  lemma MergeTiles(t: Tiling, b: int)
    requires Tiles(t) && b in t.blocks && b != t.hi && t.next[b] != t.hi
    ensures Tiles(Merge(t, b)) && b in Merge(t, b).blocks
    ensures forall c :: c in Merge(t, b).blocks ==> c in t.blocks && (c != b ==> Merge(t, b).next[c] == t.next[c])
  {
    assert BlockAt(t, b) && BlockAt(t, t.next[b]);
    var t' := Merge(t, b);
    forall c | c in t'.blocks && c != t.hi
      ensures BlockAt(t', c)
    {
      assert BlockAt(t, c);
    }
  }

  /** The back links after a split: the new header points to b, and its successor to it. */
  lemma BacksSplit(t: Tiling, prev: map<int, int>, b: int, n: int)
    requires Tiles(t) && Backs(t, prev) && b in t.blocks && b != t.hi
    requires b + t.hdr <= n && n + t.hdr <= t.next[b]
    ensures Tiles(Split(t, b, n))
    ensures Backs(Split(t, b, n), prev[n := b][t.next[b] := n])
    ensures t.next[b] == t.hi ==> Backs(Split(t, b, n), prev[n := b])
  {
    SplitTiles(t, b, n);
    var t', e := Split(t, b, n), t.next[b];
    var p1, p2 := prev[n := b][e := n], prev[n := b];
    assert BlockAt(t, b);
    forall c | c in t'.blocks && c != t.hi && t'.next[c] != t.hi
      ensures BackAt(t', p1, c) && (e == t.hi ==> BackAt(t', p2, c))
    {
      if c != n && c != b {
        assert BackAt(t, prev, c) && BlockAt(t, c);
      }
    }
  }

  lemma BacksMerge(t: Tiling, prev: map<int, int>, b: int)
    requires Tiles(t) && Backs(t, prev) && b in t.blocks && b != t.hi && t.next[b] != t.hi
    ensures t.next[b] in t.next && Tiles(Merge(t, b)) && Backs(Merge(t, b), prev[t.next[t.next[b]] := b])
  {
    assert BlockAt(t, b);
    MergeTiles(t, b);
    var t', e := Merge(t, b), t.next[t.next[b]];
    assert BlockAt(t, b) && BlockAt(t, t.next[b]);
    forall c | c in t'.blocks && c != t.hi && t'.next[c] != t.hi
      ensures BackAt(t', prev[e := b], c)
    {
      if c != b {
        assert BackAt(t, prev, c) && BlockAt(t, c);
      }
    }
  }

  /** Of two neighbours at least one is in s. */
  ghost predicate OneOfPair(t: Tiling, s: set<int>, b: int)
    requires b in t.next
  {
    b in s || t.next[b] in s
  }

  /** No two neighbouring blocks are both outside s, except possibly next to x. */
  ghost predicate CoalescedBut(t: Tiling, s: set<int>, x: int)
    requires Tiles(t)
  {
    forall b {:trigger OneOfPair(t, s, b)} ::
      b in t.blocks && b != t.hi && b != x && t.next[b] != x ==> OneOfPair(t, s, b)
  }

  ghost predicate Coalesced(t: Tiling, s: set<int>)
    requires Tiles(t)
  {
    forall b {:trigger OneOfPair(t, s, b)} :: b in t.blocks && b != t.hi ==> OneOfPair(t, s, b)
  }

  /** Merging forward and then backward around x leaves no pair outside s. */
  lemma CoalesceForward(t: Tiling, s: set<int>, x: int)
    requires Tiles(t) && CoalescedBut(t, s, x) && x in t.blocks && x != t.hi && t.hi in s
    requires t.next[x] !in s
    ensures Tiles(Merge(t, x)) && CoalescedBut(Merge(t, x), s, x) && Merge(t, x).next[x] in s
  {
    assert BlockAt(t, x);
    MergeTiles(t, x);
    var c, t' := t.next[x], Merge(t, x);
    assert BlockAt(t, c) && OneOfPair(t, s, c);
    forall b | b in t'.blocks && b != t'.hi && b != x && t'.next[b] != x
      ensures OneOfPair(t', s, b)
    {
      assert OneOfPair(t, s, b);
    }
  }

  lemma CoalesceBackward(t: Tiling, s: set<int>, p: int)
    requires Tiles(t) && p in t.blocks && p != t.hi && t.next[p] != t.hi && CoalescedBut(t, s, t.next[p])
    requires t.next[p] in t.next && t.next[t.next[p]] in s
    ensures p !in s ==> Tiles(Merge(t, p)) && Coalesced(Merge(t, p), s)
    ensures p in s ==> Coalesced(t, s)
  {
    var x := t.next[p];
    assert BlockAt(t, p);
    MergeTiles(t, p);
    forall b | b in t.blocks && b != t.hi && b != p && b != x
      ensures OneOfPair(t, s, b)
    {
      assert BlockAt(t, b);
    }
    if p in s {
      forall b | b in t.blocks && b != t.hi ensures OneOfPair(t, s, b) {}
    } else {
      var t' := Merge(t, p);
      forall b | b in t'.blocks && b != t'.hi
        ensures OneOfPair(t', s, b)
      {
        if b != p { assert OneOfPair(t, s, b); }
      }
    }
  }

  lemma CoalesceTake(t: Tiling, s: set<int>, b: int)
    requires Tiles(t) && Coalesced(t, s)
    ensures Coalesced(t, s + {b})
  {
    forall c | c in t.blocks && c != t.hi ensures OneOfPair(t, s + {b}, c) { assert OneOfPair(t, s, c); }
  }

  lemma CoalesceSplit(t: Tiling, s: set<int>, b: int, n: int)
    requires Tiles(t) && Coalesced(t, s) && b in t.blocks && b != t.hi && b !in s
    requires b + t.hdr <= n && n + t.hdr <= t.next[b]
    ensures Tiles(Split(t, b, n)) && Coalesced(Split(t, b, n), s - {n} + {b})
  {
    SplitTiles(t, b, n);
    var t', s' := Split(t, b, n), s - {n} + {b};
    assert OneOfPair(t, s, b);
    forall c | c in t'.blocks && c != t'.hi
      ensures OneOfPair(t', s', c)
    {
      if c != n { assert OneOfPair(t, s, c) && BlockAt(t, c); }
    }
  }

  lemma CoalesceDrop(t: Tiling, s: set<int>, b: int)
    requires Tiles(t) && Coalesced(t, s)
    ensures CoalescedBut(t, s - {b}, b)
  {
    forall c | c in t.blocks && c != t.hi && c != b && t.next[c] != b
      ensures OneOfPair(t, s - {b}, c)
    {
      assert OneOfPair(t, s, c);
    }
  }

  lemma CoalesceSplitUsed(t: Tiling, s: set<int>, b: int, n: int)
    requires Tiles(t) && Coalesced(t, s) && b in t.blocks && b != t.hi
    requires b + t.hdr <= n && n + t.hdr <= t.next[b]
    ensures Tiles(Split(t, b, n)) && CoalescedBut(Split(t, b, n), s - {n}, n)
  {
    SplitTiles(t, b, n);
    var t', s' := Split(t, b, n), s - {n};
    forall c | c in t'.blocks && c != t'.hi && c != n && t'.next[c] != n
      ensures OneOfPair(t', s', c)
    {
      assert OneOfPair(t, s, c) && BlockAt(t, c);
    }
  }

  lemma CoalesceFirst(t: Tiling, s: set<int>)
    requires Tiles(t) && t.lo != t.hi && CoalescedBut(t, s, t.lo) && t.next[t.lo] in s
    ensures Coalesced(t, s)
  {
    forall b | b in t.blocks && b != t.hi ensures OneOfPair(t, s, b) { assert BlockAt(t, b); }
  }

  /** No two neighbours are both outside s, except possibly x and the block after it. */
  ghost predicate CoalescedUpTo(t: Tiling, s: set<int>, x: int)
    requires Tiles(t)
  {
    forall b {:trigger OneOfPair(t, s, b)} :: b in t.blocks && b != t.hi && b != x ==> OneOfPair(t, s, b)
  }

  /** Merging x into its predecessor p leaves only the pair after p to look at. */
  lemma CoalesceLeft(t: Tiling, s: set<int>, p: int)
    requires Tiles(t) && p in t.blocks && p != t.hi && t.next[p] != t.hi && CoalescedBut(t, s, t.next[p])
    ensures p in s ==> CoalescedUpTo(t, s, t.next[p])
    ensures p !in s ==> Tiles(Merge(t, p)) && CoalescedUpTo(Merge(t, p), s, p)
  {
    var x := t.next[p];
    assert BlockAt(t, p) && BlockAt(t, x);
    MergeTiles(t, p);
    forall b | b in t.blocks && b != t.hi && b != p && b != x
      ensures OneOfPair(t, s, b)
    {
      assert BlockAt(t, b);
    }
    if p in s {
      assert OneOfPair(t, s, p);
    } else {
      var t' := Merge(t, p);
      forall b | b in t'.blocks && b != t'.hi && b != p
        ensures OneOfPair(t', s, b)
      {
        assert OneOfPair(t, s, b);
      }
    }
  }

  lemma CoalescedAll(t: Tiling, s: set<int>, x: int)
    requires Tiles(t) && Coalesced(t, s)
    ensures CoalescedUpTo(t, s, x)
  {
  }

  lemma CoalesceStart(t: Tiling, s: set<int>)
    requires Tiles(t) && t.lo != t.hi && CoalescedBut(t, s, t.lo)
    ensures CoalescedUpTo(t, s, t.lo)
  {
    forall b | b in t.blocks && b != t.hi && b != t.lo ensures OneOfPair(t, s, b) { assert BlockAt(t, b); }
  }

  lemma CoalesceRight(t: Tiling, s: set<int>, x: int)
    requires Tiles(t) && x in t.blocks && x != t.hi && t.hi in s && CoalescedUpTo(t, s, x)
    ensures t.next[x] in s ==> Coalesced(t, s)
    ensures t.next[x] !in s ==> Tiles(Merge(t, x)) && Coalesced(Merge(t, x), s)
  {
    assert BlockAt(t, x);
    if t.next[x] in s {
      assert OneOfPair(t, s, x);
    } else {
      var c := t.next[x];
      MergeTiles(t, x);
      var t' := Merge(t, x);
      assert BlockAt(t, c) && OneOfPair(t, s, c);
      forall b | b in t'.blocks && b != t'.hi
        ensures OneOfPair(t', s, b)
      {
        if b != x { assert OneOfPair(t, s, b); }
      }
    }
  }

  /** The end of a block of s is cut off and merged with the block after it, if that is not in s. */
  lemma CoalesceShrink(t: Tiling, s: set<int>, b: int, n: int)
    requires Tiles(t) && Coalesced(t, s) && b in t.blocks && b != t.hi && b in s && t.hi in s
    requires b + t.hdr <= n && n + t.hdr <= t.next[b]
    ensures n !in t.blocks && Tiles(Split(t, b, n))
    ensures t.next[b] in s ==> Coalesced(Split(t, b, n), s - {n})
    ensures t.next[b] !in s ==> Tiles(Merge(Split(t, b, n), n)) && Coalesced(Merge(Split(t, b, n), n), s - {n})
  {
    var t1 := Split(t, b, n);
    SplitTiles(t, b, n);
    CoalesceSplitUsed(t, s, b, n);
    assert BlockAt(t, b) && BlockAt(t1, b) && BlockAt(t1, n);
    CoalesceLeft(t1, s - {n}, b);
    CoalesceRight(t1, s - {n}, n);
  }

  /** A block of s grows into the block after it: the boundary moves, the pairs stay fine. */
  lemma CoalesceRegrow(t: Tiling, s: set<int>, b: int, n: int)
    requires Tiles(t) && Coalesced(t, s) && b in t.blocks && b != t.hi && b in s
    requires t.next[b] in t.next && t.next[b] !in s && t.next[b] != t.hi
    requires t.next[b] < n && n + t.hdr <= t.next[t.next[b]]
    ensures Tiles(Merge(t, b)) && b + t.hdr <= n && n + t.hdr <= Merge(t, b).next[b]
    ensures Tiles(Split(Merge(t, b), b, n)) && Coalesced(Split(Merge(t, b), b, n), s - {n})
  {
    var c := t.next[b];
    assert BlockAt(t, b) && BlockAt(t, c) && OneOfPair(t, s, c);
    MergeTiles(t, b);
    var m := Merge(t, b);
    SplitTiles(m, b, n);
    var t' := Split(m, b, n);
    forall x | x in t'.blocks && x != t'.hi
      ensures OneOfPair(t', s - {n}, x)
    {
      if x != n && x != b { assert OneOfPair(t, s, x) && BlockAt(t, x); }
    }
  }

  // ---- Contents ----

  /** The payload bytes of the selected blocks are the same in two images of the region. */
  ghost predicate SamePayloads(t: Tiling, s: set<int>, was: seq<int>, now: seq<int>) {
    && |was| == |now|
    && forall b, i ::
        b in t.blocks && b in s && b != t.hi && b in t.next && b + t.hdr <= i < t.next[b] && 0 <= i < |was| ==>
          now[i] == was[i]
  }

  lemma SamePayloadsRefl(t: Tiling, s: set<int>, a: seq<int>)
    ensures SamePayloads(t, s, a, a)
  {
  }

  /** Fewer or shorter selected blocks. */
  lemma SamePayloadsSub(t: Tiling, s: set<int>, u: Tiling, r: set<int>, a: seq<int>, b: seq<int>)
    requires SamePayloads(t, s, a, b) && t.hi == u.hi && t.hdr == u.hdr
    requires forall x :: x in u.blocks && x in r && x in u.next && x != u.hi ==>
               x in t.blocks && x in s && x in t.next && u.next[x] <= t.next[x]
    ensures SamePayloads(u, r, a, b)
  {
  }

  lemma SamePayloadsTrans(t: Tiling, s: set<int>, u: Tiling, r: set<int>, a: seq<int>, b: seq<int>, c: seq<int>)
    requires SamePayloads(t, s, a, b) && SamePayloads(u, r, b, c) && t.hi == u.hi && t.hdr == u.hdr
    requires forall x :: x in t.blocks && x in s && x != t.hi && x in t.next ==>
               x in u.blocks && x in r && x in u.next && u.next[x] == t.next[x]
    ensures SamePayloads(t, s, a, c)
  {
  }

  /** The k bytes that were at src are at dst. */
  ghost predicate Kept(was: seq<int>, src: int, now: seq<int>, dst: int, k: int) {
    && 0 <= k && 0 <= src && src + k <= |was| && 0 <= dst && dst + k <= |now|
    && now[dst..dst + k] == was[src..src + k]
  }

  /** rt_memcpy between two payloads. */
  method CopyBytes(a: array<int>, dst: int, src: int, n: nat)
    requires 0 <= dst && dst + n <= a.Length && 0 <= src && src + n <= a.Length
    requires dst + n <= src || src + n <= dst
    modifies a
    ensures Kept(old(a[..]), src, a[..], dst, n)
    ensures forall i :: 0 <= i < a.Length && !(dst <= i < dst + n) ==> a[i] == old(a[i])
  {
    for k := 0 to n
      invariant a[dst..dst + k] == old(a[src..src + k])
      invariant forall i :: 0 <= i < a.Length && !(dst <= i < dst + k) ==> a[i] == old(a[i])
    {
      assert a[src + k] == old(a[src..src + n])[k];
      a[dst + k] := a[src + k];
    }
  }

  /** The bytes of a selected block are kept where they are. */
  lemma KeptInPlace(t: Tiling, s: set<int>, was: seq<int>, now: seq<int>, b: int, k: nat)
    requires SamePayloads(t, s, was, now) && b in t.blocks && b in s && b != t.hi && b in t.next
    requires 0 <= b && b + t.hdr + k <= t.next[b] <= |was|
    ensures Kept(was, b + t.hdr, now, b + t.hdr, k)
  {
  }

  /** Two images differ at most inside the header at c. */
  ghost predicate OnlyHeader(hdr: nat, c: int, was: seq<int>, now: seq<int>) {
    |was| == |now| && forall i :: 0 <= i < |was| && !(c <= i < c + hdr) ==> now[i] == was[i]
  }

  /** Writing a header that belongs to the tiling touches no payload. */
  lemma HeaderHarmless(t: Tiling, s: set<int>, c: int, was: seq<int>, now: seq<int>)
    requires Tiles(t) && c in t.blocks && OnlyHeader(t.hdr, c, was, now)
    ensures SamePayloads(t, s, was, now)
  {
    forall b | b in t.blocks && b in s && b != t.hi
      ensures c < b + t.hdr ==> c + t.hdr <= b + t.hdr
      ensures c >= b + t.hdr ==> c >= t.next[b]
    {
      assert BlockAt(t, b);
      if c != t.hi { assert BlockAt(t, c); }
    }
  }

  // ---- Taking a block, and moving a payload ----

  function Min(a: int, b: int): (r: int)
    ensures r <= a && r <= b && (r == a || r == b)
  {
    if a < b then a else b
  }

  function Max(a: int, b: int): (r: int)
    ensures r >= a && r >= b && (r == a || r == b)
  {
    if a < b then b else a
  }

  /** The block at b is in use. */
  ghost predicate InUse(t: Tiling, s: set<int>, b: int) { b in t.blocks && b in s && b != t.hi && b in t.next }

  /** The block at c of t' shares no byte with the blocks in use of t. */
  ghost predicate ClearOf(t: Tiling, s: set<int>, t': Tiling, c: int) {
    c in t'.next && forall b :: InUse(t, s, b) ==> t.next[b] <= c || t'.next[c] <= b
  }

  /** The unselected block at b is selected and serves n bytes: what is left is split off if it is
      enough for a header and `least` bytes. */
  ghost predicate Taken(t: Tiling, s: set<int>, t': Tiling, s': set<int>, b: int, n: int, least: int) {
    && t' == (if Payload(t, b) >= n + t.hdr + least then Split(t, b, b + t.hdr + n) else t)
    && t'.blocks * s' == t.blocks * s + {b}
  }

  /** The bytes of block b now live in block c, which was unused and has n bytes at least. */
  ghost predicate Moved(t: Tiling, s: set<int>, t': Tiling, s': set<int>, was: seq<int>, now: seq<int>, b: int, c: int,
                        n: int) {
    && b != c && c in t.blocks && c !in s && c in t'.next && b in t.next
    && t'.blocks * s' == t.blocks * s - {b} + {c}
    && t'.next[c] - c - t.hdr >= n
    && Kept(was, b + t.hdr, now, c + t.hdr, Min(t.next[b] - b - t.hdr, n))
    && SamePayloads(t', s' - {c}, was, now)
  }

  /** The selected blocks of t are selected blocks of t', each as long as before. */
  ghost predicate Still(t: Tiling, s: set<int>, t': Tiling, s': set<int>) {
    forall x ::
        x in t.blocks && x in s && x in t.next ==> x in t'.blocks && x in s' && x in t'.next && t'.next[x] == t.next[x]
  }

  /** After rt_malloc: the new block, and the blocks that were in use. */
  lemma TakenNext(t: Tiling, s: set<int>, t': Tiling, s': set<int>, b: int, n: int, least: nat)
    requires Tiles(t) && Tiles(t') && b in t.blocks && b != t.hi && b !in s && n >= 0
    requires t.next[b] - b - t.hdr >= n && Taken(t, s, t', s', b, n, least)
    ensures b in t'.blocks && b in s' && t'.next[b] - b - t.hdr >= n
    ensures t'.blocks * s' == t.blocks * s + {b}
    ensures Still(t, s, t', s') && Still(t', s' - {b}, t, s)
  {
    assert BlockAt(t, b);
    assert b in t'.blocks * s';
    forall c | c in t'.blocks && c in s' && c != b ensures c in t.blocks && c in s { assert c in t'.blocks * s'; }
    forall c | c in t.blocks && c in s ensures c in t'.blocks && c in s' { assert c in t'.blocks * s'; }
  }

  /** The copy and the release of the old block: m1 before the copy, m2 after it, m3 at the end. */
  lemma MovedBytes(t1: Tiling, s1: set<int>, t3: Tiling, s3: set<int>, m1: seq<int>, m2: seq<int>, m3: seq<int>,
                   b: int, c: int, k: nat)
    requires Tiles(t1) && Tiles(t3) && t1.hdr == t3.hdr && t1.hi == t3.hi && t1.lo == t3.lo == 0
    requires b in t1.blocks && c in t1.blocks && b != c && b != t1.hi && c != t1.hi && c in s1
    requires s3 == s1 - {b} && c in t3.blocks
    requires Still(t3, s3, t1, s1)
    requires |m1| == |m2| && c + t1.hdr + k <= t1.next[c] <= |m1|
    requires Kept(m1, b + t1.hdr, m2, c + t1.hdr, k)
    requires forall i :: 0 <= i < |m1| && !(c + t1.hdr <= i < c + t1.hdr + k) ==> m2[i] == m1[i]
    requires SamePayloads(t3, s3, m2, m3)
    ensures Kept(m1, b + t1.hdr, m3, c + t1.hdr, k)
    ensures SamePayloads(t3, s3 - {c}, m1, m3)
  {
    KeptInPlace(t3, s3, m2, m3, c, k);
    forall x | x in t3.blocks && x in s3 && x != c && x != t3.hi
      ensures t3.next[x] <= c || c + t1.hdr + k <= x + t1.hdr
    {
      PayloadsDisjoint(t1, x, c);
    }
  }

  lemma MovedWhole(t0: Tiling, s0: set<int>, t1: Tiling, s1: set<int>, t3: Tiling, s3: set<int>,
                   m0: seq<int>, m1: seq<int>, m3: seq<int>, b: int, c: int, n: int)
    requires Tiles(t0) && Tiles(t1) && Tiles(t3) && t0.hdr == t1.hdr == t3.hdr && t0.hi == t1.hi == t3.hi &&
              t0.lo == t3.lo == 0
    requires b in t0.blocks && b in s0 && b != t0.hi && c in t0.blocks && c !in s0 && c in t3.blocks && c in t1.blocks
    requires Still(t0, s0, t1, s1) && Still(t1, s1 - {b}, t3, s3) && Still(t3, s3, t1, s1)
    requires t1.blocks * s1 == t0.blocks * s0 + {c} && s3 == s1 - {b}
    requires t1.next[c] - c - t0.hdr >= n && c in s1 && t0.next[b] <= |m0|
    requires SamePayloads(t0, s0, m0, m1) && Kept(m1, b + t0.hdr, m3, c + t0.hdr, Min(t0.next[b] - b - t0.hdr, n))
    requires SamePayloads(t3, s3 - {c}, m1, m3)
    ensures Moved(t0, s0, t3, s3, m0, m3, b, c, n)
  {
    var k := Min(t0.next[b] - b - t0.hdr, n);
    KeptInPlace(t0, s0, m0, m1, b, k);
    assert t3.blocks * s3 == t0.blocks * s0 - {b} + {c} by {
      forall x ensures x in t3.blocks * s3 <==> x in t0.blocks * s0 - {b} + {c} {
        assert x in t1.blocks * s1 <==> x in t0.blocks * s0 + {c};
      }
    }
    forall x | x in t3.blocks && x in s3 - {c}
      ensures x in t0.blocks && x in s0 && t0.next[x] == t3.next[x]
    {
      assert x in t1.blocks * s1;
    }
    SamePayloadsSub(t0, s0, t3, s3 - {c}, m0, m1);
    SamePayloadsTrans(t3, s3 - {c}, t3, s3 - {c}, m0, m1, m3);
  }

  lemma TakenFrame(t: Tiling, s: set<int>, t': Tiling, s': set<int>, b: int, n: int, least: nat)
    requires t.hdr > 0 && n >= 0 && Taken(t, s, t', s', b, n, least)
    ensures forall c :: c in t.blocks ==> (c in s' <==> c in s || c == b)
    ensures forall c :: c in t'.blocks ==> c in t.blocks || c > b
  {
    forall c | c in t.blocks ensures c in s' <==> c in s || c == b {
      assert c in t'.blocks * s' <==> c in t.blocks * s + {b};
    }
  }

  // ---- Accounting ----

  /** The bytes of the blocks of s from b on, less k for each of them. */
  ghost function Extents(t: Tiling, s: set<int>, k: int, b: int): int
    requires Tiles(t) && b in t.blocks
    decreases t.hi - b
  {
    if b == t.hi then 0
    else assert BlockAt(t, b); (if b in s then t.next[b] - b - k else 0) + Extents(t, s, k, t.next[b])
  }

  /** Two tilings and two selections agree on the blocks that satisfy lo <= c < hi. */
  ghost predicate AgreeOn(t: Tiling, s: set<int>, t': Tiling, s': set<int>, lo: int, hi: int)
    requires Tiles(t) && Tiles(t')
  {
    forall c :: lo <= c < hi ==>
      (c in t.blocks <==> c in t'.blocks) &&
      (c in t.blocks && c != t.hi && c != t'.hi ==> t.next[c] == t'.next[c] && (c in s <==> c in s'))
  }

  lemma {:induction false} ExtentsPrefix(t: Tiling, s: set<int>, t': Tiling, s': set<int>, k: int, b: int, x: int)
    requires Tiles(t) && Tiles(t') && t.hi == t'.hi && AgreeOn(t, s, t', s', b, x)
    requires b in t.blocks && b in t'.blocks && x in t.blocks && x in t'.blocks && b <= x
    ensures Extents(t, s, k, b) - Extents(t, s, k, x) == Extents(t', s', k, b) - Extents(t', s', k, x)
    decreases x - b
  {
    if b < x {
      assert BlockAt(t, b) && BlockAt(t', b);
      ExtentsPrefix(t, s, t', s', k, t.next[b], x);
    }
  }

  lemma {:induction false} ExtentsSuffix(t: Tiling, s: set<int>, t': Tiling, s': set<int>, k: int, x: int)
    requires Tiles(t) && Tiles(t') && t.hi == t'.hi && AgreeOn(t, s, t', s', x, t.hi)
    requires x in t.blocks && x in t'.blocks
    ensures Extents(t, s, k, x) == Extents(t', s', k, x)
    decreases t.hi - x
  {
    if x != t.hi {
      assert BlockAt(t, x) && BlockAt(t', x);
      ExtentsSuffix(t, s, t', s', k, t.next[x]);
    }
  }

  /** If only blocks between x and y differ, the totals differ by what lies between x and y. */
  lemma ExtentsChange(t: Tiling, s: set<int>, t': Tiling, s': set<int>, k: int, x: int, y: int)
    requires Tiles(t) && Tiles(t') && t.lo == t'.lo && t.hi == t'.hi && t.lo <= x <= y <= t.hi
    requires x in t.blocks && x in t'.blocks && y in t.blocks && y in t'.blocks
    requires AgreeOn(t, s, t', s', t.lo, x) && AgreeOn(t, s, t', s', y, t.hi)
    ensures Extents(t', s', k, t.lo) - Extents(t, s, k, t.lo)
         == (Extents(t', s', k, x) - Extents(t', s', k, y)) - (Extents(t, s, k, x) - Extents(t, s, k, y))
  {
    ExtentsPrefix(t, s, t', s', k, t.lo, x);
    ExtentsSuffix(t, s, t', s', k, y);
  }

  /** Splitting an unselected block, merging two unselected blocks: the total stays. */
  lemma ExtentsSplitFree(t: Tiling, s: set<int>, k: int, b: int, n: int)
    requires Tiles(t) && b in t.blocks && b != t.hi && b !in s && n !in s
    requires b + t.hdr <= n && n + t.hdr <= t.next[b]
    ensures Tiles(Split(t, b, n)) && Extents(Split(t, b, n), s, k, t.lo) == Extents(t, s, k, t.lo)
  {
    SplitTiles(t, b, n);
    var t', e := Split(t, b, n), t.next[b];
    assert BlockAt(t, b) && BlockAt(t', b) && BlockAt(t', n);
    ExtentsChange(t, s, t', s, k, b, e);
    assert Extents(t', s, k, b) == Extents(t', s, k, n) == Extents(t', s, k, e);
  }

  lemma ExtentsMergeFree(t: Tiling, s: set<int>, k: int, b: int)
    requires Tiles(t) && b in t.blocks && b != t.hi && t.next[b] != t.hi && b !in s && t.next[b] !in s
    ensures Tiles(Merge(t, b)) && Extents(Merge(t, b), s, k, t.lo) == Extents(t, s, k, t.lo)
  {
    MergeTiles(t, b);
    var t', c := Merge(t, b), t.next[b];
    assert BlockAt(t, b) && BlockAt(t, c) && BlockAt(t', b);
    ExtentsChange(t, s, t', s, k, b, t.next[c]);
    assert Extents(t, s, k, b) == Extents(t, s, k, c) == Extents(t, s, k, t.next[c]);
  }

  /** Cutting a selected block at n: its first part is no longer selected, its second part is. */
  lemma ExtentsCut(t: Tiling, s: set<int>, k: int, b: int, n: int)
    requires Tiles(t) && b in t.blocks && b != t.hi && b in s && n !in s
    requires b + t.hdr <= n && n + t.hdr <= t.next[b]
    ensures Tiles(Split(t, b, n)) && Extents(Split(t, b, n), s - {b} + {n}, k, t.lo) == Extents(t, s, k, t.lo) - (n - b)
  {
    SplitTiles(t, b, n);
    ExtentsSelect(t, s - {b}, k, b);
    assert s - {b} + {b} == s;
    ExtentsSplitFree(t, s - {b}, k, b, n);
    assert BlockAt(Split(t, b, n), n);
    ExtentsSelect(Split(t, b, n), s - {b}, k, n);
  }

  /** The boundary between an unselected block b and the selected block after it moves up to n. */
  lemma ExtentsRegrow(t: Tiling, s: set<int>, k: int, b: int, n: int)
    requires Tiles(t) && b in t.blocks && b != t.hi && b !in s && n !in s
    requires t.next[b] in t.next && t.next[b] != t.hi && t.next[b] in s
    requires t.next[b] < n && n + t.hdr <= t.next[t.next[b]]
    ensures Tiles(Merge(t, b)) && Tiles(Split(Merge(t, b), b, n))
    ensures Extents(Split(Merge(t, b), b, n), s - {t.next[b]} + {n}, k, t.lo) ==
              Extents(t, s, k, t.lo) - (n - t.next[b])
  {
    var c := t.next[b];
    assert BlockAt(t, b) && BlockAt(t, c);
    ExtentsSelect(t, s - {c}, k, c);
    assert s - {c} + {c} == s;
    ExtentsMergeFree(t, s - {c}, k, b);
    ExtentsSplitFree(Merge(t, b), s - {c}, k, b, n);
    assert BlockAt(Split(Merge(t, b), b, n), n);
    ExtentsSelect(Split(Merge(t, b), b, n), s - {c}, k, n);
  }

  /** The end of an unselected block becomes selected, and swallows the selected block after it. */
  lemma ExtentsShrink(t: Tiling, s: set<int>, k: int, b: int, n: int)
    requires Tiles(t) && b in t.blocks && b != t.hi && b !in s && n !in s
    requires b + t.hdr <= n && n + t.hdr <= t.next[b]
    ensures Tiles(Split(t, b, n))
    ensures Extents(Split(t, b, n), s + {n}, k, t.lo) == Extents(t, s, k, t.lo) + (t.next[b] - n - k)
    ensures t.next[b] in s && t.next[b] != t.hi ==>
              Tiles(Merge(Split(t, b, n), n)) &&
              Extents(Merge(Split(t, b, n), n), s - {t.next[b]} + {n}, k, t.lo) == Extents(t, s, k, t.lo) +
                  (t.next[b] - n)
  {
    var t1, c := Split(t, b, n), t.next[b];
    SplitTiles(t, b, n);
    assert BlockAt(t, b) && BlockAt(t1, n);
    ExtentsSplitFree(t, s, k, b, n);
    ExtentsSelect(t1, s, k, n);
    if c in s && c != t.hi {
      ExtentsMergeSelected(t1, s + {n}, k, n);
      var t2 := Merge(t1, n);
      assert t2.blocks * (s + {n}) == t2.blocks * (s - {c} + {n});
      ExtentsIgnore(t2, s + {n}, s - {c} + {n}, k);
    }
  }

  lemma ExtentsSplitUsed(t: Tiling, s: set<int>, k: int, b: int, n: int)
    requires Tiles(t) && b in t.blocks && b != t.hi && b in s && n !in s
    requires b + t.hdr <= n && n + t.hdr <= t.next[b]
    ensures Tiles(Split(t, b, n)) && Extents(Split(t, b, n), s, k, t.lo) == Extents(t, s, k, t.lo) - (t.next[b] - n)
  {
    SplitTiles(t, b, n);
    var t', e := Split(t, b, n), t.next[b];
    assert BlockAt(t, b) && BlockAt(t', b) && BlockAt(t', n);
    ExtentsChange(t, s, t', s, k, b, e);
    assert Extents(t', s, k, b) == n - b - k + Extents(t', s, k, n) && Extents(t', s, k, n) == Extents(t', s, k, e);
  }

  /** Only the selected blocks count, not other selected addresses. */
  lemma ExtentsIgnore(t: Tiling, s: set<int>, s': set<int>, k: int)
    requires Tiles(t) && t.blocks * s == t.blocks * s'
    ensures Extents(t, s, k, t.lo) == Extents(t, s', k, t.lo)
  {
    forall c | c in t.blocks ensures c in s <==> c in s' { assert c in t.blocks * s <==> c in t.blocks * s'; }
    ExtentsSuffix(t, s, t, s', k, t.lo);
  }

  /** Merging two selected blocks: the second one no longer costs k. */
  lemma ExtentsMergeSelected(t: Tiling, s: set<int>, k: int, b: int)
    requires Tiles(t) && b in t.blocks && b != t.hi && t.next[b] != t.hi && b in s && t.next[b] in s
    ensures Tiles(Merge(t, b)) && Extents(Merge(t, b), s, k, t.lo) == Extents(t, s, k, t.lo) + k
  {
    MergeTiles(t, b);
    var t', c := Merge(t, b), t.next[b];
    assert BlockAt(t, b) && BlockAt(t, c) && BlockAt(t', b);
    ExtentsChange(t, s, t', s, k, b, t.next[c]);
    assert Extents(t, s, k, b) == c - b - k + Extents(t, s, k, c);
    assert Extents(t, s, k, c) == t.next[c] - c - k + Extents(t, s, k, t.next[c]);
  }

  /** Selecting, or no longer selecting, one block. */
  lemma ExtentsSelect(t: Tiling, s: set<int>, k: int, b: int)
    requires Tiles(t) && b in t.blocks && b != t.hi && b !in s
    ensures Extents(t, s + {b}, k, t.lo) == Extents(t, s, k, t.lo) + t.next[b] - b - k
  {
    assert BlockAt(t, b);
    ExtentsChange(t, s, t, s + {b}, k, b, t.next[b]);
  }

  /** Selected and unselected blocks together are the region. */
  lemma {:induction false} ExtentsSum(t: Tiling, s: set<int>, b: int)
    requires Tiles(t) && b in t.blocks
    ensures Extents(t, s, 0, b) + Extents(t, t.blocks - s, 0, b) == t.hi - b
    decreases t.hi - b
  {
    if b != t.hi {
      assert BlockAt(t, b);
      ExtentsSum(t, s, t.next[b]);
    }
  }

  lemma {:induction false} ExtentsBounds(t: Tiling, s: set<int>, k: int, b: int)
    requires Tiles(t) && b in t.blocks && 0 <= k <= t.hdr
    ensures 0 <= Extents(t, s, k, b) <= t.hi - b
    ensures forall c :: c in s && c in t.blocks && b <= c < t.hi ==> t.next[c] - c - k <= Extents(t, s, k, b)
    decreases t.hi - b
  {
    if b != t.hi {
      assert BlockAt(t, b);
      ExtentsBounds(t, s, k, t.next[b]);
    }
  }
}
