/** What the heaps promise their callers, without the terms in which their operations are specified. */
module HeapLaws {
  import opened Blocks
  import FinshHeapSpec
  import FinshHeap
  import ZoneSpec

  // ---- Cutting ----

  /** An allocated block is not larger than asked for by a header and a minimal block or more; if it was cut, it is
      exactly as large as asked for, and the rest is an unused block behind it. */
  lemma LittleWaste(t: Tiling, s: set<int>, t': Tiling, s': set<int>, b: int, n: int, least: nat)
    requires Tiles(t) && Tiles(t') && InUseNever(t, s, b) && n >= 0 && s' <= s + {b}
    requires Payload(t, b) >= n && Taken(t, s, t', s', b, n, least)
    ensures n <= Payload(t', b) < n + t.hdr + least
    ensures Payload(t', b) != Payload(t, b) ==>
              Payload(t', b) == n && t'.next[b] in t'.blocks && t'.next[b] !in s'
  {
    if Payload(t, b) >= n + t.hdr + least { SplitTiles(t, b, b + t.hdr + n); }
  }

  ghost predicate InUseNever(t: Tiling, s: set<int>, b: int) { b in t.blocks && b != t.hi && b !in s }

  // ---- finsh_heap.c ----

  /** After a collection a block is in use if and only if it was, and some variable holds the address of its data. */
  lemma CollectionKeeps(t: Tiling, used: set<int>, vars: seq<FinshHeap.Variable>, t': Tiling, used': set<int>, b: int)
    requires FinshHeap.Collected(t, used, vars, t', used')
    ensures b in used' <==>
            b in used && exists i :: 0 <= i < |vars| && vars[i].known && vars[i].ptr - FinshHeapSpec.HDR == b
  {
    if b in used && exists i :: 0 <= i < |vars| && vars[i].known && vars[i].ptr - FinshHeapSpec.HDR == b {
      var i :| 0 <= i < |vars| && vars[i].known && vars[i].ptr - FinshHeapSpec.HDR == b;
      assert FinshHeap.PointsTo(vars[i], b);
    }
  }

  // ---- slab.c ----

  /** A new zone has as many chunks as there is room for. */
  lemma NewZoneFull(page: int, np: int, zi: int)
    requires 0 <= zi < ZoneSpec.NZONES && np >= 8 && ZoneSpec.ChunkOf(zi) <= np * ZoneSpec.PAGE / 4
    ensures var z := ZoneSpec.NewZone(page, np, ZoneSpec.ChunkOf(zi), zi);
            ZoneSpec.Chunk(z, z.nmax) <= (page + np) * ZoneSpec.PAGE < ZoneSpec.Chunk(z, z.nmax + 1)
  {
    var size := ZoneSpec.ChunkOf(zi);
    if zi > 0 { ZoneSpec.ChunkOfGrows(0, zi); } else { ZoneSpec.ChunkOfGrows(0, 1); }
    ZoneSpec.NewZoneOk(page, np, zi);
    MostTimes(np * ZoneSpec.PAGE - ZoneSpec.Offset(size), size);
  }

  lemma MostTimes(m: int, c: int)
    requires c > 0
    ensures m < (m / c + 1) * c
  {
  }

  /** A chunk that was never used goes first; when there is none, the one that was freed last. */
  lemma FreshFirst(z: ZoneSpec.Zone, page: int, np: int, freed: int)
    requires ZoneSpec.ZoneOk(z, page, np) && z.nfree > 0
    ensures z.uindex + 1 < z.nmax ==> !ZoneSpec.Handed(z, ZoneSpec.Take(z).1)
    ensures z.uindex + 1 < z.nmax ==>
              ZoneSpec.Take(z).1 == ZoneSpec.Chunk(z, z.uindex + 1) && ZoneSpec.Take(z).0.freechunk == z.freechunk
    ensures z.uindex + 1 == z.nmax ==>
              z.freechunk != [] && ZoneSpec.Take(z).1 == z.freechunk[0] &&
              ZoneSpec.Take(z).0.freechunk == z.freechunk[1..] &&
              ZoneSpec.Take(ZoneSpec.Give(z, freed)).1 == freed
  {
    if z.uindex + 1 < z.nmax { ZoneSpec.NewIsNot(z, page, np, z.uindex + 1); }
  }
}
