/** The zones of slab.c: chunks of one size cut from a few pages. */
module ZoneSpec {
  import opened PageSpec
  import opened RtList

  const PAGE := 4096
  const HEADER := 36           // sizeof(slab_zone)
  const NZONES := 72
  const RELEASE_THRESH := 2    // ZONE_RELEASE_THRESH

  // ---- Chunk sizes ----

  function Up(n: int, a: int): int
    requires a > 0
  {
    (n + a - 1) / a * a
  }

  /** zoneindex: the chunk size for a request, and its index. */
  function ZoneIndex(n: int): (int, int) {
    if n < 128 then (Up(n, 8), Up(n, 8) / 8 - 1)
    else if n < 256 then (Up(n, 16), Up(n, 16) / 16 + 7)
    else if n < 512 then (Up(n, 32), Up(n, 32) / 32 + 15)
    else if n < 1024 then (Up(n, 64), Up(n, 64) / 64 + 23)
    else if n < 2048 then (Up(n, 128), Up(n, 128) / 128 + 31)
    else if n < 4096 then (Up(n, 256), Up(n, 256) / 256 + 39)
    else if n < 8192 then (Up(n, 512), Up(n, 512) / 512 + 47)
    else if n < 16384 then (Up(n, 1024), Up(n, 1024) / 1024 + 55)
    else (n, 0)
  }

  /** The chunk size of an index: 16 steps of 8 bytes, then eight steps for each doubling. */
  function ChunkOf(zi: int): int {
    if zi < 16 then 8 * (zi + 1)
    else if zi < 24 then 128 + 16 * (zi - 15)
    else if zi < 32 then 256 + 32 * (zi - 23)
    else if zi < 40 then 512 + 64 * (zi - 31)
    else if zi < 48 then 1024 + 128 * (zi - 39)
    else if zi < 56 then 2048 + 256 * (zi - 47)
    else if zi < 64 then 4096 + 512 * (zi - 55)
    else 8192 + 1024 * (zi - 63)
  }

  lemma ChunkOfGrows(i: int, j: int)
    requires 0 <= i < j < NZONES
    ensures 8 <= ChunkOf(i) < ChunkOf(j) <= 16384 && ChunkOf(i) % 8 == 0 && ChunkOf(j) % 8 == 0
  {
  }

  ghost predicate Picked(n: int) {
    var (c, zi) := ZoneIndex(n);
    0 <= zi < NZONES && c == ChunkOf(zi) >= n && c < n + 8 + n / 8 && (zi > 0 ==> ChunkOf(zi - 1) < n)
  }

  lemma PickedLow(n: int)
    requires 0 < n < 512
    ensures Picked(n)
  {
  }

  lemma PickedMiddle(n: int)
    requires 512 <= n < 1024
    ensures Picked(n)
  {
  }

  lemma PickedNext(n: int)
    requires 1024 <= n < 2048
    ensures Picked(n)
  {
  }

  lemma PickedUpper(n: int)
    requires 2048 <= n < 4096
    ensures Picked(n)
  {
  }

  lemma PickedHigh(n: int)
    requires 4096 <= n < 8192
    ensures Picked(n)
  {
  }

  lemma PickedHighest(n: int)
    requires 8192 <= n < 16384
    ensures Picked(n)
  {
  }

  /** zoneindex picks the smallest chunk size that is large enough, and wastes less than an eighth. */
  lemma ZoneIndexIs(n: int)
    requires 0 < n < 16384
    ensures var (c, zi) := ZoneIndex(n);
            0 <= zi < NZONES && c == ChunkOf(zi) >= n && c < n + 8 + n / 8 && forall j :: 0 <= j < zi ==> ChunkOf(j) < n
  {
    hide ZoneIndex, ChunkOf;
    if n < 512 { PickedLow(n); } else if n < 1024 { PickedMiddle(n); } else if n < 2048 { PickedNext(n); }
        else if n < 4096 { PickedUpper(n); } else if n < 8192 { PickedHigh(n); } else { PickedHighest(n); }
    var (c, zi) := ZoneIndex(n);
    forall j | 0 <= j < zi ensures ChunkOf(j) < n {
      if j < zi - 1 { ChunkOfGrows(j, zi - 1); }
    }
  }

  predicate IsPowerOfTwo(n: int)
    decreases n
  {
    n == 1 || (n > 1 && n % 2 == 0 && IsPowerOfTwo(n / 2))
  }

  /** Where the chunks start. */
  function Offset(size: int): int
    requires size > 0
  {
    Up(HEADER, if IsPowerOfTwo(size) then size else 8)
  }

  /** Behind the header, and for a power of two at a multiple of it. */
  lemma OffsetIs(size: int)
    requires 8 <= size && size % 8 == 0
    ensures HEADER <= Offset(size) && (Offset(size) <= 64 || Offset(size) == size)
    ensures IsPowerOfTwo(size) ==> Offset(size) % size == 0
  {
    hide IsPowerOfTwo;
    if size > HEADER {
      OnceIn(HEADER + size - 1, size);
      assert IsPowerOfTwo(size) ==> Offset(size) == size;
    } else {
      assert size == 8 || size == 16 || size == 24 || size == 32;
      NotAPower();
    }
  }

  lemma NotAPower()
    ensures !IsPowerOfTwo(24)
  {
    assert !IsPowerOfTwo(3);
    assert !IsPowerOfTwo(6);
    assert !IsPowerOfTwo(12);
  }

  lemma OnceIn(m: int, size: int)
    requires 0 < size <= m < 2 * size
    ensures m / size == 1 && size % size == 0
  {
  }

  lemma Times(i: int, j: int, c: int)
    requires i < j && 0 <= c
    ensures i * c + c <= j * c
  {
    assert (j - i - 1) * c >= 0;
  }

  lemma Quotient(m: int, c: int)
    requires 0 < c && 3 * c <= m
    ensures m / c >= 3 && (m / c) * c <= m
  {
    if m / c <= 2 { Times(m / c, 3, c); }
  }

  // ---- One zone ----

  /** struct slab_zone, with its list of free chunks; z_next is in the lists of zones below. */
  datatype Zone = Zone(nfree: int, nmax: int, base: int, uindex: int, chunk: int, zi: int, freechunk: seq<int>)

  function Chunk(z: Zone, i: int): int { z.base + i * z.chunk }

  /** The address of a chunk that has been handed out at least once. */
  ghost predicate Handed(z: Zone, a: int) { exists i :: 0 <= i <= z.uindex && a == Chunk(z, i) }

  /** The zone lies in the np pages from `page` on, behind its header. */
  ghost predicate Geometry(z: Zone, page: int, np: int) {
    && 0 <= z.zi < NZONES && z.chunk == ChunkOf(z.zi) > 0 && 0 <= z.uindex < z.nmax
    && z.base == page * PAGE + Offset(z.chunk) && Chunk(z, z.nmax) <= (page + np) * PAGE
  }

  ghost predicate ZoneOk(z: Zone, page: int, np: int) {
    && Geometry(z, page, np)
    && Distinct(z.freechunk) && (forall a :: a in z.freechunk ==> Handed(z, a))
    && z.nfree == z.nmax - 1 - z.uindex + |z.freechunk|
  }

  /** The chunks in use. */
  ghost predicate Live(z: Zone, a: int) { Handed(z, a) && a !in z.freechunk }

  lemma ChunkSize(z: Zone, page: int, np: int)
    requires Geometry(z, page, np)
    ensures 8 <= z.chunk <= 16384 && z.base >= page * PAGE + HEADER
  {
    if z.zi > 0 { ChunkOfGrows(0, z.zi); } else { ChunkOfGrows(0, 1); }
    OffsetIs(z.chunk);
  }

  /** Chunks are apart, and inside the zone. */
  lemma ChunksApart(z: Zone, page: int, np: int, i: int, j: int)
    requires Geometry(z, page, np) && 0 <= i < j <= z.nmax
    ensures Chunk(z, i) + z.chunk <= Chunk(z, j)
  {
    Times(i, j, z.chunk);
  }

  lemma ChunkInside(z: Zone, page: int, np: int, i: int)
    requires Geometry(z, page, np) && 0 <= i < z.nmax
    ensures page * PAGE + HEADER <= Chunk(z, i) && Chunk(z, i) + z.chunk <= (page + np) * PAGE
  {
    ChunkSize(z, page, np);
    if i > 0 { ChunksApart(z, page, np, 0, i); }
    ChunksApart(z, page, np, i, z.nmax);
  }

  lemma LiveApart(z: Zone, page: int, np: int, a: int, b: int)
    requires ZoneOk(z, page, np) && Live(z, a) && Live(z, b) && a != b
    ensures a + z.chunk <= b || b + z.chunk <= a
  {
    var i :| 0 <= i <= z.uindex && a == Chunk(z, i);
    var j :| 0 <= j <= z.uindex && b == Chunk(z, j);
    if i < j { ChunksApart(z, page, np, i, j); } else { ChunksApart(z, page, np, j, i); }
  }

  lemma LiveInside(z: Zone, page: int, np: int, a: int)
    requires ZoneOk(z, page, np) && Live(z, a)
    ensures page * PAGE + HEADER <= a && a + z.chunk <= (page + np) * PAGE
  {
    var i :| 0 <= i <= z.uindex && a == Chunk(z, i);
    ChunkInside(z, page, np, i);
  }

  /** The part of rt_malloc that takes a chunk: first those never used, then the free list. */
  function Take(z: Zone): (Zone, int) {
    if z.uindex + 1 != z.nmax then
      (z.(nfree := z.nfree - 1, uindex := z.uindex + 1), Chunk(z, z.uindex + 1))
    else if z.freechunk != [] then
      (z.(nfree := z.nfree - 1, freechunk := z.freechunk[1..]), z.freechunk[0])
    else (z, NULL)
  }

  lemma TakeOk(z: Zone, page: int, np: int)
    requires ZoneOk(z, page, np) && z.nfree > 0
    ensures var (z', a) := Take(z);
            ZoneOk(z', page, np) && z'.nfree == z.nfree - 1 && z'.zi == z.zi && z'.chunk == z.chunk &&
                z'.nmax == z.nmax &&
            !Live(z, a) && forall b :: Live(z', b) <==> Live(z, b) || b == a
  {
    var (z', a) := Take(z);
    if z.uindex + 1 != z.nmax {
      forall b ensures Handed(z', b) <==> Handed(z, b) || b == a {
        if Handed(z, b) { var i :| 0 <= i <= z.uindex && b == Chunk(z, i); assert b == Chunk(z', i); }
        if Handed(z', b) { var i :| 0 <= i <= z'.uindex && b == Chunk(z', i); assert b == Chunk(z, i); }
        assert a == Chunk(z', z'.uindex);
      }
      NewIsNot(z, page, np, z.uindex + 1);
    } else {
      assert forall b :: b in z.freechunk <==> b == a || b in z'.freechunk;
      assert forall b :: Handed(z', b) <==> Handed(z, b) by {
        forall b ensures Handed(z', b) <==> Handed(z, b) {
          if Handed(z, b) { var i :| 0 <= i <= z.uindex && b == Chunk(z, i); assert b == Chunk(z', i); }
          if Handed(z', b) { var i :| 0 <= i <= z.uindex && b == Chunk(z', i); assert b == Chunk(z, i); }
        }
      }
    }
  }

  lemma NewIsNot(z: Zone, page: int, np: int, i: int)
    requires ZoneOk(z, page, np) && z.uindex < i < z.nmax
    ensures !Handed(z, Chunk(z, i))
  {
    if Handed(z, Chunk(z, i)) {
      var j :| 0 <= j <= z.uindex && Chunk(z, i) == Chunk(z, j);
      ChunksApart(z, page, np, j, i);
      ChunkSize(z, page, np);
      assert false;
    }
  }

  /** The part of rt_free that puts a chunk back. */
  function Give(z: Zone, a: int): Zone { z.(nfree := z.nfree + 1, freechunk := [a] + z.freechunk) }

  lemma GiveOk(z: Zone, page: int, np: int, a: int)
    requires ZoneOk(z, page, np) && Live(z, a)
    ensures var z' := Give(z, a);
            ZoneOk(z', page, np) && z'.nfree == z.nfree + 1 <= z.nmax && forall b ::
                Live(z', b) <==> Live(z, b) && b != a
  {
    var z' := Give(z, a);
    forall b ensures Handed(z', b) <==> Handed(z, b) {
      if Handed(z, b) { var i :| 0 <= i <= z.uindex && b == Chunk(z, i); assert b == Chunk(z', i); }
      if Handed(z', b) { var i :| 0 <= i <= z.uindex && b == Chunk(z', i); assert b == Chunk(z, i); }
    }
    assert forall b :: b in z'.freechunk <==> b == a || b in z.freechunk;
    FreeFits(z', page, np);
  }

  /** There are no more free chunks than were handed out. */
  lemma FreeFits(z: Zone, page: int, np: int)
    requires ZoneOk(z, page, np)
    ensures |z.freechunk| <= z.uindex + 1 && z.nfree <= z.nmax
    ensures z.nfree == z.nmax ==> forall a :: !Live(z, a)
  {
    var all := set i | 0 <= i < z.uindex + 1 :: Chunk(z, i);
    Positions(z, page, np, z.uindex + 1);
    var fc := set a | a in z.freechunk;
    DistinctSize(z.freechunk);
    assert fc <= all;
    Included(fc, all);
    if z.nfree == z.nmax {
      Same(fc, all);
      forall a | Handed(z, a) ensures a in z.freechunk { assert a in all; }
    }
  }

  lemma {:induction false} Positions(z: Zone, page: int, np: int, n: nat)
    requires Geometry(z, page, np) && n <= z.nmax
    ensures |set i | 0 <= i < n :: Chunk(z, i)| == n
  {
    if n > 0 {
      Positions(z, page, np, n - 1);
      var less := set i | 0 <= i < n - 1 :: Chunk(z, i);
      assert (set i | 0 <= i < n :: Chunk(z, i)) == less + {Chunk(z, n - 1)};
      ChunkSize(z, page, np);
      if Chunk(z, n - 1) in less {
        var i :| 0 <= i < n - 1 && Chunk(z, i) == Chunk(z, n - 1);
        ChunksApart(z, page, np, i, n - 1);
        assert false;
      }
    }
  }

  lemma {:induction false} DistinctSize(s: seq<int>)
    requires Distinct(s)
    ensures |set a | a in s| == |s|
  {
    if s != [] {
      DistinctSize(s[1..]);
      assert (set a | a in s) == {s[0]} + set a | a in s[1..];
    }
  }

  lemma Included(s: set<int>, u: set<int>)
    requires s <= u
    ensures |s| <= |u|
  {
    assert u == s + (u - s);
  }

  lemma Same(s: set<int>, u: set<int>)
    requires s <= u && |s| == |u|
    ensures s == u
  {
    assert u == s + (u - s);
    assert |u - s| == 0;
  }

  // ---- A new zone ----

  /** The last part of rt_malloc: a zone of np pages for chunks of one size, the first of them in use. */
  function NewZone(page: int, np: int, size: int, zi: int): Zone
    requires size > 0
  {
    var nmax := (np * PAGE - Offset(size)) / size;
    Zone(nmax - 1, nmax, page * PAGE + Offset(size), 0, size, zi, [])
  }

  lemma NewZoneOk(page: int, np: int, zi: int)
    requires 0 <= zi < NZONES && np >= 8 && ChunkOf(zi) <= np * PAGE / 4
    ensures var z := NewZone(page, np, ChunkOf(zi), zi);
            ZoneOk(z, page, np) && z.nfree > 0 && z.nmax >= 3 && forall a :: Live(z, a) <==> a == z.base
  {
    var size := ChunkOf(zi);
    var z := NewZone(page, np, size, zi);
    if zi > 0 { ChunkOfGrows(0, zi); } else { ChunkOfGrows(0, 1); }
    OffsetIs(size);
    Quotient(np * PAGE - Offset(size), size);
    forall a ensures Live(z, a) <==> a == z.base {
      if a == z.base { assert a == Chunk(z, 0); }
    }
  }

  // ---- Alignment ----

  lemma Remainder(a: int, i: int, c: int)
    requires c > 0
    ensures (a + i * c) % c == a % c
    decreases if i < 0 then -i else i
  {
    if i > 0 {
      Remainder(a, i - 1, c);
      assert (a + i * c) == (a + (i - 1) * c) + c;
      PlusOnce(a + (i - 1) * c, c);
    } else if i < 0 {
      Remainder(a, i + 1, c);
      assert (a + (i + 1) * c) == (a + i * c) + c;
      PlusOnce(a + i * c, c);
    }
  }

  lemma PlusOnce(m: int, c: int)
    requires c > 0
    ensures (m + c) % c == m % c
  {
    var q := (m + c) / c - m / c;
    assert q * c == c +
        m % c - (m + c) % c by { assert m == (m / c) * c + m % c; assert m + c == ((m + c) / c) * c + (m + c) % c; }
    if q > 1 { Times(1, q, c); }
    if q < 1 { Times(q, 1, c); }
  }

  /** Of two powers of two the smaller divides the larger. */
  lemma {:induction false} Divides(n: int, m: int) returns (k: int)
    requires IsPowerOfTwo(n) && IsPowerOfTwo(m) && n <= m
    ensures m == k * n
    decreases n
  {
    if n == 1 {
      k := m;
    } else {
      k := Divides(n / 2, m / 2);
      assert m == 2 * (m / 2) == 2 * (k * (n / 2)) == k * (2 * (n / 2)) == k * n;
    }
  }

  lemma PagePower()
    ensures IsPowerOfTwo(PAGE)
  {
    assert IsPowerOfTwo(8);
    assert IsPowerOfTwo(64);
    assert IsPowerOfTwo(512);
  }

  lemma Multiple(a: int, c: int) returns (k: int)
    requires c > 0 && a % c == 0
    ensures a == k * c
  {
    k := a / c;
  }

  /** A chunk whose size is a power of two is aligned to it exactly if its zone is. */
  lemma AlignedAsZone(z: Zone, page: int, np: int, i: int)
    requires Geometry(z, page, np) && IsPowerOfTwo(z.chunk)
    ensures Chunk(z, i) % z.chunk == 0 <==> page * PAGE % z.chunk == 0
  {
    hide IsPowerOfTwo, ChunkOf;
    ChunkSize(z, page, np);
    OffsetOf(z, page, np);
    var c := z.chunk;
    var k := Multiple(Offset(c), c);
    hide Offset;
    Remainder(page * PAGE + Offset(c), i, c);
    Remainder(page * PAGE, k, c);
  }

  lemma OffsetOf(z: Zone, page: int, np: int)
    requires Geometry(z, page, np) && IsPowerOfTwo(z.chunk)
    ensures Offset(z.chunk) % z.chunk == 0
  {
    ChunkSize(z, page, np);
    if z.zi > 0 { ChunkOfGrows(0, z.zi); } else { ChunkOfGrows(0, 1); }
    OffsetIs(z.chunk);
  }

  /** That is always so up to the size of a page. */
  lemma SmallAligned(z: Zone, page: int, np: int, i: int)
    requires Geometry(z, page, np) && IsPowerOfTwo(z.chunk) && z.chunk <= PAGE
    ensures Chunk(z, i) % z.chunk == 0
  {
    hide IsPowerOfTwo, ChunkOf, Offset;
    PagePower();
    var k := Divides(z.chunk, PAGE);
    Regroup(page, k, z.chunk);
    Remainder(0, page * k, z.chunk);
    AlignedAsZone(z, page, np, i);
  }

  lemma Regroup(a: int, b: int, c: int)
    ensures a * (b * c) == 0 + (a * b) * c
  {
  }

  /** But not for chunks of 8192 bytes: zones start at any page. */
  lemma LargeNotAligned()
    ensures ZoneIndex(8000) == (8192, 63)
    ensures var z := NewZone(1, 8, 8192, 63); ZoneOk(z, 1, 8) && Live(z, z.base) && z.base % 8192 != 0
  {
    hide IsPowerOfTwo, Offset;
    PagePower();
    assert IsPowerOfTwo(8192) by { TwicePage(); }
    NewZoneOk(1, 8, 63);
    AlignedAsZone(NewZone(1, 8, 8192, 63), 1, 8, 0);
  }

  lemma TwicePage()
    ensures IsPowerOfTwo(8192) && 1 * PAGE % 8192 != 0
  {
    PagePower();
  }
}
