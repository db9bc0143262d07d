/** rt_malloc and rt_free of slab.c: zones on lists by chunk size, large blocks straight from the pages,
    and a table that says what each page is used for. */
module Slab {
  import Blocks
  import opened PageSpec
  import opened RtList
  import opened PageList
  import opened ZoneSpec

  /** struct memusage: free, the offset of a page from its zone, or the page count of a large block. */
  datatype Usage = PageFree | Small(offset: int) | Large(count: int)

  // ---- What every operation keeps ----

  ghost predicate ZonesOk(zones: map<int, Zone>, np: int) { forall p :: p in zones ==> ZoneOk(zones[p], p, np) }

  /** Zones that belong on the list of index i. */
  ghost predicate OnList(zones: map<int, Zone>, retired: seq<int>, i: int, p: int) {
    p in zones && p !in retired && zones[p].zi == i && zones[p].nfree > 0
  }

  ghost predicate ListOk(zones: map<int, Zone>, retired: seq<int>, i: int, list: seq<int>) {
    Distinct(list) && forall p :: p in list <==> OnList(zones, retired, i, p)
  }

  /** A zone is on the list of its chunk size exactly if it has a free chunk and is not retired; retired
      zones are entirely free, and there are no more than ZONE_RELEASE_THRESH. */
  ghost predicate ListsOk(zones: map<int, Zone>, lists: seq<seq<int>>, retired: seq<int>) {
    && |lists| == NZONES && (forall i :: 0 <= i < NZONES ==> ListOk(zones, retired, i, lists[i]))
    && RetiredOk(zones, retired) && |retired| <= RELEASE_THRESH
  }

  ghost predicate RetiredOk(zones: map<int, Zone>, retired: seq<int>) {
    Distinct(retired) && forall p :: p in retired ==> p in zones && zones[p].nfree == zones[p].nmax
  }

  ghost predicate Owns(owned: map<int, int>, p: int, x: int) { p in owned && p <= x < p + owned[p] }

  /** Every page is free or belongs to exactly one zone or large block. */
  ghost predicate OwnersOk(owned: map<int, int>, pages: set<int>, all: set<int>, keys: set<int>, np: int) {
    && (forall p :: p in owned ==> p > NULL && owned[p] > 0)
    && (forall p :: p in keys ==> p in owned && owned[p] == np)
    && (forall p, q :: p in owned && q in owned && p < q ==> p + owned[p] <= q)
    && (forall p, x {:trigger Owns(owned, p, x)} :: Owns(owned, p, x) ==> x in all && x !in pages)
    && (forall x :: x in all ==> x in pages || exists p :: Owns(owned, p, x))
    && pages <= all && forall x :: x in all ==> x > NULL
  }

  /** The pages of zones lead to their first page; the first page of a large block says how long it is. */
  ghost predicate UsageOk(owned: map<int, int>, usage: map<int, Usage>, keys: set<int>, np: int) {
    && (forall p, x {:trigger Owns(owned, p, x)} ::
        p in keys && Owns(owned, p, x) ==> x in usage && usage[x] == Small(x - p))
    && (forall p :: p in owned && p !in keys ==> p in usage && usage[p] == Large(owned[p]))
  }

  // ---- Blocks in use ----

  ghost predicate SmallBlock(zones: map<int, Zone>, a: int,
                             n: int) { exists p :: p in zones && Live(zones[p], a) && n == zones[p].chunk }

  ghost predicate LargeBlock(zones: map<int, Zone>, owned: map<int, int>, a: int, n: int) {
    a % PAGE == 0 && a / PAGE in owned && a / PAGE !in zones && n == owned[a / PAGE] * PAGE
  }

  /** The block in use at address a has n bytes. */
  ghost predicate Block(zones: map<int, Zone>, owned: map<int, int>, a: int, n: int) {
    SmallBlock(zones, a, n) || LargeBlock(zones, owned, a, n)
  }

  /** The blocks in use are those before and one of n bytes at a, where none was. */
  ghost predicate Added(zones: map<int, Zone>, owned: map<int, int>, zones': map<int, Zone>, owned': map<int, int>,
                        a: int, n: int) {
    a > NULL && (forall m :: !Block(zones, owned, a, m)) && OneMore(zones, owned, zones', owned', a, n)
  }

  ghost predicate OneMore(zones: map<int, Zone>, owned: map<int, int>, zones': map<int, Zone>, owned': map<int, int>,
                          a: int, n: int) {
    && Block(zones', owned', a, n) && (forall b, m :: Block(zones, owned, b, m) ==> Block(zones', owned', b, m))
    && forall b, m :: Block(zones', owned', b, m) ==> Block(zones, owned, b, m) || (b == a && m == n)
  }

  /** The blocks in use are those before but for that at a. */
  ghost predicate OneLess(zones: map<int, Zone>, owned: map<int, int>, zones': map<int, Zone>, owned': map<int, int>,
                          a: int) {
    forall b, m :: Block(zones', owned', b, m) <==> Block(zones, owned, b, m) && b != a
  }

  lemma OneOwner(owned: map<int, int>, pages: set<int>, all: set<int>, keys: set<int>, np: int, p: int, q: int, x: int)
    requires OwnersOk(owned, pages, all, keys, np) && Owns(owned, p, x) && Owns(owned, q, x)
    ensures p == q
  {
  }

  /** The pages of a block all belong to one owner. */
  lemma OwnerOf(zones: map<int, Zone>, owned: map<int, int>, pages: set<int>, all: set<int>, np: int, a: int,
                n: int) returns (p: int)
    requires ZonesOk(zones, np) && OwnersOk(owned, pages, all, zones.Keys, np) && np > 0 && Block(zones, owned, a, n)
    ensures p in owned && p * PAGE <= a && a + n <= (p + owned[p]) * PAGE && n > 0 && a > NULL &&
              Owns(owned, p, a / PAGE)
    ensures if p in zones then Live(zones[p], a) && n == zones[p].chunk else a == p * PAGE && n == owned[p] * PAGE
  {
    if LargeBlock(zones, owned, a, n) {
      p := a / PAGE;
    } else {
      p :| p in zones && Live(zones[p], a) && n == zones[p].chunk;
      LiveInside(zones[p], p, np, a);
      ChunkSize(zones[p], p, np);
    }
  }

  /** No two blocks in use overlap. */
  lemma BlocksApart(zones: map<int, Zone>, owned: map<int, int>, pages: set<int>, all: set<int>, np: int, a: int,
                    n: int, b: int, m: int)
    requires ZonesOk(zones, np) && OwnersOk(owned, pages, all, zones.Keys, np) && np > 0
    requires Block(zones, owned, a, n) && Block(zones, owned, b, m) && a < b
    ensures a + n <= b
  {
    var p := OwnerOf(zones, owned, pages, all, np, a, n);
    var q := OwnerOf(zones, owned, pages, all, np, b, m);
    if p == q && p in zones { LiveApart(zones[p], p, np, a, b); }
  }

  /** From the address of a chunk in use, the table of page usage leads to its zone; from that of a large
      block to its length. */
  lemma UsageLeadsHome(zones: map<int, Zone>, owned: map<int, int>, usage: map<int, Usage>, pages: set<int>,
                       all: set<int>, np: int, a: int, n: int)
    requires ZonesOk(zones, np) && OwnersOk(owned, pages, all, zones.Keys, np) &&
              UsageOk(owned, usage, zones.Keys, np) && np > 0
    requires Block(zones, owned, a, n)
    ensures a > NULL && a / PAGE in usage
    ensures match usage[a / PAGE]
            case Small(k) => a / PAGE - k in zones && Live(zones[a / PAGE - k], a) && n == zones[a / PAGE - k].chunk
            case Large(k) => LargeBlock(zones, owned, a, n) && n == k * PAGE && owned[a / PAGE] == k
            case PageFree => false
  {
    var p := OwnerOf(zones, owned, pages, all, np, a, n);
    hide Block, ZonesOk, Live;
  }

  /** No block starts at a if none of the owner of its page does. */
  lemma Fresh(zones: map<int, Zone>, owned: map<int, int>, pages: set<int>, all: set<int>, np: int, p: int, a: int)
    requires ZonesOk(zones, np) && OwnersOk(owned, pages, all, zones.Keys, np) && np > 0
    requires forall q :: Owns(owned, q, a / PAGE) ==> q == p
    requires (p in owned ==> p in zones) && (p in zones ==> !Live(zones[p], a))
    ensures forall m :: !Block(zones, owned, a, m)
  {
    forall m ensures !Block(zones, owned, a, m) {
      if Block(zones, owned, a, m) {
        var q := OwnerOf(zones, owned, pages, all, np, a, m);
        assert false;
      }
    }
  }

  // ---- One zone changes ----

  /** Where the blocks of other zones are seen. */
  lemma SmallElsewhere(zones: map<int, Zone>, p: int, z: Zone, b: int, m: int)
    ensures SmallBlock(zones[p := z], b, m) <==>
              (Live(z, b) && m == z.chunk) || exists q ::
                  q in zones && q != p && Live(zones[q], b) && m == zones[q].chunk
    ensures SmallBlock(zones, b, m) <==>
              (p in zones && Live(zones[p], b) && m == zones[p].chunk) || exists q ::
                  q in zones && q != p && Live(zones[q], b) && m == zones[q].chunk
  {
    var after := zones[p := z];
    if SmallBlock(after, b, m) { var q :| q in after && Live(after[q], b) && m == after[q].chunk;
        assert q != p ==> q in zones && Live(zones[q], b); }
    if exists q :: q in zones && q != p && Live(zones[q], b) && m == zones[q].chunk {
      var q :| q in zones && q != p && Live(zones[q], b) && m == zones[q].chunk;
      assert q in after && Live(after[q], b);
    }
    if Live(z, b) { assert p in after && Live(after[p], b); }
  }

  /** A zone, old or new, has one block more. */
  lemma BlockAdded(zones: map<int, Zone>, owned: map<int, int>, owned': map<int, int>, p: int, z: Zone, a: int)
    requires if p in zones then owned' == owned else p !in owned && p in owned' && owned' == owned[p := owned'[p]]
    requires forall b :: Live(z, b) <==> (p in zones && Live(zones[p], b)) || b == a
    requires forall b :: p in zones && Live(zones[p], b) ==> z.chunk == zones[p].chunk
    ensures OneMore(zones, owned, zones[p := z], owned', a, z.chunk)
  {
    SmallAdded(zones, p, z, a, a, z.chunk);
    forall b, m ensures Block(zones[p := z], owned', b, m) <==> Block(zones, owned, b, m) || (b == a && m == z.chunk) {
      SmallAdded(zones, p, z, a, b, m);
      LargeSame(zones, owned, owned', p, z, b, m);
    }
  }

  lemma BlockIs(zones: map<int, Zone>, owned: map<int, int>, b: int, m: int)
    ensures Block(zones, owned, b, m) <==> SmallBlock(zones, b, m) || LargeBlock(zones, owned, b, m)
  {
  }

  lemma SmallAdded(zones: map<int, Zone>, p: int, z: Zone, a: int, b: int, m: int)
    requires forall b :: Live(z, b) <==> (p in zones && Live(zones[p], b)) || b == a
    requires forall b :: p in zones && Live(zones[p], b) ==> z.chunk == zones[p].chunk
    ensures SmallBlock(zones[p := z], b, m) <==> SmallBlock(zones, b, m) || (b == a && m == z.chunk)
  {
    hide Live;
    SmallElsewhere(zones, p, z, b, m);
  }

  lemma LargeSame(zones: map<int, Zone>, owned: map<int, int>, owned': map<int, int>, p: int, z: Zone, b: int, m: int)
    requires if p in zones then owned' == owned else p !in owned && p in owned' && owned' == owned[p := owned'[p]]
    ensures LargeBlock(zones[p := z], owned', b, m) <==> LargeBlock(zones, owned, b, m)
  {
  }

  /** A zone has one block less. */
  lemma BlockRemoved(zones: map<int, Zone>, owned: map<int, int>, pages: set<int>, all: set<int>, np: int, p: int,
                     a: int)
    requires ZonesOk(zones, np) && OwnersOk(owned, pages, all, zones.Keys, np) && np > 0 && p in zones &&
              Live(zones[p], a)
    ensures var z := Give(zones[p], a);
            ZonesOk(zones[p := z], np) && zones[p := z].Keys == zones.Keys && z.nfree <= z.nmax &&
                OneLess(zones, owned, zones[p := z], owned, a)
  {
    var z := Give(zones[p], a);
    var after := zones[p := z];
    GiveOk(zones[p], p, np, a);
    assert SmallBlock(zones, a, zones[p].chunk);
    var q := OwnerOf(zones, owned, pages, all, np, a, zones[p].chunk);
    LiveInside(zones[p], p, np, a);
    ChunkSize(zones[p], p, np);
    assert after.Keys == zones.Keys && Owns(owned, p, a / PAGE);
    Fresh(after, owned, pages, all, np, p, a);
    hide Block;
    forall b, m ensures Block(after, owned, b, m) <==> Block(zones, owned, b, m) && b != a {
      SmallElsewhere(zones, p, z, b, m);
      LargeSame(zones, owned, owned, p, z, b, m);
      BlockIs(zones, owned, b, m);
      BlockIs(after, owned, b, m);
    }
  }

  // ---- The lists ----

  /** The head of a list takes part in an allocation: it leaves the list if that was its last chunk. */
  lemma ListTaken(zones: map<int, Zone>, lists: seq<seq<int>>, retired: seq<int>, i: int, z: Zone)
    requires ListsOk(zones, lists, retired) && 0 <= i < NZONES && lists[i] != [] && ZoneSame(zones, lists[i][0], z)
    requires z.nfree == zones[lists[i][0]].nfree - 1
    ensures ListsOk(zones[lists[i][0] := z], if z.nfree == 0 then lists[i := lists[i][1..]] else lists, retired)
  {
    var p := lists[i][0];
    var zones', lists' := zones[p := z], if z.nfree == 0 then lists[i := lists[i][1..]] else lists;
    assert p in lists[i];
    assert forall x :: x in lists[i] <==> x == p || x in lists[i][1..];
    forall j | 0 <= j < NZONES ensures ListOk(zones', retired, j, lists'[j]) {
      assert ListOk(zones, retired, j, lists[j]);
      forall x ensures x in lists'[j] <==> OnList(zones', retired, j, x) {
        assert x in lists[j] <==> OnList(zones, retired, j, x);
      }
    }
  }

  /** The fields that never change. */
  ghost predicate ZoneSame(zones: map<int, Zone>, p: int,
                           z: Zone) { p in zones && z.zi == zones[p].zi && z.nmax == zones[p].nmax }

  /** A zone that gets a chunk back is on its list afterwards: at the head if it was not on it. */
  lemma ListGiven(zones: map<int, Zone>, lists: seq<seq<int>>, retired: seq<int>, p: int, z: Zone)
    requires ListsOk(zones, lists, retired) && ZoneSame(zones, p, z) && p !in retired && 0 <= z.zi < NZONES
    requires z.nfree == zones[p].nfree + 1 > 0
    ensures ListsOk(zones[p := z], if zones[p].nfree == 0 then lists[z.zi := [p] + lists[z.zi]] else lists, retired)
  {
    var zones', lists' := zones[p := z], if zones[p].nfree == 0 then lists[z.zi := [p] + lists[z.zi]] else lists;
    forall j | 0 <= j < NZONES ensures ListOk(zones', retired, j, lists'[j]) {
      assert ListOk(zones, retired, j, lists[j]);
      assert p in lists[j] <==> OnList(zones, retired, j, p);
      forall x ensures x in lists'[j] <==> OnList(zones', retired, j, x) {
        assert x in lists[j] <==> OnList(zones, retired, j, x);
      }
    }
  }

  /** A new zone at the head of its list. */
  lemma ListOpened(zones: map<int, Zone>, lists: seq<seq<int>>, retired: seq<int>, p: int, z: Zone)
    requires ListsOk(zones, lists, retired) && p !in zones && 0 <= z.zi < NZONES && z.nfree > 0
    ensures |lists| == NZONES && ListsOk(zones[p := z], lists[z.zi := [p] + lists[z.zi]], retired)
  {
    var zones', lists' := zones[p := z], lists[z.zi := [p] + lists[z.zi]];
    forall j | 0 <= j < NZONES ensures ListOk(zones', retired, j, lists'[j]) {
      assert ListOk(zones, retired, j, lists[j]);
      assert p in lists[j] <==> OnList(zones, retired, j, p);
      forall x ensures x in lists'[j] <==> OnList(zones', retired, j, x) {
        assert x in lists[j] <==> OnList(zones, retired, j, x);
      }
    }
  }

  function Drop(zones: map<int, Zone>, p: int): map<int, Zone> { map q | q in zones && q != p :: zones[q] }

  /** A retired zone leaves: its header means nothing any more. */
  lemma ListReleased(zones: map<int, Zone>, lists: seq<seq<int>>, retired: seq<int>)
    requires |lists| == NZONES && (forall i :: 0 <= i < NZONES ==> ListOk(zones, retired, i, lists[i])) &&
              RetiredOk(zones, retired)
    requires retired != [] && |retired| <= RELEASE_THRESH + 1
    ensures ListsOk(Drop(zones, retired[0]), lists, retired[1..])
  {
    var zones', more := Drop(zones, retired[0]), retired[1..];
    assert forall x :: x in retired <==> x == retired[0] || x in more;
    assert retired[0] !in more;
    forall j | 0 <= j < NZONES ensures ListOk(zones', more, j, lists[j]) {
      assert ListOk(zones, retired, j, lists[j]);
      forall x ensures x in lists[j] <==> OnList(zones', more, j, x) {
        assert x in lists[j] <==> OnList(zones, retired, j, x);
      }
    }
  }

  lemma WithoutDistinct(s: seq<int>, k: nat)
    requires Distinct(s) && k < |s|
    ensures Distinct(Without(s, k)) && forall x :: x in Without(s, k) <==> x in s && x != s[k]
  {
    var c := Without(s, k);
    assert s == s[..k] + [s[k]] + s[k + 1..];
    assert forall i :: 0 <= i < |c| ==> c[i] == s[if i < k then i else i + 1] && c[i] != s[k];
    forall y ensures y in c <==> y in s && y != s[k] {}
  }

  /** A zone that is entirely free goes from its list to the retired ones. */
  lemma ListRetired(zones: map<int, Zone>, lists: seq<seq<int>>, retired: seq<int>, i: int, k: nat)
    requires ListsOk(zones, lists, retired) && 0 <= i < NZONES && k < |lists[i]| && lists[i][k] in zones
    requires zones[lists[i][k]].nfree == zones[lists[i][k]].nmax
    ensures var lists', retired' := lists[i := Without(lists[i], k)], [lists[i][k]] + retired;
            (forall j :: 0 <= j < NZONES ==> ListOk(zones, retired', j, lists'[j])) && RetiredOk(zones, retired')
  {
    var p := lists[i][k];
    var lists', retired' := lists[i := Without(lists[i], k)], [p] + retired;
    assert ListOk(zones, retired, i, lists[i]);
    WithoutDistinct(lists[i], k);
    assert p in lists[i] && OnList(zones, retired, i, p);
    assert forall x :: x in retired' <==> x == p || x in retired;
    forall j | 0 <= j < NZONES ensures ListOk(zones, retired', j, lists'[j]) {
      assert ListOk(zones, retired, j, lists[j]);
      forall x ensures x in lists'[j] <==> OnList(zones, retired', j, x) {
        assert x in lists[j] <==> OnList(zones, retired, j, x);
      }
    }
  }

  // ---- The pages ----

  /** Free pages get an owner. */
  lemma OwnersTaken(owned: map<int, int>, pages: set<int>, all: set<int>, keys: set<int>, np: int, p: int, n: int)
    requires OwnersOk(owned, pages, all, keys, np) && n > 0 && Pages(p, n) <= pages
    ensures p !in owned && p !in keys && p > NULL && OwnersOk(owned[p := n], pages - Pages(p, n), all, keys, np)
    ensures n == np ==> OwnersOk(owned[p := n], pages - Pages(p, n), all, keys + {p}, np)
    ensures forall q, x :: Owns(owned, q, x) ==> x !in Pages(p, n)
  {
    var owned', pages' := owned[p := n], pages - Pages(p, n);
    forall x ensures x in Pages(p, n) <==> p <= x < p + n { PageAt(x, p, n); }
    assert p in Pages(p, n);
    assert p in owned ==> Owns(owned, p, p);
    forall q | q in owned ensures q + owned[q] <= p || p + n <= q {
      assert Owns(owned, q, q) && q !in Pages(p, n);
      if q < p < q + owned[q] { assert Owns(owned, q, p); }
    }
    forall x | x in all ensures x in pages' || exists q :: Owns(owned', q, x) {
      if x in Pages(p, n) {
        assert Owns(owned', p, x);
      } else if x !in pages {
        var q :| Owns(owned, q, x);
        assert Owns(owned', q, x);
      }
    }
    forall q, x | Owns(owned', q, x) ensures x in all && x !in pages' {
      if q != p { assert Owns(owned, q, x); }
    }
  }

  function Disown(owned: map<int, int>, p: int): map<int, int> { map q | q in owned && q != p :: owned[q] }

  /** An owner gives its pages back. */
  lemma OwnersGiven(owned: map<int, int>, pages: set<int>, all: set<int>, keys: set<int>, np: int, p: int)
    requires OwnersOk(owned, pages, all, keys, np) && p in owned
    ensures OwnersOk(Disown(owned, p), pages + Pages(p, owned[p]), all, keys - {p}, np)
    ensures p > NULL && owned[p] > 0 && forall x :: x in pages ==> x !in Pages(p, owned[p])
  {
    var owned', pages' := Disown(owned, p), pages + Pages(p, owned[p]);
    forall x ensures x in Pages(p, owned[p]) <==> Owns(owned, p, x) { PageAt(x, p, owned[p]); }
    forall q, x | Owns(owned', q, x) ensures x in all && x !in pages' { assert Owns(owned, q, x); }
    forall x | x in all ensures x in pages' || exists q :: Owns(owned', q, x) {
      if x !in pages {
        var q :| Owns(owned, q, x);
        if q != p { assert Owns(owned', q, x); }
      }
    }
    forall x | x in pages' ensures x in all { if x !in pages { assert Owns(owned, p, x); } }
  }

  /** The pages of p from p to p + k are marked as those of a zone. */
  ghost predicate Marked(usage: map<int, Usage>, usage': map<int, Usage>, p: int, k: int) {
    && (forall x :: p <= x < p + k ==> x in usage' && usage'[x] == Small(x - p))
    && (forall x :: x in usage && !(p <= x < p + k) ==> x in usage' && usage'[x] == usage[x])
  }

  lemma UsageMarked(owned: map<int, int>, usage: map<int, Usage>, usage': map<int, Usage>, pages: set<int>,
                    all: set<int>, keys: set<int>, np: int, p: int)
    requires OwnersOk(owned, pages, all, keys, np) && UsageOk(owned, usage, keys, np) && np > 0 &&
              Pages(p, np) <= pages && Marked(usage, usage', p, np)
    ensures UsageOk(owned[p := np], usage', keys + {p}, np)
  {
    hide Pages, OwnersOk, Marked;
    OwnersTaken(owned, pages, all, keys, np, p, np);
    forall q, x | q in keys + {p} && Owns(owned[p := np], q, x) ensures x in usage' && usage'[x] == Small(x - q) {
      if q == p {
        MarkedInside(usage, usage', p, np, x);
      } else {
        assert Owns(owned, q, x);
        MarkedOutside(usage, usage', p, np, x);
      }
    }
    forall q | q in owned && q != p && q !in keys ensures q in usage' && usage'[q] == Large(owned[q]) {
      OwnsFirst(owned, pages, all, keys, np, q);
      MarkedOutside(usage, usage', p, np, q);
    }
  }

  lemma MarkedInside(usage: map<int, Usage>, usage': map<int, Usage>, p: int, np: int, x: int)
    requires Marked(usage, usage', p, np) && p <= x < p + np
    ensures x in usage' && usage'[x] == Small(x - p)
  {
  }

  lemma MarkedOutside(usage: map<int, Usage>, usage': map<int, Usage>, p: int, np: int, x: int)
    requires Marked(usage, usage', p, np) && x !in Pages(p, np) && x in usage
    ensures x in usage' && usage'[x] == usage[x]
  {
    PageAt(x, p, np);
  }

  lemma OwnsFirst(owned: map<int, int>, pages: set<int>, all: set<int>, keys: set<int>, np: int, p: int)
    requires OwnersOk(owned, pages, all, keys, np) && p in owned
    ensures Owns(owned, p, p)
  {
  }

  lemma UsageLarge(owned: map<int, int>, usage: map<int, Usage>, pages: set<int>, all: set<int>, keys: set<int>,
                   np: int, p: int, n: int)
    requires OwnersOk(owned, pages, all, keys, np) && UsageOk(owned, usage, keys, np) && n > 0 && Pages(p, n) <= pages
    ensures UsageOk(owned[p := n], usage[p := Large(n)], keys, np)
  {
    OwnersTaken(owned, pages, all, keys, np, p, n);
    PageAt(p, p, n);
    hide OwnersOk, Pages;
    forall q, x | q in keys && Owns(owned[p := n], q, x) ensures x in usage && x != p && usage[x] == Small(x - q) {
      assert q != p && Owns(owned, q, x);
    }
  }

  /** Nothing but the entries for the pages of p changed, and p is given up. */
  lemma UsageGiven(owned: map<int, int>, usage: map<int, Usage>, usage': map<int, Usage>, pages: set<int>,
                   all: set<int>, keys: set<int>, np: int, p: int)
    requires OwnersOk(owned, pages, all, keys, np) && UsageOk(owned, usage, keys, np) && p in owned
    requires forall x :: x in usage && !Owns(owned, p, x) ==> x in usage' && usage'[x] == usage[x]
    ensures UsageOk(Disown(owned, p), usage', keys - {p}, np)
  {
    forall q, x | q in keys - {p} && Owns(Disown(owned, p), q, x) ensures x in usage' && usage'[x] == Small(x - q) {
      assert Owns(owned, q, x);
      if Owns(owned, p, x) { OneOwner(owned, pages, all, keys, np, p, q, x); }
    }
    forall q | q in Disown(owned, p) && q !in keys ensures q in usage' && usage'[q] == Large(owned[q]) {
      assert Owns(owned, q, q);
      if Owns(owned, p, q) { OneOwner(owned, pages, all, keys, np, p, q, q); }
    }
  }

  /** A zone without blocks in use goes. */
  lemma BlocksStay(zones: map<int, Zone>, owned: map<int, int>, p: int)
    requires p in zones && forall a :: !Live(zones[p], a)
    ensures SameBlocks(zones, owned, Drop(zones, p), Disown(owned, p))
  {
    var after := Drop(zones, p);
    hide Block;
    forall b, m ensures Block(after, Disown(owned, p), b, m) <==> Block(zones, owned, b, m) {
      if SmallBlock(zones, b, m) { var q :| q in zones && Live(zones[q], b) && m == zones[q].chunk;
          assert q in after && Live(after[q], b); }
      if SmallBlock(after, b, m) { var q :| q in after && Live(after[q], b) && m == after[q].chunk;
          assert q in zones && Live(zones[q], b); }
      BlockIs(zones, owned, b, m);
      BlockIs(after, Disown(owned, p), b, m);
    }
  }

  class Heap {
    const np: int                  // zone_page_cnt
    const limit: int               // zone_limit
    const pages: PageAllocator
    var zones: map<int, Zone>      // struct slab_zone, by page
    var lists: seq<seq<int>>       // zone_array, linked by z_next
    var retired: seq<int>          // zone_free
    var usage: map<int, Usage>     // memusage, by page
    var usedMem: int               // used_mem
    var maxMem: int                // max_mem
    ghost var owned: map<int, int> // page counts of zones and large blocks
    ghost var all: set<int>

    ghost predicate Valid()
      reads this, pages
    {
      && pages.Valid() && (np == 8 || np >= 16) && limit == (if np == 8 then 8192 else 16384)
      && ZonesOk(zones, np) && ListsOk(zones, lists, retired)
      && OwnersOk(owned, FreePages(pages.runs), all, zones.Keys, np) && UsageOk(owned, usage, zones.Keys, np)
      && usedMem <= maxMem
    }

    /** The statistics of rt_malloc. */
    method Charge(n: int)
      modifies `usedMem, `maxMem
      ensures usedMem == old(usedMem) + n && maxMem == Blocks.Max(old(maxMem), usedMem)
    {
      usedMem := usedMem + n;
      if usedMem > maxMem { maxMem := usedMem; }
    }

    /** rt_system_heap_init on n pages from page p on.  The table of page usage takes the first of them,
        four bytes for each page. */
    constructor (p: int, n: nat)
      requires p > NULL && n > 0
      ensures Valid() && fresh(pages) && usedMem == maxMem == 0 && forall b, m :: !Block(zones, owned, b, m)
      ensures forall x :: x in all <==> p + Up(4 * n, PAGE) / PAGE <= x < p + n
    {
      pages := new PageAllocator(p, n);
      var size := 32 * 1024;
      while size < 128 * 1024 && size * 2 < n * PAGE / 1024
        invariant size == 32 * 1024 || size == 64 * 1024 || size == 128 * 1024
        decreases 128 * 1024 - size
      {
        size := size * 2;
      }
      limit := if size / 4 > 16 * 1024 then 16 * 1024 else size / 4;
      np := size / PAGE;
      zones, usage, owned := map[], map[], map[];
      usedMem, maxMem := 0, 0;
      lists, retired := seq(NZONES, _ => []), [];
      new;
      AllocIs(pages.runs, Up(4 * n, PAGE) / PAGE);
      var table := pages.AllocPages(Up(4 * n, PAGE) / PAGE);
      all := FreePages(pages.runs);
      PagesPositive(pages.runs);
      forall x ensures x in all <==> p + Up(4 * n, PAGE) / PAGE <= x < p + n {
        PageAt(x, p, n);
        PageAt(x, p, Up(4 * n, PAGE) / PAGE);
      }
      forall i | 0 <= i < NZONES ensures ListOk(zones, retired, i, lists[i]) {}
    }

    /** A chunk from the first zone on a list. */
    method TakeChunk(zi: int) returns (a: int)
      requires Valid() && 0 <= zi < NZONES && lists[zi] != []
      modifies `zones, `lists, `usedMem, `maxMem
      ensures usedMem == old(usedMem) + ChunkOf(zi) && maxMem == Blocks.Max(old(maxMem), usedMem)
      ensures Valid() && a != NULL && Added(old(zones), owned, zones, owned, a, ChunkOf(zi))
      ensures var z := old(lists)[zi][0];
                z in old(zones) && (zones, a) == (old(zones)[z := Take(old(zones)[z]).0], Take(old(zones)[z]).1) &&
                lists == if zones[z].nfree == 0 then old(lists)[zi := old(lists)[zi][1..]] else old(lists)
    {
      hide Live, Handed, OwnersOk, UsageOk, Block, Added, ListsOk, ZonesOk, ZoneOk, OnList;
      HeadOk(zones, lists, retired, np, zi);
      var z := lists[zi][0];
      TakeOk(zones[z], z, np);
      var (zone, chunk) := Take(zones[z]);
      TakeAdds(zones, owned, FreePages(pages.runs), all, np, z, zone, chunk);
      ListTaken(zones, lists, retired, zi, zone);
      zones := zones[z := zone];
      if zone.nfree == 0 { lists := lists[zi := lists[zi][1..]]; }
      Charge(zone.chunk);
      a := chunk;
    }

    /** The loop over memusage that marks the pages of a zone. */
    method MarkPages(p: int)
      requires np > 0
      modifies `usage
      ensures Marked(old(usage), usage, p, np)
    {
      var off := 0;
      while off < np
        invariant 0 <= off <= np && Marked(old(usage), usage, p, off)
      {
        usage := usage[p + off := Small(off)];
        off := off + 1;
      }
    }

    /** Pages for a new zone. */
    method OpenPages() returns (p: int)
      requires Valid()
      modifies pages, `usage, `owned
      ensures pages.Valid() && UsageOk(owned, usage, if p == NULL then zones.Keys else zones.Keys + {p}, np)
      ensures OwnersOk(owned, FreePages(pages.runs), all, if p == NULL then zones.Keys else zones.Keys + {p}, np)
      ensures p == NULL <==> forall q :: !Fits(old(pages.runs), q, np)
      ensures p == NULL ==> owned == old(owned) && usage == old(usage) && pages.runs == old(pages.runs)
      ensures (pages.runs, p) == Alloc(old(pages.runs), np)
      ensures p != NULL ==> p !in old(owned) && p !in zones && owned == old(owned)[p := np]
    {
      hide OwnersOk, UsageOk, ZonesOk, ListsOk;
      AllocIs(pages.runs, np);
      ghost var before := FreePages(pages.runs);
      p := pages.AllocPages(np);
      if p != NULL {
        OwnersTaken(owned, before, all, zones.Keys, np, p, np);
        ghost var was := usage;
        MarkPages(p);
        UsageMarked(owned, was, usage, before, all, zones.Keys, np, p);
        owned := owned[p := np];
      }
    }

    /** No chunk of the size is free: one from a retired zone or a new one. */
    method OpenZone(zi: int) returns (a: int, ghost z: int)
      requires Valid() && 0 <= zi < NZONES && lists[zi] == [] && ChunkOf(zi) <= np * PAGE / 4
      modifies this, pages
      ensures Valid() && all == old(all)
      ensures a == NULL <==> old(retired) == [] && forall q :: !Fits(old(pages.runs), q, np)
      ensures a == NULL ==>
                zones == old(zones) && owned == old(owned) && lists == old(lists) && retired == old(retired) &&
                pages.runs == old(pages.runs)
      ensures a != NULL ==> Added(old(zones), old(owned), zones, owned, a, ChunkOf(zi))
      ensures a != NULL ==>
                var zone := NewZone(z, np, ChunkOf(zi), zi);
                zones == old(zones)[z := zone] && a == zone.base && lists == old(lists)[zi := [z]]
      ensures if a == NULL then usedMem == old(usedMem) && maxMem == old(maxMem)
              else usedMem == old(usedMem) + ChunkOf(zi) && maxMem == Blocks.Max(old(maxMem), usedMem)
      ensures a != NULL && old(retired) != [] ==>
                z == old(retired)[0] && retired == old(retired)[1..] && pages.runs == old(pages.runs)
      ensures a != NULL && old(retired) == [] ==> retired == [] && (pages.runs, z) == Alloc(old(pages.runs), np)
    {
      hide Live, Handed, OwnersOk, UsageOk, Block, Canonical, Seg, ListOk, ListsOk, ZonesOk, ZoneOk, Added, Fits;
      var p;
      if retired != [] {
        p := retired[0];
        ListReleased(zones, lists, retired) by { RetiredAre(zones, lists, retired, np); }
        RetiredAre(zones, lists, retired, np);
        retired := retired[1..];
      } else {
        p := OpenPages();
        if p == NULL { return NULL, p; }
        NotYet(zones, p);
      }
      z := p;
      var size := ChunkOf(zi);
      NewZoneOk(p, np, zi);
      var zone := NewZone(p, np, size, zi);
      ListOpened(Drop(zones, p), lists, retired, p, zone);
      OpenAdds(zones, old(owned), owned, FreePages(pages.runs), all, np, p, zone);
      zones := zones[p := zone];
      assert [p] + lists[zi] == [p];
      lists := lists[zi := [p] + lists[zi]];
      Charge(zone.chunk);
      a := zone.base;
    }

    /** A large block, straight from the pages. */
    method MallocLarge(n: int) returns (a: int)
      requires Valid() && n > 0
      modifies pages, `usage, `owned, `usedMem, `maxMem
      ensures if a == NULL then usedMem == old(usedMem) && maxMem == old(maxMem)
              else usedMem == old(usedMem) + n * PAGE && maxMem == Blocks.Max(old(maxMem), usedMem)
      ensures Valid() && all == old(all)
      ensures a == NULL <==> forall q :: !Fits(old(pages.runs), q, n)
      ensures a == NULL ==> owned == old(owned) && pages.runs == old(pages.runs)
      ensures a != NULL ==> Added(zones, old(owned), zones, owned, a, n * PAGE)
      ensures a != NULL ==>
                a % PAGE == 0 && (pages.runs, a / PAGE) == Alloc(old(pages.runs), n) &&
                owned == old(owned)[a / PAGE := n]
    {
      hide OwnersOk, UsageOk, ListsOk, ZonesOk, Added, Canonical, Seg, Fits;
      AllocIs(pages.runs, n);
      ghost var before := FreePages(pages.runs);
      var p := pages.AllocPages(n);
      if p == NULL { return NULL; }
      assert Pages(p, n) <= before by { hide *; FitsMeans(old(pages.runs), p, n); }
      OwnersTaken(owned, before, all, zones.Keys, np, p, n);
      UsageLarge(owned, usage, before, all, zones.Keys, np, p, n);
      LargeAdds(zones, owned, before, all, np, p, n);
      usage := usage[p := Large(n)];
      owned := owned[p := n];
      Charge(n * PAGE);
      a := p * PAGE;
    }

    /** rt_malloc.  It fails exactly for zero bytes, or if there are not enough pages in a row and, for a
        small block, no zone has a free chunk of its size and none is retired. */
    method Malloc(size: nat) returns (a: int)
      requires Valid()
      modifies this, pages
      ensures Valid() && all == old(all)
      ensures a != NULL ==>
                Added(old(zones), old(owned), zones, owned, a, BlockSize(size, limit)) && BlockSize(size, limit) >= size
      ensures a == NULL ==> zones == old(zones) && owned == old(owned) && pages.runs == old(pages.runs)
      ensures a == NULL <==> size == 0 || Exhausted(old(zones), old(retired), old(pages.runs), size, limit, np)
      ensures 0 < size < limit ==>
                (a == NULL <==>
                 (forall p :: p in old(zones) && old(zones)[p].zi == ZoneIndex(size).1 ==> old(zones)[p].nfree <= 0) &&
                 old(retired) == [] && forall q :: !Fits(old(pages.runs), q, np))
      ensures limit <= size && size > 0 ==>
                var n := (size + PAGE - 1) / PAGE; a == NULL <==> forall q :: !Fits(old(pages.runs), q, n)
      ensures a != NULL ==>
                if size < limit then BlockSize(size, limit) == ZoneIndex(size).0
                else BlockSize(size, limit) < size + PAGE && BlockSize(size, limit) % PAGE == 0
      ensures if a == NULL then usedMem == old(usedMem) && maxMem == old(maxMem)
              else usedMem == old(usedMem) + BlockSize(size, limit) && maxMem == Blocks.Max(old(maxMem), usedMem)
      ensures a != NULL ==> a == Served(old(zones), old(lists), old(retired), old(pages.runs), size, limit, np)
    {
      hide OwnersOk, UsageOk, ListsOk, ZonesOk, Added, Canonical, Seg, Fits, ZoneIndex, ChunkOf, NoChunk, Take;
      if size == 0 { return NULL; }
      ExhaustedIs(zones, retired, pages.runs, size, limit, np);
      if size >= limit {
        a := MallocLarge(Up(size, PAGE) / PAGE);
      } else {
        ZoneIndexIs(size);
        LimitIs(size, np, limit);
        var (_, zi) := ZoneIndex(size);
        EmptyList(zones, lists, retired, zi);
        if lists[zi] != [] {
          a := TakeChunk(zi);
        } else {
          ghost var z;
          a, z := OpenZone(zi);
          assert a != NULL ==> ChunkOf(zi) > 0 && a == z * PAGE + Offset(ChunkOf(zi));
        }
      }
    }

    /** A large block goes back to the pages. */
    method FreeLarge(p: int, count: int)
      requires Valid() && p in owned && p !in zones && owned[p] == count
      modifies pages, `usage, `owned, `usedMem
      ensures usedMem == old(usedMem) - count * PAGE
      ensures Valid() && OneLess(zones, old(owned), zones, owned, p * PAGE) &&
                pages.runs == PageSpec.Free(old(pages.runs), p, count)
    {
      hide OwnersOk, UsageOk, ListsOk, ZonesOk, OneLess, Canonical, Seg;
      OwnersGiven(owned, FreePages(pages.runs), all, zones.Keys, np, p);
      LargeGone(zones, owned, FreePages(pages.runs), all, np, p);
      PageAt(p, p, count);
      UsageGiven(owned, usage, usage[p := Large(0)], FreePages(pages.runs), all, zones.Keys, np, p);
      FreeIs(pages.runs, p, count);
      usage := usage[p := Large(0)];
      usedMem := usedMem - count * PAGE;
      pages.FreePages(p, count);
      owned := Disown(owned, p);
      assert zones.Keys - {p} == zones.Keys;
    }

    /** The loop over memusage that clears the entries of a zone. */
    method ClearPages(p: int)
      requires np > 0
      modifies `usage
      ensures forall x :: x in old(usage) && !(p <= x < p + np) ==> x in usage && usage[x] == old(usage)[x]
    {
      var i := 0;
      while i < np
        invariant 0 <= i <= np
        invariant forall x :: x in old(usage) && !(p <= x < p + i) ==> x in usage && usage[x] == old(usage)[x]
      {
        usage := usage[p + i := PageFree];
        i := i + 1;
      }
    }

    /** The pages of a zone that nobody needs go back. */
    method ReleaseZone(p: int)
      requires pages.Valid() && np >= 8 && p in zones && (forall a :: !Live(zones[p], a))
      requires ZonesOk(zones, np) && OwnersOk(owned, FreePages(pages.runs), all, zones.Keys, np) &&
                UsageOk(owned, usage, zones.Keys, np)
      modifies pages, `usage, `owned, `zones
      ensures pages.Valid() && zones == Drop(old(zones), p)
      ensures ZonesOk(zones, np) && OwnersOk(owned, FreePages(pages.runs), all, zones.Keys, np) &&
                UsageOk(owned, usage, zones.Keys, np)
      ensures SameBlocks(old(zones), old(owned), zones, owned) && pages.runs == PageSpec.Free(old(pages.runs), p, np)
    {
      hide UsageOk, OwnersOk, Live, SameBlocks, Canonical, Seg;
      ghost var was := usage;
      ClearPages(p);
      ZoneOwned(owned, FreePages(pages.runs), all, zones.Keys, np, p);
      OwnersGiven(owned, FreePages(pages.runs), all, zones.Keys, np, p);
      UsageGiven(owned, was, usage, FreePages(pages.runs), all, zones.Keys, np, p);
      BlocksStay(zones, owned, p);
      FreeIs(pages.runs, p, np);
      pages.FreePages(p, np);
      owned := Disown(owned, p);
      assert Drop(zones, p).Keys == zones.Keys - {p};
      zones := Drop(zones, p);
    }

    /** A zone that is entirely free goes to the retired ones; if there are too many, its pages go back. */
    method Retire(z: int)
      requires Valid() && z in zones && z !in retired && zones[z].nfree == zones[z].nmax
      modifies this, pages
      ensures Valid() && SameBlocks(old(zones), old(owned), zones, owned) && all == old(all)
      ensures usedMem == old(usedMem) && maxMem == old(maxMem)
      ensures |old(retired)| < RELEASE_THRESH ==>
                retired == [z] + old(retired) && zones == old(zones) && pages.runs == old(pages.runs)
      ensures |old(retired)| == RELEASE_THRESH ==>
        retired == old(retired) && zones == Drop(old(zones), z) && pages.runs == PageSpec.Free(old(pages.runs), z, np)
      ensures var zi := old(zones)[z].zi;
              0 <= zi < |old(lists)| && lists == old(lists)[zi := Del(old(lists)[zi], z)]
    {
      hide OwnersOk, UsageOk, Live, Handed, ListOk, SameBlocks, Canonical, Seg;
      var i := zones[z].zi;
      InList(zones, lists, retired, np, z);
      var k := 0;
      while lists[i][k] != z
        invariant 0 <= k < |lists[i]| && z in lists[i][k..]
        decreases |lists[i]| - k
      {
        k := k + 1;
      }
      ListRetired(zones, lists, retired, i, k);
      assert ListOk(zones, retired, i, lists[i]);
      DelWithout(lists[i], k) by { DistinctList(zones, retired, i, lists[i]); }
      lists := lists[i := Without(lists[i], k)];
      retired := [z] + retired;
      SameSelf(zones, owned);
      if |retired| > RELEASE_THRESH {
        var p := retired[0];
        FreeFits(zones[p], p, np);
        ListReleased(zones, lists, retired);
        retired := retired[1..];
        ReleaseZone(p);
      }
    }

    /** A chunk goes back to its zone. */
    method FreeChunk(z: int, a: int)
      requires Valid() && z in zones && Live(zones[z], a)
      modifies this, pages
      ensures Valid() && all == old(all) && OneLess(old(zones), old(owned), zones, owned, a)
      ensures usedMem == old(usedMem) - old(zones)[z].chunk && maxMem == old(maxMem)
      ensures var given := old(zones)[z := Give(old(zones)[z], a)];
              if given[z].nfree == given[z].nmax && Others(old(zones), old(retired), z) then
                zones == (if z in retired then given else Drop(given, z)) &&
                    (z in retired <==> |old(retired)| < RELEASE_THRESH)
              else zones == given && retired == old(retired) && pages.runs == old(pages.runs)
      ensures var zi, joined := old(zones)[z].zi, Joined(old(zones), old(lists), z);
              0 <= zi < |joined| &&
              lists == if zones == old(zones)[z := Give(old(zones)[z], a)] && z !in retired then joined
                       else joined[zi := Del(joined[zi], z)]
    {
      hide OwnersOk, UsageOk, ListsOk, Live, ZoneOk, OneLess, SameBlocks, Canonical, Seg, ZonesOk;
      NotRetired(zones, lists, retired, np, z, a);
      BlockRemoved(zones, owned, FreePages(pages.runs), all, np, z, a);
      ghost var was := zones;
      var zone := zones[z];
      zones := zones[z := Give(zone, a)];
      ListGiven(was, lists, retired, z, zones[z]);
      usedMem := usedMem - zone.chunk;
      if zone.nfree == 0 { lists := lists[zone.zi := [z] + lists[zone.zi]]; }
      OthersIs(was, zones, lists, retired, z);
      if zones[z].nfree == zones[z].nmax && lists[zone.zi] != [z] {
        ghost var zones1, owned1 := zones, owned;
        Retire(z);
        LessThenSame(was, old(owned), zones1, owned1, zones, owned, a);
      }
    }

    /** rt_free. */
    method Free(a: int)
      requires Valid() && (a == NULL || exists n :: Block(zones, owned, a, n))
      modifies this, pages
      ensures Valid() && all == old(all)
      ensures a == NULL ==> zones == old(zones) && owned == old(owned) && pages.runs == old(pages.runs)
      ensures a != NULL ==> OneLess(old(zones), old(owned), zones, owned, a)
      ensures maxMem == old(maxMem) && (a == NULL ==> usedMem == old(usedMem))
      ensures a != NULL ==> exists n :: Block(old(zones), old(owned), a, n) && usedMem == old(usedMem) - n
    {
      if a == NULL { return; }
      hide OwnersOk, UsageOk, ListsOk, Live, ZoneOk, OneLess, SameBlocks, Canonical, Seg;
      ghost var n :| Block(zones, owned, a, n);
      UsageLeadsHome(zones, owned, usage, FreePages(pages.runs), all, np, a, n);
      var page := a / PAGE;
      if usage[page].Large? {
        FreeLarge(page, usage[page].count);
      } else {
        var z := page - usage[page].offset;
        FreeChunk(z, a);
      }
    }

    /** rt_realloc, but for the bytes it copies: a chunk that fits stays, everything else moves. */
    method Realloc(a: int, size: nat) returns (b: int)
      requires Valid() && (a == NULL || exists n :: Block(zones, owned, a, n))
      modifies this, pages
      ensures Valid() && all == old(all)
      ensures a != NULL && size == 0 ==> b == NULL && OneLess(old(zones), old(owned), zones, owned, a)
      ensures b == NULL && (a == NULL || size > 0) ==>
                zones == old(zones) && owned == old(owned) && pages.runs == old(pages.runs)
      ensures a == NULL ==>
                (b == NULL <==> size == 0 || Exhausted(old(zones), old(retired), old(pages.runs), size, limit, np))
      ensures b != NULL && a == NULL ==> Added(old(zones), old(owned), zones, owned, b, BlockSize(size, limit))
      ensures a != NULL && size > 0 ==> (b == a <==> SmallBlock(old(zones), a, ZoneIndex(size).0))
      ensures a != NULL && b == a ==> zones == old(zones) && owned == old(owned)
      ensures a != NULL && size > 0 && b != a ==> var request := Request(old(zones), a, size);
                (b == NULL <==> Exhausted(old(zones), old(retired), old(pages.runs), request, limit, np)) &&
                (b != NULL ==> size <= BlockSize(request, limit)) &&
                (b != NULL ==> Moved(old(zones), old(owned), zones, owned, a, b, BlockSize(request, limit)))
      ensures a != NULL && size > 0 ==>
                maxMem == if b == NULL || b == a then old(maxMem)
                          else Blocks.Max(old(maxMem), old(usedMem) + BlockSize(Request(old(zones), a, size), limit))
    {
      hide OwnersOk, UsageOk, ListsOk, Live, ZonesOk, OneLess, Exhausted, Canonical, Seg, ZoneIndex, Up, SmallBlock;
      hide Block, Moved, Added;
      if a == NULL {
        b := Malloc(size);
        return;
      }
      if size == 0 {
        Free(a);
        return NULL;
      }
      ghost var n :| Block(zones, owned, a, n);
      UsageLeadsHome(zones, owned, usage, FreePages(pages.runs), all, np, a, n);
      SizeIs(zones, owned, usage, FreePages(pages.runs), all, np, a, n);
      var page := a / PAGE;
      var request := size;
      if usage[page].Small? {
        var z := page - usage[page].offset;
        request := ZoneIndex(size).0;
        RoundedUp(size);
        assert SmallBlock(zones, a, n);
        if zones[z].chunk == request { return a; }
      }
      assert request == Request(zones, a, size);
      b := Malloc(request);
      if b == NULL { return NULL; }
      ghost var zones1, owned1 := zones, owned;
      StillThere(old(zones), old(owned), zones1, owned1, a, n, b, BlockSize(request, limit));
      Free(a);
      AddedThenLess(old(zones), old(owned), zones1, owned1, zones, owned, a, b, BlockSize(request, limit));
    }
  }

  /** What is looked for when the block at a is to have `size` bytes: a chunk size, if it is a chunk. */
  ghost function Request(zones: map<int, Zone>, a: int, size: int): int {
    if exists n :: SmallBlock(zones, a, n) then ZoneIndex(size).0 else size
  }

  /** A block has one size, and its page tells whether it is a chunk. */
  lemma SizeIs(zones: map<int, Zone>, owned: map<int, int>, usage: map<int, Usage>, pages: set<int>, all: set<int>,
               np: int, a: int, n: int)
    requires ZonesOk(zones, np) && OwnersOk(owned, pages, all, zones.Keys, np) &&
              UsageOk(owned, usage, zones.Keys, np) && np > 0
    requires Block(zones, owned, a, n)
    ensures a / PAGE in usage
    ensures usage[a / PAGE].Small? ==> SmallBlock(zones, a, n) && forall m :: SmallBlock(zones, a, m) <==> m == n
    ensures usage[a / PAGE].Large? ==> forall m :: !SmallBlock(zones, a, m)
  {
    hide Live, UsageOk, OwnersOk, ZonesOk;
    UsageLeadsHome(zones, owned, usage, pages, all, np, a, n);
    forall m | SmallBlock(zones, a, m) ensures usage[a / PAGE].Small? && m == n {
      BlockIs(zones, owned, a, m);
      UsageLeadsHome(zones, owned, usage, pages, all, np, a, m);
      NoSuchZone(zones, owned, pages, all, np, a, m);
    }
    if usage[a / PAGE].Small? {
      var z := a / PAGE - usage[a / PAGE].offset;
      assert z in zones && Live(zones[z], a) && n == zones[z].chunk;
    }
  }

  /** A chunk is not a large block. */
  lemma NoSuchZone(zones: map<int, Zone>, owned: map<int, int>, pages: set<int>, all: set<int>, np: int, a: int, m: int)
    requires ZonesOk(zones, np) && OwnersOk(owned, pages, all, zones.Keys, np) && np > 0 && SmallBlock(zones, a, m)
    ensures forall k :: !LargeBlock(zones, owned, a, k)
  {
    var z :| z in zones && Live(zones[z], a) && m == zones[z].chunk;
    LiveInside(zones[z], z, np, a);
    ChunkSize(zones[z], z, np);
    var x := a / PAGE;
    assert Owns(owned, z, x);
    forall k ensures !LargeBlock(zones, owned, a, k) {
      if x in owned && x !in zones { assert Owns(owned, x, x); }
    }
  }

  /** The block at a has become one of n bytes at b. */
  ghost predicate Moved(zones: map<int, Zone>, owned: map<int, int>, zones': map<int, Zone>, owned': map<int, int>,
                        a: int, b: int, n: int) {
    (forall m :: !Block(zones, owned, b, m)) && forall x, m ::
        Block(zones', owned', x, m) <==> (x != a && Block(zones, owned, x, m)) || (x == b && m == n)
  }

  lemma RoundedUp(size: nat)
    requires size > 0
    ensures ZoneIndex(size).0 >= size
  {
    if size < 16384 { ZoneIndexIs(size); }
  }

  lemma StillThere(z0: map<int, Zone>, o0: map<int, int>, z1: map<int, Zone>, o1: map<int, int>, a: int, n: int,
                   b: int, m: int)
    requires Added(z0, o0, z1, o1, b, m) && Block(z0, o0, a, n)
    ensures Block(z1, o1, a, n) && a != b
  {
  }

  lemma AddedThenLess(z0: map<int, Zone>, o0: map<int, int>, z1: map<int, Zone>, o1: map<int, int>, z2: map<int, Zone>,
                      o2: map<int, int>, a: int, b: int, n: int)
    requires Added(z0, o0, z1, o1, b, n) && OneLess(z1, o1, z2, o2, a) && a != b
    ensures Moved(z0, o0, z2, o2, a, b, n)
  {
  }

  /** Another zone on the list of z has free chunks. */
  ghost predicate Others(zones: map<int, Zone>, retired: seq<int>, z: int)
    requires z in zones
  {
    exists q :: q != z && OnList(zones, retired, zones[z].zi, q)
  }

  /** The lists after a chunk of zone z was given back: a zone that had no free chunk goes to the front. */
  ghost function Joined(zones: map<int, Zone>, lists: seq<seq<int>>, z: int): seq<seq<int>>
    requires z in zones
  {
    var zi := zones[z].zi;
    if zones[z].nfree == 0 && 0 <= zi < |lists| then lists[zi := [z] + lists[zi]] else lists
  }

  lemma DistinctList(zones: map<int, Zone>, retired: seq<int>, i: int, list: seq<int>)
    requires ListOk(zones, retired, i, list)
    ensures Distinct(list)
  {
  }

  /** The address that rt_malloc returns: the lowest pages that fit for a large block; else a chunk of the first zone on
      the list of its size; else the first chunk of a new zone, in the pages of the zone retired last or in the lowest
      that fit. */
  ghost function Served(zones: map<int, Zone>, lists: seq<seq<int>>, retired: seq<int>, runs: seq<Run>, size: nat,
                        limit: int, np: int): int
  {
    var zi := ZoneIndex(size).1;
    if size >= limit then Alloc(runs, Up(size, PAGE) / PAGE).1 * PAGE
    else if 0 <= zi < |lists| && lists[zi] != [] then
      if lists[zi][0] in zones then Take(zones[lists[zi][0]]).1 else NULL
    else
      var page := if retired != [] then retired[0] else Alloc(runs, np).1;
      if ChunkOf(zi) > 0 then page * PAGE + Offset(ChunkOf(zi)) else NULL
  }

  /** The size of the block for a request. */
  function BlockSize(size: nat, limit: int): int { if size >= limit then Up(size, PAGE) else ZoneIndex(size).0 }

  /** No zone has a free chunk of the size, and no zone is retired. */
  ghost predicate NoChunk(zones: map<int, Zone>, retired: seq<int>, zi: int) {
    retired == [] && forall p :: p in zones && zones[p].zi == zi ==> zones[p].nfree <= 0
  }

  /** There are not enough free pages in a row and, for a small block, no chunk either. */
  ghost predicate Exhausted(zones: map<int, Zone>, retired: seq<int>, runs: seq<Run>, size: int, limit: int, np: int) {
    if size >= limit then forall q :: !Fits(runs, q, Up(size, PAGE) / PAGE)
    else NoChunk(zones, retired, ZoneIndex(size).1) && forall q :: !Fits(runs, q, np)
  }

  lemma ExhaustedIs(zones: map<int, Zone>, retired: seq<int>, runs: seq<Run>, size: nat, limit: int, np: int)
    requires size > 0
    ensures size < limit ==>
              BlockSize(size, limit) == ZoneIndex(size).0 &&
              (Exhausted(zones, retired, runs, size, limit, np) <==>
               (forall p :: p in zones && zones[p].zi == ZoneIndex(size).1 ==> zones[p].nfree <= 0) &&
               retired == [] && forall q :: !Fits(runs, q, np))
    ensures size >= limit ==>
              BlockSize(size, limit) < size + PAGE && BlockSize(size, limit) % PAGE == 0 &&
              (Exhausted(zones, retired, runs, size, limit, np) <==>
               var n := (size + PAGE - 1) / PAGE; forall q :: !Fits(runs, q, n))
  {
    var n := (size + PAGE - 1) / PAGE;
    assert Up(size, PAGE) == n * PAGE && Up(size, PAGE) / PAGE == n;
  }

  ghost predicate SameBlocks(zones: map<int, Zone>, owned: map<int, int>, zones': map<int, Zone>,
                             owned': map<int, int>) {
    forall b, m :: Block(zones', owned', b, m) <==> Block(zones, owned, b, m)
  }

  lemma SameSelf(zones: map<int, Zone>, owned: map<int, int>)
    ensures SameBlocks(zones, owned, zones, owned)
  {
  }

  lemma LessThenSame(z0: map<int, Zone>, o0: map<int, int>, z1: map<int, Zone>, o1: map<int, int>, z2: map<int, Zone>,
                     o2: map<int, int>, a: int)
    requires OneLess(z0, o0, z1, o1, a) && SameBlocks(z1, o1, z2, o2)
    ensures OneLess(z0, o0, z2, o2, a)
  {
  }

  lemma ZoneOwned(owned: map<int, int>, pages: set<int>, all: set<int>, keys: set<int>, np: int, p: int)
    requires OwnersOk(owned, pages, all, keys, np) && p in keys
    ensures p in owned && owned[p] == np && forall x :: p <= x < p + np <==> Owns(owned, p, x)
  {
  }

  lemma OthersIs(zones: map<int, Zone>, zones': map<int, Zone>, lists: seq<seq<int>>, retired: seq<int>, z: int)
    requires z in zones && z in zones' && zones' == zones[z := zones'[z]] && ListsOk(zones', lists, retired)
    requires 0 <= zones[z].zi < NZONES && OnList(zones', retired, zones[z].zi, z)
    ensures |lists| == NZONES && (lists[zones[z].zi] != [z] <==> Others(zones, retired, z))
  {
    var i := zones[z].zi;
    var list := lists[i];
    assert ListOk(zones', retired, i, list) && z in list;
    forall q | q != z ensures q in list <==>
        OnList(zones, retired, i, q) { assert q in list <==> OnList(zones', retired, i, q); }
    if list != [z] {
      assert |list| > 1;
      var q := if list[0] == z then list[1] else list[0];
      assert q in list && q != z;
    }
  }

  lemma NotRetired(zones: map<int, Zone>, lists: seq<seq<int>>, retired: seq<int>, np: int, z: int, a: int)
    requires ListsOk(zones, lists, retired) && ZonesOk(zones, np) && z in zones && Live(zones[z], a)
    ensures z !in retired && |retired| <= RELEASE_THRESH && |lists| == NZONES && 0 <= zones[z].zi < NZONES &&
              zones[z].nfree >= 0 && zones[z].chunk > 0
  {
    FreeFits(zones[z], z, np);
    ChunkSize(zones[z], z, np);
  }

  lemma InList(zones: map<int, Zone>, lists: seq<seq<int>>, retired: seq<int>, np: int, z: int)
    requires ListsOk(zones, lists, retired) && ZonesOk(zones, np) && z in zones && z !in retired &&
              zones[z].nfree == zones[z].nmax
    ensures 0 <= zones[z].zi < |lists| == NZONES && z in lists[zones[z].zi]
  {
    var i := zones[z].zi;
    assert ListOk(zones, retired, i, lists[i]) && OnList(zones, retired, i, z);
  }

  lemma EmptyList(zones: map<int, Zone>, lists: seq<seq<int>>, retired: seq<int>, zi: int)
    requires ListsOk(zones, lists, retired) && 0 <= zi < NZONES
    ensures |lists| == NZONES && (NoChunk(zones, retired, zi) <==> lists[zi] == [] && retired == [])
  {
    assert ListOk(zones, retired, zi, lists[zi]);
    if lists[zi] == [] && retired == [] {
      forall p | p in zones && zones[p].zi == zi ensures zones[p].nfree <= 0 {
        assert OnList(zones, retired, zi, p) <==> p in lists[zi];
      }
    }
    if lists[zi] != [] { assert lists[zi][0] in lists[zi]; assert OnList(zones, retired, zi, lists[zi][0]); }
  }

  lemma LimitIs(size: nat, np: int, limit: int)
    requires (np == 8 || np >= 16) && limit == (if np == 8 then 8192 else 16384) && 0 < size < limit
    ensures size < 16384 && ZoneIndex(size).0 <= np * PAGE / 4
  {
    ZoneIndexIs(size);
    if np == 8 { EdgeIs(size); } else { TopIs(size); }
  }

  lemma EdgeIs(size: nat)
    requires 0 < size < 8192
    ensures ZoneIndex(size).0 <= 8192
  {
    ZoneIndexIs(size);
    assert ZoneIndex(size).1 <= 63;
    if ZoneIndex(size).1 < 63 { ChunkOfGrows(ZoneIndex(size).1, 63); }
  }

  lemma TopIs(size: nat)
    requires 0 < size < 16384
    ensures ZoneIndex(size).0 <= 16384
  {
    ZoneIndexIs(size);
    if ZoneIndex(size).1 > 0 { ChunkOfGrows(0, ZoneIndex(size).1); }
  }

  /** A large block that was allocated is a new block. */
  lemma LargeAdds(zones: map<int, Zone>, owned: map<int, int>, pages: set<int>, all: set<int>, np: int, p: int, n: int)
    requires ZonesOk(zones, np) && OwnersOk(owned, pages, all, zones.Keys, np) && np > 0 && n > 0 &&
              Pages(p, n) <= pages
    ensures Added(zones, owned, zones, owned[p := n], p * PAGE, n * PAGE)
  {
    OwnersTaken(owned, pages, all, zones.Keys, np, p, n);
    PageAt(p, p, n);
    Fresh(zones, owned, pages, all, np, p, p * PAGE);
    forall b, m ensures LargeBlock(zones, owned[p := n], b, m) <==>
        LargeBlock(zones, owned, b, m) || (b == p * PAGE && m == n * PAGE) {}
  }

  lemma LargeGone(zones: map<int, Zone>, owned: map<int, int>, pages: set<int>, all: set<int>, np: int, p: int)
    requires ZonesOk(zones, np) && OwnersOk(owned, pages, all, zones.Keys, np) && np > 0 && p in owned && p !in zones
    ensures OneLess(zones, owned, zones, Disown(owned, p), p * PAGE)
  {
    var after := Disown(owned, p);
    OwnersGiven(owned, pages, all, zones.Keys, np, p);
    assert zones.Keys - {p} == zones.Keys && Owns(owned, p, p);
    forall q ensures !Owns(after, q, p * PAGE / PAGE) {
      if Owns(owned, q, p) { OneOwner(owned, pages, all, zones.Keys, np, p, q, p); }
    }
    Fresh(zones, after, pages + Pages(p, owned[p]), all, np, p, p * PAGE);
    forall b, m ensures LargeBlock(zones, after, b, m) <==> LargeBlock(zones, owned, b, m) && b != p * PAGE {}
    forall b, m ensures Block(zones, after, b, m) <==> Block(zones, owned, b, m) && b != p * PAGE {
      if b == p * PAGE { assert !Block(zones, after, b, m); }
    }
  }

  /** The first zone on a list. */
  lemma HeadOk(zones: map<int, Zone>, lists: seq<seq<int>>, retired: seq<int>, np: int, zi: int)
    requires ListsOk(zones, lists, retired) && ZonesOk(zones, np) && 0 <= zi < NZONES && lists[zi] != []
    ensures zi < |lists|
    ensures var z := lists[zi][0];
              z in zones && zones[z].zi == zi && zones[z].nfree > 0 && ZoneOk(zones[z], z, np) &&
              zones[z].chunk == ChunkOf(zi)
  {
    assert ListOk(zones, retired, zi, lists[zi]) && lists[zi][0] in lists[zi];
    assert OnList(zones, retired, zi, lists[zi][0]);
  }

  lemma TakeAdds(zones: map<int, Zone>, owned: map<int, int>, pages: set<int>, all: set<int>, np: int, p: int, z: Zone,
                 a: int)
    requires ZonesOk(zones, np) && OwnersOk(owned, pages, all, zones.Keys, np) && np > 0 && p in zones &&
              ZoneOk(z, p, np)
    requires !Live(zones[p], a) && (forall b :: Live(z, b) <==> Live(zones[p], b) || b == a) &&
              z.chunk == zones[p].chunk
    ensures a > NULL && Added(zones, owned, zones[p := z], owned, a, ChunkOf(z.zi)) &&
              zones[p := z].Keys == zones.Keys && ZonesOk(zones[p := z], np)
  {
    assert Live(z, a);
    LiveInside(z, p, np, a);
    ChunkSize(z, p, np);
    var x := a / PAGE;
    assert Owns(owned, p, x);
    forall q | Owns(owned, q, x) ensures q == p { OneOwner(owned, pages, all, zones.Keys, np, p, q, x); }
    Fresh(zones, owned, pages, all, np, p, a);
    BlockAdded(zones, owned, owned, p, z, a);
  }

  /** A zone put in place of an empty one, or on pages that were free. */
  lemma OpenAdds(zones: map<int, Zone>, owned: map<int, int>, owned': map<int, int>, pages: set<int>, all: set<int>,
                 np: int, p: int, z: Zone)
    requires ZonesOk(zones, np) && np > 0 && ZoneOk(z, p, np) && OwnersOk(owned', pages, all, zones.Keys + {p}, np)
    requires if p in zones then owned' == owned && forall b ::
              !Live(zones[p], b) else p !in owned && owned' == owned[p := np]
    requires forall b :: Live(z, b) <==> b == z.base
    ensures Added(zones, owned, zones[p := z], owned', z.base, ChunkOf(z.zi))
    ensures zones[p := z].Keys == zones.Keys + {p} && ZonesOk(zones[p := z], np) &&
              Drop(zones, p)[p := z] == zones[p := z]
  {
    var a := z.base;
    assert Live(z, a);
    LiveInside(z, p, np, a);
    ChunkSize(z, p, np);
    BlockAdded(zones, owned, owned', p, z, a);
    var x := a / PAGE;
    assert Owns(owned', p, x);
    forall m ensures !Block(zones, owned, a, m) {
      if Block(zones, owned, a, m) {
        var q := OldOwner(zones, owned, owned', pages, all, np, p, a, m);
        OneOwner(owned', pages, all, zones.Keys + {p}, np, p, q, x);
      }
    }
  }

  lemma OldOwner(zones: map<int, Zone>, owned: map<int, int>, owned': map<int, int>, pages: set<int>, all: set<int>,
                 np: int, p: int, a: int, m: int) returns (q: int)
    requires ZonesOk(zones, np) && np > 0 && OwnersOk(owned', pages, all, zones.Keys + {p}, np) &&
              Block(zones, owned, a, m)
    requires if p in zones then owned' == owned else p !in owned && owned' == owned[p := np]
    ensures q in owned && Owns(owned', q, a / PAGE) && (q in zones ==> Live(zones[q], a))
  {
    if LargeBlock(zones, owned, a, m) {
      q := a / PAGE;
    } else {
      q :| q in zones && Live(zones[q], a) && m == zones[q].chunk;
      LiveInside(zones[q], q, np, a);
      ChunkSize(zones[q], q, np);
    }
  }

  lemma RetiredAre(zones: map<int, Zone>, lists: seq<seq<int>>, retired: seq<int>, np: int)
    requires ListsOk(zones, lists, retired) && ZonesOk(zones, np) && retired != []
    ensures |lists| == NZONES && (forall i :: 0 <= i < NZONES ==> ListOk(zones, retired, i, lists[i])) &&
              RetiredOk(zones, retired)
    ensures |retired| <= RELEASE_THRESH
    ensures var p := retired[0];
              p in zones && ZoneOk(zones[p], p, np) && zones.Keys + {p} == zones.Keys && forall a :: !Live(zones[p], a)
  {
    var p := retired[0];
    assert p in retired;
    FreeFits(zones[p], p, np);
  }

  lemma NotYet(zones: map<int, Zone>, p: int)
    requires p !in zones
    ensures Drop(zones, p) == zones
  {
  }

  lemma FitsMeans(l: seq<Run>, p: int, n: int)
    requires Fits(l, p, n)
    ensures Pages(p, n) <= FreePages(l)
  {
  }

  lemma {:induction false} PagesPositive(l: seq<Run>)
    requires Canonical(l)
    ensures forall x :: x in FreePages(l) ==> x > NULL
  {
    if l != [] { FreeAfter(l); }
  }
}
