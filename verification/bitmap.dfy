/** Words as sets of bits, and the search for the lowest set bit in kservice.c. */
module Bitmap {
  /** Bit p of w. */
  predicate Bit(w: nat, p: nat)
    decreases p
  {
    if p == 0 then w % 2 == 1 else Bit(w / 2, p - 1)
  }

  /** w | (1 << p), and w & ~(1 << p). */
  function SetBit(w: nat, p: nat): nat
    decreases p
  {
    if p == 0 then w / 2 * 2 + 1 else SetBit(w / 2, p - 1) * 2 + w % 2
  }

  function ClearBit(w: nat, p: nat): nat
    decreases p
  {
    if p == 0 then w / 2 * 2 else ClearBit(w / 2, p - 1) * 2 + w % 2
  }

  function Power(n: nat): (r: nat)
    ensures r >= 1
  {
    if n == 0 then 1 else 2 * Power(n - 1)
  }

  lemma {:induction false} PowerSum(a: nat, b: nat)
    ensures Power(a + b) == Power(a) * Power(b)
  {
    if a > 0 { PowerSum(a - 1, b); }
  }

  lemma Powers()
    ensures Power(8) == 256 && Power(32) == 0x1_0000_0000
  {
    assert Power(4) == 16;
    PowerSum(4, 4);
    PowerSum(8, 8);
    PowerSum(16, 16);
  }

  lemma {:induction false} BitOfSet(w: nat, p: nat, q: nat)
    ensures Bit(SetBit(w, p), q) <==> q == p || Bit(w, q)
    decreases p
  {
    var s := SetBit(w, p);
    if p == 0 {
      assert s / 2 == w / 2 && s % 2 == 1;
    } else {
      assert s / 2 == SetBit(w / 2, p - 1) && s % 2 == w % 2;
      if q > 0 { BitOfSet(w / 2, p - 1, q - 1); }
    }
  }

  lemma {:induction false} BitOfClear(w: nat, p: nat, q: nat)
    ensures Bit(ClearBit(w, p), q) <==> q != p && Bit(w, q)
    decreases p
  {
    var s := ClearBit(w, p);
    if p == 0 {
      assert s / 2 == w / 2 && s % 2 == 0;
    } else {
      assert s / 2 == ClearBit(w / 2, p - 1) && s % 2 == w % 2;
      if q > 0 { BitOfClear(w / 2, p - 1, q - 1); }
    }
  }

  /** Setting and clearing bits below n stays within n bits. */
  lemma {:induction false} Bounded(w: nat, p: nat, n: nat)
    requires p < n && w < Power(n)
    ensures SetBit(w, p) < Power(n) && ClearBit(w, p) < Power(n)
    decreases p
  {
    if p > 0 { Bounded(w / 2, p - 1, n - 1); }
  }

  lemma {:induction false} ZeroBits(p: nat)
    ensures !Bit(0, p)
  {
    if p > 0 { ZeroBits(p - 1); }
  }

  lemma {:induction false} HighBits(w: nat, n: nat, p: nat)
    requires w < Power(n) && p >= n
    ensures !Bit(w, p)
    decreases n
  {
    if n == 0 { ZeroBits(p); } else { HighBits(w / 2, n - 1, p - 1); }
  }

  // ---- __rt_ffs ----

  /** The number of the lowest set bit. */
  function Lowest(w: nat): nat
    requires w > 0
    decreases w
  {
    if w % 2 == 1 then 0 else 1 + Lowest(w / 2)
  }

  lemma {:induction false} LowestIs(w: nat)
    requires w > 0
    ensures Bit(w, Lowest(w)) && forall q :: 0 <= q < Lowest(w) ==> !Bit(w, q)
    decreases w
  {
    if w % 2 == 0 {
      LowestIs(w / 2);
      forall q | 0 <= q < Lowest(w) ensures !Bit(w, q) { if q > 0 { assert !Bit(w / 2, q - 1); } }
    }
  }

  /** ... and there is none below it. */
  lemma LowestAtMost(w: nat, p: nat)
    requires Bit(w, p)
    ensures w > 0 && Bit(w, Lowest(w)) && Lowest(w) <= p && forall q: nat :: q < Lowest(w) ==> !Bit(w, q)
  {
    if w == 0 { ZeroBits(p); } else { LowestIs(w); }
  }

  // __lowest_bit_bitmap: sixteen rows that differ in the first column only.
  const ROW: seq<nat> := [0, 0, 1, 0, 2, 0, 1, 0, 3, 0, 1, 0, 2, 0, 1, 0]
  const FIRST: seq<nat> := [0, 4, 5, 4, 6, 4, 5, 4, 7, 4, 5, 4, 6, 4, 5, 4]

  function LowestBitBitmap(v: nat): nat
    requires v < 256
  {
    if v % 16 == 0 then FIRST[v / 16] else ROW[v % 16]
  }

  /** __rt_ffs of a 32-bit value. */
  function Ffs(value: nat): nat {
    if value == 0 then 0
    else if value % 256 != 0 then LowestBitBitmap(value % 256) + 1
    else if value / 256 % 256 != 0 then LowestBitBitmap(value / 256 % 256) + 9
    else if value / 0x10000 % 256 != 0 then LowestBitBitmap(value / 0x10000 % 256) + 17
    else LowestBitBitmap(value / 0x100_0000 % 256) + 25
  }

  /** The lowest bit of the lowest n bits, if one of them is set. */
  lemma {:induction false} LowestOfPart(w: nat, n: nat)
    requires w % Power(n) != 0
    ensures w > 0 && Lowest(w) == Lowest(w % Power(n))
    decreases n
  {
    var m := Power(n - 1);
    ModHalf(w, m);
    if w % 2 == 0 { LowestOfPart(w / 2, n - 1); }
  }

  lemma ModHalf(w: nat, m: nat)
    requires m > 0
    ensures w % (2 * m) / 2 == w / 2 % m && w % (2 * m) % 2 == w % 2
  {
    var q, r := w / 2 / m, w / 2 % m;
    assert w / 2 == q * m + r;
    assert w == (2 * m) * q + (2 * r + w % 2);
    ModUnique(w, 2 * m, q, 2 * r + w % 2);
  }

  lemma ModUnique(w: nat, m: nat, q: nat, r: nat)
    requires m > 0 && w == m * q + r && r < m
    ensures w % m == r && w / m == q
  {
    var d := w / m - q;
    assert w == m * (w / m) + w % m;
    assert m * d == r - w % m by { assert m * d == m * (w / m) - m * q; }
    Multiple(m, d);
  }

  lemma Multiple(m: nat, d: int)
    requires m > 0
    ensures (d > 0 ==> m * d >= m) && (d < 0 ==> m * d <= -1 * (m as int))
  {
    if d > 0 { assert m * d == m + m * (d - 1); } else if d < 0 { assert m * d == m * (d + 1) - m; }
  }

  /** If they are all zero, the lowest bit is in the rest. */
  lemma {:induction false} LowestAbove(w: nat, n: nat)
    requires w % Power(n) == 0 && w > 0
    ensures w / Power(n) > 0 && Lowest(w) == n + Lowest(w / Power(n))
    decreases n
  {
    if n > 0 {
      var m := Power(n - 1);
      ModHalf(w, m);
      LowestAbove(w / 2, n - 1);
      assert w / 2 / m == w / (2 * m) by { DivHalf(w, m); }
    }
  }

  lemma DivHalf(w: nat, m: nat)
    requires m > 0
    ensures w / 2 / m == w / (2 * m)
  {
    var q, r := w / 2 / m, w / 2 % m;
    assert w / 2 == q * m + r;
    assert w == (2 * m) * q + (2 * r + w % 2);
    ModUnique(w, 2 * m, q, 2 * r + w % 2);
  }

  lemma LowestInTable(v: nat)
    requires 0 < v < 256
    ensures LowestBitBitmap(v) == Lowest(v)
  {
    assert Power(4) == 16;
    if v % 16 != 0 {
      LowestOfPart(v, 4);
      SmallTable(v % 16);
    } else {
      LowestAbove(v, 4);
      SmallTable(v / 16);
    }
  }

  lemma SmallTable(v: nat)
    requires 0 < v < 16
    ensures ROW[v] == Lowest(v) && FIRST[v] == 4 + Lowest(v)
  {
    if v < 8 { if v < 4 { if v < 2 {} else if v == 2 {} else {} } else if v == 4 {} else if v == 6 {} else {} }
    else if v < 12 { if v == 8 {} else if v == 10 {} else {} } else if v == 12 {} else if v == 14 {} else {}
  }

  /** One byte at a time. */
  lemma LowestByByte(w: nat)
    requires w > 0
    ensures w % 256 != 0 ==> Lowest(w) == LowestBitBitmap(w % 256)
    ensures w % 256 == 0 ==> w / 256 > 0 && Lowest(w) == 8 + Lowest(w / 256)
  {
    assert Power(8) == 256;
    if w % 256 != 0 {
      LowestOfPart(w, 8);
      LowestInTable(w % 256);
    } else {
      LowestAbove(w, 8);
    }
  }

  /** __rt_ffs finds the lowest set bit, counted from one. */
  lemma FfsIsLowest(value: nat)
    requires value < 0x1_0000_0000
    ensures Ffs(value) == 0 <==> value == 0
    ensures value > 0 ==> Ffs(value) == Lowest(value) + 1
    ensures value > 0 ==> Bit(value, Ffs(value) - 1) && forall p :: 0 <= p < Ffs(value) - 1 ==> !Bit(value, p)
  {
    if value == 0 { return; }
    hide LowestBitBitmap, Lowest, Bit;
    LowestIs(value);
    var w := value / 256;
    var x := w / 256;
    assert x == value / 0x10000 && x / 256 == value / 0x100_0000 < 256;
    LowestByByte(value);
    if value % 256 == 0 {
      LowestByByte(w);
      if w % 256 == 0 {
        LowestByByte(x);
        if x % 256 == 0 { LowestByByte(x / 256); }
      }
    }
  }
}
