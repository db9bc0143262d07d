/** The C operators on longs that the finsh machine applies, and what they mean: laws that determine every
    result without saying how it is computed. */
module FinshAlu {
  import opened Machine
  import opened Bitmap

  datatype AluOp = Add | Sub | Div | Mod | Mul | And | Or | Xor | Shl | Shr

  function Size(x: int): nat { if x < 0 then -x else x }

  function SizeQuot(a: int, b: int): int
    requires b != 0
  {
    Size(a) / Size(b)
  }

  /** Division of C: the quotient is truncated towards zero. */
  function Quot(a: int, b: int): int
    requires b != 0
  {
    if (a < 0) == (b < 0) then SizeQuot(a, b) else -SizeQuot(a, b)
  }

  function BitIf(b: bool): nat { if b then 1 else 0 }

  /** The n low bits of a & b, of a | b and of a ^ b. */
  function AndBits(a: nat, b: nat, n: nat): nat {
    if n == 0 then 0 else BitIf(a % 2 == 1 && b % 2 == 1) + 2 * AndBits(a / 2, b / 2, n - 1)
  }

  function OrBits(a: nat, b: nat, n: nat): nat {
    if n == 0 then 0 else BitIf(a % 2 == 1 || b % 2 == 1) + 2 * OrBits(a / 2, b / 2, n - 1)
  }

  function XorBits(a: nat, b: nat, n: nat): nat {
    if n == 0 then 0 else BitIf(a % 2 != b % 2) + 2 * XorBits(a / 2, b / 2, n - 1)
  }

  /** Neither a zero divisor nor the one quotient that does not fit. */
  predicate Divides(a: Word, b: Word) { b != 0 && !(a == 0x8000_0000 && b == 0xFFFF_FFFF) }

  /** OP_BIN_DWORD: the C operator on two longs, or None where C leaves the result undefined.
      A right shift keeps the sign. */
  function AluDword(op: AluOp, a: Word, b: Word): Option<Word> {
    match op
    case Add => Some(Wrap(a + b))
    case Sub => Some(Wrap(a - b))
    case Mul => Some(Wrap(Signed(a) * Signed(b)))
    case Div => if Divides(a, b) then Some(Wrap(Quot(Signed(a), Signed(b)))) else None
    case Mod => if Divides(a, b) then Some(Wrap(Signed(a) - Signed(b) * Quot(Signed(a), Signed(b)))) else None
    case And => Some(Wrap(AndBits(a, b, 32)))
    case Or => Some(Wrap(OrBits(a, b, 32)))
    case Xor => Some(Wrap(XorBits(a, b, 32)))
    case Shl => if b < 32 then Some(Wrap(a * Power(b))) else None
    case Shr => if b < 32 then Some(Wrap(Signed(a) / Power(b))) else None
  }

  function Complement(a: Word): Word { 0xFFFF_FFFF - a }

  // ---- What the operators mean ----

  /** Equal but for the bits beyond the word. */
  predicate Congruent(x: int, y: int) { (x - y) % 0x1_0000_0000 == 0 }

  /** What division leaves of a: less than the divisor, with the sign of a. */
  predicate Remainder(a: int, b: int, r: int) {
    Size(r) < Size(b) && (r == 0 || (r < 0) == (a < 0))
  }

  /** What the result of an operator has to do with its operands. */
  ghost predicate Means(op: AluOp, a: Word, b: Word, r: Word) {
    var (x, y, z) := (Signed(a), Signed(b), Signed(r));
    match op
    case Add => Congruent(z, x + y)
    case Sub => Congruent(z, x - y)
    case Mul => Congruent(z, x * y)
    case Div => Remainder(x, y, x - y * z)
    case Mod => Remainder(x, y, z) && exists q :: x == y * q + z
    case And => forall p :: 0 <= p < 32 ==> (Bit(r, p) <==> Bit(a, p) && Bit(b, p))
    case Or => forall p :: 0 <= p < 32 ==> (Bit(r, p) <==> Bit(a, p) || Bit(b, p))
    case Xor => forall p :: 0 <= p < 32 ==> (Bit(r, p) <==> Bit(a, p) != Bit(b, p))
    case Shl => forall p :: 0 <= p < 32 ==> (Bit(r, p) <==> p >= b && Bit(a, p - b))
    case Shr => forall p :: 0 <= p < 32 ==> (Bit(r, p) <==> Bit(a, if p + b < 32 then p + b else 31))
  }

  /** Where C defines it, the machine computes that; and it is undefined exactly for a zero divisor, for the
      quotient that is too large, and for a shift by the width or more. */
  lemma AluMeans(op: AluOp, a: Word, b: Word)
    ensures AluDword(op, a, b).Some? <==>
            (op == Div || op == Mod ==> Signed(b) != 0 && !(Signed(a) == -0x8000_0000 && Signed(b) == -1)) &&
            (op == Shl || op == Shr ==> b < 32)
    ensures AluDword(op, a, b).Some? ==> Means(op, a, b, AluDword(op, a, b).value)
  {
    hide Means, Wrap, Signed;
    SignedIs(a, b);
    match op
    case Add => SumMeans(a, b);
    case Sub => SumMeans(a, b);
    case Mul => ProductMeans(a, b);
    case Div => if Divides(a, b) { DivMeans(a, b); }
    case Mod => if Divides(a, b) { DivMeans(a, b); }
    case And => AndMeans(a, b);
    case Or => OrMeans(a, b);
    case Xor => XorMeans(a, b);
    case Shl => if b < 32 { ShlMeans(a, b); }
    case Shr => if b < 32 { ShrMeans(a, b); }
  }

  lemma SignedIs(a: Word, b: Word)
    ensures Divides(a, b) <==> Signed(b) != 0 && !(Signed(a) == -0x8000_0000 && Signed(b) == -1)
  {
  }

  lemma SumMeans(a: Word, b: Word)
    ensures Means(Add, a, b, Wrap(a + b)) && Means(Sub, a, b, Wrap(a - b))
  {
    hide Bit, Remainder;
    Reduced(a + b);
    Reduced(a - b);
    SameClass(a, b);
    Chain(Signed(Wrap(a + b)), a + b, Signed(a) + Signed(b));
    Chain(Signed(Wrap(a - b)), a - b, Signed(a) - Signed(b));
    hide Signed, Wrap, Congruent;
  }

  lemma ProductMeans(a: Word, b: Word)
    ensures Means(Mul, a, b, Wrap(Signed(a) * Signed(b)))
  {
    hide Bit, Remainder, Signed, Wrap, Congruent;
    Reduced(Signed(a) * Signed(b));
  }

  lemma Reduced(x: int)
    ensures Congruent(Signed(Wrap(x)), x)
  {
  }

  lemma SameClass(a: Word, b: Word)
    ensures Congruent(a + b, Signed(a) + Signed(b)) && Congruent(a - b, Signed(a) - Signed(b))
  {
  }

  lemma Chain(x: int, y: int, z: int)
    requires Congruent(x, y) && Congruent(y, z)
    ensures Congruent(x, z)
  {
  }

  // ---- Division ----

  /** A multiple of a number is not smaller than it. */
  lemma Multiple(y: int, d: int)
    ensures d != 0 ==> Size(y * d) >= Size(y)
  {
    if d > 0 {
      assert y * d == y * (d - 1) + y;
      SameSign(y, d - 1);
    } else if d < 0 {
      assert y * d == y * (d + 1) - y;
      SameSign(y, d + 1);
    }
  }

  lemma SameSign(y: int, d: int)
    ensures (y >= 0 && d >= 0) || (y <= 0 && d <= 0) ==> y * d >= 0
    ensures (y >= 0 && d <= 0) || (y <= 0 && d >= 0) ==> y * d <= 0
  {
  }

  lemma QuotientIs(x: int, m: nat, h: int, r: int)
    requires m > 0 && x == m * h + r && 0 <= r < m
    ensures x / m == h && x % m == r
  {
    var d := x / m - h;
    assert x == m * (x / m) + x % m;
    assert m * d == m * (x / m) - m * h;
    Multiple(m, d);
  }

  lemma QuotIs(a: int, b: int)
    requires b != 0
    ensures Remainder(a, b, a - b * Quot(a, b))
    ensures a >= 0 ==> -a <= Quot(a, b) <= a
    ensures a < 0 ==> a <= Quot(a, b) <= -a
    ensures a < 0 && b != -1 ==> Quot(a, b) < -a
  {
    SizeQuotIs(a, b);
    QuotTimes(a, b);
    QuotRange(a, b);
    hide *;
    Truncated(a, b, Size(b) * SizeQuot(a, b), b * Quot(a, b));
  }

  lemma QuotRange(a: int, b: int)
    requires b != 0 && 0 <= SizeQuot(a, b) <= Size(a)
    requires Size(b) >= 2 && a != 0 ==> SizeQuot(a, b) < Size(a)
    ensures a >= 0 ==> -a <= Quot(a, b) <= a
    ensures a < 0 ==> a <= Quot(a, b) <= -a
    ensures a < 0 && b != -1 ==> Quot(a, b) < -a
  {
    hide SizeQuot;
  }

  lemma SizeQuotIs(a: int, b: int)
    requires b != 0
    ensures var q := SizeQuot(a, b);
            0 <= Size(a) - Size(b) * q < Size(b) && 0 <= q <= Size(a) && (Size(b) >= 2 && a != 0 ==> q < Size(a))
  {
    var m, n := Size(a), Size(b);
    DivMod(m, n);
    NotAbove(m, n, m / n, m % n);
  }

  lemma DivMod(m: int, n: nat)
    requires n > 0
    ensures m == n * (m / n) + m % n && 0 <= m % n < n
  {
  }

  lemma QuotTimes(a: int, b: int)
    requires b != 0
    ensures b * Quot(a, b) == if a < 0 then -(Size(b) * SizeQuot(a, b)) else Size(b) * SizeQuot(a, b)
  {
    hide SizeQuot;
    Negated(b, SizeQuot(a, b));
  }

  lemma Truncated(a: int, b: int, p: int, t: int)
    requires 0 <= Size(a) - p < Size(b) && t == if a < 0 then -p else p
    ensures Remainder(a, b, a - t)
  {
  }

  lemma NotAbove(m: nat, n: nat, q: int, r: int)
    requires n >= 1 && m == n * q + r && 0 <= r < n
    ensures 0 <= q <= m && (n >= 2 && m > 0 ==> q < m)
  {
    if q < 0 { Multiple(n, q); SameSign(n, q); }
    if q >= 0 {
      assert n * q == (n - 1) * q + q;
      SameSign(n - 1, q);
      if n >= 2 {
        assert (n - 1) * q == (n - 2) * q + q;
        SameSign(n - 2, q);
      }
    }
  }

  lemma Negated(b: int, q: int)
    ensures -b * q == -(b * q) && b * -q == -(b * q) && -b * -q == b * q
  {
  }

  lemma SignedOf(x: int)
    requires -0x8000_0000 <= x < 0x8000_0000
    ensures Signed(Wrap(x)) == x
  {
  }

  lemma RemainderFits(x: int, y: int, r: int)
    requires Remainder(x, y, r) && -0x8000_0000 <= y < 0x8000_0000
    ensures -0x8000_0000 < r < 0x8000_0000
  {
  }

  lemma DivMeans(a: Word, b: Word)
    requires Divides(a, b)
    ensures var q := Quot(Signed(a), Signed(b));
            Means(Div, a, b, Wrap(q)) && Means(Mod, a, b, Wrap(Signed(a) - Signed(b) * q))
  {
    hide Quot, Remainder, Wrap, Signed, Bit, Congruent;
    SignedIs(a, b);
    var x, y := Signed(a), Signed(b);
    var q := Quot(x, y);
    var r := x - y * q;
    QuotIs(x, y);
    RemainderFits(x, y, r);
    SignedOf(q);
    SignedOf(r);
    assert x == y * q + r;
  }

  // ---- Bits ----

  lemma {:induction false} AndBitsAt(a: nat, b: nat, n: nat, p: nat)
    requires p < n
    ensures Bit(AndBits(a, b, n), p) <==> Bit(a, p) && Bit(b, p)
    decreases p
  {
    Halves(BitIf(a % 2 == 1 && b % 2 == 1), AndBits(a / 2, b / 2, n - 1));
    if p > 0 { AndBitsAt(a / 2, b / 2, n - 1, p - 1); }
  }

  lemma {:induction false} OrBitsAt(a: nat, b: nat, n: nat, p: nat)
    requires p < n
    ensures Bit(OrBits(a, b, n), p) <==> Bit(a, p) || Bit(b, p)
    decreases p
  {
    Halves(BitIf(a % 2 == 1 || b % 2 == 1), OrBits(a / 2, b / 2, n - 1));
    if p > 0 { OrBitsAt(a / 2, b / 2, n - 1, p - 1); }
  }

  lemma {:induction false} XorBitsAt(a: nat, b: nat, n: nat, p: nat)
    requires p < n
    ensures Bit(XorBits(a, b, n), p) <==> Bit(a, p) != Bit(b, p)
    decreases p
  {
    Halves(BitIf(a % 2 != b % 2), XorBits(a / 2, b / 2, n - 1));
    if p > 0 { XorBitsAt(a / 2, b / 2, n - 1, p - 1); }
  }

  lemma Halves(low: nat, rest: nat)
    requires low < 2
    ensures (low + 2 * rest) / 2 == rest && (low + 2 * rest) % 2 == low
  {
  }

  /** Cutting a number to a word keeps its low bits. */
  lemma {:induction false} CutBits(x: nat, n: nat, p: nat)
    requires p < n
    ensures Bit(x % Power(n), p) <==> Bit(x, p)
    decreases p
  {
    var k := Power(n - 1);
    var d := x / (2 * k);
    assert x == 2 * k * d + x % (2 * k);
    assert x / 2 == k * d + x % (2 * k) / 2;
    QuotientIs(x / 2, k, d, x % (2 * k) / 2);
    if p > 0 { CutBits(x / 2, n - 1, p - 1); }
  }

  lemma WordBits(x: nat, p: nat)
    requires p < 32
    ensures Bit(Wrap(x), p) <==> Bit(x, p)
  {
    Powers();
    CutBits(x, 32, p);
  }

  lemma AndMeans(a: Word, b: Word)
    ensures Means(And, a, b, Wrap(AndBits(a, b, 32)))
  {
    forall p | 0 <= p < 32 ensures Bit(Wrap(AndBits(a, b, 32)), p) <==> Bit(a, p) && Bit(b, p) {
      WordBits(AndBits(a, b, 32), p);
      AndBitsAt(a, b, 32, p);
    }
  }

  lemma OrMeans(a: Word, b: Word)
    ensures Means(Or, a, b, Wrap(OrBits(a, b, 32)))
  {
    forall p | 0 <= p < 32 ensures Bit(Wrap(OrBits(a, b, 32)), p) <==> Bit(a, p) || Bit(b, p) {
      WordBits(OrBits(a, b, 32), p);
      OrBitsAt(a, b, 32, p);
    }
  }

  lemma XorMeans(a: Word, b: Word)
    ensures Means(Xor, a, b, Wrap(XorBits(a, b, 32)))
  {
    forall p | 0 <= p < 32 ensures Bit(Wrap(XorBits(a, b, 32)), p) <==> Bit(a, p) != Bit(b, p) {
      WordBits(XorBits(a, b, 32), p);
      XorBitsAt(a, b, 32, p);
    }
  }

  lemma {:induction false} ShiftUp(a: nat, b: nat, p: nat)
    ensures Bit(a * Power(b), p) <==> p >= b && Bit(a, p - b)
    decreases b
  {
    if b > 0 {
      assert a * Power(b) == 2 * (a * Power(b - 1));
      Halves(0, a * Power(b - 1));
      if p > 0 { ShiftUp(a, b - 1, p - 1); }
    }
  }

  lemma ShlMeans(a: Word, b: Word)
    requires b < 32
    ensures Means(Shl, a, b, Wrap(a * Power(b)))
  {
    forall p | 0 <= p < 32 ensures Bit(Wrap(a * Power(b)), p) <==> p >= b && Bit(a, p - b) {
      WordBits(a * Power(b), p);
      ShiftUp(a, b, p);
    }
  }

  /** A bit above all others. */
  lemma {:induction false} TopBit(x: nat, n: nat, p: nat)
    requires x < Power(n)
    ensures Bit(x + Power(n), p) <==> p == n || Bit(x, p)
    decreases n
  {
    if n == 0 {
      if p > 0 { ZeroBits(p - 1); }
    } else {
      assert (x + Power(n)) / 2 == x / 2 + Power(n - 1);
      if p > 0 { TopBit(x / 2, n - 1, p - 1); }
    }
  }

  /** A right shift by one repeats the sign bit. */
  lemma ShiftDownOne(a: Word, p: nat)
    requires p < 32
    ensures Bit(Wrap(Signed(a) / 2), p) <==> Bit(a, if p < 31 then p + 1 else 31)
  {
    PowerTop();
    var top := 0x8000_0000;
    if a < top {
      HighBits(a, 31, 31);
      if p == 31 { HighBits(a / 2, 31, 31); }
    } else {
      assert Wrap(Signed(a) / 2) == a / 2 + top;
      TopBit(a / 2, 31, p);
      TopBit(a - top, 31, 31);
    }
  }

  lemma PowerTop()
    ensures Power(31) == 0x8000_0000
  {
    Powers();
  }

  /** A shift by b is one by b - 1 and one by one. */
  lemma ShiftSplit(a: Word, b: nat)
    requires 0 < b
    ensures var s := Wrap(Signed(a) / Power(b - 1));
            Signed(s) == Signed(a) / Power(b - 1) && Signed(a) / Power(b) == Signed(s) / 2
  {
    assert Power(b) == 2 * Power(b - 1);
    hide Wrap, Signed, Power;
    DivStays(Signed(a), Power(b - 1));
    SignedOf(Signed(a) / Power(b - 1));
    DivTwice(Signed(a), Power(b - 1), Signed(a) / Power(b - 1));
  }

  lemma DivStays(x: int, k: nat)
    requires k >= 1 && -0x8000_0000 <= x < 0x8000_0000
    ensures -0x8000_0000 <= x / k < 0x8000_0000
  {
    assert x == k * (x / k) + x % k;
    Between(x, k, x / k, x % k);
  }

  lemma Between(x: int, k: nat, q: int, r: nat)
    requires k >= 1 && x == k * q + r && r < k && -0x8000_0000 <= x < 0x8000_0000
    ensures -0x8000_0000 <= q < 0x8000_0000
  {
    if q >= 0 {
      assert k * q == (k - 1) * q + q;
      SameSign(k - 1, q);
    } else {
      assert k * q == (k - 1) * (q + 1) + q + 1 - k;
      SameSign(k - 1, q + 1);
    }
  }

  lemma DivTwice(x: int, k: nat, q: int)
    requires k >= 1 && q == x / k
    ensures x / (2 * k) == q / 2
  {
    var h, r := q / 2, x % k + (if q % 2 == 1 then k else 0);
    assert x == k * q + x % k;
    assert q == 2 * h + q % 2;
    assert k * q == k * (2 * h) + (if q % 2 == 1 then k else 0);
    assert k * (2 * h) == (2 * k) * h;
    QuotientIs(x, 2 * k, h, r);
  }

  lemma {:induction false} ShiftDown(a: Word, b: nat, p: nat)
    requires b < 32 && p < 32
    ensures Bit(Wrap(Signed(a) / Power(b)), p) <==> Bit(a, if p + b < 32 then p + b else 31)
    decreases b
  {
    if b > 0 {
      ShiftSplit(a, b);
      ShiftDownOne(Wrap(Signed(a) / Power(b - 1)), p);
      ShiftDown(a, b - 1, if p < 31 then p + 1 else 31);
    }
  }

  lemma ShrMeans(a: Word, b: Word)
    requires b < 32
    ensures Means(Shr, a, b, Wrap(Signed(a) / Power(b)))
  {
    forall p | 0 <= p < 32
      ensures Bit(Wrap(Signed(a) / Power(b)), p) <==> Bit(a, if p + b < 32 then p + b else 31)
    {
      ShiftDown(a, b, p);
    }
  }

  /** Every bit is turned over. */
  ghost predicate Inverted(a: Word, r: Word) { forall p :: 0 <= p < 32 ==> (Bit(r, p) <==> !Bit(a, p)) }

  lemma ComplementMeans(a: Word)
    ensures Inverted(a, Complement(a))
  {
    Powers();
    forall p | 0 <= p < 32 ensures Bit(Complement(a), p) <==> !Bit(a, p) { Turned(a, 32, p); }
  }

  lemma {:induction false} Turned(a: nat, n: nat, p: nat)
    requires a < Power(n) && p < n
    ensures Bit(Power(n) - 1 - a, p) <==> !Bit(a, p)
    decreases p
  {
    assert (Power(n) - 1 - a) / 2 == Power(n - 1) - 1 - a / 2;
    if p > 0 { Turned(a / 2, n - 1, p - 1); }
  }

  // ---- The laws leave no choice ----

  /** Words with the same bits are equal. */
  lemma {:induction false} SameBits(a: nat, b: nat, n: nat)
    requires a < Power(n) && b < Power(n) && forall p :: 0 <= p < n ==> (Bit(a, p) <==> Bit(b, p))
    ensures a == b
    decreases n
  {
    if n > 0 {
      assert Bit(a, 0) <==> Bit(b, 0);
      forall p | 0 <= p < n - 1 ensures Bit(a / 2, p) <==> Bit(b / 2, p) {
        assert Bit(a, p + 1) <==> Bit(b, p + 1);
      }
      SameBits(a / 2, b / 2, n - 1);
    }
  }

  /** There is only one result that means what an operator means. */
  lemma MeansOne(op: AluOp, a: Word, b: Word, r: Word, s: Word)
    requires Means(op, a, b, r) && Means(op, a, b, s)
    ensures r == s
  {
    match op
    case Add => CongruentOne(Signed(a) + Signed(b), r, s);
    case Sub => CongruentOne(Signed(a) - Signed(b), r, s);
    case Mul => CongruentOne(Signed(a) * Signed(b), r, s);
    case Div => DivOne(a, b, r, s);
    case Mod => ModOne(a, b, r, s);
    case _ => BitsOne(op, a, b, r, s);
  }

  lemma BitsOne(op: AluOp, a: Word, b: Word, r: Word, s: Word)
    requires op == And || op == Or || op == Xor || op == Shl || op == Shr
    requires Means(op, a, b, r) && Means(op, a, b, s)
    ensures r == s
  {
    hide Bit;
    Powers();
    assert forall p :: 0 <= p < 32 ==> (Bit(r, p) <==> Bit(s, p));
    SameBits(r, s, 32);
  }

  lemma CongruentOne(x: int, r: Word, s: Word)
    requires Congruent(Signed(r), x) && Congruent(Signed(s), x)
    ensures r == s
  {
  }

  lemma DivOne(a: Word, b: Word, r: Word, s: Word)
    requires Means(Div, a, b, r) && Means(Div, a, b, s)
    ensures r == s
  {
    var x, y := Signed(a), Signed(b);
    RemainderOne(x, y, Signed(r), x - y * Signed(r), Signed(s), x - y * Signed(s));
  }

  lemma ModOne(a: Word, b: Word, r: Word, s: Word)
    requires Means(Mod, a, b, r) && Means(Mod, a, b, s)
    ensures r == s
  {
    var x, y := Signed(a), Signed(b);
    var q :| x == y * q + Signed(r);
    var k :| x == y * k + Signed(s);
    RemainderOne(x, y, q, Signed(r), k, Signed(s));
  }

  lemma RemainderOne(x: int, y: int, q: int, r: int, k: int, s: int)
    requires x == y * q + r && x == y * k + s && Remainder(x, y, r) && Remainder(x, y, s)
    ensures q == k && r == s
  {
    Distribute(y, q, k);
    Multiple(y, q - k);
    CloseRemainders(x, y, r, s, y * (q - k));
  }

  lemma Distribute(y: int, q: int, k: int)
    ensures y * (q - k) == y * q - y * k
  {
  }

  lemma CloseRemainders(x: int, y: int, r: int, s: int, t: int)
    requires Remainder(x, y, r) && Remainder(x, y, s) && t == s - r
    ensures Size(t) < Size(y)
  {
  }
}
