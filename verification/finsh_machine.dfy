/** Words, bytes and target memory of the 32-bit machine the finsh shell runs on. */
module Machine {
  type Byte = b: int | 0 <= b < 0x100
  type Word = w: int | 0 <= w < 0x1_0000_0000

  datatype Option<+T> = None | Some(value: T)

  /** Byte-addressed memory; an address never written reads as zero. */
  type Memory = map<Word, Byte>

  function Wrap(x: int): Word { x % 0x1_0000_0000 }

  /** The number between -2^31 and 2^31 that a word stands for. */
  function Signed(w: Word): (r: int)
    ensures -0x8000_0000 <= r < 0x8000_0000 && (w - r) % 0x1_0000_0000 == 0
  {
    if w < 0x8000_0000 then w else w - 0x1_0000_0000
  }

  function Get(m: Memory, a: Word): Byte { if a in m then m[a] else 0 }

  /** The n low bytes of a number, low byte first. */
  function LittleEndian(v: nat, n: nat): (r: seq<Byte>)
    ensures |r| == n
    decreases n
  {
    if n == 0 then [] else [v % 0x100] + LittleEndian(v / 0x100, n - 1)
  }

  /** FINSH_SET32: the four bytes of a word. */
  function Bytes32(v: Word): (r: seq<Byte>)
    ensures |r| == 4
  {
    LittleEndian(v, 4)
  }

  /** FINSH_GET32. */
  function Word32(b0: Byte, b1: Byte, b2: Byte, b3: Byte): Word {
    b0 + 0x100 * b1 + 0x1_0000 * b2 + 0x100_0000 * b3
  }

  lemma Digits32(v: Word)
    ensures var b := Bytes32(v);
            b[0] == v % 0x100 && b[1] == v / 0x100 % 0x100 &&
            b[2] == v / 0x1_0000 % 0x100 && b[3] == v / 0x100_0000
  {
    var v1, v2, v3 := v / 0x100, v / 0x1_0000, v / 0x100_0000;
    assert v1 / 0x100 == v2 && v2 / 0x100 == v3 && v3 < 0x100;
    assert LittleEndian(v3, 1) == [v3];
    assert LittleEndian(v2, 2) == [v2 % 0x100, v3];
    assert LittleEndian(v1, 3) == [v1 % 0x100, v2 % 0x100, v3];
  }

  /** What FINSH_SET32 stores, FINSH_GET32 reads back. */
  lemma SetGet32(v: Word)
    ensures var b := Bytes32(v); Word32(b[0], b[1], b[2], b[3]) == v
  {
    Digits32(v);
    var v1, v2, v3 := v / 0x100, v / 0x1_0000, v / 0x100_0000;
    assert v == v1 * 0x100 + v % 0x100;
    assert v1 == v2 * 0x100 + v1 % 0x100;
    assert v2 == v3 * 0x100 + v2 % 0x100;
  }

  function Next(a: Word): Word { if a == 0xFFFF_FFFF then 0 else a + 1 }

  /** The first n bytes at an address as a little-endian number, and its inverse. */
  function LoadBytes(m: Memory, a: Word, n: nat): nat
    decreases n
  {
    if n == 0 then 0 else Get(m, a) + 0x100 * LoadBytes(m, Next(a), n - 1)
  }

  function StoreBytes(m: Memory, a: Word, v: nat, n: nat): Memory
    decreases n
  {
    if n == 0 then m else StoreBytes(m[a := v % 0x100], Next(a), v / 0x100, n - 1)
  }

  function LoadDword(m: Memory, a: Word): Word { Wrap(LoadBytes(m, a, 4)) }

  function StoreDword(m: Memory, a: Word, v: Word): Memory { StoreBytes(m, a, v, 4) }

  /** A dword is the four bytes from its address on, low byte first, also around the end of the address space. */
  lemma LoadIs(m: Memory, a: Word)
    ensures LoadDword(m, a) ==
            Word32(Get(m, a), Get(m, Next(a)), Get(m, Next(Next(a))), Get(m, Next(Next(Next(a)))))
  {
    var a1, a2, a3 := Next(a), Next(Next(a)), Next(Next(Next(a)));
    LoadParts(m, a, a1, a2, a3);
    FourBytes(Get(m, a), Get(m, a1), Get(m, a2), Get(m, a3));
  }

  lemma LoadParts(m: Memory, a: Word, a1: Word, a2: Word, a3: Word)
    requires a1 == Next(a) && a2 == Next(a1) && a3 == Next(a2)
    ensures LoadBytes(m, a, 4) == Get(m, a) + 0x100 * (Get(m, a1) + 0x100 * (Get(m, a2) + 0x100 * Get(m, a3)))
  {
    hide Next, Get;
    assert LoadBytes(m, a3, 1) == Get(m, a3);
    assert LoadBytes(m, a2, 2) == Get(m, a2) + 0x100 * LoadBytes(m, a3, 1);
    assert LoadBytes(m, a1, 3) == Get(m, a1) + 0x100 * LoadBytes(m, a2, 2);
  }

  lemma FourBytes(b0: Byte, b1: Byte, b2: Byte, b3: Byte)
    ensures Wrap(b0 + 0x100 * (b1 + 0x100 * (b2 + 0x100 * b3))) == Word32(b0, b1, b2, b3)
  {
  }

  /** A dword that was just stored is the dword that loads from the same address,
      also when the four bytes wrap around the end of the address space; and no other byte changes. */
  lemma LoadAfterStore(m: Memory, a: Word, v: Word)
    ensures LoadDword(StoreDword(m, a, v), a) == v
    ensures forall b: Word ::
              b != a && b != Next(a) && b != Next(Next(a)) && b != Next(Next(Next(a))) ==>
              Get(StoreDword(m, a, v), b) == Get(m, b)
  {
    Digits32(v);
    var b, a1, a2, a3 := Bytes32(v), Next(a), Next(Next(a)), Next(Next(Next(a)));
    var r := m[a := b[0]][a1 := b[1]][a2 := b[2]][a3 := b[3]];
    assert v / 0x100 / 0x100 == v / 0x1_0000 && v / 0x1_0000 / 0x100 == v / 0x100_0000;
    assert StoreBytes(m[a := b[0]][a1 := b[1]], a2, v / 0x1_0000, 2) == r;
    assert StoreDword(m, a, v) == r;
    assert LoadBytes(r, a2, 2) == Word32(b[2], b[3], 0, 0);
    assert LoadBytes(r, a, 4) == Word32(b[0], b[1], 0, 0) + 0x1_0000 * LoadBytes(r, a2, 2);
    SetGet32(v);
  }
}
