/**
 * The table-driven CRC-32 of zip.js, proved equal to the bit-by-bit shift register it stands for
 * (RFC 1952, section 8: the reflected polynomial 0xEDB88320).
 */
module Crc32 {

  type Byte = bv8

  const POLY: bv32 := 0xEDB88320
  const ONES: bv32 := 0xFFFF_FFFF

  // ---------------------------------------------------------------- words

  function Xor(a: bv32, b: bv32): bv32 {
    a ^ b
  }

  function Half(x: bv32): bv32 {
    x >> 1
  }

  predicate Odd(x: bv32) {
    x & 1 == 1
  }

  function LowByte(x: bv32): bv32 {
    x & 0xFF
  }

  function HighBytes(x: bv32): bv32 {
    x & 0xFFFF_FF00
  }

  lemma XorHalf(a: bv32, b: bv32)
    ensures Half(Xor(a, b)) == Xor(Half(a), Half(b))
  {
  }

  lemma XorOdd(a: bv32, b: bv32)
    ensures Odd(Xor(a, b)) <==> (Odd(a) != Odd(b))
  {
  }

  lemma XorAssociates(a: bv32, b: bv32, c: bv32)
    ensures Xor(Xor(a, b), c) == Xor(a, Xor(b, c))
  {
  }

  lemma XorCommutes(a: bv32, b: bv32)
    ensures Xor(a, b) == Xor(b, a)
  {
  }

  lemma XorCancels(p: bv32, a: bv32)
    ensures Xor(p, Xor(p, a)) == a
  {
  }

  lemma XorGroups(p: bv32, a: bv32, b: bv32)
    ensures Xor(Xor(p, a), Xor(p, b)) == Xor(a, b)
    ensures Xor(Xor(p, a), b) == Xor(p, Xor(a, b))
    ensures Xor(a, Xor(p, b)) == Xor(p, Xor(a, b))
  {
    hide Xor;
    XorAssociates(p, a, b);
    XorAssociates(a, p, b);
    XorCommutes(a, p);
    XorAssociates(p, a, Xor(p, b));
    XorCancels(p, Xor(a, b));
  }

  lemma SplitWord(x: bv32)
    ensures x == Xor(LowByte(x), HighBytes(x))
  {
  }

  // ---------------------------------------------------------------- the shift register

  /** One shift of the register, with the polynomial fed back when a one falls out. */
  function Shift(crc: bv32): bv32 {
    if Odd(crc) then Xor(POLY, Half(crc)) else Half(crc)
  }

  function Shifts(crc: bv32, n: nat): bv32
    decreases n
  {
    if n == 0 then crc else Shifts(Shift(crc), n - 1)
  }

  /** Feed one message bit: it is compared with the bit that falls out. */
  function FeedBit(crc: bv32, bit: bool): bv32 {
    if Odd(crc) != bit then Xor(POLY, Half(crc)) else Half(crc)
  }

  /** Feed the lowest `n` bits of a word, lowest first. */
  function FeedBits(crc: bv32, bits: bv32, n: nat): bv32
    decreases n
  {
    if n == 0 then crc else FeedBits(FeedBit(crc, Odd(bits)), Half(bits), n - 1)
  }

  function Register(data: seq<Byte>): bv32 {
    if data == [] then ONES else FeedBits(Register(data[..|data| - 1]), data[|data| - 1] as bv32, 8)
  }

  /** The checksum as the shift register defines it. */
  function Checksum(data: seq<Byte>): bv32 {
    Xor(Register(data), ONES)
  }

  // ---------------------------------------------------------------- linearity

  /** Shifting is linear over exclusive or. */
  lemma ShiftLinear(a: bv32, b: bv32)
    ensures Shift(Xor(a, b)) == Xor(Shift(a), Shift(b))
  {
    hide Xor, Half, Odd;
    XorHalf(a, b);
    XorOdd(a, b);
    XorGroups(POLY, Half(a), Half(b));
  }

  lemma {:induction false} ShiftsLinear(a: bv32, b: bv32, n: nat)
    ensures Shifts(Xor(a, b), n) == Xor(Shifts(a, n), Shifts(b, n))
    decreases n
  {
    hide Shift, Xor;
    if n > 0 {
      ShiftLinear(a, b);
      ShiftsLinear(Shift(a), Shift(b), n - 1);
    }
  }

  // ---------------------------------------------------------------- one byte by table lookup

  function Halves(x: bv32, n: nat): bv32
    decreases n
  {
    if n == 0 then x else Halves(Half(x), n - 1)
  }

  /** The lowest `n` bits are zero. */
  predicate Clear(x: bv32, n: nat)
    decreases n
  {
    n > 0 ==> !Odd(x) && Clear(Half(x), n - 1)
  }

  /** Zero bits only move the others down. */
  lemma {:induction false} ClearShifts(x: bv32, n: nat)
    requires Clear(x, n)
    ensures Shifts(x, n) == Halves(x, n)
    decreases n
  {
    hide Xor, Half, Odd;
    if n > 0 {
      ClearShifts(Half(x), n - 1);
    }
  }

  lemma HalvesAdd(x: bv32, n: nat, m: nat)
    ensures Halves(x, n + m) == Halves(Halves(x, n), m)
    decreases n
  {
    hide Half;
    if n > 0 {
      HalvesAdd(Half(x), n - 1, m);
    }
  }

  lemma ClearAdd(x: bv32, n: nat, m: nat)
    requires Clear(x, n) && Clear(Halves(x, n), m)
    ensures Clear(x, n + m)
    decreases n
  {
    hide Half, Odd;
    if n > 0 {
      ClearAdd(Half(x), n - 1, m);
    }
  }

  function Quarter(x: bv32): bv32 {
    x >> 2
  }

  function LowPair(x: bv32): bv32 {
    x & 3
  }

  function Down8(x: bv32): bv32 {
    x >> 8
  }

  lemma TwoHalves(x: bv32)
    ensures Halves(x, 2) == Quarter(x)
  {
    assert Half(Half(x)) == Quarter(x);
    hide Half, Quarter;
    assert Halves(x, 2) == Halves(Half(x), 1) == Halves(Half(Half(x)), 0);
  }

  lemma PairClear(x: bv32)
    requires LowPair(x) == 0
    ensures Clear(x, 2)
  {
    assert !Odd(x) && !Odd(Half(x));
    hide Half, Odd;
    assert Clear(Half(Half(x)), 0) && Clear(Half(x), 1);
  }

  lemma FourQuarters(x: bv32)
    ensures Quarter(Quarter(Quarter(Quarter(x)))) == Down8(x)
  {
  }

  lemma FourPairs(x: bv32)
    requires LowByte(x) == 0
    ensures LowPair(x) == 0 && LowPair(Quarter(x)) == 0
    ensures LowPair(Quarter(Quarter(x))) == 0 && LowPair(Quarter(Quarter(Quarter(x)))) == 0
  {
  }

  lemma EightHalves(x: bv32)
    ensures Halves(x, 8) == Down8(x)
  {
    hide Half, Halves, Quarter, Down8;
    FourQuarters(x);
    TwoHalves(x);
    TwoHalves(Quarter(x));
    TwoHalves(Quarter(Quarter(x)));
    TwoHalves(Quarter(Quarter(Quarter(x))));
    HalvesAdd(x, 2, 2);
    HalvesAdd(x, 4, 2);
    HalvesAdd(x, 6, 2);
  }

  lemma ByteClear(x: bv32)
    requires LowByte(x) == 0
    ensures Clear(x, 8)
  {
    hide Half, Odd, Halves, Clear, Quarter, LowPair, LowByte;
    FourPairs(x);
    TwoHalves(x);
    TwoHalves(Quarter(x));
    TwoHalves(Quarter(Quarter(x)));
    HalvesAdd(x, 2, 2);
    HalvesAdd(x, 4, 2);
    PairClear(x);
    PairClear(Quarter(x));
    PairClear(Quarter(Quarter(x)));
    PairClear(Quarter(Quarter(Quarter(x))));
    ClearAdd(x, 2, 2);
    ClearAdd(x, 4, 2);
    ClearAdd(x, 6, 2);
  }

  lemma HighByteBits(x: bv32)
    ensures LowByte(HighBytes(x)) == 0 && Down8(HighBytes(x)) == Down8(x)
  {
  }

  /** Eight shifts are a table lookup on the low byte and a move of the rest. */
  lemma EightShifts(x: bv32)
    ensures Shifts(x, 8) == Xor(Shifts(LowByte(x), 8), Halves(x, 8))
  {
    hide Shift, Shifts, Halves, Clear, Xor, LowByte, HighBytes, Down8;
    SplitWord(x);
    ShiftsLinear(LowByte(x), HighBytes(x), 8);
    HighByteBits(x);
    EightHalves(x);
    EightHalves(HighBytes(x));
    ByteClear(HighBytes(x));
    ClearShifts(HighBytes(x), 8);
  }

  // ---------------------------------------------------------------- one byte bit by bit

  /** A bit fed to the register acts as if it had been added to the lowest bit before the shift. */
  lemma FeedIsShift(crc: bv32, bits: bv32)
    ensures Xor(FeedBit(crc, Odd(bits)), Half(bits)) == Shift(Xor(crc, bits))
  {
    hide Xor, Half, Odd;
    XorHalf(crc, bits);
    XorOdd(crc, bits);
    XorGroups(POLY, Half(crc), Half(bits));
  }

  /** The register after `n` bits, with the unfed bits added, is `n` shifts of their sum. */
  lemma {:induction false} FeedIsShifts(crc: bv32, bits: bv32, n: nat)
    ensures Xor(FeedBits(crc, bits, n), Halves(bits, n)) == Shifts(Xor(crc, bits), n)
    decreases n
  {
    hide Xor, Half, Odd, Shift, FeedBit;
    if n > 0 {
      FeedIsShift(crc, bits);
      FeedIsShifts(FeedBit(crc, Odd(bits)), Half(bits), n - 1);
    }
  }

  /** The bytes of a word are its lowest eight bits. */
  lemma ByteIsLow(b: Byte)
    ensures LowByte(b as bv32) == b as bv32 && Down8(b as bv32) == 0
  {
  }

  lemma XorZero(x: bv32)
    ensures Xor(x, 0) == x
  {
  }

  /** Feeding a byte bit by bit is eight shifts of the sum. */
  lemma FeedByte(crc: bv32, b: Byte)
    ensures FeedBits(crc, b as bv32, 8) == Shifts(Xor(crc, b as bv32), 8)
  {
    hide Shift, Shifts, Halves, Clear, Xor, LowByte, Down8, FeedBits;
    ByteIsLow(b);
    EightHalves(b as bv32);
    FeedIsShifts(crc, b as bv32, 8);
    XorZero(FeedBits(crc, b as bv32, 8));
  }

  // ---------------------------------------------------------------- the table

  /** `CRC_TABLE`: the eight shifts of every byte. */
  ghost predicate IsTable(table: seq<bv32>) {
    |table| == 256 && forall i: nat :: i < 256 ==> table[i] == Shifts(i as bv32, 8)
  }

  lemma {:induction false} ShiftsSnoc(x: bv32, n: nat)
    ensures Shifts(x, n + 1) == Shift(Shifts(x, n))
    decreases n
  {
    hide Shift;
    if n > 0 {
      ShiftsSnoc(Shift(x), n - 1);
    }
  }

  lemma ShiftIs(crc: bv32)
    ensures Shift(crc) == if crc & 1 == 1 then POLY ^ (crc >> 1) else crc >> 1
  {
  }

  /** The eight shifts of one byte. */
  method TableEntry(i: bv32) returns (crc: bv32)
    ensures crc == Shifts(i, 8)
  {
    hide Shift;
    crc := i;
    for bit := 0 to 8
      invariant crc == Shifts(i, bit)
    {
      ShiftsSnoc(i, bit);
      ShiftIs(crc);
      crc := if crc & 1 == 1 then POLY ^ (crc >> 1) else crc >> 1;
    }
  }

  method BuildTable() returns (table: array<bv32>)
    ensures fresh(table) && IsTable(table[..])
  {
    hide Shift, Shifts;
    table := new bv32[256];
    for i := 0 to 256
      invariant forall k :: 0 <= k < i ==> table[k] == Shifts(k as bv32, 8)
    {
      var crc := TableEntry(i as bv32);
      table[i] := crc;
    }
  }

  lemma {:induction false} RegisterSnoc(data: seq<Byte>, b: Byte)
    ensures Register(data + [b]) == FeedBits(Register(data), b as bv32, 8)
  {
    hide FeedBits;
    assert (data + [b])[..|data|] == data;
  }

  function Index(crc: bv32, b: Byte): bv32 {
    (crc ^ (b as bv32)) & 0xFF
  }

  /** The step of the code, word by word. */
  lemma StepWords(crc: bv32, b: Byte, entry: bv32)
    ensures Index(crc, b) == LowByte(Xor(crc, b as bv32))
    ensures Xor(entry, Down8(Xor(crc, b as bv32))) == entry ^ (crc >> 8)
  {
  }

  lemma IndexIsByte(crc: bv32, b: Byte)
    ensures Index(crc, b) as int < 256 && (Index(crc, b) as int) as bv32 == Index(crc, b)
  {
  }

  /** What the code does with the entry it looked up. */
  function Entered(crc: bv32, entry: bv32): bv32 {
    entry ^ (crc >> 8)
  }

  /** One table lookup does what feeding the byte bit by bit does. */
  lemma TableStep(crc: bv32, b: Byte, entry: bv32)
    requires entry == Shifts(Index(crc, b), 8)
    ensures Entered(crc, entry) == FeedBits(crc, b as bv32, 8)
  {
    hide Shift, Shifts, Halves, Xor, LowByte, Down8, FeedBits, Index;
    FeedByte(crc, b);
    StepWords(crc, b, entry);
    EightShifts(Xor(crc, b as bv32));
    EightHalves(Xor(crc, b as bv32));
  }

  method Lookup(crc: bv32, b: Byte, table: array<bv32>) returns (next: bv32)
    requires IsTable(table[..])
    ensures next == FeedBits(crc, b as bv32, 8)
  {
    hide Shifts, FeedBits, Index, Entered;
    IndexIsByte(crc, b);
    var i: nat := Index(crc, b) as int;
    var entry := table[i];
    assert entry == table[..][i] == Shifts(i as bv32, 8);
    TableStep(crc, b, entry);
    next := Entered(crc, entry);
  }

  /** `crc32`: one table lookup per byte computes the shift register's checksum. */
  method Crc32(data: seq<Byte>, table: array<bv32>) returns (crc: bv32)
    requires IsTable(table[..])
    ensures crc == Checksum(data)
  {
    hide Register, FeedBits, Shifts;
    crc := ONES;
    RegisterEmpty();
    for i := 0 to |data|
      invariant crc == Register(data[..i])
    {
      RegisterSnoc(data[..i], data[i]);
      crc := Lookup(crc, data[i], table);
      assert data[..i + 1] == data[..i] + [data[i]];
    }
    assert data[..|data|] == data;
    crc := Xor(crc, ONES);
  }

  lemma RegisterEmpty()
    ensures Register([]) == ONES
  {
  }
}
