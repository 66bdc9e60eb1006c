/** CRC-32 as PNG uses it (section 3.4 of RFC 2083): table-driven, against division bit by bit. */
module Crc32 {

  type Byte = b: int | 0 <= b < 256

  const POLYNOMIAL: bv32 := 0xedb88320

  // ----- division, one message bit at a time -----

  /** One turn of the inner table loop. */
  function Step(c: bv32): bv32 {
    if c & 1 == 1 then POLYNOMIAL ^ (c >> 1) else c >> 1
  }

  function Steps(c: bv32, n: nat): bv32
    decreases n
  {
    if n == 0 then c else Steps(Step(c), n - 1)
  }

  /** Shifts one message bit (0 or 1) into the remainder register. */
  function Feed(crc: bv32, bit: bv32): bv32 {
    Step(crc ^ bit)
  }

  /** Shifts in the n lowest bits of `v`, least significant first. */
  function FeedBits(crc: bv32, v: bv32, n: nat): bv32
    decreases n
  {
    if n == 0 then crc else FeedBits(Feed(crc, v & 1), v >> 1, n - 1)
  }

  /** The i-th binary digit. */
  function BitAt(n: nat, i: nat): (bit: bv32)
    ensures bit <= 1
  {
    if i > 0 then BitAt(n / 2, i - 1) else if n % 2 == 1 then 1 else 0
  }

  function JoinBits(b0: bv32, b1: bv32, b2: bv32, b3: bv32, b4: bv32, b5: bv32, b6: bv32, b7: bv32): bv32 {
    b0 | (b1 << 1) | (b2 << 2) | (b3 << 3) | (b4 << 4) | (b5 << 5) | (b6 << 6) | (b7 << 7)
  }

  /** A byte as the low eight bits of a register. */
  function Word(b: Byte): bv32 {
    JoinBits(BitAt(b, 0), BitAt(b, 1), BitAt(b, 2), BitAt(b, 3), BitAt(b, 4), BitAt(b, 5), BitAt(b, 6), BitAt(b, 7))
  }

  /** The register after a message, from a given start. */
  function Remainder(crc: bv32, buf: seq<Byte>): bv32 {
    if buf == [] then crc else FeedBits(Remainder(crc, buf[..|buf| - 1]), Word(buf[|buf| - 1]), 8)
  }

  function Complement(c: bv32): bv32 {
    c ^ 0xffff_ffff
  }

  /** The register starts as all ones and is complemented at the end. */
  function Crc(buf: seq<Byte>): bv32 {
    Complement(Remainder(0xffff_ffff, buf))
  }

  // ----- the table does eight bits at once -----

  /** Named, so that proofs by congruence need not look at bits. */
  function Xor(a: bv32, b: bv32): bv32 {
    a ^ b
  }

  function Half(c: bv32): bv32 {
    c >> 1
  }

  function LowBit(c: bv32): bv32 {
    c & 1
  }

  lemma XorHalves(a: bv32, b: bv32)
    ensures Half(Xor(a, b)) == Xor(Half(a), Half(b))
    ensures LowBit(Xor(a, b)) == Xor(LowBit(a), LowBit(b))
  {
  }

  lemma XorIs(a: bv32, b: bv32)
    ensures Xor(a, b) == a ^ b
  {
  }

  lemma XorCommutes(a: bv32, b: bv32)
    ensures Xor(a, b) == Xor(b, a)
  {
  }

  lemma XorRegroups(a: bv32, b: bv32, p: bv32)
    ensures Xor(Xor(p, a), b) == Xor(p, Xor(a, b))
  {
  }

  lemma XorZero(x: bv32)
    ensures Xor(x, 0) == x && Xor(0, x) == x && Xor(x, x) == 0
  {
  }

  lemma XorCancels(a: bv32, b: bv32, p: bv32)
    ensures Xor(Xor(p, a), Xor(p, b)) == Xor(a, b)
  {
    hide Xor;
    XorRegroups(a, Xor(p, b), p);
    XorCommutes(a, Xor(p, b));
    XorRegroups(b, a, p);
    XorRegroups(p, Xor(b, a), p);
    XorZero(p);
    XorZero(Xor(b, a));
    XorCommutes(a, b);
  }

  lemma XorBits()
    ensures Xor(0, 0) == 0 && Xor(1, 0) == 1 && Xor(0, 1) == 1 && Xor(1, 1) == 0
  {
  }

  lemma StepCases(c: bv32)
    ensures LowBit(c) == 0 ==> Step(c) == Half(c)
    ensures LowBit(c) == 1 ==> Step(c) == Xor(POLYNOMIAL, Half(c))
    ensures LowBit(c) == 0 || LowBit(c) == 1
  {
  }

  lemma StepIsLinear(a: bv32, b: bv32)
    ensures Step(Xor(a, b)) == Xor(Step(a), Step(b))
  {
    StepCases(a);
    StepCases(b);
    StepCases(Xor(a, b));
    XorHalves(a, b);
    XorBits();
    XorCancels(Half(a), Half(b), POLYNOMIAL);
    XorRegroups(Half(a), Half(b), POLYNOMIAL);
    XorRegroups(Half(b), Half(a), POLYNOMIAL);
    XorCommutes(Half(a), Half(b));
    XorCommutes(Half(a), Xor(POLYNOMIAL, Half(b)));
    hide Step, Xor, Half, LowBit;
  }

  lemma {:induction false} StepsIsLinear(a: bv32, b: bv32, n: nat)
    ensures Steps(Xor(a, b), n) == Xor(Steps(a, n), Steps(b, n))
    decreases n
  {
    hide Step, Xor;
    if n > 0 {
      StepIsLinear(a, b);
      StepsIsLinear(Step(a), Step(b), n - 1);
    }
  }

  function ShiftRight(v: bv32, n: nat): bv32
    decreases n
  {
    if n == 0 then v else ShiftRight(Half(v), n - 1)
  }

  /** Feeding a bit leaves the bits above it waiting, one place lower. */
  lemma FeedLowBit(crc: bv32, v: bv32)
    ensures Step(Xor(crc, v)) == Xor(Feed(crc, LowBit(v)), Half(v))
  {
    var high := v & 0xffff_fffe;
    assert Xor(crc, v) == Xor(Xor(crc, LowBit(v)), high) && LowBit(high) == 0 && Half(high) == Half(v);
    assert Feed(crc, LowBit(v)) == Step(Xor(crc, LowBit(v)));
    hide Step, Xor, Half, LowBit, Feed;
    StepIsLinear(Xor(crc, LowBit(v)), high);
    StepCases(high);
  }

  lemma FeedBitsOnce(crc: bv32, v: bv32, n: nat)
    requires n > 0
    ensures FeedBits(crc, v, n) == FeedBits(Feed(crc, LowBit(v)), Half(v), n - 1)
  {
    hide Feed;
  }

  /** Stepping with a whole word folded in feeds its low bits and leaves the rest waiting. */
  lemma {:induction false} FeedLowBits(crc: bv32, v: bv32, n: nat)
    ensures Steps(Xor(crc, v), n) == Xor(FeedBits(crc, v, n), ShiftRight(v, n))
    decreases n
  {
    hide Step, Feed, Xor, Half, LowBit;
    if n > 0 {
      FeedLowBit(crc, v);
      FeedBitsOnce(crc, v, n);
      FeedLowBits(Feed(crc, LowBit(v)), Half(v), n - 1);
    }
  }

  lemma ShiftByEight(v: bv32)
    ensures ShiftRight(v, 8) == v >> 8
  {
  }

  lemma {:induction false} HighBitsOnlyShift(c: bv32, n: nat)
    requires LowBitsClear(c, n)
    ensures Steps(c, n) == ShiftRight(c, n)
    decreases n
  {
    hide Step, Half, LowBit;
    if n > 0 {
      StepCases(c);
      HighBitsOnlyShift(Half(c), n - 1);
    }
  }

  predicate LowBitsClear(c: bv32, n: nat)
    decreases n
  {
    n == 0 || (LowBit(c) == 0 && LowBitsClear(Half(c), n - 1))
  }

  lemma LowByteClear(c: bv32)
    requires c & 0xff == 0
    ensures LowBitsClear(c, 8)
  {
  }

  function LowByte(x: bv32): bv32 {
    x & 0xff
  }

  function HighBytes(x: bv32): bv32 {
    x & 0xffff_ff00
  }

  function DropByte(x: bv32): bv32 {
    x >> 8
  }

  lemma ByteParts(x: bv32)
    ensures Xor(LowByte(x), HighBytes(x)) == x
  {
  }

  lemma HighBytesParts(x: bv32)
    ensures LowBitsClear(HighBytes(x), 8) && DropByte(HighBytes(x)) == DropByte(x)
  {
    LowByteClear(HighBytes(x));
  }

  lemma ByteIsLow(crc: bv32, b: bv32)
    requires b <= 0xff
    ensures DropByte(Xor(crc, b)) == DropByte(crc) && DropByte(b) == 0
  {
  }

  lemma DropsEight(v: bv32)
    ensures ShiftRight(v, 8) == DropByte(v)
  {
    ShiftByEight(v);
  }

  lemma StepsOfByte(x: bv32)
    ensures Steps(x, 8) == Xor(Steps(LowByte(x), 8), DropByte(x))
  {
    hide Steps, Xor, LowByte, HighBytes, DropByte, ShiftRight, LowBitsClear;
    ByteParts(x);
    StepsIsLinear(LowByte(x), HighBytes(x), 8);
    HighBytesParts(x);
    HighBitsOnlyShift(HighBytes(x), 8);
    DropsEight(HighBytes(x));
  }

  lemma FeedOfByte(crc: bv32, b: bv32)
    requires DropByte(b) == 0
    ensures Steps(Xor(crc, b), 8) == FeedBits(crc, b, 8)
  {
    hide Steps, FeedBits, Xor, DropByte, ShiftRight;
    FeedLowBits(crc, b, 8);
    DropsEight(b);
    XorZero(FeedBits(crc, b, 8));
  }

  /** One table lookup is eight division steps. */
  lemma LookupFeedsByte(crc: bv32, b: bv32)
    requires b <= 0xff
    ensures Xor(Steps(LowByte(Xor(crc, b)), 8), DropByte(crc)) == FeedBits(crc, b, 8)
  {
    ByteIsLow(crc, b);
    hide Steps, FeedBits, Xor, LowByte, DropByte;
    StepsOfByte(Xor(crc, b));
    FeedOfByte(crc, b);
  }

  // ----- the code -----

  method BuildTable() returns (table: array<bv32>)
    ensures fresh(table) && table.Length == 256
    ensures forall n :: 0 <= n < 256 ==> table[n] == Steps(n as bv32, 8)
  {
    hide Step;
    table := new bv32[256];
    for n := 0 to 256
      invariant forall i :: 0 <= i < n ==> table[i] == Steps(i as bv32, 8)
    {
      var c := EightTurns(n as bv32);
      table[n] := c;
    }
  }

  /** The inner table loop. */
  method EightTurns(start: bv32) returns (c: bv32)
    ensures c == Steps(start, 8)
  {
    c := start;
    for k := 0 to 8
      invariant Steps(c, 8 - k) == Steps(start, 8)
    {
      assert Step(c) == if c & 1 == 1 then POLYNOMIAL ^ (c >> 1) else c >> 1;
      c := if c & 1 == 1 then POLYNOMIAL ^ (c >> 1) else c >> 1;
    }
  }

  /** The low byte is a table index, and stands for itself there. */
  lemma LowByteIndex(x: bv32)
    ensures 0 <= LowByte(x) as int < 256 && (LowByte(x) as int) as bv32 == LowByte(x)
  {
  }

  lemma ByteFits(b: Byte)
    ensures Word(b) <= 0xff
  {
  }

  lemma RemainderOneMore(crc: bv32, buf: seq<Byte>, i: nat)
    requires i < |buf|
    ensures Remainder(crc, buf[..i + 1]) == FeedBits(Remainder(crc, buf[..i]), Word(buf[i]), 8)
  {
    hide FeedBits;
    assert buf[..i + 1][..i] == buf[..i];
  }

  method ComputeCrc32(table: array<bv32>, buf: seq<Byte>) returns (r: bv32)
    requires table.Length == 256 && forall n :: 0 <= n < 256 ==> table[n] == Steps(n as bv32, 8)
    ensures r == Crc(buf)
  {
    hide Steps, FeedBits, Remainder;
    var crc: bv32 := 0xffff_ffff;
    assert Remainder(crc, buf[..0]) == crc by { RemainderOfNothing(crc); }
    for i := 0 to |buf|
      invariant crc == Remainder(0xffff_ffff, buf[..i])
    {
      RemainderOneMore(0xffff_ffff, buf, i);
      crc := UpdateByte(table, crc, buf[i]);
    }
    assert buf[..|buf|] == buf;
    r := Complement(crc);
  }

  lemma RemainderOfNothing(crc: bv32)
    ensures Remainder(crc, []) == crc
  {
  }

  /** The loop body of `crc32`. */
  method UpdateByte(table: array<bv32>, crc: bv32, b: Byte) returns (r: bv32)
    requires table.Length == 256 && forall n :: 0 <= n < 256 ==> table[n] == Steps(n as bv32, 8)
    ensures r == FeedBits(crc, Word(b), 8)
  {
    hide Steps, FeedBits, Xor, Word, LowByte, DropByte;
    ByteFits(b);
    LookupFeedsByte(crc, Word(b));
    var low := LowByte(Xor(crc, Word(b)));
    LowByteIndex(Xor(crc, Word(b)));
    r := Xor(table[low as int], DropByte(crc));
  }
}
