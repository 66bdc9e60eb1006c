/** What the CRC is: the textbook polynomial division mirrored, and what it detects. */
module Crc32Theory {
  import opened Crc32

  // ----- the generator polynomial of RFC 2083 -----

  /** x^32+x^26+x^23+x^22+x^16+x^12+x^11+x^10+x^8+x^7+x^5+x^4+x^2+x+1, without the leading term. */
  const GENERATOR: bv32 := 0x04c1_1db7

  /** One step of long division with the highest power on the left. */
  function DivideStep(r: bv32, bit: bool): bv32 {
    if (r & 0x8000_0000 != 0) != bit then GENERATOR ^ (r << 1) else r << 1
  }

  function Mirror(c: bv32): bv32 {
    var a := ((c >> 1) & 0x5555_5555) | ((c & 0x5555_5555) << 1);
    var b := ((a >> 2) & 0x3333_3333) | ((a & 0x3333_3333) << 2);
    var d := ((b >> 4) & 0x0f0f_0f0f) | ((b & 0x0f0f_0f0f) << 4);
    var e := ((d >> 8) & 0x00ff_00ff) | ((d & 0x00ff_00ff) << 8);
    (e >> 16) | (e << 16)
  }

  function Twice(r: bv32): bv32 {
    r << 1
  }

  lemma Definitions(c: bv32)
    ensures Half(c) == c >> 1 && Twice(c) == c << 1 && LowBit(c) == c & 1
  {
  }

  lemma MirrorShifts(c: bv32)
    ensures Mirror(c >> 1) == Mirror(c) << 1
  {
  }

  lemma MirrorSplits(a: bv32, b: bv32)
    ensures Mirror(a ^ b) == Mirror(a) ^ Mirror(b)
  {
  }

  lemma MirrorOfConstants()
    ensures Mirror(POLYNOMIAL) == GENERATOR && Mirror(1) == 0x8000_0000
  {
  }

  lemma MirrorOfHalf(c: bv32)
    ensures Mirror(Half(c)) == Twice(Mirror(c))
  {
    hide Half, Twice, Mirror;
    Definitions(c);
    Definitions(Mirror(c));
    MirrorShifts(c);
  }

  lemma MirrorOfXor(a: bv32)
    ensures Mirror(Xor(POLYNOMIAL, a)) == Xor(GENERATOR, Mirror(a))
  {
    hide Mirror, Xor;
    XorIs(POLYNOMIAL, a);
    XorIs(GENERATOR, Mirror(a));
    MirrorSplits(POLYNOMIAL, a);
    MirrorOfConstants();
  }

  /** Flipping the lowest bit flips the highest one of the mirror image, which doubling shifts out. */
  lemma MirrorOfFlip(c: bv32)
    ensures Twice(Mirror(Xor(c, 1))) == Twice(Mirror(c))
  {
    hide Mirror, Xor, Twice;
    XorIs(c, 1);
    MirrorSplits(c, 1);
    MirrorOfConstants();
    TopBitIsLost(Mirror(c), Mirror(Xor(c, 1)));
  }

  lemma TopBitIsLost(m: bv32, flipped: bv32)
    requires flipped == m ^ 0x8000_0000
    ensures Twice(flipped) == Twice(m)
  {
  }

  lemma MirrorSwapsEnds(c: bv32)
    ensures (Mirror(c) & 0x8000_0000 != 0) <==> LowBit(c) == 1
  {
  }

  lemma FlipLowBit(c: bv32)
    ensures LowBit(Xor(c, 1)) == 1 <==> LowBit(c) != 1
    ensures Xor(c, 0) == c
  {
  }

  lemma DivideCases(r: bv32, bit: bool)
    ensures DivideStep(r, bit) == if (r & 0x8000_0000 != 0) != bit then Xor(GENERATOR, Twice(r)) else Twice(r)
  {
  }

  /** Feeding a bit is one textbook division step by the generator, seen in the mirror. */
  lemma FeedIsDivision(crc: bv32, bit: bool)
    ensures Mirror(Feed(crc, if bit then 1 else 0)) == DivideStep(Mirror(crc), bit)
  {
    var b: bv32 := if bit then 1 else 0;
    FeedIs(crc, b);
    hide Xor, Half, LowBit, Twice, Mirror, DivideStep, Step, Feed;
    FlipLowBit(crc);
    MirrorOfFlip(crc);
    StepCases(Xor(crc, b));
    MirrorOfHalf(Xor(crc, b));
    MirrorOfXor(Half(Xor(crc, b)));
    MirrorSwapsEnds(crc);
    DivideCases(Mirror(crc), bit);
  }

  lemma FeedIs(crc: bv32, b: bv32)
    ensures Feed(crc, b) == Step(Xor(crc, b))
  {
  }

  function DivideBits(r: bv32, v: bv32, n: nat): bv32
    decreases n
  {
    if n == 0 then r else DivideBits(DivideStep(r, v & 1 == 1), v >> 1, n - 1)
  }

  /** Long division of a message: bytes in order, the bits of each least significant first. */
  function Divide(r: bv32, buf: seq<Byte>): bv32 {
    if buf == [] then r else DivideBits(Divide(r, buf[..|buf| - 1]), Word(buf[|buf| - 1]), 8)
  }

  lemma {:induction false} FeedBitsIsDivision(crc: bv32, v: bv32, n: nat)
    ensures Mirror(FeedBits(crc, v, n)) == DivideBits(Mirror(crc), v, n)
    decreases n
  {
    if n > 0 {
      assert v & 1 == if v & 1 == 1 then 1 else 0;
      FeedIsDivision(crc, v & 1 == 1);
      hide Mirror, Feed, DivideStep;
      FeedBitsIsDivision(Feed(crc, v & 1), v >> 1, n - 1);
    }
  }

  /** The table-driven register is, mirrored, the remainder of the division by the RFC's generator. */
  lemma {:induction false} RemainderIsDivision(crc: bv32, buf: seq<Byte>)
    ensures Mirror(Remainder(crc, buf)) == Divide(Mirror(crc), buf)
  {
    hide Mirror, FeedBits, DivideBits, Word;
    if buf != [] {
      var before := buf[..|buf| - 1];
      RemainderIsDivision(crc, before);
      FeedBitsIsDivision(Remainder(crc, before), Word(buf[|buf| - 1]), 8);
    }
  }

  // ----- concatenation -----

  /** Over a concatenation the register carries across: a checksum can be computed in pieces. */
  lemma {:induction false} RemainderCarries(crc: bv32, a: seq<Byte>, b: seq<Byte>)
    ensures Remainder(crc, a + b) == Remainder(Remainder(crc, a), b)
  {
    hide FeedBits, Word;
    if b == [] {
      assert a + b == a;
    } else {
      assert (a + b)[..|a + b| - 1] == a + b[..|b| - 1];
      RemainderCarries(crc, a, b[..|b| - 1]);
    }
  }

  // ----- detection -----

  lemma XorIsInjective(p: bv32, a: bv32, b: bv32)
    requires Xor(p, a) == Xor(p, b)
    ensures a == b
  {
  }

  lemma StepIsInjective(a: bv32, b: bv32)
    requires Step(a) == Step(b)
    ensures a == b
  {
  }

  lemma {:induction false} StepsIsInjective(a: bv32, b: bv32, n: nat)
    requires Steps(a, n) == Steps(b, n)
    ensures a == b
    decreases n
  {
    hide Step;
    if n > 0 {
      StepsIsInjective(Step(a), Step(b), n - 1);
      StepIsInjective(a, b);
    }
  }

  lemma {:induction false} FeedBitsIsInjective(a: bv32, b: bv32, v: bv32, n: nat)
    requires FeedBits(a, v, n) == FeedBits(b, v, n)
    ensures a == b
    decreases n
  {
    hide Step;
    if n > 0 {
      FeedBitsIsInjective(Feed(a, v & 1), Feed(b, v & 1), v >> 1, n - 1);
      StepIsInjective(a ^ (v & 1), b ^ (v & 1));
    }
  }

  /** Two registers that differ stay different, whatever follows. */
  lemma {:induction false} RemainderIsInjective(a: bv32, b: bv32, buf: seq<Byte>)
    requires Remainder(a, buf) == Remainder(b, buf)
    ensures a == b
  {
    hide FeedBits, Word;
    if buf != [] {
      var before, w := buf[..|buf| - 1], Word(buf[|buf| - 1]);
      FeedBitsIsInjective(Remainder(a, before), Remainder(b, before), w, 8);
      RemainderIsInjective(a, b, before);
    }
  }

  // ----- messages as bits -----

  /** The n lowest binary digits, lowest first. */
  function BitsOf(b: nat, n: nat): (bits: seq<bool>)
    ensures |bits| == n
  {
    if n == 0 then [] else [b % 2 == 1] + BitsOf(b / 2, n - 1)
  }

  /** A message in the order in which its bits enter the register. */
  function Bits(buf: seq<Byte>): (bits: seq<bool>)
    ensures |bits| == 8 * |buf|
  {
    if buf == [] then [] else Bits(buf[..|buf| - 1]) + BitsOf(buf[|buf| - 1], 8)
  }

  function BitWord(bit: bool): bv32 {
    if bit then 1 else 0
  }

  function FeedAll(crc: bv32, bits: seq<bool>): bv32
    decreases |bits|
  {
    if bits == [] then crc else FeedAll(Feed(crc, BitWord(bits[0])), bits[1..])
  }

  lemma {:induction false} FeedAllCarries(crc: bv32, a: seq<bool>, b: seq<bool>)
    ensures FeedAll(crc, a + b) == FeedAll(FeedAll(crc, a), b)
    decreases |a|
  {
    hide Feed, BitWord;
    if a == [] {
      assert a + b == b;
    } else {
      assert (a + b)[1..] == a[1..] + b;
      FeedAllCarries(Feed(crc, BitWord(a[0])), a[1..], b);
    }
  }

  lemma JoinedHalf(b0: bv32, b1: bv32, b2: bv32, b3: bv32, b4: bv32, b5: bv32, b6: bv32, b7: bv32)
    requires b0 <= 1 && b1 <= 1 && b2 <= 1 && b3 <= 1 && b4 <= 1 && b5 <= 1 && b6 <= 1 && b7 <= 1
    ensures LowBit(JoinBits(b0, b1, b2, b3, b4, b5, b6, b7)) == b0
    ensures Half(JoinBits(b0, b1, b2, b3, b4, b5, b6, b7)) == JoinBits(b1, b2, b3, b4, b5, b6, b7, 0)
  {
  }

  lemma BitHalves(n: nat, i: nat)
    ensures BitAt(n / 2, i) == BitAt(n, i + 1) && BitAt(n, 0) == BitWord(n % 2 == 1)
  {
  }

  lemma {:induction false} NoBitBeyond(n: nat, i: nat)
    requires n < Pow2(i)
    ensures BitAt(n, i) == 0
  {
    if i > 0 {
      NoBitBeyond(n / 2, i - 1);
    }
  }

  lemma WordHalves(b: Byte)
    ensures LowBit(Word(b)) == BitWord(b % 2 == 1) && Half(Word(b)) == Word(b / 2)
  {
    hide JoinBits, BitAt, Half, LowBit, BitWord;
    JoinedHalf(BitAt(b, 0), BitAt(b, 1), BitAt(b, 2), BitAt(b, 3), BitAt(b, 4), BitAt(b, 5), BitAt(b, 6), BitAt(b, 7));
    BitHalves(b, 0);
    BitHalves(b, 1);
    BitHalves(b, 2);
    BitHalves(b, 3);
    BitHalves(b, 4);
    BitHalves(b, 5);
    BitHalves(b, 6);
    BitHalves(b, 7);
    assert Pow2(8) == 256;
    NoBitBeyond(b, 8);
  }

  lemma {:induction false} ByteFeedsBits(crc: bv32, b: Byte, n: nat)
    ensures FeedBits(crc, Word(b), n) == FeedAll(crc, BitsOf(b, n))
    decreases n
  {
    hide Feed, Word, Half, LowBit, BitWord;
    if n > 0 {
      WordHalves(b);
      FeedBitsOnce(crc, Word(b), n);
      ByteFeedsBits(Feed(crc, BitWord(b % 2 == 1)), b / 2, n - 1);
      assert BitsOf(b, n)[1..] == BitsOf(b / 2, n - 1);
    }
  }

  /** Byte by byte or bit by bit, the register is the same. */
  lemma {:induction false} RemainderFeedsBits(crc: bv32, buf: seq<Byte>)
    ensures Remainder(crc, buf) == FeedAll(crc, Bits(buf))
  {
    hide FeedBits, Word, BitsOf;
    if buf != [] {
      var before, b := buf[..|buf| - 1], buf[|buf| - 1];
      RemainderFeedsBits(crc, before);
      ByteFeedsBits(Remainder(crc, before), b, 8);
      hide FeedAll;
      FeedAllCarries(crc, Bits(before), BitsOf(b, 8));
    }
  }

  lemma {:induction false} SameBitsSameNumber(x: nat, y: nat, n: nat)
    requires BitsOf(x, n) == BitsOf(y, n) && x < Pow2(n) && y < Pow2(n)
    ensures x == y
    decreases n
  {
    if n > 0 {
      assert BitsOf(x, n)[0] == BitsOf(y, n)[0];
      assert BitsOf(x, n)[1..] == BitsOf(y, n)[1..];
      SameBitsSameNumber(x / 2, y / 2, n - 1);
    }
  }

  function Pow2(n: nat): nat {
    if n == 0 then 1 else 2 * Pow2(n - 1)
  }

  lemma {:induction false} SameBitsSameMessage(a: seq<Byte>, b: seq<Byte>)
    requires Bits(a) == Bits(b)
    ensures a == b
  {
    hide BitsOf;
    if a != [] {
      var n := |a| - 1;
      assert Bits(a)[..8 * n] == Bits(a[..n]) && Bits(b)[..8 * n] == Bits(b[..n]);
      assert Bits(a)[8 * n..] == BitsOf(a[n], 8) && Bits(b)[8 * n..] == BitsOf(b[n], 8);
      SameBitsSameMessage(a[..n], b[..n]);
      assert Pow2(8) == 256;
      SameBitsSameNumber(a[n], b[n], 8);
      assert a == a[..n] + [a[n]] && b == b[..n] + [b[n]];
    }
  }

  // ----- bursts -----

  lemma {:induction false} FeedAllIsInjective(a: bv32, b: bv32, bits: seq<bool>)
    requires FeedAll(a, bits) == FeedAll(b, bits)
    ensures a == b
    decreases |bits|
  {
    hide Feed, BitWord;
    if bits != [] {
      var bit := BitWord(bits[0]);
      FeedAllIsInjective(Feed(a, bit), Feed(b, bit), bits[1..]);
      FeedIsInjective(a, b, bit);
    }
  }

  lemma FeedIsInjective(a: bv32, b: bv32, bit: bv32)
    requires Feed(a, bit) == Feed(b, bit)
    ensures a == b
  {
    hide Step;
    StepIsInjective(a ^ bit, b ^ bit);
  }

  lemma {:induction false} ShiftSplit(v: bv32, m: nat, n: nat)
    ensures ShiftRight(v, m + n) == ShiftRight(ShiftRight(v, m), n)
    decreases m
  {
    hide Half;
    if m > 0 {
      ShiftSplit(Half(v), m - 1, n);
    }
  }

  lemma {:induction false} NothingToShift(n: nat)
    ensures ShiftRight(0, n) == 0
  {
    if n > 0 {
      assert Half(0) == 0;
      NothingToShift(n - 1);
    }
  }

  predicate TopClear(d: bv32) {
    d & 0x8000_0000 == 0
  }

  lemma FewerThanEight(d: bv32)
    requires ShiftRight(DropByte(DropByte(DropByte(d))), 7) == 0
    ensures TopClear(d)
  {
  }

  lemma {:induction false} LongerShift(d: bv32, n: nat, m: nat)
    requires ShiftRight(d, n) == 0 && n <= m
    ensures ShiftRight(d, m) == 0
  {
    hide ShiftRight;
    ShiftSplit(d, n, m - n);
    NothingToShift(m - n);
  }

  lemma ShiftByBytes(d: bv32)
    ensures ShiftRight(d, 31) == ShiftRight(DropByte(DropByte(DropByte(d))), 7)
  {
    hide ShiftRight, DropByte;
    ShiftSplit(d, 8, 23);
    DropsEight(d);
    ShiftSplit(DropByte(d), 8, 15);
    DropsEight(DropByte(d));
    ShiftSplit(DropByte(DropByte(d)), 8, 7);
    DropsEight(DropByte(DropByte(d)));
  }

  /** A difference of fewer than 32 bits does not reach the top of the register. */
  lemma ShortIsTopClear(d: bv32, n: nat)
    requires ShiftRight(d, n) == 0 && n <= 31
    ensures TopClear(d)
  {
    hide ShiftRight, TopClear, DropByte;
    LongerShift(d, n, 31);
    ShiftByBytes(d);
    FewerThanEight(d);
  }

  /** The polynomial's top bit shows whether a step has added it. */
  lemma StepUndone(x: bv32)
    requires TopClear(Step(x))
    ensures LowBit(x) == 0 && Step(x) == Half(x)
  {
  }

  lemma XorSwaps(r: bv32, b: bv32, s: bv32, c: bv32)
    ensures Xor(Xor(r, b), Xor(s, c)) == Xor(Xor(r, s), Xor(b, c))
  {
    hide Xor;
    XorRegroups(b, Xor(s, c), r);
    XorRegroups(s, c, b);
    XorCommutes(b, s);
    XorRegroups(b, c, s);
    XorRegroups(s, Xor(b, c), r);
  }

  lemma BitDifference(b: bool, c: bool)
    ensures Half(Xor(BitWord(b), BitWord(c))) == 0
    ensures LowBit(Xor(BitWord(b), BitWord(c))) == 0 ==> b == c
  {
  }

  lemma DifferenceOf(r: bv32, s: bv32, b: bool, c: bool)
    ensures var x := Xor(Xor(r, BitWord(b)), Xor(s, BitWord(c)));
            Half(x) == Half(Xor(r, s)) && (r == s && LowBit(x) == 0 ==> b == c)
  {
    hide Xor, Half, LowBit, BitWord;
    var d := Xor(BitWord(b), BitWord(c));
    XorSwaps(r, BitWord(b), s, BitWord(c));
    XorHalves(Xor(r, s), d);
    BitDifference(b, c);
    XorZero(Half(Xor(r, s)));
    XorZero(r);
    XorZero(d);
  }

  lemma XorIsZero(r: bv32, s: bv32)
    ensures Xor(r, s) == 0 <==> r == s
    ensures r == s ==> Half(Xor(r, s)) == 0
  {
    assert Half(0) == 0;
    hide Xor, Half;
    XorZero(r);
    if Xor(r, s) == 0 {
      XorIsInjective(r, r, s);
    }
  }

  /** One bit earlier, the difference of two registers is one bit longer. */
  lemma DifferenceBefore(r: bv32, s: bv32, b: bool, c: bool)
    requires TopClear(Xor(Feed(r, BitWord(b)), Feed(s, BitWord(c))))
    ensures Half(Xor(r, s)) == Xor(Feed(r, BitWord(b)), Feed(s, BitWord(c)))
    ensures r == s ==> b == c
  {
    var p, q := Xor(r, BitWord(b)), Xor(s, BitWord(c));
    FeedIs(r, BitWord(b));
    FeedIs(s, BitWord(c));
    hide Feed, Step, Xor, Half, LowBit, TopClear, BitWord;
    StepIsLinear(p, q);
    StepUndone(Xor(p, q));
    DifferenceOf(r, s, b, c);
  }

  /** Up to 32 bits are determined by the registers before and after them. */
  lemma {:induction false} ShortBitsAreTold(r: bv32, s: bv32, p: seq<bool>, q: seq<bool>)
    requires |p| == |q| <= 32 && FeedAll(r, p) == FeedAll(s, q)
    ensures ShiftRight(Xor(r, s), |p|) == 0
    ensures r == s ==> p == q
    decreases |p|
  {
    hide Feed, BitWord, Xor, Half, TopClear;
    XorIsZero(r, s);
    if p != [] {
      var r', s' := Feed(r, BitWord(p[0])), Feed(s, BitWord(q[0]));
      ShortBitsAreTold(r', s', p[1..], q[1..]);
      ShortIsTopClear(Xor(r', s'), |p| - 1);
      DifferenceBefore(r, s, p[0], q[0]);
      XorIsZero(r', s');
      assert p == [p[0]] + p[1..] && q == [q[0]] + q[1..];
    }
  }

  /** Two messages of one length that differ, and only within 32 adjacent bits, wherever these start. */
  ghost predicate BurstApart(a: seq<Byte>, b: seq<Byte>, start: nat) {
    && |a| == |b| && a != b
    && forall i :: 0 <= i < 8 * |a| && !(start <= i < start + 32) ==> Bits(a)[i] == Bits(b)[i]
  }

  /** The checksum detects every error burst of up to 32 bits, at any bit offset. */
  lemma BurstsAreDetected(a: seq<Byte>, b: seq<Byte>, start: nat)
    requires BurstApart(a, b, start)
    ensures Crc(a) != Crc(b)
  {
    hide Bits, Remainder, Crc, FeedAll;
    if Crc(a) == Crc(b) {
      SameCrcSameRegister(a, b);
      RemainderFeedsBits(0xffff_ffff, a);
      RemainderFeedsBits(0xffff_ffff, b);
      SameRegisterSameBits(0xffff_ffff, Bits(a), Bits(b), start);
      SameBitsSameMessage(a, b);
    }
  }

  lemma SameRegisterSameBits(crc: bv32, p: seq<bool>, q: seq<bool>, start: nat)
    requires |p| == |q| && FeedAll(crc, p) == FeedAll(crc, q)
    requires forall i :: 0 <= i < |p| && !(start <= i < start + 32) ==> p[i] == q[i]
    ensures p == q
  {
    hide FeedAll;
    var i := if start <= |p| then start else |p|;
    var j := if start + 32 <= |p| then start + 32 else |p|;
    SameOutside(p, q, i, j);
    FeedAllCarries(crc, p[..i] + p[i..j], p[j..]);
    FeedAllCarries(crc, q[..i] + q[i..j], q[j..]);
    FeedAllIsInjective(FeedAll(crc, p[..i] + p[i..j]), FeedAll(crc, q[..i] + q[i..j]), p[j..]);
    FeedAllCarries(crc, p[..i], p[i..j]);
    FeedAllCarries(crc, q[..i], q[i..j]);
    ShortBitsAreTold(FeedAll(crc, p[..i]), FeedAll(crc, p[..i]), p[i..j], q[i..j]);
  }

  lemma SameOutside(p: seq<bool>, q: seq<bool>, i: nat, j: nat)
    requires i <= j <= |p| == |q| && forall k :: 0 <= k < |p| && !(i <= k < j) ==> p[k] == q[k]
    ensures p[..i] == q[..i] && p[j..] == q[j..]
    ensures p == p[..i] + p[i..j] + p[j..] && q == q[..i] + q[i..j] + q[j..]
  {
  }

  lemma SameCrcSameRegister(p: seq<Byte>, q: seq<Byte>)
    requires Crc(p) == Crc(q)
    ensures Remainder(0xffff_ffff, p) == Remainder(0xffff_ffff, q)
  {
  }
}
