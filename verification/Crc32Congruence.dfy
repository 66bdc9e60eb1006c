/** The checksum register as the remainder of polynomial division, in the algebra of polynomials over GF(2). */
module Crc32Congruence {
  import opened Crc32
  import opened Crc32Theory

  // ----- polynomials over GF(2), each the set of the powers whose coefficient is one -----

  function Plus(p: set<nat>, q: set<nat>): set<nat> {
    (p - q) + (q - p)
  }

  /** Times x. */
  function Shift(p: set<nat>): set<nat> {
    set k | k in p :: k + 1
  }

  function ShiftBy(p: set<nat>, n: nat): set<nat> {
    if n == 0 then p else Shift(ShiftBy(p, n - 1))
  }

  function If(bit: bool, p: set<nat>): set<nat> {
    if bit then p else {}
  }

  /** The product of `p` and the polynomial with these coefficients, highest power first. */
  function Times(bits: seq<bool>, p: set<nat>): set<nat> {
    if bits == [] then {}
    else Plus(Shift(Times(bits[..|bits| - 1], p)), If(bits[|bits| - 1], p))
  }

  ghost predicate Below(p: set<nat>, n: nat) {
    forall k :: k in p ==> k < n
  }

  lemma ShiftHas(p: set<nat>)
    ensures forall k: nat :: k in Shift(p) <==> k > 0 && k - 1 in p
  {
    forall k: nat | k > 0 && k - 1 in p ensures k in Shift(p) {
      assert k - 1 + 1 == k;
    }
  }

  lemma ShiftAdds(p: set<nat>, q: set<nat>)
    ensures Shift(Plus(p, q)) == Plus(Shift(p), Shift(q))
  {
    ShiftHas(p);
    ShiftHas(q);
    ShiftHas(Plus(p, q));
    hide Shift;
    forall k: nat ensures k in Shift(Plus(p, q)) <==> k in Plus(Shift(p), Shift(q)) {}
  }

  // ----- the register as a polynomial: its lowest bit is the power 31 -----

  /** The k lowest bits, of which the lowest is the power k - 1. */
  function PowersFrom(c: bv32, k: nat): set<nat>
    decreases k
  {
    if k == 0 then {} else If(LowBit(c) == 1, {k - 1}) + PowersFrom(Half(c), k - 1)
  }

  function Poly(c: bv32): set<nat> {
    PowersFrom(c, 32)
  }

  /** x^32+x^26+x^23+x^22+x^16+x^12+x^11+x^10+x^8+x^7+x^5+x^4+x^2+x+1, section 3.4 of RFC 2083. */
  const RFC_GENERATOR: set<nat> := {32, 26, 23, 22, 16, 12, 11, 10, 8, 7, 5, 4, 2, 1, 0}

  lemma LowBits(c: bv32)
    ensures LowBit(c) == 1 <==> c & 1 != 0
    ensures LowBit(c >> 1) == 1 <==> c & 2 != 0
    ensures LowBit(c >> 2) == 1 <==> c & 4 != 0
    ensures LowBit(c >> 3) == 1 <==> c & 8 != 0
    ensures Half(c) == c >> 1 && Half(c >> 1) == c >> 2 && Half(c >> 2) == c >> 3 && Half(c >> 3) == c >> 4
  {
  }

  lemma FourPowers(c: bv32, k: nat)
    ensures PowersFrom(c, k + 4) == If(c & 1 != 0, {k + 3}) + If(c & 2 != 0, {k + 2}) + If(c & 4 != 0, {k + 1})
                                    + If(c & 8 != 0, {k}) + PowersFrom(c >> 4, k)
  {
    LowBits(c);
    hide Half, LowBit, If;
    assert PowersFrom(c >> 3, k + 1) == If(c & 8 != 0, {k}) + PowersFrom(c >> 4, k);
    assert PowersFrom(c >> 2, k + 2) == If(c & 4 != 0, {k + 1}) + PowersFrom(c >> 3, k + 1);
    assert PowersFrom(c >> 1, k + 3) == If(c & 2 != 0, {k + 2}) + PowersFrom(c >> 2, k + 2);
    assert PowersFrom(c, k + 4) == If(c & 1 != 0, {k + 3}) + PowersFrom(c >> 1, k + 3);
  }

  lemma UpperPowers()
    ensures PowersFrom(0xedb88320, 32) == {26, 23, 22, 16} + PowersFrom(0xedb8, 16)
  {
    hide PowersFrom;
    assert PowersFrom(0xedb88320, 32) == PowersFrom(0xedb8832, 28) by { FourPowers(0xedb88320, 28); }
    assert PowersFrom(0xedb8832, 28) == {26} + PowersFrom(0xedb883, 24) by { FourPowers(0xedb8832, 24); }
    assert PowersFrom(0xedb883, 24) == {23, 22} + PowersFrom(0xedb88, 20) by { FourPowers(0xedb883, 20); }
    assert PowersFrom(0xedb88, 20) == {16} + PowersFrom(0xedb8, 16) by { FourPowers(0xedb88, 16); }
  }

  lemma LowerPowers()
    ensures PowersFrom(0xedb8, 16) == {12, 11, 10, 8, 7, 5, 4, 2, 1, 0}
  {
    hide PowersFrom;
    assert PowersFrom(0xedb8, 16) == {12} + PowersFrom(0xedb, 12) by { FourPowers(0xedb8, 12); }
    assert PowersFrom(0xedb, 12) == {11, 10, 8} + PowersFrom(0xed, 8) by { FourPowers(0xedb, 8); }
    assert PowersFrom(0xed, 8) == {7, 5, 4} + PowersFrom(0xe, 4) by { FourPowers(0xed, 4); }
    assert PowersFrom(0xe, 4) == {2, 1, 0} by { FourPowers(0xe, 0); NoPowers(0); }
  }

  lemma PowersOfPolynomial()
    ensures Poly(POLYNOMIAL) + {32} == RFC_GENERATOR && Below(Poly(POLYNOMIAL), 32)
  {
    hide PowersFrom;
    UpperPowers();
    LowerPowers();
  }

  lemma NoPowers(c: bv32)
    ensures PowersFrom(c, 0) == {}
  {
  }

  lemma {:induction false} PowersAdd(a: bv32, b: bv32, k: nat)
    ensures PowersFrom(Xor(a, b), k) == Plus(PowersFrom(a, k), PowersFrom(b, k))
    ensures Below(PowersFrom(a, k), k) && Below(PowersFrom(b, k), k)
    decreases k
  {
    if k > 0 {
      hide Xor, Half, LowBit, Step, Plus;
      XorHalves(a, b);
      LowBitAdds(a, b);
      PowersAdd(Half(a), Half(b), k - 1);
      PlusTogether(LowBit(a) == 1, LowBit(b) == 1, k - 1, PowersFrom(Half(a), k - 1), PowersFrom(Half(b), k - 1));
    }
  }

  lemma LowBitAdds(a: bv32, b: bv32)
    ensures LowBit(Xor(a, b)) == 1 <==> (LowBit(a) == 1) != (LowBit(b) == 1)
  {
  }

  lemma PlusTogether(x: bool, y: bool, k: nat, p: set<nat>, q: set<nat>)
    requires Below(p, k) && Below(q, k)
    ensures Plus(If(x, {k}) + p, If(y, {k}) + q) == If(x != y, {k}) + Plus(p, q)
  {
  }

  /** One power more: the bits read so far move up, and the next one becomes the power 0. */
  lemma {:induction false} PowersShift(c: bv32, k: nat)
    ensures PowersFrom(c, k + 1) == Shift(PowersFrom(c, k)) + If(LowBit(ShiftRight(c, k)) == 1, {0})
    decreases k
  {
    hide Half, LowBit, Shift;
    ShiftHas(PowersFrom(c, k));
    if k > 0 {
      PowersShift(Half(c), k - 1);
      ShiftHas(PowersFrom(Half(c), k - 1));
    }
  }

  lemma NothingBehind(c: bv32)
    ensures LowBit(ShiftRight(Half(c), 31)) == 0
  {
    hide ShiftRight, DropByte, Half;
    ShiftSplit(c, 8, 24);
    DropsEight(c);
    ShiftSplit(DropByte(c), 8, 16);
    DropsEight(DropByte(c));
    ShiftSplit(DropByte(DropByte(c)), 8, 8);
    DropsEight(DropByte(DropByte(c)));
    DropsEight(DropByte(DropByte(DropByte(c))));
    FourBytes(c);
    ShiftOnce(c);
  }

  lemma ShiftOnce(c: bv32)
    ensures ShiftRight(c, 32) == ShiftRight(Half(c), 31)
  {
  }

  lemma FourBytes(c: bv32)
    ensures DropByte(DropByte(DropByte(DropByte(c)))) == 0 && LowBit(0) == 0
  {
  }

  lemma ShiftOfTop(top: bool, rest: set<nat>)
    ensures Shift(If(top, {31}) + rest) == Shift(rest) + If(top, {32})
  {
    ShiftHas(If(top, {31}) + rest);
    ShiftHas(rest);
    hide Shift;
    forall k: nat ensures k in Shift(If(top, {31}) + rest) <==> k in Shift(rest) + If(top, {32}) {}
  }

  /** Halving the register multiplies by x, and loses the power 32. */
  lemma PolyOfHalf(c: bv32)
    ensures Shift(Poly(c)) == Poly(Half(c)) + If(LowBit(c) == 1, {32})
    ensures Below(Poly(Half(c)), 32)
  {
    assert Poly(c) == If(LowBit(c) == 1, {31}) + PowersFrom(Half(c), 31);
    hide Half, LowBit, Shift, Xor, PowersFrom, Plus;
    NothingBehind(c);
    PowersShift(Half(c), 31);
    PowersAdd(Half(c), Half(c), 32);
    ShiftOfTop(LowBit(c) == 1, PowersFrom(Half(c), 31));
  }

  // ----- feeding bits is division -----

  /** One bit more: x times the register, plus the bit, plus the generator if the power 32 has come up. */
  lemma FeedIsCongruent(c: bv32, bit: bool) returns (digit: bool)
    ensures Plus(Shift(Poly(c)), If(bit, {32})) == Plus(If(digit, RFC_GENERATOR), Poly(Feed(c, BitWord(bit))))
  {
    var w := Xor(c, BitWord(bit));
    digit := LowBit(w) == 1;
    PolyOfHalf(c);
    FeedIs(c, BitWord(bit));
    StepCases(w);
    BitFlips(c, bit);
    PowersAdd(POLYNOMIAL, Half(c), 32);
    PowersOfPolynomial();
    hide Half, LowBit, Shift, Xor, PowersFrom, Feed, Step, BitWord, Plus;
    CarryCancels(Poly(Half(c)), Poly(POLYNOMIAL), LowBit(c) == 1, bit);
  }

  lemma CarryCancels(h: set<nat>, p: set<nat>, low: bool, bit: bool)
    requires Below(h, 32) && Below(p, 32)
    ensures Plus(h + If(low, {32}), If(bit, {32})) == Plus(If(low != bit, p + {32}), if low != bit then Plus(p, h) else h)
  {
  }

  lemma BitFlips(c: bv32, bit: bool)
    ensures Half(Xor(c, BitWord(bit))) == Half(c)
    ensures LowBit(Xor(c, BitWord(bit))) == 1 <==> (LowBit(c) == 1) != bit
  {
  }

  lemma TimesOneMore(bits: seq<bool>, bit: bool, p: set<nat>)
    ensures Times(bits + [bit], p) == Plus(Shift(Times(bits, p)), If(bit, p))
  {
    assert (bits + [bit])[..|bits|] == bits;
  }

  /** Sums of four rearranged as the induction step needs them. */
  lemma Regroup(m: set<nat>, s: set<nat>, b: set<nat>, t: set<nat>, r: set<nat>, g: set<nat>, f: set<nat>)
    requires Plus(m, s) == Plus(t, r) && Plus(r, b) == Plus(g, f)
    ensures Plus(Plus(m, b), s) == Plus(Plus(t, g), f)
  {
    forall k: nat ensures k in Plus(Plus(m, b), s) <==> k in Plus(Plus(t, g), f) {
      assert k in Plus(m, s) <==> k in Plus(t, r);
      assert k in Plus(r, b) <==> k in Plus(g, f);
    }
  }

  /** What a message stands for: its bits times x^32, and the starting register in front of them. */
  function Dividend(crc: bv32, bits: seq<bool>): set<nat> {
    Plus(Times(bits, {32}), ShiftBy(Poly(crc), |bits|))
  }

  lemma PowersOf(c: bv32)
    ensures Below(Poly(c), 32)
  {
    PowersAdd(c, c, 32);
  }

  lemma FeedsLast(crc: bv32, front: seq<bool>, bit: bool)
    ensures FeedAll(crc, front + [bit]) == Feed(FeedAll(crc, front), BitWord(bit))
  {
    hide Feed, BitWord;
    FeedAllCarries(crc, front, [bit]);
  }

  lemma DividesOn(crc: bv32, front: seq<bool>, bit: bool, quotient: seq<bool>, digit: bool)
    requires |quotient| == |front|
    requires Dividend(crc, front) == Plus(Times(quotient, RFC_GENERATOR), Poly(FeedAll(crc, front)))
    requires Plus(Shift(Poly(FeedAll(crc, front))), If(bit, {32}))
             == Plus(If(digit, RFC_GENERATOR), Poly(FeedAll(crc, front + [bit])))
    ensures Dividend(crc, front + [bit]) == Plus(Times(quotient + [digit], RFC_GENERATOR), Poly(FeedAll(crc, front + [bit])))
  {
    hide Poly, FeedAll, Shift, Times, Plus, If;
    var m, s := Times(front, {32}), ShiftBy(Poly(crc), |front|);
    var t, r := Times(quotient, RFC_GENERATOR), Poly(FeedAll(crc, front));
    TimesOneMore(front, bit, {32});
    TimesOneMore(quotient, digit, RFC_GENERATOR);
    ShiftAdds(m, s);
    ShiftAdds(t, r);
    Regroup(Shift(m), Shift(s), If(bit, {32}), Shift(t), Shift(r), If(digit, RFC_GENERATOR), Poly(FeedAll(crc, front + [bit])));
  }

  /**
   * The register is congruent to the message modulo the generator: some quotient times the generator,
   * plus the register, is the dividend, and the register has no power of the generator's degree.
   */
  lemma {:induction false} RegisterIsCongruent(crc: bv32, bits: seq<bool>) returns (quotient: seq<bool>)
    ensures |quotient| == |bits|
    ensures Dividend(crc, bits) == Plus(Times(quotient, RFC_GENERATOR), Poly(FeedAll(crc, bits)))
    ensures Below(Poly(FeedAll(crc, bits)), 32)
    decreases |bits|
  {
    hide Poly, Feed, Shift, BitWord;
    PowersOf(FeedAll(crc, bits));
    if bits == [] {
      quotient := [];
    } else {
      var front, bit := bits[..|bits| - 1], bits[|bits| - 1];
      quotient := RegisterIsCongruent(crc, front);
      FeedsLast(crc, front, bit);
      assert bits == front + [bit];
      var digit := FeedIsCongruent(FeedAll(crc, front), bit);
      DividesOn(crc, front, bit, quotient, digit);
      quotient := quotient + [digit];
    }
  }

  // ----- the remainder is the only one -----

  function XorAll(p: seq<bool>, q: seq<bool>): seq<bool>
    requires |p| == |q|
  {
    seq(|p|, i requires 0 <= i < |p| => p[i] != q[i])
  }

  lemma {:induction false} TimesAdds(p: seq<bool>, q: seq<bool>, g: set<nat>)
    requires |p| == |q|
    ensures Times(XorAll(p, q), g) == Plus(Times(p, g), Times(q, g))
    decreases |p|
  {
    hide Shift;
    if p != [] {
      var n := |p| - 1;
      TimesAdds(p[..n], q[..n], g);
      assert XorAll(p, q)[..n] == XorAll(p[..n], q[..n]);
      ShiftAdds(Times(p[..n], g), Times(q[..n], g));
      PlusSwaps(Shift(Times(p[..n], g)), Shift(Times(q[..n], g)), If(p[n], g), If(q[n], g));
    }
  }

  lemma PlusSwaps(a: set<nat>, b: set<nat>, c: set<nat>, d: set<nat>)
    ensures Plus(Plus(a, b), Plus(c, d)) == Plus(Plus(a, c), Plus(b, d))
  {
  }

  /** A multiple of the generator is zero or reaches its degree. */
  lemma {:induction false} MultiplesReach(bits: seq<bool>)
    ensures Below(Times(bits, RFC_GENERATOR), 32) ==> Times(bits, RFC_GENERATOR) == {}
    decreases |bits|
  {
    if bits != [] {
      var front := Times(bits[..|bits| - 1], RFC_GENERATOR);
      hide Shift;
      MultiplesReach(bits[..|bits| - 1]);
      ShiftHas(front);
      if front != {} {
        var k: nat :| k in front && k >= 32;
        assert k + 1 in Shift(front) && k + 1 !in RFC_GENERATOR;
      }
    }
  }

  /** Any division of the dividend by the generator ends in the register. */
  lemma RegisterIsTheRemainder(crc: bv32, bits: seq<bool>, quotient: seq<bool>, rest: set<nat>)
    requires |quotient| == |bits| && Below(rest, 32)
    requires Dividend(crc, bits) == Plus(Times(quotient, RFC_GENERATOR), rest)
    ensures rest == Poly(FeedAll(crc, bits))
  {
    hide Dividend, Times, FeedAll, Poly;
    var other := RegisterIsCongruent(crc, bits);
    TimesAdds(quotient, other, RFC_GENERATOR);
    MultiplesReach(XorAll(quotient, other));
    SameRest(Times(quotient, RFC_GENERATOR), rest, Times(other, RFC_GENERATOR), Poly(FeedAll(crc, bits)));
  }

  lemma SameRest(t: set<nat>, r: set<nat>, u: set<nat>, s: set<nat>)
    requires Plus(t, r) == Plus(u, s) && Below(r, 32) && Below(s, 32)
    requires Below(Plus(t, u), 32) ==> Plus(t, u) == {}
    ensures r == s
  {
    assert forall k :: k in Plus(t, u) <==> k in Plus(r, s);
  }

  lemma ComplementTwice(c: bv32)
    ensures Complement(Complement(c)) == c
  {
  }

  /**
   * The checksum of a message is the complement of the remainder that the message leaves, with all ones
   * in front of it, when it is divided by the generator: such a division exists, and there is no other.
   */
  lemma ChecksumIsTheRemainder(buf: seq<Byte>) returns (quotient: seq<bool>)
    ensures |quotient| == 8 * |buf|
    ensures Dividend(0xffff_ffff, Bits(buf)) == Plus(Times(quotient, RFC_GENERATOR), Poly(Complement(Crc(buf))))
    ensures Below(Poly(Complement(Crc(buf))), 32)
    ensures forall other: seq<bool>, rest ::
              && |other| == 8 * |buf| && Below(rest, 32)
              && Dividend(0xffff_ffff, Bits(buf)) == Plus(Times(other, RFC_GENERATOR), rest) ==>
                rest == Poly(Complement(Crc(buf)))
  {
    ComplementTwice(Remainder(0xffff_ffff, buf));
    hide Dividend, Times, Poly, Bits, FeedAll, Remainder, Complement, Plus, Below;
    RemainderFeedsBits(0xffff_ffff, buf);
    quotient := RegisterIsCongruent(0xffff_ffff, Bits(buf));
    forall other: seq<bool>, rest | |other| == 8 * |buf| && Below(rest, 32)
                                    && Dividend(0xffff_ffff, Bits(buf)) == Plus(Times(other, RFC_GENERATOR), rest)
      ensures rest == Poly(Complement(Crc(buf)))
    {
      RegisterIsTheRemainder(0xffff_ffff, Bits(buf), other, rest);
    }
  }
}
