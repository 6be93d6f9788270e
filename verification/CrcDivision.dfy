/** The shift register divides by the generator, and one table look-up does eight of its steps. */
module CrcDivision {
  import opened Bytes
  import opened CrcTable
  import opened Gf2
  import opened RegisterPoly

  /** x^32 + x^26 + ... + 1, the generator of IEEE Std 1003.1. */
  ghost const GENERATOR: Poly := {32, 26, 23, 22, 16, 12, 11, 10, 8, 7, 5, 4, 2, 1, 0}

  ghost const LOW: Poly := {26, 23, 22, 16, 12, 11, 10, 8, 7, 5, 4, 2, 1, 0}

  ghost function Term(b: bool, e: nat): Poly { if b then {e} else {} }

  // ---------- one bit ----------

  function Low(r: bv32): bv32 { r & 0x7FFF_FFFF }

  function Top(r: bv32): bv32 { r & 0x8000_0000 }

  lemma {:induction false} SplitTop(r: bv32)
    ensures Low(r) ^ Top(r) == r
    ensures Low(r) & 0x8000_0000 == 0
  {
  }

  lemma {:induction false} ShiftDropsTop(r: bv32)
    ensures r << 1 == Low(r) << 1
  {
  }

  lemma {:induction false} TopValue(r: bv32)
    ensures Top(r) == 0 || Top(r) == 0x8000_0000
  {
  }

  lemma {:induction false} TopPoly(top: bv32)
    requires top == 0 || top == 0x8000_0000
    ensures P(top) == Term(top != 0, 31)
  {
    Monomials();
  }

  lemma {:induction false} FeedbackPoly(r: bv32, bit: bool)
    ensures P(Feedback(r, bit)) == if (Top(r) != 0) != bit then LOW else {}
  {
    LowTerms();
  }

  lemma {:induction false} BitPolys(low: Poly, top: bool, bit: bool, g: Poly)
    requires 32 !in g
    ensures Add(Add(TimesX(Add(low, Term(top, 31))), Term(bit, 32)), Add(TimesX(low), if top != bit then g else {}))
         == if top != bit then g + {32} else {}
  {
    assert TimesX(Add(low, Term(top, 31))) == Add(TimesX(low), Term(top, 32));
  }

  lemma {:induction false} LowInGenerator()
    ensures GENERATOR == LOW + {32} && 32 !in LOW
  {
  }

  lemma {:induction false} BitStepIs(r: bv32, bit: bool)
    ensures BitStep(r, bit) == (r << 1) ^ Feedback(r, bit)
  {
  }

  lemma {:induction false} OneDigit(b: bool)
    ensures Mul([b], GENERATOR) == if b then GENERATOR else {}
  {
    assert [b][..0] == [];
  }

  lemma {:induction false} BitCong(before: Poly, low: Poly, up: Poly, feedback: Poly, after: Poly, top: bool, bit: bool)
    requires before == Add(low, Term(top, 31))
    requires up == TimesX(low)
    requires feedback == if top != bit then LOW else {}
    requires after == Add(up, feedback)
    ensures Cong(Add(TimesX(before), Term(bit, 32)), after, GENERATOR)
  {
    LowInGenerator();
    BitPolys(low, top, bit, LOW);
    OneDigit(top != bit);
    CongBy(Add(TimesX(before), Term(bit, 32)), after, GENERATOR, [top != bit]);
  }

  lemma {:induction false} SplitPoly(r: bv32)
    ensures P(r) == Add(P(Low(r)), Term(Top(r) != 0, 31))
  {
    SplitTop(r);
    TopValue(r);
    hide *;
    XorIsAdd(Low(r), Top(r));
    TopPoly(Top(r));
  }

  lemma {:induction false} UpPoly(r: bv32)
    ensures P(r << 1) == TimesX(P(Low(r)))
  {
    SplitTop(r);
    ShiftDropsTop(r);
    hide *;
    ShiftIsTimesX(Low(r));
  }

  lemma {:induction false} StepPoly(r: bv32, bit: bool)
    ensures P(BitStep(r, bit)) == Add(P(r << 1), P(Feedback(r, bit)))
  {
    BitStepIs(r, bit);
    hide *;
    XorIsAdd(r << 1, Feedback(r, bit));
  }

  /** The new register is the old one times x plus the incoming bit times x^32, up to a multiple of the generator. */
  lemma {:induction false} BitStepCong(r: bv32, bit: bool)
    ensures Cong(Add(TimesX(P(r)), Term(bit, 32)), P(BitStep(r, bit)), GENERATOR)
  {
    hide *;
    SplitPoly(r);
    UpPoly(r);
    StepPoly(r, bit);
    FeedbackPoly(r, bit);
    BitCong(P(r), P(Low(r)), P(r << 1), P(Feedback(r, bit)), P(BitStep(r, bit)), Top(r) != 0, bit);
  }

  // ---------- a string of bits ----------

  lemma {:induction false} ShiftOfTimesX(p: Poly, n: nat)
    ensures Shift(TimesX(p), n) == TimesX(Shift(p, n))
  {
    if n > 0 {
      ShiftOfTimesX(p, n - 1);
    }
  }

  lemma {:induction false} ShiftOfOne(n: nat)
    ensures Shift({0}, n) == {n}
  {
    if n > 0 {
      ShiftOfOne(n - 1);
    }
  }

  lemma {:induction false} LastBit(bits: seq<bool>, n: nat)
    requires |bits| == n + 1
    ensures PolyOf(bits) == Add(TimesX(PolyOf(bits[..n])), Constant(bits[n]))
    ensures Shift(PolyOf(bits), 32) == Add(TimesX(Shift(PolyOf(bits[..n]), 32)), Term(bits[n], 32))
  {
    assert PolyOf(bits) == Add(TimesX(PolyOf(bits[..n])), Constant(bits[n]));
    ShiftOfSum(TimesX(PolyOf(bits[..n])), Constant(bits[n]), 32);
    ShiftOfTimesX(PolyOf(bits[..n]), 32);
    ShiftOfOne(32);
    ShiftOfNothing(32);
  }

  lemma {:induction false} ShiftOfNothing(n: nat)
    ensures Shift({}, n) == {}
  {
    if n > 0 {
      ShiftOfNothing(n - 1);
    }
  }

  /** What the register stands for after `bits`, if it started as `start`. */
  ghost function Fed(start: Poly, bits: seq<bool>): Poly {
    Add(Shift(start, |bits|), Shift(PolyOf(bits), 32))
  }

  lemma {:induction false} FedLast(start: Poly, bits: seq<bool>, n: nat)
    requires |bits| == n + 1
    ensures Fed(start, bits) == Add(TimesX(Fed(start, bits[..n])), Term(bits[n], 32))
  {
    LastBit(bits, n);
    var p, q := Shift(start, n), Shift(PolyOf(bits[..n]), 32);
    assert TimesX(Add(p, q)) == Add(TimesX(p), TimesX(q));
  }

  lemma {:induction false} FedNothing(start: Poly)
    ensures Fed(start, []) == start
  {
    ShiftOfNothing(32);
  }

  /** The register is the remainder of everything fed to it. */
  lemma {:induction false} RegisterCong(start: bv32, bits: seq<bool>)
    ensures Cong(Fed(P(start), bits), P(Register(start, bits)), GENERATOR)
    decreases |bits|
  {
    if bits == [] {
      FedNothing(P(start));
      CongRefl(P(start), GENERATOR);
    } else {
      var n := |bits| - 1;
      var before, bit := Register(start, bits[..n]), bits[n];
      RegisterCong(start, bits[..n]);
      CongTimesX(Fed(P(start), bits[..n]), P(before), GENERATOR);
      CongRefl(Term(bit, 32), GENERATOR);
      CongAdd(TimesX(Fed(P(start), bits[..n])), TimesX(P(before)), Term(bit, 32), Term(bit, 32), GENERATOR);
      FedLast(P(start), bits, n);
      BitStepCong(before, bit);
      CongTrans(Fed(P(start), bits), Add(TimesX(P(before)), Term(bit, 32)), P(Register(start, bits)), GENERATOR);
    }
  }

  /** Two registers that stand for the same thing are equal. */
  lemma {:induction false} SameRegister(a: Poly, r: bv32, s: bv32)
    requires Cong(a, P(r), GENERATOR) && Cong(a, P(s), GENERATOR)
    ensures r == s
  {
    Degree(r);
    Degree(s);
    CongIsRemainder(a, P(r), GENERATOR, 32);
    CongIsRemainder(a, P(s), GENERATOR, 32);
    GeneratorDegree();
    RemainderUnique(a, GENERATOR, 32, P(r), P(s));
    Injective(r, s);
  }

  lemma {:induction false} GeneratorDegree()
    ensures HasDegree(GENERATOR, 32) && 0 in GENERATOR
  {
  }

  // ---------- one octet ----------

  lemma {:induction false} ShiftFour(p: Poly)
    ensures Shift(p, 4) == TimesX(TimesX(TimesX(TimesX(p))))
  {
    assert Shift(p, 1) == TimesX(p);
    assert Shift(p, 2) == TimesX(Shift(p, 1));
    assert Shift(p, 3) == TimesX(Shift(p, 2));
  }

  lemma {:induction false} Shift1(w: bv32)
    requires w & 0xF000_0000 == 0
    ensures P(w << 1) == TimesX(P(w))
  {
    ShiftIsTimesX(w);
  }

  lemma {:induction false} Shift2(w: bv32)
    requires w & 0xF000_0000 == 0
    ensures P(w << 2) == TimesX(P(w << 1))
  {
    ShiftIsTimesX(w << 1);
  }

  lemma {:induction false} Shift3(w: bv32)
    requires w & 0xF000_0000 == 0
    ensures P(w << 3) == TimesX(P(w << 2))
  {
    ShiftIsTimesX(w << 2);
  }

  lemma {:induction false} Shift4(w: bv32)
    requires w & 0xF000_0000 == 0
    ensures P(w << 4) == TimesX(P(w << 3))
  {
    ShiftIsTimesX(w << 3);
  }

  lemma {:induction false} ShiftNibble(w: bv32)
    requires w & 0xF000_0000 == 0
    ensures P(w << 4) == Shift(P(w), 4)
  {
    hide *;
    Shift1(w);
    Shift2(w);
    Shift3(w);
    Shift4(w);
    ShiftFour(P(w));
  }

  lemma {:induction false} ShiftOctet(w: bv32)
    requires w & 0xFF00_0000 == 0
    ensures P(w << 8) == Shift(P(w), 8)
  {
    ShiftNibble(w);
    ShiftNibble(w << 4);
    ShiftTwice(P(w), 4, 4);
  }

  /** The last `n` bits of a register, most significant first. */
  ghost function LastBits(r: bv32, n: nat): seq<bool> {
    if n == 0 then [] else LastBits(Half(r), n - 1) + [Odd(r)]
  }

  lemma {:induction false} LastBitsUnfold(r: bv32, n: nat)
    requires n > 0
    ensures PolyOf(LastBits(r, n)) == Add(TimesX(PolyOf(LastBits(Half(r), n - 1))), Constant(Odd(r)))
  {
    var bits := LastBits(r, n);
    assert bits[..|bits| - 1] == LastBits(Half(r), n - 1);
    LastBit(bits, |bits| - 1);
  }

  lemma {:induction false} PolyOfLastBits(r: bv32, n: nat)
    requires Fits(r, n)
    ensures P(r) == PolyOf(LastBits(r, n))
    decreases n
  {
    hide *;
    if n == 0 {
      NoBits(r);
    } else {
      FitsHalf(r, n);
      PolyOfLastBits(Half(r), n - 1);
      LastBitsUnfold(r, n);
      Unfold(r);
    }
  }

  lemma {:induction false} NoBits(r: bv32)
    requires Fits(r, 0)
    ensures P(r) == PolyOf(LastBits(r, 0))
  {
  }

  lemma {:induction false} OctetFits(b: byte)
    ensures Fits(b as bv32, 8)
  {
    var r := b as bv32;
    assert (r >> 4) >> 4 == 0;
    FourMore(r >> 4, 0);
    FourMore(r, 4);
  }

  lemma {:induction false} HalvesOfOctet(b: byte, r: bv32)
    requires r == b as bv32
    ensures Odd(r) == (b & 0x01 != 0) && Odd(Half(r)) == (b & 0x02 != 0)
    ensures Odd(Half(Half(r))) == (b & 0x04 != 0) && Odd(Half(Half(Half(r)))) == (b & 0x08 != 0)
  {
  }

  lemma {:induction false} NextHalves(b: byte, r: bv32, t: bv32)
    requires r == b as bv32 && t == Half(Half(Half(Half(r))))
    ensures Odd(t) == (b & 0x10 != 0) && Odd(Half(t)) == (b & 0x20 != 0)
    ensures Odd(Half(Half(t))) == (b & 0x40 != 0) && Odd(Half(Half(Half(t)))) == (b & 0x80 != 0)
  {
  }

  lemma {:induction false} FourLastBits(r: bv32, n: nat)
    ensures LastBits(r, n + 4) ==
      LastBits(Half(Half(Half(Half(r)))), n) + [Odd(Half(Half(Half(r)))), Odd(Half(Half(r))), Odd(Half(r)), Odd(r)]
  {
    hide Half, Odd;
    assert LastBits(r, n + 4) == LastBits(Half(r), n + 3) + [Odd(r)];
    assert LastBits(Half(r), n + 3) == LastBits(Half(Half(r)), n + 2) + [Odd(Half(r))];
    assert LastBits(Half(Half(r)), n + 2) == LastBits(Half(Half(Half(r))), n + 1) + [Odd(Half(Half(r)))];
  }

  lemma {:induction false} OctetBits(b: byte)
    ensures LastBits(b as bv32, 8) == ByteBits(b)
  {
    hide Half, Odd;
    var r := b as bv32;
    var t := Half(Half(Half(Half(r))));
    HalvesOfOctet(b, r);
    NextHalves(b, r, t);
    FourLastBits(r, 4);
    FourLastBits(t, 0);
    EightInARow(Odd(Half(Half(Half(t)))), Odd(Half(Half(t))), Odd(Half(t)), Odd(t),
      Odd(Half(Half(Half(r)))), Odd(Half(Half(r))), Odd(Half(r)), Odd(r));
  }

  lemma {:induction false} EightInARow(a: bool, b: bool, c: bool, d: bool, e: bool, f: bool, g: bool, h: bool)
    ensures [] + [a, b, c, d] + [e, f, g, h] == [a, b, c, d, e, f, g, h]
  {
  }

  lemma {:induction false} OctetPoly(b: byte)
    ensures P(b as bv32) == PolyOf(ByteBits(b))
  {
    hide *;
    OctetFits(b);
    OctetBits(b);
    PolyOfLastBits(b as bv32, 8);
  }

  // ---------- one table look-up ----------

  function High8(r: bv32): bv32 { r & 0xFF00_0000 }

  function Low24(r: bv32): bv32 { r & 0x00FF_FFFF }

  function TopOctet(b: byte): bv32 { (b as bv32) << 24 }

  lemma {:induction false} SplitWord(crc: bv32)
    ensures High8(crc) ^ Low24(crc) == crc
  {
  }

  lemma {:induction false} ShiftDropsOctet(crc: bv32)
    ensures crc << 8 == Low24(crc) << 8 && Low24(crc) & 0xFF00_0000 == 0
  {
  }

  lemma {:induction false} IndexWord(crc: bv32, b: byte)
    ensures TopOctet(Index(crc, b)) == High8(crc) ^ TopOctet(b)
  {
  }

  lemma {:induction false} TopOctetPoly(b: byte)
    ensures P(TopOctet(b)) == Shift(PolyOf(ByteBits(b)), 24)
  {
    OctetPoly(b);
    var w := b as bv32;
    TopOctetShifts(w, PolyOf(ByteBits(b)));
  }

  lemma {:induction false} TopOctetShifts(w: bv32, p: Poly)
    requires w < 256 && P(w) == p
    ensures P(w << 24) == Shift(p, 24)
  {
    ThreeShifts(w);
    hide P;
    ShiftTwice(p, 8, 8);
    ShiftTwice(p, 16, 8);
  }

  lemma {:induction false} ThreeShifts(w: bv32)
    requires w < 256
    ensures P(w << 8) == Shift(P(w), 8)
    ensures P(w << 16) == Shift(P(w << 8), 8)
    ensures P(w << 24) == Shift(P(w << 16), 8)
  {
    ShiftOctet(w);
    SecondShift(w);
    ThirdShift(w);
  }

  lemma {:induction false} SecondShift(w: bv32)
    requires w < 256
    ensures P(w << 16) == Shift(P(w << 8), 8)
  {
    ShiftOctet(w << 8);
  }

  lemma {:induction false} ThirdShift(w: bv32)
    requires w < 256
    ensures P(w << 24) == Shift(P(w << 16), 8)
  {
    ShiftOctet(w << 16);
  }

  lemma {:induction false} SplitWordPoly(crc: bv32)
    ensures P(crc) == Add(P(High8(crc)), P(Low24(crc)))
  {
    SplitWord(crc);
    hide *;
    XorIsAdd(High8(crc), Low24(crc));
  }

  lemma {:induction false} ShiftedWordPoly(crc: bv32)
    ensures P(crc << 8) == Shift(P(Low24(crc)), 8)
  {
    ShiftDropsOctet(crc);
    hide *;
    ShiftOctet(Low24(crc));
  }

  lemma {:induction false} IndexPoly(crc: bv32, b: byte)
    ensures P(TopOctet(Index(crc, b))) == Add(P(High8(crc)), Shift(PolyOf(ByteBits(b)), 24))
  {
    IndexWord(crc, b);
    hide *;
    XorIsAdd(High8(crc), TopOctet(b));
    TopOctetPoly(b);
  }

  lemma {:induction false} TableStepPoly(crc: bv32, b: byte)
    ensures P(TableStep(crc, b)) == Add(P(crc << 8), P(CrcTab(Index(crc, b))))
  {
    TableStepIs(crc, b);
    hide *;
    XorIsAdd(crc << 8, CrcTab(Index(crc, b)));
  }

  lemma {:induction false} TableStepIs(crc: bv32, b: byte)
    ensures TableStep(crc, b) == (crc << 8) ^ CrcTab(Index(crc, b))
  {
    hide CrcTab, Index;
  }

  lemma {:induction false} RegisterSnoc(r: bv32, b: seq<bool>, n: nat)
    requires n < |b|
    ensures Register(r, b[..n + 1]) == BitStep(Register(r, b[..n]), b[n])
  {
    assert b[..n + 1][..n] == b[..n];
  }

  lemma {:induction false} FourMoreZeros(r: bv32, z: seq<bool>, n: nat)
    requires n + 4 <= |z| && forall i :: 0 <= i < |z| ==> !z[i]
    ensures Register(r, z[..n + 4]) == FourZeroBits(Register(r, z[..n]))
  {
    hide BitStep, Register;
    RegisterSnoc(r, z, n);
    RegisterSnoc(r, z, n + 1);
    RegisterSnoc(r, z, n + 2);
    RegisterSnoc(r, z, n + 3);
  }

  lemma {:induction false} EightZeroBits(r: bv32)
    ensures Register(r, Zeros(8)) == FourZeroBits(FourZeroBits(r))
  {
    var z := Zeros(8);
    assert z[..8] == z && z[..0] == [];
    assert Register(r, []) == r;
    hide FourZeroBits, Register;
    FourMoreZeros(r, z, 0);
    FourMoreZeros(r, z, 4);
  }

  lemma {:induction false} EntryIsRegister(i: byte)
    ensures CrcTab(i) == Register(TopOctet(i), Zeros(8))
  {
    TableEntry(i);
    EntryShift(i);
    hide *;
    EightZeroBits(TopOctet(i));
  }

  lemma {:induction false} EntryShift(i: byte)
    ensures TopOctet(i) == (i as bv32) << 24
  {
  }

  /** A table entry is its index times x^32, up to a multiple of the generator. */
  lemma {:induction false} EntryCong(i: byte)
    ensures Cong(Shift(P(TopOctet(i)), 8), P(CrcTab(i)), GENERATOR)
  {
    hide *;
    EntryIsRegister(i);
    RegisterCong(TopOctet(i), Zeros(8));
    FedZeros(P(TopOctet(i)), 8);
  }

  lemma {:induction false} FedZeros(p: Poly, n: nat)
    ensures Fed(p, Zeros(n)) == Shift(p, n)
  {
    MulOfZeros(Zeros(n), {0});
    ShiftOfNothing(32);
  }

  lemma {:induction false} OctetPolys(high: Poly, low: Poly, bits: seq<bool>)
    requires |bits| == 8
    ensures Fed(Add(high, low), bits) == Add(Shift(low, 8), Shift(Add(high, Shift(PolyOf(bits), 24)), 8))
  {
    ShiftTwice(PolyOf(bits), 24, 8);
    ShiftOfSum(high, low, 8);
    ShiftOfSum(high, Shift(PolyOf(bits), 24), 8);
  }

  lemma {:induction false} TableStepCong(crc: bv32, b: byte)
    ensures Cong(Fed(P(crc), ByteBits(b)), P(TableStep(crc, b)), GENERATOR)
  {
    hide *;
    EightBits(b);
    SplitWordPoly(crc);
    ShiftedWordPoly(crc);
    IndexPoly(crc, b);
    TableStepPoly(crc, b);
    EntryCong(Index(crc, b));
    OctetPolys(P(High8(crc)), P(Low24(crc)), ByteBits(b));
    CongRefl(Shift(P(Low24(crc)), 8), GENERATOR);
    CongAdd(Shift(P(Low24(crc)), 8), Shift(P(Low24(crc)), 8),
      Shift(P(TopOctet(Index(crc, b))), 8), P(CrcTab(Index(crc, b))), GENERATOR);
  }

  lemma {:induction false} EightBits(b: byte)
    ensures |ByteBits(b)| == 8
  {
  }

  /** One table look-up is eight steps of the shift register, for every register and every octet. */
  lemma {:induction false} TableStepIsEightBits(crc: bv32, b: byte)
    ensures TableStep(crc, b) == Register(crc, ByteBits(b))
  {
    hide *;
    TableStepCong(crc, b);
    RegisterCong(crc, ByteBits(b));
    SameRegister(Fed(P(crc), ByteBits(b)), TableStep(crc, b), Register(crc, ByteBits(b)));
  }
}
