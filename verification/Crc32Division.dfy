/** zlib's CRC-32 is polynomial division too, by the same generator: every octet goes in least significant
    bit first, and the register holds its polynomial mirrored. */
module Crc32Division {
  import opened Bytes
  import opened Gf2
  import opened RegisterPoly
  import opened CrcTable
  import opened CrcDivision
  import opened PosixCksum
  import opened Zlib

  // ---------- the mirrored register ----------

  /** Exponent k becomes 31 - k. */
  ghost function Mirrored(p: Poly): (m: Poly)
    ensures forall k: nat :: k in m <==> k <= 31 && 31 - k in p
  {
    set k | k in p && k <= 31 :: 31 - k
  }

  /** What zlib's register stands for: bit k is the coefficient of x^(31 - k). */
  ghost function M(c: bv32): Poly {
    Mirrored(P(c))
  }

  lemma {:induction false} MirroredSum(p: Poly, q: Poly)
    ensures Mirrored(Add(p, q)) == Add(Mirrored(p), Mirrored(q))
  {
  }

  lemma {:induction false} XorInMirror(a: bv32, b: bv32)
    ensures M(a ^ b) == Add(M(a), M(b))
  {
    XorIsAdd(a, b);
    hide *;
    MirroredSum(P(a), P(b));
    MIs(a);
    MIs(b);
    MIs(a ^ b);
  }

  lemma {:induction false} MIs(c: bv32)
    ensures M(c) == Mirrored(P(c))
  {
    hide P;
  }

  lemma {:induction false} HalfMirrored(p: Poly, h: Poly, odd: bool)
    requires p == Add(TimesX(h), Constant(odd)) && 32 !in p
    ensures TimesX(Mirrored(p)) == Add(Mirrored(h), Term(odd, 32))
  {
    assert 31 in h ==> 32 in TimesX(h);
  }

  /** Shifting right multiplies by x; the bit that falls out is the term x^32. */
  lemma {:induction false} HalfInMirror(c: bv32)
    ensures TimesX(M(c)) == Add(M(Half(c)), Term(Odd(c), 32))
  {
    Unfold(c);
    Degree(c);
    hide P;
    HalfMirrored(P(c), P(Half(c)), Odd(c));
  }

  // ---------- one bit ----------

  lemma {:induction false} MoreMonomials()
    ensures P(0x0000_0200) == {9} && P(0x0000_8000) == {15} && P(0x0008_0000) == {19} && P(0x0010_0000) == {20}
    ensures P(0x0020_0000) == {21} && P(0x0100_0000) == {24} && P(0x0800_0000) == {27}
    ensures P(0x2000_0000) == {29} && P(0x4000_0000) == {30}
  {
    hide *;
    Monomials();
    Double(0x0000_0100, 8);
    Double(0x0000_1000, 12);
    Double(0x0000_2000, 13);
    Double(0x0000_4000, 14);
    Double(0x0001_0000, 16);
    Double(0x0002_0000, 17);
    Double(0x0004_0000, 18);
    Double(0x0008_0000, 19);
    Double(0x0010_0000, 20);
    Double(0x0080_0000, 23);
    Double(0x0400_0000, 26);
    Double(0x0800_0000, 27);
    Double(0x1000_0000, 28);
    Double(0x2000_0000, 29);
  }

  lemma {:induction false} ReflectedLowHalf()
    ensures P(0x0018_8320) == {5, 8, 9, 15, 19, 20}
  {
    hide *;
    Monomials();
    MoreMonomials();
    Plus(0x0000_0020, 0x0000_0100, {5}, 8);
    Plus(0x0000_0120, 0x0000_0200, {5, 8}, 9);
    Plus(0x0000_0320, 0x0000_8000, {5, 8, 9}, 15);
    Plus(0x0000_8320, 0x0008_0000, {5, 8, 9, 15}, 19);
    Plus(0x0008_8320, 0x0010_0000, {5, 8, 9, 15, 19}, 20);
  }

  lemma {:induction false} ReflectedTerms()
    ensures P(0xEDB8_8320) == {5, 8, 9, 15, 19, 20, 21, 23, 24, 26, 27, 29, 30, 31}
  {
    hide *;
    Monomials();
    MoreMonomials();
    ReflectedLowHalf();
    Plus(0x0018_8320, 0x0020_0000, {5, 8, 9, 15, 19, 20}, 21);
    Plus(0x0038_8320, 0x0080_0000, {5, 8, 9, 15, 19, 20, 21}, 23);
    Plus(0x00B8_8320, 0x0100_0000, {5, 8, 9, 15, 19, 20, 21, 23}, 24);
    Plus(0x01B8_8320, 0x0400_0000, {5, 8, 9, 15, 19, 20, 21, 23, 24}, 26);
    Plus(0x05B8_8320, 0x0800_0000, {5, 8, 9, 15, 19, 20, 21, 23, 24, 26}, 27);
    Plus(0x0DB8_8320, 0x2000_0000, {5, 8, 9, 15, 19, 20, 21, 23, 24, 26, 27}, 29);
    Plus(0x2DB8_8320, 0x4000_0000, {5, 8, 9, 15, 19, 20, 21, 23, 24, 26, 27, 29}, 30);
    Plus(0x6DB8_8320, 0x8000_0000, {5, 8, 9, 15, 19, 20, 21, 23, 24, 26, 27, 29, 30}, 31);
  }

  /** zlib's constant is the mirrored generator. */
  lemma {:induction false} ReflectedGenerator()
    ensures M(0xEDB8_8320) == LOW && M(0) == {}
  {
    ReflectedTerms();
    hide P;
    assert Mirrored({5, 8, 9, 15, 19, 20, 21, 23, 24, 26, 27, 29, 30, 31}) == LOW;
    ZeroPoly();
  }

  lemma {:induction false} ZeroPoly()
    ensures P(0) == {}
  {
  }

  lemma {:induction false} ReflectedStepIs(c: bv32)
    ensures ReflectedStep(c) == Half(c) ^ Reflected(c)
  {
    hide Reflected;
  }

  lemma {:induction false} ReflectedPoly(c: bv32)
    ensures M(Reflected(c)) == if Odd(c) then LOW else {}
  {
    ReflectedGenerator();
    hide M;
  }

  lemma {:induction false} StepSum(half: Poly, odd: bool)
    ensures Add(Add(half, Term(odd, 32)), Add(half, if odd then LOW else {})) == if odd then GENERATOR else {}
  {
    LowInGenerator();
  }

  lemma {:induction false} StepPolys(c: bv32)
    ensures M(ReflectedStep(c)) == Add(M(Half(c)), M(Reflected(c)))
  {
    ReflectedStepIs(c);
    hide *;
    XorInMirror(Half(c), Reflected(c));
  }

  /** One step multiplies by x and subtracts the generator if a term x^32 came up. */
  lemma {:induction false} StepCong(c: bv32)
    ensures Cong(TimesX(M(c)), M(ReflectedStep(c)), GENERATOR)
  {
    hide *;
    StepPolys(c);
    ReflectedPoly(c);
    HalfInMirror(c);
    StepSum(M(Half(c)), Odd(c));
    OneDigit(Odd(c));
    CongBy(TimesX(M(c)), M(ReflectedStep(c)), GENERATOR, [Odd(c)]);
  }

  lemma {:induction false} FourCong(c: bv32)
    ensures Cong(Shift(M(c), 4), M(FourReflected(c)), GENERATOR)
  {
    var c1 := ReflectedStep(c);
    var c2 := ReflectedStep(c1);
    var c3 := ReflectedStep(c2);
    hide M, ReflectedStep, Cong;
    var x := M(c);
    StepCong(c);
    CongMore(x, 1, M(c1), c1);
    CongMore(x, 2, M(c2), c2);
    CongMore(x, 3, M(c3), c3);
  }

  lemma {:induction false} CongMore(x: Poly, n: nat, y: Poly, c: bv32)
    requires Cong(Shift(x, n), y, GENERATOR) && y == M(c)
    ensures Cong(Shift(x, n + 1), M(ReflectedStep(c)), GENERATOR)
  {
    hide M, ReflectedStep, Cong;
    CongTimesX(Shift(x, n), y, GENERATOR);
    StepCong(c);
    CongTrans(TimesX(Shift(x, n)), TimesX(y), M(ReflectedStep(c)), GENERATOR);
  }

  // ---------- one octet ----------

  /** The bits of an octet, least significant first. */
  ghost function LowBitsFirst(b: byte): (bits: seq<bool>)
    ensures |bits| == 8
  {
    [b & 0x01 != 0, b & 0x02 != 0, b & 0x04 != 0, b & 0x08 != 0,
     b & 0x10 != 0, b & 0x20 != 0, b & 0x40 != 0, b & 0x80 != 0]
  }

  lemma {:induction false} ReversedBits(b: byte)
    ensures |ByteBits(b)| == 8
    ensures LowBitsFirst(b) == [ByteBits(b)[7], ByteBits(b)[6], ByteBits(b)[5], ByteBits(b)[4],
      ByteBits(b)[3], ByteBits(b)[2], ByteBits(b)[1], ByteBits(b)[0]]
  {
  }

  lemma {:induction false} BitsReversed(b: byte, i: nat)
    requires i < 8
    ensures |ByteBits(b)| == 8 && LowBitsFirst(b)[i] == ByteBits(b)[7 - i]
  {
    ReversedBits(b);
    hide ByteBits, LowBitsFirst;
  }

  lemma {:induction false} ShiftMember(p: Poly, n: nat, k: nat)
    ensures k in Shift(p, n) <==> k >= n && k - n in p
  {
    if n > 0 && k > 0 {
      ShiftMember(p, n - 1, k - 1);
    }
  }

  /** In the mirror an octet stands for its bits, lowest first, above x^24. */
  lemma {:induction false} OctetInMirror(b: byte)
    ensures M(b as bv32) == Shift(PolyOf(LowBitsFirst(b)), 24)
  {
    OctetPoly(b);
    hide P, ByteBits, LowBitsFirst, PolyOf, Shift;
    EightBits(b);
    PolyOfDegree(ByteBits(b));
    PolyOfDegree(LowBitsFirst(b));
    var m, s := M(b as bv32), Shift(PolyOf(LowBitsFirst(b)), 24);
    forall k: nat
      ensures k in m <==> k in s
    {
      ShiftMember(PolyOf(LowBitsFirst(b)), 24, k);
      if 24 <= k <= 31 {
        BitsReversed(b, 31 - k);
        Coefficient(ByteBits(b), 31 - k);
        Coefficient(LowBitsFirst(b), k - 24);
      }
    }
  }

  lemma {:induction false} EightCong(c: bv32)
    ensures Cong(Shift(M(c), 8), M(FourReflected(FourReflected(c))), GENERATOR)
  {
    hide M, FourReflected, Cong;
    FourCong(c);
    CongShift(Shift(M(c), 4), M(FourReflected(c)), 4);
    ShiftTwice(M(c), 4, 4);
    FourCong(FourReflected(c));
    CongTrans(Shift(M(c), 8), Shift(M(FourReflected(c)), 4), M(FourReflected(FourReflected(c))), GENERATOR);
  }

  lemma {:induction false} CongShift(a: Poly, b: Poly, n: nat)
    requires Cong(a, b, GENERATOR)
    ensures Cong(Shift(a, n), Shift(b, n), GENERATOR)
  {
    hide Cong;
    if n > 0 {
      CongShift(a, b, n - 1);
      CongTimesX(Shift(a, n - 1), Shift(b, n - 1), GENERATOR);
    }
  }

  /** One octet: its bits, lowest first, are fed to what the register stands for. */
  lemma {:induction false} OctetCong(c: bv32, b: byte)
    ensures Cong(Fed(M(c), LowBitsFirst(b)), M(Crc32Step(c, b)), GENERATOR)
  {
    MixIs(c, b);
    hide *;
    XorInMirror(c, b as bv32);
    OctetInMirror(b);
    EightCong(Mix(c, b));
    var bits := LowBitsFirst(b);
    ShiftOfSum(M(c), Shift(PolyOf(bits), 24), 8);
    ShiftTwice(PolyOf(bits), 24, 8);
    FedIs(M(c), bits);
  }

  lemma {:induction false} FedIs(start: Poly, bits: seq<bool>)
    ensures Fed(start, bits) == Add(Shift(start, |bits|), Shift(PolyOf(bits), 32))
  {
    hide Shift, PolyOf;
  }

  lemma {:induction false} MixIs(c: bv32, b: byte)
    ensures Mix(c, b) == c ^ (b as bv32) && Crc32Step(c, b) == FourReflected(FourReflected(Mix(c, b)))
  {
    hide FourReflected;
  }

  // ---------- a whole file ----------

  /** The bits of a file, each octet least significant bit first. */
  ghost function LowBits(s: seq<byte>): seq<bool> {
    if s == [] then [] else LowBits(s[..|s| - 1]) + LowBitsFirst(s[|s| - 1])
  }

  lemma {:induction false} FedTwice(p: Poly, a: seq<bool>, b: seq<bool>)
    ensures Fed(Fed(p, a), b) == Fed(p, a + b)
    decreases |b|
  {
    if b == [] {
      assert a + b == a;
      FedNothing(Fed(p, a));
    } else {
      var n := |b| - 1;
      assert (a + b)[..|a + b| - 1] == a + b[..n];
      FedTwice(p, a, b[..n]);
      FedLast(Fed(p, a), b, n);
      FedLast(p, a + b, |a + b| - 1);
    }
  }

  lemma {:induction false} CongFed(a: Poly, b: Poly, bits: seq<bool>)
    requires Cong(a, b, GENERATOR)
    ensures Cong(Fed(a, bits), Fed(b, bits), GENERATOR)
  {
    hide Cong, Shift, PolyOf;
    CongShift(a, b, |bits|);
    CongRefl(Shift(PolyOf(bits), 32), GENERATOR);
    CongAdd(Shift(a, |bits|), Shift(b, |bits|), Shift(PolyOf(bits), 32), Shift(PolyOf(bits), 32), GENERATOR);
  }

  /** zlib's register is congruent to everything fed to it, from any start. */
  lemma {:induction false} RunCong(c: bv32, s: seq<byte>)
    ensures Cong(Fed(M(c), LowBits(s)), M(Crc32Run(c, s)), GENERATOR)
    decreases |s|
  {
    hide M, Crc32Step, Cong, LowBitsFirst, Fed;
    if s == [] {
      FedNothing(M(c));
      CongRefl(M(c), GENERATOR);
    } else {
      var n := |s| - 1;
      var before, bits := Crc32Run(c, s[..n]), LowBitsFirst(s[n]);
      RunCong(c, s[..n]);
      CongFed(Fed(M(c), LowBits(s[..n])), M(before), bits);
      FedTwice(M(c), LowBits(s[..n]), bits);
      OctetCong(before, s[n]);
      CongTrans(Fed(M(c), LowBits(s)), Fed(M(before), bits), M(Crc32Run(c, s)), GENERATOR);
    }
  }

  // ---------- the standard's definition ----------

  /** The polynomial with all terms below x^n. */
  ghost function Upto(n: nat): (p: Poly)
    ensures forall k: nat :: k in p <==> k < n
  {
    if n == 0 then {} else Upto(n - 1) + {n - 1}
  }

  /** The register is preset to ones, and its complement is taken at the end. */
  ghost const ONES: Poly := Upto(32)

  lemma {:induction false} OneMoreOne(w: bv32, n: nat)
    requires P(Half(w)) == Upto(n) && Odd(w)
    ensures P(w) == Upto(n + 1)
  {
    Unfold(w);
  }

  lemma {:induction false} Ones8()
    ensures P(0x0000_00FF) == Upto(8)
  {
    ZeroPoly();
    assert Upto(0) == {};
    hide P, Upto;
    OneMoreOne(0x0000_0001, 0);
    OneMoreOne(0x0000_0003, 1);
    OneMoreOne(0x0000_0007, 2);
    OneMoreOne(0x0000_000F, 3);
    OneMoreOne(0x0000_001F, 4);
    OneMoreOne(0x0000_003F, 5);
    OneMoreOne(0x0000_007F, 6);
    OneMoreOne(0x0000_00FF, 7);
  }

  lemma {:induction false} Ones16()
    requires P(0x0000_00FF) == Upto(8)
    ensures P(0x0000_FFFF) == Upto(16)
  {
    hide P, Upto;
    OneMoreOne(0x0000_01FF, 8);
    OneMoreOne(0x0000_03FF, 9);
    OneMoreOne(0x0000_07FF, 10);
    OneMoreOne(0x0000_0FFF, 11);
    OneMoreOne(0x0000_1FFF, 12);
    OneMoreOne(0x0000_3FFF, 13);
    OneMoreOne(0x0000_7FFF, 14);
    OneMoreOne(0x0000_FFFF, 15);
  }

  lemma {:induction false} Ones24()
    requires P(0x0000_FFFF) == Upto(16)
    ensures P(0x00FF_FFFF) == Upto(24)
  {
    hide P, Upto;
    OneMoreOne(0x0001_FFFF, 16);
    OneMoreOne(0x0003_FFFF, 17);
    OneMoreOne(0x0007_FFFF, 18);
    OneMoreOne(0x000F_FFFF, 19);
    OneMoreOne(0x001F_FFFF, 20);
    OneMoreOne(0x003F_FFFF, 21);
    OneMoreOne(0x007F_FFFF, 22);
    OneMoreOne(0x00FF_FFFF, 23);
  }

  lemma {:induction false} Ones32()
    requires P(0x00FF_FFFF) == Upto(24)
    ensures P(0xFFFF_FFFF) == Upto(32)
  {
    hide P, Upto;
    OneMoreOne(0x01FF_FFFF, 24);
    OneMoreOne(0x03FF_FFFF, 25);
    OneMoreOne(0x07FF_FFFF, 26);
    OneMoreOne(0x0FFF_FFFF, 27);
    OneMoreOne(0x1FFF_FFFF, 28);
    OneMoreOne(0x3FFF_FFFF, 29);
    OneMoreOne(0x7FFF_FFFF, 30);
    OneMoreOne(0xFFFF_FFFF, 31);
  }

  lemma {:induction false} AllOnes()
    ensures P(0xFFFF_FFFF) == ONES
  {
    hide P, Upto;
    Ones8();
    Ones16();
    Ones24();
    Ones32();
  }

  lemma {:induction false} OnesMirrored()
    ensures Mirrored(ONES) == ONES
  {
  }

  lemma {:induction false} ComplementIsXor(c: bv32)
    ensures Flip(c) == c ^ 0xFFFF_FFFF && Flip(0) == 0xFFFF_FFFF
  {
  }

  lemma {:induction false} FlipInMirror(c: bv32)
    ensures M(Flip(c)) == Add(M(c), ONES) && M(Flip(0)) == ONES
  {
    ComplementIsXor(c);
    hide *;
    AllOnes();
    OnesMirrored();
    MIs(0xFFFF_FFFF);
    XorInMirror(c, 0xFFFF_FFFF);
  }

  lemma {:induction false} MirrorInjective(a: bv32, b: bv32)
    requires M(a) == M(b)
    ensures a == b
  {
    Degree(a);
    Degree(b);
    hide P;
    MirroredTwice(P(a));
    MirroredTwice(P(b));
    Injective(a, b);
  }

  lemma {:induction false} MirroredTwice(p: Poly)
    requires Below(p, 32)
    ensures Mirrored(Mirrored(p)) == p
  {
  }

  lemma {:induction false} AddTwice(p: Poly, q: Poly)
    ensures Add(Add(p, q), q) == p
  {
  }

  /** For every file the CRC-32 from a start of 0 is the one word whose mirrored polynomial, complemented, is the
      remainder of the preset register followed by the file's bits, as RFC 1952 defines it. */
  lemma {:induction false} Crc32IsRfc1952(s: seq<byte>, w: bv32)
    ensures IsRemainder(Fed(ONES, LowBits(s)), GENERATOR, 32, Add(M(w), ONES)) <==> w == Crc32(0, s)
  {
    var run := Crc32Run(Flip(0), s);
    Crc32Is(s);
    hide *;
    FlipInMirror(run);
    AddTwice(M(run), ONES);
    RunCong(Flip(0), s);
    RegisterBelow(run);
    CongIsRemainder(Fed(ONES, LowBits(s)), M(run), GENERATOR, 32);
    if IsRemainder(Fed(ONES, LowBits(s)), GENERATOR, 32, Add(M(w), ONES)) {
      GeneratorDegree();
      RemainderUnique(Fed(ONES, LowBits(s)), GENERATOR, 32, Add(M(w), ONES), M(run));
      AddTwice(M(w), ONES);
      MirrorInjective(w, Crc32(0, s));
    }
  }

  lemma {:induction false} Crc32Is(s: seq<byte>)
    ensures Crc32(0, s) == Flip(Crc32Run(Flip(0), s))
  {
    hide Flip, Crc32Run;
  }

  lemma {:induction false} RegisterBelow(c: bv32)
    ensures forall k :: k in M(c) ==> k < 32
  {
    hide P;
  }
}
