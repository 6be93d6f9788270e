/** A 32-bit register read as a polynomial of degree below 32: bit k is the coefficient of x^k. */
module RegisterPoly {
  import opened Gf2

  function Half(r: bv32): bv32 { r >> 1 }

  predicate Odd(r: bv32) { r & 1 != 0 }

  ghost function Constant(b: bool): Poly { if b then {0} else {} }

  ghost function P(r: bv32): Poly
    decreases r
  {
    if r == 0 then {} else Add(TimesX(P(Half(r))), Constant(Odd(r)))
  }

  lemma {:induction false} Unfold(r: bv32)
    ensures P(r) == Add(TimesX(P(Half(r))), Constant(Odd(r)))
  {
  }

  lemma {:induction false} HalfLess(r: bv32)
    requires r != 0
    ensures Half(r) < r
  {
  }

  lemma {:induction false} HalfOfXor(a: bv32, b: bv32)
    ensures Half(a ^ b) == Half(a) ^ Half(b)
    ensures Odd(a ^ b) <==> Odd(a) != Odd(b)
  {
  }

  lemma {:induction false} Columns(p: Poly, q: Poly, b: bool, c: bool)
    ensures Add(Add(TimesX(p), Constant(b)), Add(TimesX(q), Constant(c))) == Add(TimesX(Add(p, q)), Constant(b != c))
  {
  }

  lemma {:induction false} XorOfPolys(pa: Poly, pb: Poly, pc: Poly, ha: Poly, hb: Poly, hc: Poly, oa: bool,
      ob: bool, oc: bool)
    requires pa == Add(TimesX(ha), Constant(oa))
    requires pb == Add(TimesX(hb), Constant(ob))
    requires pc == Add(TimesX(hc), Constant(oc))
    requires hc == Add(ha, hb) && oc == (oa != ob)
    ensures pc == Add(pa, pb)
  {
    Columns(ha, hb, oa, ob);
  }

  lemma {:induction false} XorStep(a: bv32, b: bv32, c: bv32)
    requires P(Half(c)) == Add(P(Half(a)), P(Half(b)))
    requires Odd(c) == (Odd(a) != Odd(b))
    ensures P(c) == Add(P(a), P(b))
  {
    hide *;
    Unfold(a);
    Unfold(b);
    Unfold(c);
    XorOfPolys(P(a), P(b), P(c), P(Half(a)), P(Half(b)), P(Half(c)), Odd(a), Odd(b), Odd(c));
  }

  lemma {:induction false} XorZero(b: bv32)
    ensures P(0 ^ b) == Add(P(0), P(b))
  {
    assert 0 ^ b == b;
  }

  lemma {:induction false} XorIsAdd(a: bv32, b: bv32)
    ensures P(a ^ b) == Add(P(a), P(b))
    decreases a
  {
    hide *;
    if a == 0 {
      XorZero(b);
    } else {
      HalfLess(a);
      HalfOfXor(a, b);
      XorIsAdd(Half(a), Half(b));
      XorStep(a, b, a ^ b);
    }
  }

  lemma {:induction false} NonZero(r: bv32)
    requires r != 0
    ensures P(r) != {}
    decreases r
  {
    if Odd(r) {
      assert 0 in P(r);
    } else {
      NonZero(Half(r));
      var k :| k in P(Half(r));
      assert k + 1 in P(r);
    }
  }

  /** Different registers are different polynomials. */
  lemma {:induction false} Injective(a: bv32, b: bv32)
    requires P(a) == P(b)
    ensures a == b
  {
    if a != b {
      XorIsAdd(a, b);
      NonZero(a ^ b);
    }
  }

  lemma {:induction false} DoubleHalf(r: bv32, odd: bool, d: bv32)
    requires r & 0x8000_0000 == 0
    requires d == (r << 1) ^ (if odd then 1 else 0)
    ensures Half(d) == r && Odd(d) == odd
  {
  }

  /** Shifting a bit in from the right multiplies by x, as long as no bit falls out on the left. */
  lemma {:induction false} Append(r: bv32, odd: bool, d: bv32)
    requires r & 0x8000_0000 == 0
    requires d == (r << 1) ^ (if odd then 1 else 0)
    ensures P(d) == Add(TimesX(P(r)), Constant(odd))
  {
    DoubleHalf(r, odd, d);
    Unfold(d);
  }

  lemma {:induction false} ShiftIsTimesX(r: bv32)
    requires r & 0x8000_0000 == 0
    ensures P(r << 1) == TimesX(P(r))
  {
    hide *;
    Append(r, false, r << 1);
    NoConstant(P(r));
  }

  lemma {:induction false} NoConstant(p: Poly)
    ensures Add(TimesX(p), Constant(false)) == TimesX(p)
  {
  }

  /** `r` has at most `n` bits. */
  predicate Fits(r: bv32, n: nat) {
    if n == 0 then r == 0 else Fits(Half(r), n - 1)
  }

  lemma {:induction false} FourHalves(r: bv32)
    ensures Half(Half(Half(Half(r)))) == r >> 4
  {
  }

  lemma {:induction false} FourMore(r: bv32, n: nat)
    requires Fits(r >> 4, n)
    ensures Fits(r, n + 4)
  {
    FourHalves(r);
    hide Half;
    assert Fits(Half(Half(Half(r))), n + 1);
    assert Fits(Half(Half(r)), n + 2);
    assert Fits(Half(r), n + 3);
  }

  lemma {:induction false} AllFit(r: bv32)
    ensures Fits(r, 32)
  {
    var r1 := r >> 4;
    var r2 := r1 >> 4;
    var r3 := r2 >> 4;
    var r4 := r3 >> 4;
    var r5 := r4 >> 4;
    var r6 := r5 >> 4;
    var r7 := r6 >> 4;
    assert r7 >> 4 == 0;
    FourMore(r7, 0);
    FourMore(r6, 4);
    FourMore(r5, 8);
    FourMore(r4, 12);
    FourMore(r3, 16);
    FourMore(r2, 20);
    FourMore(r1, 24);
    FourMore(r, 28);
  }

  ghost predicate Below(p: Poly, n: nat) {
    forall e :: e in p ==> e < n
  }

  lemma {:induction false} BelowStep(h: Poly, odd: bool, n: nat)
    requires Below(h, n)
    ensures Below(Add(TimesX(h), Constant(odd)), n + 1)
  {
  }

  lemma {:induction false} FitsNothing(r: bv32)
    requires Fits(r, 0)
    ensures Below(P(r), 0)
  {
  }

  lemma {:induction false} FitsHalf(r: bv32, n: nat)
    requires n > 0 && Fits(r, n)
    ensures Fits(Half(r), n - 1)
  {
  }

  lemma {:induction false} BitsBelow(r: bv32, n: nat)
    requires Fits(r, n)
    ensures Below(P(r), n)
    decreases n
  {
    hide *;
    if n == 0 {
      FitsNothing(r);
    } else {
      FitsHalf(r, n);
      BitsBelow(Half(r), n - 1);
      BelowStep(P(Half(r)), Odd(r), n - 1);
      Unfold(r);
    }
  }

  lemma {:induction false} Degree(r: bv32)
    ensures Below(P(r), 32)
  {
    AllFit(r);
    BitsBelow(r, 32);
  }

  // ---------- particular registers ----------

  lemma {:induction false} Double(r: bv32, e: nat)
    requires r & 0x8000_0000 == 0 && P(r) == {e}
    ensures P(r << 1) == {e + 1}
  {
    ShiftIsTimesX(r);
  }

  /** The terms x^0 to x^31. */
  lemma {:induction false} Monomials()
    ensures P(0x0000_0001) == {0}
    ensures P(0x0000_0002) == {1}
    ensures P(0x0000_0004) == {2}
    ensures P(0x0000_0010) == {4}
    ensures P(0x0000_0020) == {5}
    ensures P(0x0000_0080) == {7}
    ensures P(0x0000_0100) == {8}
    ensures P(0x0000_0400) == {10}
    ensures P(0x0000_0800) == {11}
    ensures P(0x0000_1000) == {12}
    ensures P(0x0001_0000) == {16}
    ensures P(0x0040_0000) == {22}
    ensures P(0x0080_0000) == {23}
    ensures P(0x0400_0000) == {26}
    ensures P(0x8000_0000) == {31}
  {
    Unfold(1);
    Double(0x0000_0001, 0);
    Double(0x0000_0002, 1);
    Double(0x0000_0004, 2);
    Double(0x0000_0008, 3);
    Double(0x0000_0010, 4);
    Double(0x0000_0020, 5);
    Double(0x0000_0040, 6);
    Double(0x0000_0080, 7);
    Double(0x0000_0100, 8);
    Double(0x0000_0200, 9);
    Double(0x0000_0400, 10);
    Double(0x0000_0800, 11);
    Double(0x0000_1000, 12);
    Double(0x0000_2000, 13);
    Double(0x0000_4000, 14);
    Double(0x0000_8000, 15);
    Double(0x0001_0000, 16);
    Double(0x0002_0000, 17);
    Double(0x0004_0000, 18);
    Double(0x0008_0000, 19);
    Double(0x0010_0000, 20);
    Double(0x0020_0000, 21);
    Double(0x0040_0000, 22);
    Double(0x0080_0000, 23);
    Double(0x0100_0000, 24);
    Double(0x0200_0000, 25);
    Double(0x0400_0000, 26);
    Double(0x0800_0000, 27);
    Double(0x1000_0000, 28);
    Double(0x2000_0000, 29);
    Double(0x4000_0000, 30);
  }

  lemma {:induction false} Plus(a: bv32, b: bv32, p: Poly, e: nat)
    requires P(a) == p && P(b) == {e} && e !in p
    ensures P(a ^ b) == p + {e}
  {
    XorIsAdd(a, b);
  }

  lemma {:induction false} LowHalf()
    ensures P(0x0000_1DB7) == {12, 11, 10, 8, 7, 5, 4, 2, 1, 0}
  {
    hide *;
    Monomials();
    Plus(0x0000_0001, 0x0000_0002, {0}, 1);
    Plus(0x0000_0003, 0x0000_0004, {0, 1}, 2);
    Plus(0x0000_0007, 0x0000_0010, {0, 1, 2}, 4);
    Plus(0x0000_0017, 0x0000_0020, {0, 1, 2, 4}, 5);
    Plus(0x0000_0037, 0x0000_0080, {0, 1, 2, 4, 5}, 7);
    Plus(0x0000_00B7, 0x0000_0100, {0, 1, 2, 4, 5, 7}, 8);
    Plus(0x0000_01B7, 0x0000_0400, {0, 1, 2, 4, 5, 7, 8}, 10);
    Plus(0x0000_05B7, 0x0000_0800, {0, 1, 2, 4, 5, 7, 8, 10}, 11);
    Plus(0x0000_0DB7, 0x0000_1000, {0, 1, 2, 4, 5, 7, 8, 10, 11}, 12);
  }

  /** The generator's terms below x^32. */
  lemma {:induction false} LowTerms()
    ensures P(0x04C1_1DB7) == {26, 23, 22, 16, 12, 11, 10, 8, 7, 5, 4, 2, 1, 0}
  {
    hide *;
    Monomials();
    LowHalf();
    Plus(0x0000_1DB7, 0x0001_0000, {0, 1, 2, 4, 5, 7, 8, 10, 11, 12}, 16);
    Plus(0x0001_1DB7, 0x0040_0000, {0, 1, 2, 4, 5, 7, 8, 10, 11, 12, 16}, 22);
    Plus(0x0041_1DB7, 0x0080_0000, {0, 1, 2, 4, 5, 7, 8, 10, 11, 12, 16, 22}, 23);
    Plus(0x00C1_1DB7, 0x0400_0000, {0, 1, 2, 4, 5, 7, 8, 10, 11, 12, 16, 22, 23}, 26);
  }
}
