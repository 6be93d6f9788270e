/** Polynomials over GF(2): division with remainder, and what a multiple of a
    polynomial with a constant term can look like. */
module Gf2 {

  /** A polynomial is the set of the exponents whose coefficient is 1. */
  type Poly = set<nat>

  ghost function Add(p: Poly, q: Poly): Poly {
    (p - q) + (q - p)
  }

  ghost function TimesX(p: Poly): (r: Poly)
    ensures forall k: nat :: k in r <==> k >= 1 && k - 1 in p
  {
    set k | k in p :: k + 1
  }

  ghost function Shift(p: Poly, n: nat): Poly {
    if n == 0 then p else TimesX(Shift(p, n - 1))
  }

  /** The polynomial whose coefficients are `bits`, leading coefficient first. */
  ghost function PolyOf(bits: seq<bool>): Poly {
    Mul(bits, {0})
  }

  /** The product of the polynomial with coefficients `q` (leading first) and `g`, by Horner's rule. */
  ghost function Mul(q: seq<bool>, g: Poly): Poly {
    if q == [] then {}
    else
      var n := |q| - 1;
      Add(TimesX(Mul(q[..n], g)), if q[n] then g else {})
  }

  /** `r` is a remainder of `a` on division by the polynomial `g` of degree `deg`. */
  ghost predicate IsRemainder(a: Poly, g: Poly, deg: nat, r: Poly) {
    && (forall k :: k in r ==> k < deg)
    && (exists q :: a == Add(Mul(q, g), r))
  }

  ghost predicate HasDegree(g: Poly, deg: nat) {
    deg in g && forall k :: k in g ==> k <= deg
  }

  function Zeros(n: nat): (z: seq<bool>)
    ensures |z| == n && forall i :: 0 <= i < n ==> !z[i]
  {
    seq(n, _ => false)
  }

  function BitXor(a: seq<bool>, b: seq<bool>): (c: seq<bool>)
    requires |a| == |b|
    ensures |c| == |a| && forall i :: 0 <= i < |a| ==> c[i] == (a[i] != b[i])
  {
    seq(|a|, i requires 0 <= i < |a| => a[i] != b[i])
  }

  // ---------- products ----------

  lemma {:induction false} MulOfZeros(q: seq<bool>, g: Poly)
    requires forall i :: 0 <= i < |q| ==> !q[i]
    ensures Mul(q, g) == {}
  {
    if q != [] {
      MulOfZeros(q[..|q| - 1], g);
    }
  }

  lemma {:induction false} LeadingZeros(z: nat, q: seq<bool>, g: Poly)
    ensures Mul(Zeros(z) + q, g) == Mul(q, g)
  {
    var zq := Zeros(z) + q;
    if q == [] {
      MulOfZeros(zq, g);
    } else {
      assert zq[..|zq| - 1] == Zeros(z) + q[..|q| - 1];
      LeadingZeros(z, q[..|q| - 1], g);
    }
  }

  lemma {:induction false} TrailingZeros(q: seq<bool>, z: nat, g: Poly)
    ensures Mul(q + Zeros(z), g) == Shift(Mul(q, g), z)
  {
    var qz := q + Zeros(z);
    if z == 0 {
      assert qz == q;
    } else {
      assert qz[..|qz| - 1] == q + Zeros(z - 1);
      TrailingZeros(q, z - 1, g);
    }
  }

  lemma {:induction false} MulOfXor(a: seq<bool>, b: seq<bool>, g: Poly)
    requires |a| == |b|
    ensures Mul(BitXor(a, b), g) == Add(Mul(a, g), Mul(b, g))
  {
    if a != [] {
      var n := |a| - 1;
      var c := BitXor(a, b);
      assert c[..n] == BitXor(a[..n], b[..n]);
      MulOfXor(a[..n], b[..n], g);
    }
  }

  /** Multiples of `g` are closed under addition. */
  lemma SumOfMultiples(q1: seq<bool>, q2: seq<bool>, g: Poly) returns (q: seq<bool>)
    ensures Mul(q, g) == Add(Mul(q1, g), Mul(q2, g))
  {
    var a, b := Zeros(|q2|) + q1, Zeros(|q1|) + q2;
    LeadingZeros(|q2|, q1, g);
    LeadingZeros(|q1|, q2, g);
    MulOfXor(a, b, g);
    q := BitXor(a, b);
  }

  lemma {:induction false} ShiftOfSum(p: Poly, q: Poly, n: nat)
    ensures Shift(Add(p, q), n) == Add(Shift(p, n), Shift(q, n))
  {
    if n > 0 {
      ShiftOfSum(p, q, n - 1);
    }
  }

  // ---------- degrees ----------

  lemma {:induction false} PolyOfDegree(bits: seq<bool>)
    ensures forall k :: k in PolyOf(bits) ==> k < |bits|
  {
    if bits != [] {
      var init := bits[..|bits| - 1];
      PolyOfDegree(init);
      assert forall k :: k in Mul(init, {0}) ==> k in PolyOf(init);
    }
  }

  /** A coefficient of `PolyOf` is the bit at the mirrored position. */
  lemma {:induction false} Coefficient(bits: seq<bool>, k: nat)
    requires k < |bits|
    ensures k in PolyOf(bits) <==> bits[|bits| - 1 - k]
  {
    if k > 0 {
      Coefficient(bits[..|bits| - 1], k - 1);
    }
  }

  /** The degree of a non-zero multiple of `g` is at least that of `g`. */
  lemma {:induction false} MultipleDegree(q: seq<bool>, g: Poly, deg: nat)
    requires HasDegree(g, deg) && true in q
    ensures exists k :: k >= deg && k in Mul(q, g)
  {
    var n := |q| - 1;
    if true in q[..n] {
      MultipleDegree(q[..n], g, deg);
      var k :| k >= deg && k in Mul(q[..n], g);
      assert k + 1 in Mul(q, g);
    } else {
      MulOfZeros(q[..n], g);
      assert q[n];
      assert deg in Mul(q, g);
    }
  }

  /** There is only one remainder. */
  lemma RemainderUnique(a: Poly, g: Poly, deg: nat, r1: Poly, r2: Poly)
    requires HasDegree(g, deg)
    requires IsRemainder(a, g, deg, r1) && IsRemainder(a, g, deg, r2)
    ensures r1 == r2
  {
    var q1 :| a == Add(Mul(q1, g), r1);
    var q2 :| a == Add(Mul(q2, g), r2);
    var q := SumOfMultiples(q1, q2, g);
    forall k: nat
      ensures k in Mul(q, g) <==> (k in r1) != (k in r2)
    {
      assert k in a <==> (k in Mul(q1, g)) != (k in r1);
      assert k in a <==> (k in Mul(q2, g)) != (k in r2);
    }
    if true in q {
      MultipleDegree(q, g, deg);
      assert false;
    }
    MulOfZeros(q, g);
  }

  /** If g has a constant term and divides x^n times p, it divides p. */
  lemma {:induction false} DivideByX(p: Poly, n: nat, q: seq<bool>, g: Poly) returns (q': seq<bool>)
    requires 0 in g
    requires Shift(p, n) == Mul(q, g)
    ensures p == Mul(q', g)
    decreases n
  {
    if n == 0 {
      q' := q;
    } else if q == [] {
      TimesXInjective(Shift(p, n - 1), {});
      q' := DivideByX(p, n - 1, [], g);
    } else {
      var m := |q| - 1;
      assert 0 !in Mul(q, g);
      assert !q[m];
      assert Mul(q, g) == TimesX(Mul(q[..m], g));
      TimesXInjective(Shift(p, n - 1), Mul(q[..m], g));
      q' := DivideByX(p, n - 1, q[..m], g);
    }
  }

  lemma TimesXInjective(p: Poly, q: Poly)
    requires TimesX(p) == TimesX(q)
    ensures p == q
  {
    forall k: nat
      ensures k in p <==> k in q
    {
      assert k in p <==> k + 1 in TimesX(p);
      assert k in q <==> k + 1 in TimesX(q);
    }
  }

  /** The bits outside of a window that holds all ones only shift the polynomial of the window. */
  lemma {:induction false} WindowPoly(d: seq<bool>, lo: nat, hi: nat)
    requires lo <= hi <= |d|
    requires forall i :: 0 <= i < |d| && d[i] ==> lo <= i < hi
    ensures PolyOf(d) == Shift(PolyOf(d[lo..hi]), |d| - hi)
  {
    hide Mul, Shift;
    var e, tail := d[lo..hi], |d| - hi;
    assert d == Zeros(lo) + (e + Zeros(tail));
    LeadingZeros(lo, e + Zeros(tail), {0});
    TrailingZeros(e, tail, {0});
  }

  /** A multiple that is shorter than the degree is zero. */
  lemma {:induction false} ShortMultipleIsZero(e: seq<bool>, q: seq<bool>, g: Poly, deg: nat)
    requires HasDegree(g, deg) && |e| <= deg && PolyOf(e) == Mul(q, g)
    ensures PolyOf(e) == {}
  {
    hide Mul, HasDegree;
    PolyOfDegree(e);
    if true in q {
      MultipleDegree(q, g, deg);
      assert false;
    }
    MulOfZeros(q, g);
  }

  /** A polynomial with a constant term, of degree `deg`, divides no error pattern that
      fits in `deg` consecutive bits, however many zero bits surround the pattern. */
  lemma {:induction false} NoShortMultiple(d: seq<bool>, lo: nat, deg: nat, extra: nat, q: seq<bool>, g: Poly)
    requires HasDegree(g, deg) && 0 in g
    requires lo <= |d|
    requires forall i :: 0 <= i < |d| && d[i] ==> lo <= i < lo + deg
    requires Shift(PolyOf(d), extra) == Mul(q, g)
    ensures true !in d
  {
    hide PolyOf, Mul, Shift, HasDegree;
    var hi := if lo + deg <= |d| then lo + deg else |d|;
    WindowPoly(d, lo, hi);
    ShiftTwice(PolyOf(d[lo..hi]), |d| - hi, extra);
    var q' := DivideByX(PolyOf(d[lo..hi]), |d| - hi + extra, q, g);
    ShortMultipleIsZero(d[lo..hi], q', g, deg);
    NoneSet(d[lo..hi]);
    assert forall j :: 0 <= j < hi - lo ==> d[lo..hi][j] == d[lo + j];
    assert forall i :: lo <= i < hi ==> d[i] == d[lo..hi][i - lo];
  }

  lemma {:induction false} NoneSet(e: seq<bool>)
    requires PolyOf(e) == {}
    ensures true !in e
  {
    forall i | 0 <= i < |e|
      ensures !e[i]
    {
      Coefficient(e, |e| - 1 - i);
    }
  }

  lemma {:induction false} ShiftTwice(p: Poly, m: nat, n: nat)
    ensures Shift(Shift(p, m), n) == Shift(p, m + n)
  {
    if n > 0 {
      ShiftTwice(p, m, n - 1);
    }
  }

  // ---------- congruence modulo g ----------

  /** `a` and `b` differ by a multiple of `g`. */
  ghost predicate Cong(a: Poly, b: Poly, g: Poly) {
    exists q :: Add(a, b) == Mul(q, g)
  }

  lemma CongBy(a: Poly, b: Poly, g: Poly, q: seq<bool>)
    requires Add(a, b) == Mul(q, g)
    ensures Cong(a, b, g)
  {
  }

  lemma CongRefl(a: Poly, g: Poly)
    ensures Cong(a, a, g)
  {
    CongBy(a, a, g, []);
  }

  /** Congruences can be added. */
  lemma CongAdd(a: Poly, b: Poly, c: Poly, d: Poly, g: Poly)
    requires Cong(a, b, g) && Cong(c, d, g)
    ensures Cong(Add(a, c), Add(b, d), g)
  {
    var q1 :| Add(a, b) == Mul(q1, g);
    var q2 :| Add(c, d) == Mul(q2, g);
    var q := SumOfMultiples(q1, q2, g);
    Exchange(a, b, c, d);
    CongBy(Add(a, c), Add(b, d), g, q);
  }

  lemma Exchange(a: Poly, b: Poly, c: Poly, d: Poly)
    ensures Add(Add(a, c), Add(b, d)) == Add(Add(a, b), Add(c, d))
  {
  }

  lemma CongTrans(a: Poly, b: Poly, c: Poly, g: Poly)
    requires Cong(a, b, g) && Cong(b, c, g)
    ensures Cong(a, c, g)
  {
    var q1 :| Add(a, b) == Mul(q1, g);
    var q2 :| Add(b, c) == Mul(q2, g);
    var q := SumOfMultiples(q1, q2, g);
    assert Add(a, c) == Add(Add(a, b), Add(b, c));
    CongBy(a, c, g, q);
  }

  lemma CongTimesX(a: Poly, b: Poly, g: Poly)
    requires Cong(a, b, g)
    ensures Cong(TimesX(a), TimesX(b), g)
  {
    var q :| Add(a, b) == Mul(q, g);
    var qx := q + [false];
    assert qx[..|qx| - 1] == q;
    assert Add(TimesX(a), TimesX(b)) == TimesX(Add(a, b)) == Mul(qx, g);
    CongBy(TimesX(a), TimesX(b), g, qx);
  }

  /** A congruent polynomial of low degree is the remainder. */
  lemma CongIsRemainder(a: Poly, r: Poly, g: Poly, deg: nat)
    requires Cong(a, r, g) && forall k :: k in r ==> k < deg
    ensures IsRemainder(a, g, deg, r)
  {
    var q :| Add(a, r) == Mul(q, g);
    assert a == Add(Mul(q, g), r);
  }
}
