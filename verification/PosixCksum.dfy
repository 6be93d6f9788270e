/** The POSIX `cksum` computed by `ChecksumState` is polynomial division over GF(2). */
module PosixCksum {
  import opened Bytes
  import opened Gf2
  import opened CrcTable
  import opened CrcDivision
  import opened RegisterPoly

  /** The running value after the octets of `s`, as `Update` computes it. */
  function CrcFold(crc: bv32, s: seq<byte>): bv32 {
    if s == [] then crc
    else TableStep(CrcFold(crc, s[..|s| - 1]), s[|s| - 1])
  }

  lemma {:induction false} CrcFoldConcat(crc: bv32, s: seq<byte>, t: seq<byte>)
    ensures CrcFold(crc, s + t) == CrcFold(CrcFold(crc, s), t)
  {
    if t == [] {
      assert s + t == s;
    } else {
      assert (s + t)[..|s + t| - 1] == s + t[..|t| - 1];
      CrcFoldConcat(crc, s, t[..|t| - 1]);
    }
  }

  /** The octets of a length that `Finalize` feeds in, least significant first. */
  function LengthOctets(n: nat): seq<byte> {
    if n == 0 then [] else [OctetOf(n % 256)] + LengthOctets(n / 256)
  }

  /** The file's checksum as `Finalize` leaves it. */
  function Cksum(s: seq<byte>): bv32 {
    !CrcFold(CrcFold(0, s), LengthOctets(|s|))
  }

  // ---------- the length suffix ----------

  ghost function LittleEndian(s: seq<byte>): nat {
    if s == [] then 0 else ValueOf(s[0]) + 256 * LittleEndian(s[1..])
  }

  /** The standard wants the smallest number of octets that can hold the length, at least one. */
  ghost predicate IsLengthSuffix(n: nat, s: seq<byte>) {
    s != [] && LittleEndian(s) == n && forall t :: t != [] && LittleEndian(t) == n ==> |s| <= |t|
  }

  ghost function StandardOctets(n: nat): seq<byte> {
    if n == 0 then [0] else LengthOctets(n)
  }

  lemma {:induction false} LengthOctetsValue(n: nat)
    ensures LittleEndian(LengthOctets(n)) == n
  {
    if n > 0 {
      OctetRoundTrip(n % 256);
      assert LengthOctets(n)[1..] == LengthOctets(n / 256);
      LengthOctetsValue(n / 256);
    }
  }

  lemma {:induction false} HigherOctets(low: nat, high: nat)
    requires low < 256
    ensures (low + 256 * high) / 256 == high
  {
  }

  lemma {:induction false} LengthOctetsMinimal(n: nat, t: seq<byte>)
    requires LittleEndian(t) == n
    ensures |LengthOctets(n)| <= |t|
  {
    hide ValueOf, OctetOf;
    if n > 0 {
      assert n == ValueOf(t[0]) + 256 * LittleEndian(t[1..]);
      ValueOfOctet(t[0]);
      HigherOctets(ValueOf(t[0]), LittleEndian(t[1..]));
      assert |LengthOctets(n)| == 1 + |LengthOctets(n / 256)|;
      hide LengthOctets, LittleEndian;
      LengthOctetsMinimal(n / 256, t[1..]);
    }
  }

  lemma {:induction false} StandardOctetsRight(n: nat)
    ensures IsLengthSuffix(n, StandardOctets(n))
  {
    LengthOctetsValue(n);
    if n == 0 {
      assert LittleEndian([]) == 0;
      assert [0 as byte][1..] == [];
    }
    forall t | t != [] && LittleEndian(t) == n
      ensures |StandardOctets(n)| <= |t|
    {
      if n > 0 {
        LengthOctetsMinimal(n, t);
      }
    }
  }

  lemma {:induction false} SameOctets(a: byte, b: byte, x: nat, y: nat)
    requires ValueOf(a) + 256 * x == ValueOf(b) + 256 * y
    ensures a == b && x == y
  {
    hide ValueOf, OctetOf;
    ValueOfOctet(a);
    ValueOfOctet(b);
    SameValue(a, b);
  }

  lemma {:induction false} LittleEndianInjective(s: seq<byte>, t: seq<byte>)
    requires |s| == |t| && LittleEndian(s) == LittleEndian(t)
    ensures s == t
  {
    if s != [] {
      hide ValueOf;
      SameOctets(s[0], t[0], LittleEndian(s[1..]), LittleEndian(t[1..]));
      LittleEndianInjective(s[1..], t[1..]);
      assert s == [s[0]] + s[1..] && t == [t[0]] + t[1..];
    }
  }

  /** The standard leaves no choice. */
  lemma {:induction false} LengthSuffixIff(n: nat, t: seq<byte>)
    ensures IsLengthSuffix(n, t) <==> t == StandardOctets(n)
  {
    hide LittleEndian, LengthOctets;
    StandardOctetsRight(n);
    if IsLengthSuffix(n, t) {
      LittleEndianInjective(t, StandardOctets(n));
    }
  }

  /** The empty file, for which the code emits no octet, gets the checksum of one zero octet. */
  lemma {:induction false} NoOctetIsZeroOctet(s: seq<byte>)
    ensures Cksum(s) == !CrcFold(CrcFold(0, s), StandardOctets(|s|))
  {
    if s == [] {
      TableEntry(0);
      assert CrcFold(0, [0]) == TableStep(CrcFold(0, [0 as byte][..0]), 0);
    }
  }

  // ---------- octets to bits ----------

  ghost function Bits(s: seq<byte>): seq<bool> {
    if s == [] then [] else Bits(s[..|s| - 1]) + ByteBits(s[|s| - 1])
  }

  lemma {:induction false} BitsConcat(s: seq<byte>, t: seq<byte>)
    ensures Bits(s + t) == Bits(s) + Bits(t)
  {
    if t == [] {
      assert s + t == s;
    } else {
      assert (s + t)[..|s + t| - 1] == s + t[..|t| - 1];
      BitsConcat(s, t[..|t| - 1]);
    }
  }

  lemma {:induction false} BitsAt(s: seq<byte>, i: nat)
    requires i < |s|
    ensures |Bits(s)| == 8 * |s| && Bits(s)[8 * i..8 * i + 8] == ByteBits(s[i])
  {
    hide ByteBits;
    var n := |s| - 1;
    BitsLength(s[..n]);
    EightBits(s[n]);
    assert Bits(s) == Bits(s[..n]) + ByteBits(s[n]);
    if i < n {
      BitsAt(s[..n], i);
      assert Bits(s)[8 * i..8 * i + 8] == Bits(s[..n])[8 * i..8 * i + 8];
    } else {
      assert Bits(s)[8 * i..8 * i + 8] == ByteBits(s[n]);
    }
  }

  lemma {:induction false} RegisterConcat(r: bv32, a: seq<bool>, b: seq<bool>)
    ensures Register(r, a + b) == Register(Register(r, a), b)
  {
    if b == [] {
      assert a + b == a;
    } else {
      assert (a + b)[..|a + b| - 1] == a + b[..|b| - 1];
      RegisterConcat(r, a, b[..|b| - 1]);
    }
  }

  lemma {:induction false} FoldIsRegister(crc: bv32, s: seq<byte>)
    ensures CrcFold(crc, s) == Register(crc, Bits(s))
  {
    if s != [] {
      var n := |s| - 1;
      FoldIsRegister(crc, s[..n]);
      hide TableStep;
      TableStepIsEightBits(CrcFold(crc, s[..n]), s[n]);
      RegisterConcat(crc, Bits(s[..n]), ByteBits(s[n]));
    }
  }

  // ---------- the standard's definition ----------

  /** IEEE Std 1003.1, `cksum`: the bits of the file followed by those of its length, as one polynomial. */
  ghost function Message(s: seq<byte>, length: seq<byte>): Poly {
    PolyOf(Bits(s + length))
  }

  lemma {:induction false} CksumIsRegister(s: seq<byte>)
    ensures Cksum(s) == !Register(0, Bits(s + StandardOctets(|s|)))
  {
    NoOctetIsZeroOctet(s);
    CrcFoldConcat(0, s, StandardOctets(|s|));
    FoldIsRegister(0, s + StandardOctets(|s|));
  }

  lemma {:induction false} FedFromZero(bits: seq<bool>)
    ensures Fed(P(0), bits) == Shift(PolyOf(bits), 32)
  {
    ShiftOfNothing(|bits|);
  }

  /** For every file, the value `Finalize` leaves is the complement of the one remainder of
      M(x) x^32 divided by the generator. */
  lemma {:induction false} CksumIsPosix(s: seq<byte>, length: seq<byte>)
    requires IsLengthSuffix(|s|, length)
    ensures IsRemainder(Shift(Message(s, length), 32), GENERATOR, 32, P(!Cksum(s)))
    ensures forall r :: IsRemainder(Shift(Message(s, length), 32), GENERATOR, 32, r) ==> r == P(!Cksum(s))
  {
    LengthSuffixIff(|s|, length);
    hide IsLengthSuffix, Register, Bits, Shift, PolyOf, IsRemainder, StandardOctets, Cksum, P;
    var r := Register(0, Bits(s + length));
    CksumIsRegister(s);
    ComplementTwice(r);
    RegisterIsRemainder(Bits(s + length));
    OnlyRemainder(Message(s, length), P(r));
  }

  lemma {:induction false} OnlyRemainder(m: Poly, p: Poly)
    requires IsRemainder(Shift(m, 32), GENERATOR, 32, p)
    ensures forall r :: IsRemainder(Shift(m, 32), GENERATOR, 32, r) ==> r == p
  {
    hide *;
    GeneratorDegree();
    forall t | IsRemainder(Shift(m, 32), GENERATOR, 32, t)
      ensures t == p
    {
      RemainderUnique(Shift(m, 32), GENERATOR, 32, t, p);
    }
  }

  lemma {:induction false} ComplementTwice(r: bv32)
    ensures !(!r) == r
  {
  }

  lemma {:induction false} RegisterIsRemainder(bits: seq<bool>)
    ensures IsRemainder(Shift(PolyOf(bits), 32), GENERATOR, 32, P(Register(0, bits)))
  {
    RegisterCong(0, bits);
    FedFromZero(bits);
    Degree(Register(0, bits));
    CongIsRemainder(Shift(PolyOf(bits), 32), P(Register(0, bits)), GENERATOR, 32);
  }

  // ---------- burst errors ----------

  /** `m` and `n` differ, and only within `w` consecutive bits from position `lo`. */
  ghost predicate DifferWithin(m: seq<bool>, n: seq<bool>, lo: nat, w: nat) {
    && |m| == |n| && m != n
    && forall i :: 0 <= i < |m| && m[i] != n[i] ==> lo <= i < lo + w
  }

  lemma {:induction false} BurstChangesRegister(m: seq<bool>, n: seq<bool>, lo: nat)
    requires DifferWithin(m, n, lo, 32) && lo <= |m|
    ensures Register(0, m) != Register(0, n)
  {
    if Register(0, m) == Register(0, n) {
      var r := P(Register(0, m));
      var d := BitXor(m, n);
      var i :| 0 <= i < |m| && m[i] != n[i];
      assert d[i] && d[i] in d;
      RegisterCong(0, m);
      RegisterCong(0, n);
      FedFromZero(m);
      FedFromZero(n);
      CongRefl(r, GENERATOR);
      CongDifference(Shift(PolyOf(m), 32), Shift(PolyOf(n), 32), r, GENERATOR);
      MulOfXor(m, n, {0});
      ShiftOfSum(PolyOf(m), PolyOf(n), 32);
      var q :| Shift(PolyOf(d), 32) == Mul(q, GENERATOR);
      GeneratorDegree();
      NoShortMultiple(d, lo, 32, 32, q, GENERATOR);
    }
  }

  lemma {:induction false} CongDifference(a: Poly, b: Poly, r: Poly, g: Poly)
    requires Cong(a, r, g) && Cong(b, r, g)
    ensures exists q :: Add(a, b) == Mul(q, g)
  {
    var q1 :| Add(a, r) == Mul(q1, g);
    var q2 :| Add(b, r) == Mul(q2, g);
    var q := SumOfMultiples(q1, q2, g);
    assert Add(a, b) == Add(Add(a, r), Add(b, r));
  }

  lemma {:induction false} SuffixKeepsDifference(a: seq<bool>, b: seq<bool>, z: seq<bool>, lo: nat)
    requires DifferWithin(a, b, lo, 32)
    ensures DifferWithin(a + z, b + z, lo, 32) && lo <= |a + z|
  {
    var i :| 0 <= i < |a| && a[i] != b[i];
    assert (a + z)[i] != (b + z)[i];
  }

  /** Two files of equal length that differ only within 32 consecutive bits have different checksums. */
  lemma {:induction false} BurstDetected(s: seq<byte>, t: seq<byte>, lo: nat)
    requires |s| == |t|
    requires DifferWithin(Bits(s), Bits(t), lo, 32)
    ensures Cksum(s) != Cksum(t)
  {
    hide *;
    var z := StandardOctets(|s|);
    BitsConcat(s, z);
    BitsConcat(t, z);
    SuffixKeepsDifference(Bits(s), Bits(t), Bits(z), lo);
    BurstChangesRegister(Bits(s + z), Bits(t + z), lo);
    CksumIsRegister(s);
    CksumIsRegister(t);
    ComplementTwice(Register(0, Bits(s + z)));
    ComplementTwice(Register(0, Bits(t + z)));
  }

  lemma {:induction false} BitOfOctet(s: seq<byte>, i: nat)
    requires i < 8 * |s|
    ensures |Bits(s)| == 8 * |s| && |ByteBits(s[i / 8])| == 8 && Bits(s)[i] == ByteBits(s[i / 8])[i % 8]
  {
    hide Bits, ByteBits;
    BitsAt(s, i / 8);
    EightBits(s[i / 8]);
    assert Bits(s)[i] == Bits(s)[8 * (i / 8)..8 * (i / 8) + 8][i % 8];
  }

  lemma {:induction false} BitsDiffer(s: seq<byte>, t: seq<byte>)
    requires |s| == |t| && s != t
    ensures Bits(s) != Bits(t)
  {
    hide *;
    var k :| 0 <= k < |s| && s[k] != t[k];
    BitsAt(s, k);
    BitsAt(t, k);
    OctetBitsDiffer(s[k], t[k]);
  }

  /** In particular when they differ only within four consecutive octets. */
  lemma {:induction false} FourOctetBurstDetected(s: seq<byte>, t: seq<byte>, lo: nat)
    requires |s| == |t| && s != t
    requires forall i :: 0 <= i < |s| && s[i] != t[i] ==> lo <= i < lo + 4
    ensures Cksum(s) != Cksum(t)
  {
    hide Bits, ByteBits, Cksum;
    BitsDiffer(s, t);
    BitsLength(s);
    BitsLength(t);
    forall i | 0 <= i < |Bits(s)| && Bits(s)[i] != Bits(t)[i]
      ensures 8 * lo <= i < 8 * lo + 32
    {
      BitOfOctet(s, i);
      BitOfOctet(t, i);
    }
    BurstDetected(s, t, 8 * lo);
  }

  lemma {:induction false} BitsLength(s: seq<byte>)
    ensures |Bits(s)| == 8 * |s|
  {
    if s != [] {
      BitsLength(s[..|s| - 1]);
      EightBits(s[|s| - 1]);
    }
  }

  lemma {:induction false} OctetBitsDiffer(a: byte, b: byte)
    requires a != b
    ensures ByteBits(a) != ByteBits(b)
  {
    hide *;
    if ByteBits(a) == ByteBits(b) {
      OctetPoly(a);
      OctetPoly(b);
      Injective(a as bv32, b as bv32);
      SameOctet(a, b);
    }
  }

  lemma {:induction false} SameOctet(a: byte, b: byte)
    requires a as bv32 == b as bv32
    ensures a == b
  {
  }

  lemma {:induction false} WordOfNumber(w: bv32)
    ensures (w as int) as bv32 == w
  {
  }

  /** Different checksums print differently. */
  lemma {:induction false} CksumTextInjective(a: bv32, b: bv32)
    requires Decimal(a as nat) == Decimal(b as nat)
    ensures a == b
  {
    hide Decimal;
    DecimalRoundTrip(a as nat);
    DecimalRoundTrip(b as nat);
    WordOfNumber(a);
    WordOfNumber(b);
  }
}
