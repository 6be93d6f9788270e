/** The two running checksums taken from zlib. */
module Zlib {
  import opened Bytes

  // ---------- Adler-32: RFC 1950, sections 2.2 and 8.2 ----------

  const BASE := 65521

  /** The value zlib starts from: s1 = 1, s2 = 0. */
  const ADLER_START: nat := 1

  function AdlerStep(adler: nat, b: byte): nat {
    var s1 := (adler % 0x1_0000 + ValueOf(b)) % BASE;
    var s2 := (adler / 0x1_0000 + s1) % BASE;
    s2 * 0x1_0000 + s1
  }

  /** zlib's `adler32(adler, s, |s|)`. */
  function Adler32(adler: nat, s: seq<byte>): nat {
    if s == [] then adler else AdlerStep(Adler32(adler, s[..|s| - 1]), s[|s| - 1])
  }

  lemma {:induction false} Adler32Concat(adler: nat, s: seq<byte>, t: seq<byte>)
    ensures Adler32(adler, s + t) == Adler32(Adler32(adler, s), t)
  {
    if t == [] {
      assert s + t == s;
    } else {
      assert (s + t)[..|s + t| - 1] == s + t[..|t| - 1];
      Adler32Concat(adler, s, t[..|t| - 1]);
    }
  }

  /** One more than the sum of all octets. */
  ghost function Sum1(s: seq<byte>): nat {
    if s == [] then 1 else Sum1(s[..|s| - 1]) + ValueOf(s[|s| - 1])
  }

  /** The sum of the first sums of all non-empty prefixes. */
  ghost function Sum2(s: seq<byte>): nat {
    if s == [] then 0 else Sum2(s[..|s| - 1]) + Sum1(s)
  }

  /** The definition of RFC 1950: both sums are reduced only once, at the end. */
  lemma {:induction false} AdlerIsRfc1950(s: seq<byte>)
    ensures Adler32(ADLER_START, s) == Sum2(s) % BASE * 0x1_0000 + Sum1(s) % BASE
    ensures Adler32(ADLER_START, s) < 0x1_0000_0000
  {
    hide AdlerStep, ValueOf;
    if s != [] {
      var n := |s| - 1;
      AdlerIsRfc1950(s[..n]);
      AdlerStepOnSums(Sum1(s[..n]), Sum2(s[..n]), s[n]);
    }
  }

  lemma {:induction false} AdlerStepOnSums(a: nat, b: nat, d: byte)
    ensures AdlerStep(b % BASE * 0x1_0000 + a % BASE, d)
         == (b + a + ValueOf(d)) % BASE * 0x1_0000 + (a + ValueOf(d)) % BASE
  {
    hide ValueOf;
    Unpack(a % BASE, b % BASE);
    var x := ValueOf(d);
    ReduceLater(a, x);
    ReduceLater(b, (a + x) % BASE);
    ReduceLater(a + x, b);
  }

  lemma {:induction false} Unpack(low: nat, high: nat)
    requires low < 0x1_0000
    ensures (high * 0x1_0000 + low) % 0x1_0000 == low && (high * 0x1_0000 + low) / 0x1_0000 == high
  {
  }

  lemma {:induction false} ReduceLater(a: nat, b: nat)
    ensures (a % BASE + b) % BASE == (a + b) % BASE
  {
  }

  // ---------- CRC-32: RFC 1952, section 8 ----------

  function Reflected(c: bv32): bv32 {
    if c & 1 != 0 then 0xEDB8_8320 else 0
  }

  function ReflectedStep(c: bv32): bv32 {
    (c >> 1) ^ Reflected(c)
  }

  function FourReflected(c: bv32): bv32 {
    ReflectedStep(ReflectedStep(ReflectedStep(ReflectedStep(c))))
  }

  function Crc32Step(c: bv32, b: byte): bv32 {
    FourReflected(FourReflected(Mix(c, b)))
  }

  function Mix(c: bv32, b: byte): bv32 {
    c ^ (b as bv32)
  }

  function Flip(c: bv32): bv32 {
    !c
  }

  function Crc32Run(c: bv32, s: seq<byte>): bv32 {
    if s == [] then c else Crc32Step(Crc32Run(c, s[..|s| - 1]), s[|s| - 1])
  }

  /** zlib's `crc32(crc, s, |s|)`: the running value is complemented before and after. */
  function Crc32(crc: bv32, s: seq<byte>): bv32 {
    Flip(Crc32Run(Flip(crc), s))
  }

  lemma {:induction false} Crc32RunConcat(c: bv32, s: seq<byte>, t: seq<byte>)
    ensures Crc32Run(c, s + t) == Crc32Run(Crc32Run(c, s), t)
  {
    hide Crc32Step;
    if t == [] {
      assert s + t == s;
    } else {
      assert (s + t)[..|s + t| - 1] == s + t[..|t| - 1];
      Crc32RunConcat(c, s, t[..|t| - 1]);
    }
  }

  lemma {:induction false} FlipTwice(c: bv32)
    ensures Flip(Flip(c)) == c
  {
  }

  lemma {:induction false} Crc32Concat(crc: bv32, s: seq<byte>, t: seq<byte>)
    ensures Crc32(crc, s + t) == Crc32(Crc32(crc, s), t)
  {
    hide Crc32Run, Flip;
    Crc32RunConcat(Flip(crc), s, t);
    FlipTwice(Crc32Run(Flip(crc), s));
  }

  /** A step can be undone: the top bit tells which bit fell out. */
  function UndoStep(c: bv32): bv32 {
    if c & 0x8000_0000 != 0 then ((c ^ 0xEDB8_8320) << 1) | 1 else c << 1
  }

  lemma {:induction false} Undo(c: bv32)
    ensures UndoStep(ReflectedStep(c)) == c
  {
  }

  lemma {:induction false} FourInjective(c: bv32, d: bv32)
    requires FourReflected(c) == FourReflected(d)
    ensures c == d
  {
    hide ReflectedStep, UndoStep;
    var c1, d1 := ReflectedStep(c), ReflectedStep(d);
    var c2, d2 := ReflectedStep(c1), ReflectedStep(d1);
    var c3, d3 := ReflectedStep(c2), ReflectedStep(d2);
    Undo(c);
    Undo(d);
    Undo(c1);
    Undo(d1);
    Undo(c2);
    Undo(d2);
    Undo(c3);
    Undo(d3);
  }

  lemma {:induction false} MixTwice(c: bv32, b: byte)
    ensures Mix(Mix(c, b), b) == c
  {
  }

  lemma {:induction false} StepInjective(c: bv32, d: bv32, b: byte)
    requires Crc32Step(c, b) == Crc32Step(d, b)
    ensures c == d
  {
    hide FourReflected, Mix;
    FourInjective(FourReflected(Mix(c, b)), FourReflected(Mix(d, b)));
    FourInjective(Mix(c, b), Mix(d, b));
    MixTwice(c, b);
    MixTwice(d, b);
  }

  lemma {:induction false} RunInjective(c: bv32, d: bv32, s: seq<byte>)
    requires Crc32Run(c, s) == Crc32Run(d, s)
    ensures c == d
    decreases |s|
  {
    hide Crc32Step;
    if s != [] {
      var n := |s| - 1;
      StepInjective(Crc32Run(c, s[..n]), Crc32Run(d, s[..n]), s[n]);
      RunInjective(c, d, s[..n]);
    }
  }

  /** The running value the constructor leaves uninitialised matters for every file: the result is the
      file's CRC-32 if and only if the start happened to be 0. */
  lemma {:induction false} Crc32RightIffStartZero(start: bv32, s: seq<byte>)
    ensures Crc32(start, s) == Crc32(0, s) <==> start == 0
  {
    hide Crc32Run, Flip;
    if Crc32(start, s) == Crc32(0, s) {
      FlipTwice(Crc32Run(Flip(start), s));
      FlipTwice(Crc32Run(Flip(0), s));
      RunInjective(Flip(start), Flip(0), s);
      FlipTwice(start);
      FlipTwice(0);
    }
  }
}
