/** Octets, and the texts the checksum code prints. */
module Bytes {
  type byte = bv8

  /** Texts are octets too: every `char` of the source is one octet. */
  type Text = seq<byte>

  const NUL: byte := 0x00
  const NEWLINE: byte := 0x0A
  const COLON: byte := 0x3A

  datatype Option<+T> = None | Some(value: T)

  function Concat(slices: seq<seq<byte>>): seq<byte> {
    if slices == [] then [] else Concat(slices[..|slices| - 1]) + slices[|slices| - 1]
  }

  // ---------- octets and numbers ----------

  function ValueOf(b: byte): nat {
    b as nat
  }

  function NibbleOf(d: nat): bv8
    requires d < 16
  {
    if d == 0 then 0x0 else if d == 1 then 0x1 else if d == 2 then 0x2 else if d == 3 then 0x3
    else if d == 4 then 0x4 else if d == 5 then 0x5 else if d == 6 then 0x6 else if d == 7 then 0x7
    else if d == 8 then 0x8 else if d == 9 then 0x9 else if d == 10 then 0xA else if d == 11 then 0xB
    else if d == 12 then 0xC else if d == 13 then 0xD else if d == 14 then 0xE else 0xF
  }

  /** The octet with the value `k`: the conversion of `k` to `unsigned char`. */
  function OctetOf(k: nat): byte
    requires k < 256
  {
    (NibbleOf(k / 16) << 4) | NibbleOf(k % 16)
  }

  lemma {:induction false} NibbleIs(d: nat)
    requires d < 16
    ensures NibbleOf(d) < 16 && ValueOf(NibbleOf(d)) == d
  {
  }

  lemma {:induction false} NibblesIn(b: byte)
    ensures ValueOf(b) == 16 * ValueOf(b >> 4) + ValueOf(b & 0xF) && ValueOf(b) < 256
    ensures ValueOf(b >> 4) < 16 && ValueOf(b & 0xF) < 16
  {
  }

  lemma {:induction false} JoinNibbles(h: bv8, l: bv8)
    requires h < 16 && l < 16
    ensures ((h << 4) | l) >> 4 == h && ((h << 4) | l) & 0xF == l
  {
  }

  lemma {:induction false} OctetRoundTrip(k: nat)
    requires k < 256
    ensures ValueOf(OctetOf(k)) == k
  {
    var h, l := NibbleOf(k / 16), NibbleOf(k % 16);
    NibbleIs(k / 16);
    NibbleIs(k % 16);
    hide *;
    JoinNibbles(h, l);
    OctetIs(k);
    NibblesIn(OctetOf(k));
  }

  lemma {:induction false} OctetIs(k: nat)
    requires k < 256
    ensures OctetOf(k) == (NibbleOf(k / 16) << 4) | NibbleOf(k % 16)
  {
    hide NibbleOf;
  }

  lemma {:induction false} SameValue(a: byte, b: byte)
    requires ValueOf(a) == ValueOf(b)
    ensures a == b
  {
  }

  /** Every octet has its own value. */
  lemma {:induction false} ValueOfOctet(b: byte)
    ensures ValueOf(b) < 256 && OctetOf(ValueOf(b)) == b
  {
    hide *;
    NibblesIn(b);
    OctetRoundTrip(ValueOf(b));
    SameValue(OctetOf(ValueOf(b)), b);
  }

  /** The white space of the C locale. */
  predicate IsSpace(c: byte) {
    c == 0x20 || 0x09 <= c <= 0x0D
  }

  /** Space, tab, newline, vertical tab, form feed and carriage return, and nothing else. */
  lemma {:induction false} SpaceIs(c: byte)
    ensures IsSpace(c) <==> ValueOf(c) in {32, 9, 10, 11, 12, 13}
  {
  }

  /** Neither white space nor the end of a C string. */
  predicate IsPlain(c: byte) {
    !IsSpace(c) && c != NUL
  }

  ghost predicate Plain(t: Text) {
    forall i :: 0 <= i < |t| ==> IsPlain(t[i])
  }

  predicate NulFree(t: Text) {
    NUL !in t
  }

  /** What a C string function sees of `t`: everything before the first NUL. */
  function CString(t: Text): (c: Text)
    ensures NulFree(c) && c <= t
    ensures |c| < |t| ==> t[|c|] == NUL
    ensures NulFree(t) <==> c == t
  {
    if t == [] || t[0] == NUL then [] else [t[0]] + CString(t[1..])
  }

  lemma {:induction false} CStringStops(t: Text, n: nat)
    requires n < |t| && t[n] == NUL
    ensures CString(t) == CString(t[..n])
    decreases n
  {
    if n > 0 {
      CStringStops(t[1..], n - 1);
      assert t[1..][..n - 1] == t[..n][1..];
    }
  }

  /** `before` with `p` written over it from `pos` on. */
  function Pasted(before: seq<byte>, pos: nat, p: seq<byte>): (after: seq<byte>)
    requires pos + |p| <= |before|
    ensures |after| == |before|
  {
    before[..pos] + p + before[pos + |p|..]
  }

  lemma {:induction false} PastedPrefix(before: seq<byte>, pos: nat, p: seq<byte>)
    requires pos + |p| <= |before|
    ensures var after := Pasted(before, pos, p);
      && after[..pos] == before[..pos] && after[..pos + |p|] == before[..pos] + p
      && after[pos + |p|..] == before[pos + |p|..]
  {
  }

  lemma {:induction false} PastedEnds(before: seq<byte>, original: seq<byte>, got: seq<byte>, p: seq<byte>)
    requires |got| + |p| <= |before| == |original| && before[..|got|] == got && before[|got|..] == original[|got|..]
    ensures var after, n := Pasted(before, |got|, p), |got| + |p|;
      after[..n] == got + p && after[n..] == original[n..]
  {
    var n := |got| + |p|;
    assert Pasted(before, |got|, p)[n..] == before[n..] == before[|got|..][|p|..];
    assert original[n..] == original[|got|..][|p|..];
  }

  // ---------- hexadecimal ----------

  function HexDigit(d: byte): byte
    requires d < 16
  {
    if d < 10 then 0x30 + d else 0x57 + d
  }

  function HexOctet(b: byte): Text {
    [HexDigit(b >> 4), HexDigit(b & 0x0F)]
  }

  /** Two lower-case hexadecimal digits for each octet. */
  function Hex(s: seq<byte>): Text {
    if s == [] then [] else Hex(s[..|s| - 1]) + HexOctet(s[|s| - 1])
  }

  function HexDigitValue(c: byte): byte {
    if c < 0x60 then c & 0x0F else (c & 0x0F) + 9
  }

  function JoinDigits(high: byte, low: byte): byte {
    (HexDigitValue(high) << 4) | HexDigitValue(low)
  }

  function Unhex(t: Text): seq<byte>
    requires |t| % 2 == 0
  {
    if t == [] then []
    else Unhex(t[..|t| - 2]) + [JoinDigits(t[|t| - 2], t[|t| - 1])]
  }

  lemma {:induction false} HexOctetRight(b: byte)
    ensures |HexOctet(b)| == 2 && JoinDigits(HexOctet(b)[0], HexOctet(b)[1]) == b
    ensures IsPlain(HexOctet(b)[0]) && IsPlain(HexOctet(b)[1])
  {
  }

  lemma {:induction false} HexPlain(s: seq<byte>)
    ensures |Hex(s)| == 2 * |s| && Plain(Hex(s))
  {
    hide HexOctet, JoinDigits, IsPlain;
    if s != [] {
      HexPlain(s[..|s| - 1]);
      HexOctetRight(s[|s| - 1]);
    }
  }

  lemma {:induction false} UnhexLast(t: Text, u: Text)
    requires |t| % 2 == 0 && |u| == 2
    ensures Unhex(t + u) == Unhex(t) + [JoinDigits(u[0], u[1])]
  {
    hide JoinDigits;
    assert (t + u)[..|t + u| - 2] == t;
  }

  /** Nothing is lost in print. */
  lemma {:induction false} HexRoundTrip(s: seq<byte>)
    ensures |Hex(s)| == 2 * |s| && Plain(Hex(s)) && Unhex(Hex(s)) == s
  {
    hide HexOctet, JoinDigits, IsPlain, Unhex;
    HexPlain(s);
    if s == [] {
      assert Unhex([]) == [] by {
        UnhexNothing();
      }
    } else {
      var n := |s| - 1;
      HexRoundTrip(s[..n]);
      HexOctetRight(s[n]);
      UnhexLast(Hex(s[..n]), HexOctet(s[n]));
    }
  }

  lemma {:induction false} UnhexNothing()
    ensures Unhex([]) == []
  {
  }

  /** The octets of `t` are the characters of `s`. */
  ghost predicate Spells(t: Text, s: string) {
    |t| == |s| && forall i :: 0 <= i < |t| ==> ValueOf(t[i]) == s[i] as int
  }

  const HEX_DIGITS := "0123456789abcdef"

  lemma {:induction false} HexDigitIs(d: byte)
    requires d < 16
    ensures ValueOf(d) < 16 && ValueOf(HexDigit(d)) == HEX_DIGITS[ValueOf(d)] as int
  {
    assert d == 0 || d == 1 || d == 2 || d == 3 || d == 4 || d == 5 || d == 6 || d == 7 || d == 8 || d == 9 ||
      d == 10 || d == 11 || d == 12 || d == 13 || d == 14 || d == 15;
  }

  lemma {:induction false} HexOctetIs(b: byte)
    ensures |HexOctet(b)| == 2
    ensures ValueOf(HexOctet(b)[0]) == HEX_DIGITS[ValueOf(b) / 16] as int
    ensures ValueOf(HexOctet(b)[1]) == HEX_DIGITS[ValueOf(b) % 16] as int
  {
    NibblesIn(b);
    NibbleBits(b);
    HexDigitIs(b >> 4);
    HexDigitIs(b & 0x0F);
    hide HexDigit, ValueOf;
  }

  lemma {:induction false} NibbleBits(b: byte)
    ensures b >> 4 < 16 && b & 0xF < 16
  {
  }

  /** Octet `i` is printed as its two hexadecimal digits, the higher one first. */
  lemma {:induction false} HexAt(s: seq<byte>, i: nat)
    requires i < |s|
    ensures |Hex(s)| == 2 * |s| && ValueOf(s[i]) < 256
    ensures ValueOf(Hex(s)[2 * i]) == HEX_DIGITS[ValueOf(s[i]) / 16] as int
    ensures ValueOf(Hex(s)[2 * i + 1]) == HEX_DIGITS[ValueOf(s[i]) % 16] as int
  {
    hide HexOctet, ValueOf, Hex, HEX_DIGITS;
    var n := |s| - 1;
    HexLast(s);
    HexOctetIs(s[n]);
    NibblesIn(s[n]);
    if i < n {
      HexAt(s[..n], i);
      assert Hex(s)[2 * i] == Hex(s[..n])[2 * i] && Hex(s)[2 * i + 1] == Hex(s[..n])[2 * i + 1];
    }
  }

  lemma {:induction false} HexLast(s: seq<byte>)
    requires s != []
    ensures var n := |s| - 1;
      |Hex(s[..n])| == 2 * n && Hex(s) == Hex(s[..n]) + HexOctet(s[n]) && |HexOctet(s[n])| == 2
  {
    HexPlain(s[..|s| - 1]);
  }

  // ---------- decimal ----------

  function Digit(d: nat): byte
    requires d < 10
  {
    OctetOf(0x30 + d)
  }

  function Decimal(n: nat): Text {
    if n < 10 then [Digit(n)] else Decimal(n / 10) + [Digit(n % 10)]
  }

  predicate IsDigit(c: byte) {
    0x30 <= ValueOf(c) < 0x3A
  }

  function DigitValue(c: byte): nat {
    if IsDigit(c) then ValueOf(c) - 0x30 else 0
  }

  function DecimalValue(t: Text): nat {
    if t == [] then 0 else 10 * DecimalValue(t[..|t| - 1]) + DigitValue(t[|t| - 1])
  }

  lemma {:induction false} DigitRight(d: nat)
    requires d < 10
    ensures IsDigit(Digit(d)) && DigitValue(Digit(d)) == d && IsPlain(Digit(d))
    ensures Digit(d) == 0x30 <==> d == 0
  {
    hide OctetOf, ValueOf;
    OctetRoundTrip(0x30 + d);
    DigitIsPlain(Digit(d));
    ZeroDigit(Digit(d));
  }

  lemma {:induction false} DigitIsPlain(c: byte)
    requires IsDigit(c)
    ensures IsPlain(c)
  {
  }

  lemma {:induction false} ZeroDigit(c: byte)
    ensures c == 0x30 <==> ValueOf(c) == 0x30
  {
  }

  lemma {:induction false} DecimalRoundTrip(n: nat)
    ensures Decimal(n) != [] && Plain(Decimal(n)) && DecimalValue(Decimal(n)) == n
  {
    hide Digit, DigitValue, IsPlain;
    var t := Decimal(n);
    DigitRight(n % 10);
    if n < 10 {
      assert t[..0] == [];
    } else {
      DecimalRoundTrip(n / 10);
      assert t[..|t| - 1] == Decimal(n / 10);
    }
  }

  /** A number as C prints it: decimal digits, and no leading zero but in 0 itself. */
  ghost predicate IsNumeral(t: Text) {
    t != [] && (t[0] == 0x30 ==> |t| == 1) && forall i :: 0 <= i < |t| ==> IsDigit(t[i])
  }

  lemma {:induction false} DecimalIsNumeral(n: nat)
    ensures IsNumeral(Decimal(n))
  {
    hide Digit, IsDigit;
    DigitRight(n % 10);
    if n >= 10 {
      DecimalIsNumeral(n / 10);
      LeadingDigit(n / 10);
    }
  }

  lemma {:induction false} LeadingDigit(n: nat)
    requires n > 0
    ensures Decimal(n)[0] != 0x30
  {
    hide Digit;
    DigitRight(n % 10);
    if n >= 10 {
      LeadingDigit(n / 10);
    }
  }

  lemma {:induction false} NumeralPositive(t: Text)
    requires IsNumeral(t) && t[0] != 0x30
    ensures DecimalValue(t) > 0
  {
    hide ValueOf;
    var n := |t| - 1;
    ZeroDigit(t[0]);
    if n > 0 {
      NumeralPositive(t[..n]);
    }
  }

  lemma {:induction false} SameDigit(c: byte, d: byte)
    requires IsDigit(c) && IsDigit(d) && DigitValue(c) == DigitValue(d)
    ensures c == d
  {
    SameValue(c, d);
  }

  lemma {:induction false} DigitBelowTen(c: byte)
    ensures DigitValue(c) < 10
  {
  }

  lemma {:induction false} NumeralUnique(t: Text, u: Text)
    requires IsNumeral(t) && IsNumeral(u) && DecimalValue(t) == DecimalValue(u)
    ensures t == u
    decreases |t|
  {
    hide IsDigit, DigitValue;
    var m, n := |t| - 1, |u| - 1;
    DigitBelowTen(t[m]);
    DigitBelowTen(u[n]);
    assert DecimalValue(t[..m]) == DecimalValue(u[..n]);
    SameDigit(t[m], u[n]);
    if m > 0 {
      NumeralPositive(t[..m]);
    }
    if n > 0 {
      NumeralPositive(u[..n]);
    }
    if m > 0 && n > 0 {
      NumeralUnique(t[..m], u[..n]);
    }
    assert t == t[..m] + [t[m]] && u == u[..n] + [u[n]];
  }

  /** `Decimal` prints the one numeral of its argument. */
  lemma {:induction false} DecimalIff(n: nat, t: Text)
    ensures t == Decimal(n) <==> IsNumeral(t) && DecimalValue(t) == n
  {
    hide Decimal, IsNumeral, DecimalValue;
    DecimalRoundTrip(n);
    DecimalIsNumeral(n);
    if IsNumeral(t) && DecimalValue(t) == n {
      NumeralUnique(t, Decimal(n));
    }
  }

  // ---------- 32-bit values, most significant octet first ----------

  /** The octets of a `uint32_t` after `htonl`. */
  function NetworkOrder(w: bv32): (s: seq<byte>)
    ensures |s| == 4
  {
    [((w >> 24) & 0xFF) as byte, ((w >> 16) & 0xFF) as byte, ((w >> 8) & 0xFF) as byte, (w & 0xFF) as byte]
  }

  /** Put together most significant octet first, the octets are the word again. */
  lemma {:induction false} NetworkOrderIs(w: bv32)
    ensures var s := NetworkOrder(w);
      ((s[0] as bv32) << 24) | ((s[1] as bv32) << 16) | ((s[2] as bv32) << 8) | (s[3] as bv32) == w
  {
  }

  lemma {:induction false} NetworkOrderInjective(a: bv32, b: bv32)
    requires NetworkOrder(a) == NetworkOrder(b)
    ensures a == b
  {
    assert NetworkOrder(a)[0] == NetworkOrder(b)[0] && NetworkOrder(a)[1] == NetworkOrder(b)[1];
    assert NetworkOrder(a)[2] == NetworkOrder(b)[2] && NetworkOrder(a)[3] == NetworkOrder(b)[3];
  }

  /** The four octets' values, most significant first. */
  function Quarters(n: nat): (q: (nat, nat, nat, nat))
    requires n < 0x1_0000_0000
    ensures q.0 < 256 && q.1 < 256 && q.2 < 256 && q.3 < 256
    ensures n == 0x100_0000 * q.0 + 0x1_0000 * q.1 + 0x100 * q.2 + q.3
  {
    (n / 256 / 256 / 256, n / 256 / 256 % 256, n / 256 % 256, n % 256)
  }

  /** The `uint32_t` with the value `n`. */
  function WordOf(n: nat): bv32
    requires n < 0x1_0000_0000
  {
    var (a, b, c, d) := Quarters(n);
    Joined(OctetOf(a), OctetOf(b), OctetOf(c), OctetOf(d))
  }

  function Joined(a: byte, b: byte, c: byte, d: byte): bv32 {
    ((a as bv32) << 24) | ((b as bv32) << 16) | ((c as bv32) << 8) | (d as bv32)
  }

  /** The number whose octets are `s`, most significant first. */
  ghost function BigEndian(s: seq<byte>): nat {
    if s == [] then 0 else 256 * BigEndian(s[..|s| - 1]) + ValueOf(s[|s| - 1])
  }

  lemma {:induction false} JoinedOctets(a: byte, b: byte, c: byte, d: byte)
    ensures NetworkOrder(Joined(a, b, c, d)) == [a, b, c, d]
  {
  }

  lemma {:induction false} FourOctets(a: byte, b: byte, c: byte, d: byte)
    ensures BigEndian([a, b, c, d]) == 0x100_0000 * ValueOf(a) + 0x1_0000 * ValueOf(b) + 0x100 * ValueOf(c) + ValueOf(d)
  {
    hide ValueOf;
    assert [a, b, c, d][..3] == [a, b, c] && [a, b, c][..2] == [a, b] && [a, b][..1] == [a] && [a][..0] == [];
    assert BigEndian([a]) == ValueOf(a);
    assert BigEndian([a, b]) == 256 * BigEndian([a]) + ValueOf(b);
    assert BigEndian([a, b, c]) == 256 * BigEndian([a, b]) + ValueOf(c);
  }

  /** The octets of a `uint32_t` in network order have its value, most significant first. */
  lemma {:induction false} WordInNetworkOrder(n: nat)
    requires n < 0x1_0000_0000
    ensures BigEndian(NetworkOrder(WordOf(n))) == n
  {
    hide *;
    var (a, b, c, d) := Quarters(n);
    WordIs(n);
    JoinedOctets(OctetOf(a), OctetOf(b), OctetOf(c), OctetOf(d));
    FourOctets(OctetOf(a), OctetOf(b), OctetOf(c), OctetOf(d));
    OctetRoundTrip(a);
    OctetRoundTrip(b);
    OctetRoundTrip(c);
    OctetRoundTrip(d);
  }

  lemma {:induction false} WordIs(n: nat)
    requires n < 0x1_0000_0000
    ensures var (a, b, c, d) := Quarters(n);
      WordOf(n) == Joined(OctetOf(a), OctetOf(b), OctetOf(c), OctetOf(d))
  {
    hide OctetOf, Joined, Quarters;
  }

  /** What `strtoul` makes of hexadecimal digits. */
  ghost function HexNumber(t: Text): nat {
    if t == [] then 0 else 16 * HexNumber(t[..|t| - 1]) + HexValue(t[|t| - 1])
  }

  function HexValue(c: byte): nat {
    if 0x30 <= ValueOf(c) < 0x3A then ValueOf(c) - 0x30
    else if 0x61 <= ValueOf(c) < 0x67 then ValueOf(c) - 0x57 else 0
  }

  lemma {:induction false} HexDigitValueIs(d: byte)
    requires d < 16
    ensures HexValue(HexDigit(d)) == ValueOf(d)
  {
  }

  lemma {:induction false} HexOctetNumber(b: byte)
    ensures |HexOctet(b)| == 2 && 16 * HexValue(HexOctet(b)[0]) + HexValue(HexOctet(b)[1]) == ValueOf(b)
  {
    NibblesIn(b);
    NibbleBits(b);
    HexDigitValueIs(b >> 4);
    HexDigitValueIs(b & 0x0F);
    hide HexDigit, ValueOf, HexValue;
  }

  /** Hexadecimal text reads back as the number whose octets it shows. */
  lemma {:induction false} HexNumberIs(s: seq<byte>)
    ensures HexNumber(Hex(s)) == BigEndian(s)
  {
    hide HexOctet, HexValue, ValueOf;
    if s != [] {
      var n := |s| - 1;
      var t, u := Hex(s[..n]), HexOctet(s[n]);
      HexNumberIs(s[..n]);
      HexOctetNumber(s[n]);
      assert t + u == (t + [u[0]]) + [u[1]];
      assert (t + u)[..|t + u| - 1] == t + [u[0]] && (t + [u[0]])[..|t|] == t;
    }
  }
}
