/** What a reader of a graft text gets: the text says exactly the size, the SHA-1 and the chunk list. */
module GraftReading {
  import opened Bytes
  import opened Cvmfs

  const SEMICOLON: byte := 0x3B
  const COMMA_CHAR: byte := 0x2C

  const SIZE_FIELD: Text := [0x73, 0x69, 0x7A, 0x65, 0x3D]  // "size="
  const CHECKSUM_FIELD: Text := [0x63, 0x68, 0x65, 0x63, 0x6B, 0x73, 0x75, 0x6D, 0x3D]  // "checksum="
  // "chunk_offsets="
  const OFFSETS_FIELD: Text := [
    0x63, 0x68, 0x75, 0x6E, 0x6B, 0x5F, 0x6F, 0x66, 0x66, 0x73, 0x65, 0x74,
    0x73, 0x3D]
  // "chunk_checksums="
  const CHECKSUMS_FIELD: Text := [
    0x63, 0x68, 0x75, 0x6E, 0x6B, 0x5F, 0x63, 0x68, 0x65, 0x63, 0x6B, 0x73,
    0x75, 0x6D, 0x73, 0x3D]

  /** The parts of `t` between the separators. */
  function Split(t: Text, sep: byte): (parts: seq<Text>)
    ensures parts != []
  {
    if t == [] then [[]]
    else
      var later := Split(t[1..], sep);
      if t[0] == sep then [[]] + later else [[t[0]] + later[0]] + later[1..]
  }

  lemma {:induction false} SplitOne(a: Text, sep: byte)
    requires sep !in a
    ensures Split(a, sep) == [a]
    decreases |a|
  {
    if a != [] {
      SplitOne(a[1..], sep);
      assert a == [a[0]] + a[1..];
    }
  }

  lemma {:induction false} SplitFirst(a: Text, later: Text, sep: byte)
    requires sep !in a
    ensures Split(a + [sep] + later, sep) == [a] + Split(later, sep)
    decreases |a|
  {
    var t := a + [sep] + later;
    if a == [] {
      assert t[1..] == later;
    } else {
      assert t[1..] == a[1..] + [sep] + later;
      SplitFirst(a[1..], later, sep);
      assert a == [a[0]] + a[1..];
    }
  }

  // ---------- characters ----------

  predicate IsDigitChar(c: byte) {
    0x30 <= c <= 0x39 || 0x61 <= c <= 0x66
  }

  ghost predicate AllDigits(t: Text) {
    forall i :: 0 <= i < |t| ==> IsDigitChar(t[i])
  }

  lemma {:induction false} NoSeparators(t: Text)
    requires AllDigits(t)
    ensures SEMICOLON !in t && COMMA_CHAR !in t
  {
  }

  lemma {:induction false} HexOctetDigits(b: byte)
    ensures |HexOctet(b)| == 2 && IsDigitChar(HexOctet(b)[0]) && IsDigitChar(HexOctet(b)[1])
  {
  }

  lemma {:induction false} HexDigits(s: seq<byte>)
    ensures AllDigits(Hex(s))
  {
    hide HexOctet, IsDigitChar;
    if s != [] {
      HexDigits(s[..|s| - 1]);
      HexOctetDigits(s[|s| - 1]);
    }
  }

  lemma {:induction false} DigitIsDigit(c: byte)
    requires IsDigit(c)
    ensures IsDigitChar(c)
  {
  }

  lemma {:induction false} DecimalDigits(n: nat)
    ensures AllDigits(Decimal(n))
  {
    hide Digit, IsDigit, IsDigitChar;
    DigitRight(n % 10);
    DigitIsDigit(Digit(n % 10));
    if n >= 10 {
      DecimalDigits(n / 10);
    }
  }

  // ---------- lists ----------

  /** The texts, each but the first after a comma. */
  function Commas(parts: seq<Text>): Text
    requires parts != []
  {
    if |parts| == 1 then parts[0] else parts[0] + [COMMA_CHAR] + Commas(parts[1..])
  }

  lemma {:induction false} CommasLast(parts: seq<Text>, last: Text)
    requires parts != []
    ensures Commas(parts + [last]) == Commas(parts) + COMMA + last
    decreases |parts|
  {
    if |parts| == 1 {
      assert (parts + [last])[1..] == [last];
      assert Commas(parts + [last]) == parts[0] + [COMMA_CHAR] + last;
    } else {
      assert (parts + [last])[1..] == parts[1..] + [last];
      CommasLast(parts[1..], last);
      assert parts[0] + [COMMA_CHAR] + (Commas(parts[1..]) + COMMA + last)
          == parts[0] + [COMMA_CHAR] + Commas(parts[1..]) + COMMA + last;
    }
  }

  lemma {:induction false} SplitCommas(parts: seq<Text>)
    requires parts != [] && forall i :: 0 <= i < |parts| ==> COMMA_CHAR !in parts[i]
    ensures Split(Commas(parts), COMMA_CHAR) == parts
    decreases |parts|
  {
    hide Split;
    if |parts| == 1 {
      SplitOne(parts[0], COMMA_CHAR);
    } else {
      SplitCommas(parts[1..]);
      SplitFirst(parts[0], Commas(parts[1..]), COMMA_CHAR);
    }
  }

  lemma {:induction false} CommasNoSemicolon(parts: seq<Text>)
    requires parts != [] && forall i :: 0 <= i < |parts| ==> SEMICOLON !in parts[i]
    ensures SEMICOLON !in Commas(parts)
    decreases |parts|
  {
    if |parts| > 1 {
      CommasNoSemicolon(parts[1..]);
    }
  }

  function Offsets(listed: seq<CvmfsChunk>): (texts: seq<Text>)
    ensures |texts| == |listed|
  {
    seq(|listed|, i requires 0 <= i < |listed| => Decimal(listed[i].offset))
  }

  function Checksums(listed: seq<CvmfsChunk>): (texts: seq<Text>)
    ensures |texts| == |listed|
  {
    seq(|listed|, i requires 0 <= i < |listed| => listed[i].sha1)
  }

  lemma {:induction false} OffsetsPrinted(listed: seq<CvmfsChunk>, k: nat)
    requires 1 <= k <= |listed|
    ensures Decimal(listed[0].offset) + MoreOffsets(listed, k) == Commas(Offsets(listed)[..k])
  {
    hide Decimal;
    if k == 1 {
      assert MoreOffsets(listed, 1) == [];
    } else {
      OffsetsPrinted(listed, k - 1);
      CommasLast(Offsets(listed)[..k - 1], Decimal(listed[k - 1].offset));
      assert Offsets(listed)[..k] == Offsets(listed)[..k - 1] + [Decimal(listed[k - 1].offset)];
      var first, rest := Decimal(listed[0].offset), MoreOffsets(listed, k - 1);
      assert first + (rest + COMMA + Decimal(listed[k - 1].offset))
          == (first + rest) + COMMA + Decimal(listed[k - 1].offset);
    }
  }

  lemma {:induction false} ChecksumsPrinted(listed: seq<CvmfsChunk>, k: nat)
    requires 1 <= k <= |listed|
    ensures listed[0].sha1 + MoreChecksums(listed, k) == Commas(Checksums(listed)[..k])
  {
    if k == 1 {
      assert MoreChecksums(listed, 1) == [];
    } else {
      ChecksumsPrinted(listed, k - 1);
      CommasLast(Checksums(listed)[..k - 1], listed[k - 1].sha1);
      assert Checksums(listed)[..k] == Checksums(listed)[..k - 1] + [listed[k - 1].sha1];
      var first, rest := listed[0].sha1, MoreChecksums(listed, k - 1);
      assert first + (rest + COMMA + listed[k - 1].sha1) == (first + rest) + COMMA + listed[k - 1].sha1;
    }
  }

  // ---------- the whole text ----------

  /** Read field by field, the text gives this size, checksum and list. */
  ghost predicate Says(t: Text, size: nat, checksum: Text, listed: seq<CvmfsChunk>) {
    var fields := Split(t, SEMICOLON);
    && |fields| == 4
    && fields[0] == SIZE_FIELD + Decimal(size)
    && fields[1] == CHECKSUM_FIELD + checksum
    && OFFSETS_FIELD <= fields[2] && Split(fields[2][|OFFSETS_FIELD|..], COMMA_CHAR) == Offsets(listed)
    && CHECKSUMS_FIELD <= fields[3] && Split(fields[3][|CHECKSUMS_FIELD|..], COMMA_CHAR) == Checksums(listed)
  }

  lemma {:induction false} FieldNames()
    ensures SIZE == SIZE_FIELD && CHECKSUM == [SEMICOLON] + CHECKSUM_FIELD
    ensures OFFSETS_0 == [SEMICOLON] + OFFSETS_FIELD + Decimal(0) && CHECKSUMS == [SEMICOLON] + CHECKSUMS_FIELD
    ensures SEMICOLON !in SIZE_FIELD && SEMICOLON !in CHECKSUM_FIELD
    ensures SEMICOLON !in OFFSETS_FIELD && SEMICOLON !in CHECKSUMS_FIELD
  {
    assert Decimal(0) == [Digit(0)];
    DigitRight(0);
  }

  lemma {:induction false} FourFields(a: Text, b: Text, c: Text, d: Text)
    requires SEMICOLON !in a && SEMICOLON !in b && SEMICOLON !in c && SEMICOLON !in d
    ensures Split(a + [SEMICOLON] + b + [SEMICOLON] + c + [SEMICOLON] + d, SEMICOLON) == [a, b, c, d]
  {
    hide Split;
    var cd := c + [SEMICOLON] + d;
    var bcd := b + [SEMICOLON] + cd;
    assert a + [SEMICOLON] + b + [SEMICOLON] + c + [SEMICOLON] + d == a + [SEMICOLON] + bcd;
    SplitFirst(a, bcd, SEMICOLON);
    SplitFirst(b, cd, SEMICOLON);
    SplitFirst(c, d, SEMICOLON);
    SplitOne(d, SEMICOLON);
  }

  lemma {:induction false} GraftOfFields(size: nat, checksum: Text, listed: seq<CvmfsChunk>)
    requires listed != [] && listed[0].offset == 0
    ensures GraftOf(size, checksum, listed) ==
      SIZE_FIELD + Decimal(size) + [SEMICOLON] + (CHECKSUM_FIELD + checksum) + [SEMICOLON] +
      (OFFSETS_FIELD + Commas(Offsets(listed))) + [SEMICOLON] + (CHECKSUMS_FIELD + Commas(Checksums(listed)))
  {
    FieldNames();
    OffsetsPrinted(listed, |listed|);
    ChecksumsPrinted(listed, |listed|);
    assert Offsets(listed)[..|listed|] == Offsets(listed) && Checksums(listed)[..|listed|] == Checksums(listed);
    hide *;
    Regroup(SIZE + Decimal(size), CHECKSUM_FIELD, checksum, OFFSETS_FIELD, Decimal(0), MoreOffsets(listed, |listed|),
      CHECKSUMS_FIELD, listed[0].sha1, MoreChecksums(listed, |listed|));
    GraftOfIs(size, checksum, listed);
  }

  lemma {:induction false} GraftOfIs(size: nat, checksum: Text, listed: seq<CvmfsChunk>)
    requires listed != []
    ensures GraftOf(size, checksum, listed) ==
      SIZE + Decimal(size) + CHECKSUM + checksum + OFFSETS_0 + MoreOffsets(listed, |listed|) +
      CHECKSUMS + listed[0].sha1 + MoreChecksums(listed, |listed|)
  {
  }

  lemma {:induction false} Regroup(a: Text, b: Text, c: Text, d: Text, e: Text, f: Text, g: Text, h: Text, i: Text)
    ensures var s := [SEMICOLON];
      a + (s + b) + c + (s + d + e) + f + (s + g) + h + i == a + s + (b + c) + s + (d + (e + f)) + s + (g + (h + i))
  {
    var s := [SEMICOLON];
    assert a + (s + b) + c == a + s + (b + c);
    var x := a + s + (b + c);
    assert x + (s + d + e) + f == x + s + (d + (e + f));
    var y := x + s + (d + (e + f));
    assert y + (s + g) + h + i == y + s + (g + (h + i));
  }

  lemma {:induction false} GraftOfSays(size: nat, checksum: Text, listed: seq<CvmfsChunk>)
    requires listed != [] && listed[0].offset == 0 && AllDigits(checksum)
    requires forall i :: 0 <= i < |listed| ==> AllDigits(listed[i].sha1)
    ensures Says(GraftOf(size, checksum, listed), size, checksum, listed)
  {
    hide Split, Commas, Decimal, IsDigitChar;
    FieldNames();
    DecimalDigits(size);
    NoSeparators(Decimal(size));
    NoSeparators(checksum);
    var offsets, checksums := Offsets(listed), Checksums(listed);
    forall i | 0 <= i < |listed|
      ensures SEMICOLON !in offsets[i] && COMMA_CHAR !in offsets[i]
      ensures SEMICOLON !in checksums[i] && COMMA_CHAR !in checksums[i]
    {
      DecimalDigits(listed[i].offset);
      NoSeparators(Decimal(listed[i].offset));
      NoSeparators(listed[i].sha1);
    }
    CommasNoSemicolon(offsets);
    CommasNoSemicolon(checksums);
    SplitCommas(offsets);
    SplitCommas(checksums);
    GraftOfFields(size, checksum, listed);
    FourFields(SIZE_FIELD + Decimal(size), CHECKSUM_FIELD + checksum, OFFSETS_FIELD + Commas(offsets),
      CHECKSUMS_FIELD + Commas(checksums));
    assert (OFFSETS_FIELD + Commas(offsets))[|OFFSETS_FIELD|..] == Commas(offsets);
    assert (CHECKSUMS_FIELD + Commas(checksums))[|CHECKSUMS_FIELD|..] == Commas(checksums);
  }

  lemma {:induction false} ListedDigits(sha1: Digest, s: seq<byte>, i: nat)
    requires i < |Listed(sha1, s, FullChunks(sha1, s))|
    ensures AllDigits(Listed(sha1, s, FullChunks(sha1, s))[i].sha1)
    ensures Listed(sha1, s, FullChunks(sha1, s))[0].offset == 0
  {
    hide Hex, AllDigits;
    HexDigits(sha1(s));
    if |FullChunks(sha1, s)| >= 2 {
      HexDigits(sha1(s[i * CHUNK_SIZE..(i + 1) * CHUNK_SIZE]));
    }
  }

  /** The graft text of every file can be read back: it says the file's size, its SHA-1, and the offset
      and SHA-1 of each listed chunk, and nothing else. */
  lemma {:induction false} GraftSays(sha1: Digest, s: seq<byte>)
    ensures Says(Graft(sha1, s), |s|, Hex(sha1(s)), Listed(sha1, s, FullChunks(sha1, s)))
  {
    hide Hex, AllDigits, Says, GraftOf, FullChunks;
    var listed := Listed(sha1, s, FullChunks(sha1, s));
    HexDigits(sha1(s));
    forall i | 0 <= i < |listed|
      ensures AllDigits(listed[i].sha1)
    {
      ListedDigits(sha1, s, i);
    }
    ListedDigits(sha1, s, 0);
    GraftOfSays(|s|, Hex(sha1(s)), listed);
  }

  // The field names as they are spelled in the source.
  lemma {:induction false} SizeField()
    ensures Spells(SIZE_FIELD, "size=") && Spells([SEMICOLON, COMMA_CHAR], ";,")
  {
  }

  lemma {:induction false} ChecksumField()
    ensures Spells(CHECKSUM_FIELD, "checksum=")
  {
  }

  lemma {:induction false} OffsetsField()
    ensures Spells(OFFSETS_FIELD, "chunk_offsets=")
  {
  }

  lemma {:induction false} ChecksumsField()
    ensures Spells(CHECKSUMS_FIELD, "chunk_checksums=")
  {
  }
}
