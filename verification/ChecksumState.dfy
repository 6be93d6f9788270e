/** The streaming checksum engine: `ChecksumState` of the source. */
module Checksums {
  import opened Bytes
  import opened CrcTable
  import opened PosixCksum
  import opened Zlib
  import opened Cvmfs

  const MD5: bv32 := 0x01
  const CKSUM: bv32 := 0x02
  const ADLER32: bv32 := 0x04
  const CVMFS: bv32 := 0x08
  const CRC32: bv32 := 0x10
  const ALL: bv32 := 0xFF

  predicate Has(digests: bv32, flag: bv32) {
    digests & flag != 0
  }

  /** The digest algorithms of OpenSSL. */
  datatype Library = Library(md5: Digest, sha1: Digest)

  /** The text of one digest of the file `s`; `start` is the CRC-32 value the constructor left behind. */
  function DigestText(lib: Library, start: bv32, flag: bv32, s: seq<byte>): Text {
    if flag == CKSUM then CksumText(Cksum(s))
    else if flag == CRC32 then Hex(NetworkOrder(Crc32(start, s)))
    else if flag == ADLER32 then AdlerText(Adler32(ADLER_START, s))
    else if flag == MD5 then Hex(lib.md5(s))
    else if flag == CVMFS then Graft(lib.sha1, s)
    else []
  }

  lemma {:induction false} DigestTexts(lib: Library, start: bv32, s: seq<byte>)
    ensures DigestText(lib, start, CKSUM, s) == Decimal(Cksum(s) as nat)
    ensures DigestText(lib, start, CRC32, s) == Hex(NetworkOrder(Crc32(start, s)))
    ensures DigestText(lib, start, ADLER32, s) == AdlerText(Adler32(ADLER_START, s))
    ensures DigestText(lib, start, MD5, s) == Hex(lib.md5(s))
    ensures DigestText(lib, start, CVMFS, s) == Graft(lib.sha1, s)
    ensures DigestText(lib, start, 0, s) == []
  {
    hide Cksum, Crc32, Adler32, Decimal, Hex, Graft, AdlerText, NetworkOrder;
  }

  function CksumText(cksum: bv32): Text {
    Decimal(cksum as nat)
  }

  function AdlerText(adler: nat): Text {
    if adler < 0x1_0000_0000 then Hex(NetworkOrder(WordOf(adler))) else []
  }

  /** The first of the requested digests, in the order in which `Get` looks. */
  function FirstOf(digests: bv32): bv32 {
    if Has(digests, CKSUM) then CKSUM
    else if Has(digests, CRC32) then CRC32
    else if Has(digests, ADLER32) then ADLER32
    else if Has(digests, MD5) then MD5
    else if Has(digests, CVMFS) then CVMFS
    else 0
  }

  lemma {:induction false} OneFlag(digests: bv32, flag: bv32)
    requires flag in {MD5, CKSUM, ADLER32, CVMFS, CRC32}
    ensures FirstOf(flag & digests) == if Has(digests, flag) then flag else 0
  {
  }

  lemma {:induction false} BothFlags(digest: bv32, digests: bv32, flag: bv32)
    requires flag in {MD5, CKSUM, ADLER32, CVMFS, CRC32}
    ensures Has(digest & digests, flag) <==> Has(digest, flag) && Has(digests, flag)
  {
  }

  /** The text of the first of several digests. */
  lemma {:induction false} FirstDigestText(lib: Library, start: bv32, digests: bv32, s: seq<byte>)
    ensures DigestText(lib, start, FirstOf(digests), s) ==
      if Has(digests, CKSUM) then DigestText(lib, start, CKSUM, s)
      else if Has(digests, CRC32) then DigestText(lib, start, CRC32, s)
      else if Has(digests, ADLER32) then DigestText(lib, start, ADLER32, s)
      else if Has(digests, MD5) then DigestText(lib, start, MD5, s)
      else if Has(digests, CVMFS) then DigestText(lib, start, CVMFS, s)
      else DigestText(lib, start, 0, s)
  {
    hide Has, DigestText;
  }

  lemma {:induction false} BothDigests(digest: bv32, digests: bv32)
    ensures Has(digest & digests, CKSUM) <==> Has(digest, CKSUM) && Has(digests, CKSUM)
    ensures Has(digest & digests, CRC32) <==> Has(digest, CRC32) && Has(digests, CRC32)
    ensures Has(digest & digests, ADLER32) <==> Has(digest, ADLER32) && Has(digests, ADLER32)
    ensures Has(digest & digests, MD5) <==> Has(digest, MD5) && Has(digests, MD5)
    ensures Has(digest & digests, CVMFS) <==> Has(digest, CVMFS) && Has(digests, CVMFS)
  {
    BothFlags(digest, digests, CKSUM);
    BothFlags(digest, digests, CRC32);
    BothFlags(digest, digests, ADLER32);
    BothFlags(digest, digests, MD5);
    BothFlags(digest, digests, CVMFS);
    hide Has;
  }

  /** Every digest text can be stored as a checksum value. */
  lemma {:induction false} DigestTextPlain(lib: Library, start: bv32, flag: bv32, s: seq<byte>)
    ensures Plain(DigestText(lib, start, flag, s))
    ensures flag in {CKSUM, CRC32, ADLER32, CVMFS} ==> DigestText(lib, start, flag, s) != []
  {
    assert Plain([]);
    hide DigestText, AdlerText, Graft, Hex, Decimal, Cksum, Crc32, Adler32, NetworkOrder, Plain;
    DecimalRoundTrip(Cksum(s) as nat);
    HexRoundTrip(NetworkOrder(Crc32(start, s)));
    AdlerIsRfc1950(s);
    HexRoundTrip(lib.md5(s));
    GraftPlain(lib.sha1, s);
    AdlerTextPlain(Adler32(ADLER_START, s));
    DigestTextCases(lib, start, flag, s);
    assert |Hex(NetworkOrder(Crc32(start, s)))| == 8;
  }

  lemma {:induction false} AdlerTextPlain(adler: nat)
    requires adler < 0x1_0000_0000
    ensures Plain(AdlerText(adler)) && AdlerText(adler) != []
  {
    hide Hex, Plain;
    HexRoundTrip(NetworkOrder(WordOf(adler)));
  }

  lemma {:induction false} DigestTextCases(lib: Library, start: bv32, flag: bv32, s: seq<byte>)
    ensures DigestText(lib, start, flag, s) in {
      Decimal(Cksum(s) as nat), Hex(NetworkOrder(Crc32(start, s))), AdlerText(Adler32(ADLER_START, s)),
      Hex(lib.md5(s)), Graft(lib.sha1, s), []}
    ensures flag in {CKSUM, CRC32, ADLER32, CVMFS} ==> DigestText(lib, start, flag, s) in {
      Decimal(Cksum(s) as nat), Hex(NetworkOrder(Crc32(start, s))), AdlerText(Adler32(ADLER_START, s)),
      Graft(lib.sha1, s)}
  {
    hide Decimal, Hex, AdlerText, Graft, Cksum, NetworkOrder, Crc32, Adler32;
  }

  /** The recorded Adler-32 is eight digits that read as the two sums of RFC 1950. */
  lemma {:induction false} AdlerTextReads(lib: Library, start: bv32, s: seq<byte>)
    ensures var t := DigestText(lib, start, ADLER32, s);
      |t| == 8 && HexNumber(t) == Sum2(s) % BASE * 0x1_0000 + Sum1(s) % BASE
  {
    hide Hex, NetworkOrder, WordOf, Adler32, DigestText, Graft, Decimal;
    var adler := Adler32(ADLER_START, s);
    DigestTexts(lib, start, s);
    AdlerIsRfc1950(s);
    HexRoundTrip(NetworkOrder(WordOf(adler)));
    HexNumberIs(NetworkOrder(WordOf(adler)));
    WordInNetworkOrder(adler);
  }

  /** The recorded cksum is the one decimal numeral of the value. */
  lemma {:induction false} CksumTextReads(lib: Library, start: bv32, s: seq<byte>)
    ensures IsNumeral(DigestText(lib, start, CKSUM, s))
    ensures DecimalValue(DigestText(lib, start, CKSUM, s)) == Cksum(s) as nat
  {
    hide Cksum, DigestText, Graft, Hex, IsNumeral, DecimalValue, Decimal;
    DigestTexts(lib, start, s);
    DecimalIff(Cksum(s) as nat, Decimal(Cksum(s) as nat));
  }

  // ---------- the loops ----------

  /** `human_readable_evp`. */
  method HumanReadableEvp(evp: seq<byte>) returns (result: Text)
    ensures result == Hex(evp)
  {
    result := [];
    var idx := 0;
    while idx < |evp|
      invariant idx <= |evp| && result == Hex(evp[..idx])
    {
      assert evp[..idx + 1][..idx] == evp[..idx];
      hide HexOctet;
      result := result + HexOctet(evp[idx]);
      idx := idx + 1;
    }
    assert evp[..idx] == evp;
  }

  /** The checksum loop of `Update`. */
  method CksumBytes(cksum: bv32, buffer: seq<byte>) returns (crc: bv32)
    ensures crc == CrcFold(cksum, buffer)
  {
    hide CrcTab, Index;
    crc := cksum;
    var current := 0;
    while current < |buffer|
      invariant current <= |buffer| && crc == CrcFold(cksum, buffer[..current])
    {
      assert buffer[..current + 1][..current] == buffer[..current];
      crc := (crc << 8) ^ CrcTab(Index(crc, buffer[current]));
      current := current + 1;
    }
    assert buffer[..current] == buffer;
  }

  lemma {:induction false} FoldHead(crc: bv32, b: byte, rest: seq<byte>)
    ensures CrcFold(crc, [b] + rest) == CrcFold(TableStep(crc, b), rest)
  {
    hide TableStep;
    CrcFoldConcat(crc, [b], rest);
    assert [b][..0] == [];
    assert CrcFold(crc, [b]) == TableStep(CrcFold(crc, []), b);
  }

  /** The checksum loop of `Finalize`: the length goes in octet by octet. */
  method CksumLength(cksum: bv32, offset: nat) returns (crc: bv32)
    ensures crc == CrcFold(cksum, LengthOctets(offset))
  {
    hide CrcTab, Index;
    var n := offset;
    crc := cksum;
    while n != 0
      invariant CrcFold(crc, LengthOctets(n)) == CrcFold(cksum, LengthOctets(offset))
      decreases n
    {
      var c := OctetOf(n % 256);
      assert LengthOctets(n) == [c] + LengthOctets(n / 256);
      FoldHead(crc, c, LengthOctets(n / 256));
      n := n / 256;
      UnmaskedIndex(crc, c);
      crc := (crc << 8) ^ CrcTab(((crc >> 24) ^ (c as bv32)) as bv8);
    }
  }

  /** The end of the checksum of the octets `s`. */
  method FinalCksum(cksum: bv32, offset: nat, ghost s: seq<byte>) returns (final: bv32)
    requires cksum == CrcFold(0, s) && offset == |s|
    ensures final == Cksum(s)
  {
    hide CrcFold, LengthOctets;
    var crc := CksumLength(cksum, offset);
    final := !crc;
  }

  /** The printing of `Finalize`. */
  method PrintGraft(size: nat, checksum: Text, chunks: seq<CvmfsChunk>) returns (ss: Text)
    ensures ss == GraftOf(size, checksum, if |chunks| < 2 then [CvmfsChunk(checksum, 0)] else chunks)
  {
    hide Decimal;
    ss := SIZE + Decimal(size) + CHECKSUM + checksum;
    if |chunks| < 2 {
      var whole := [CvmfsChunk(checksum, 0)];
      assert MoreOffsets(whole, 1) == [] && MoreChecksums(whole, 1) == [];
      assert ss + OFFSETS_0 + [] + CHECKSUMS + checksum + [] == ss + OFFSETS_0 + CHECKSUMS + checksum;
      ss := ss + OFFSETS_0 + CHECKSUMS + checksum;
    } else {
      hide MoreOffsets, MoreChecksums;
      ss := ss + OFFSETS_0;
      ss := PrintOffsets(ss, chunks);
      ss := ss + CHECKSUMS + chunks[0].sha1;
      ss := PrintChecksums(ss, chunks);
    }
  }

  method PrintOffsets(head: Text, chunks: seq<CvmfsChunk>) returns (ss: Text)
    requires |chunks| >= 2
    ensures ss == head + MoreOffsets(chunks, |chunks|)
  {
    hide Decimal;
    ss := head;
    var idx := 1;
    while idx < |chunks|
      invariant 1 <= idx <= |chunks| && ss == head + MoreOffsets(chunks, idx)
    {
      ss := ss + COMMA + Decimal(chunks[idx].offset);
      assert ss == head + MoreOffsets(chunks, idx + 1);
      idx := idx + 1;
    }
  }

  method PrintChecksums(head: Text, chunks: seq<CvmfsChunk>) returns (ss: Text)
    requires |chunks| >= 2
    ensures ss == head + MoreChecksums(chunks, |chunks|)
  {
    ss := head;
    var idx := 1;
    while idx < |chunks|
      invariant 1 <= idx <= |chunks| && ss == head + MoreChecksums(chunks, idx)
    {
      ss := ss + COMMA + chunks[idx].sha1;
      assert ss == head + MoreChecksums(chunks, idx + 1);
      idx := idx + 1;
    }
  }

  lemma {:induction false} NothingYet(sha1: Digest, start: bv32)
    ensures CrcFold(0, []) == 0 && Adler32(ADLER_START, []) == ADLER_START && Crc32(start, []) == start
    ensures FullChunks(sha1, []) == [] && OpenTail([]) == [] && 0 % CHUNK_SIZE == 0
  {
    FlipTwice(start);
  }

  // ---------- the state ----------

  class ChecksumState {
    const lib: Library
    const m_digests: bv32
    var m_crc32: bv32
    var m_cksum: bv32
    var m_adler32: nat
    var m_cur_chunk_bytes: nat
    var m_offset: nat
    // A digest context is the octets it has absorbed; None stands for NULL.
    var m_md5: Option<seq<byte>>
    var m_file_sha1: Option<seq<byte>>
    var m_chunk_sha1: Option<seq<byte>>
    var m_md5_value: seq<byte>
    var m_sha1_final: Text
    var m_graft: Text
    var m_chunks: seq<CvmfsChunk>

    /** Every octet given to `Update` so far. */
    ghost var stream: seq<byte>
    /** The value of m_crc32 before anything was absorbed. */
    ghost const start: bv32

    /** Open for `Update`: every field is determined by the stream, however it was cut into slices. */
    ghost predicate Running()
      reads this
    {
      Summed(stream) && Chunking(stream) && m_md5_value == [] && m_graft == []
    }

    /** The running sums after the octets `s`. */
    ghost predicate Summed(s: seq<byte>)
      reads this`m_offset, this`m_cksum, this`m_adler32, this`m_crc32, this`m_md5
    {
      && m_offset == |s|
      && m_cksum == (if Has(m_digests, CKSUM) then CrcFold(0, s) else 0)
      && m_adler32 == (if Has(m_digests, ADLER32) then Adler32(ADLER_START, s) else ADLER_START)
      && m_crc32 == (if Has(m_digests, CRC32) then Crc32(start, s) else start)
      && m_md5 == (if Has(m_digests, MD5) then Some(s) else None)
    }

    /** The chunker after the octets `s`. */
    ghost predicate Chunking(s: seq<byte>)
      reads this`m_file_sha1, this`m_chunk_sha1, this`m_cur_chunk_bytes, this`m_chunks
    {
      if Has(m_digests, CVMFS) then
        && m_file_sha1 == Some(s)
        && m_chunk_sha1 == Some(OpenTail(s))
        && m_cur_chunk_bytes == |s| % CHUNK_SIZE
        && m_chunks == FullChunks(lib.sha1, s)
      else
        m_file_sha1 == None && m_chunk_sha1 == None && m_cur_chunk_bytes == 0 && m_chunks == []
    }

    /** After `Finalize`: every digest asked for is the digest of the stream. */
    ghost predicate Finalized()
      reads this
    {
      && (Has(m_digests, CKSUM) ==> m_cksum == Cksum(stream))
      && (Has(m_digests, ADLER32) ==> m_adler32 == Adler32(ADLER_START, stream))
      && (Has(m_digests, CRC32) ==> m_crc32 == Crc32(start, stream))
      && (Has(m_digests, MD5) ==> m_md5_value == lib.md5(stream) && m_md5 == None)
      && (Has(m_digests, CVMFS) ==>
            m_graft == Graft(lib.sha1, stream) && m_file_sha1 == None && m_chunk_sha1 == None)
    }

    /** The source's initialiser list leaves m_crc32 out: `garbage` is whatever was there. */
    constructor (lib: Library, digests: bv32, garbage: bv32)
      ensures Running() && stream == []
      ensures this.lib == lib && m_digests == digests && start == garbage
    {
      this.lib := lib;
      m_digests := digests;
      m_crc32 := garbage;
      start := garbage;
      m_cksum := 0;
      m_adler32 := ADLER_START;
      m_cur_chunk_bytes := 0;
      m_offset := 0;
      m_md5_value := [];
      m_sha1_final := [];
      m_graft := [];
      m_chunks := [];
      stream := [];
      m_md5 := if Has(digests, MD5) then Some([]) else None;
      m_file_sha1 := if Has(digests, CVMFS) then Some([]) else None;
      m_chunk_sha1 := if Has(digests, CVMFS) then Some([]) else None;
      new;
      hide *;
      FreshStateRuns();
    }

    lemma {:induction false} FreshStateRuns()
      requires m_offset == 0 && m_cksum == 0 && m_adler32 == ADLER_START && m_crc32 == start && stream == []
      requires m_md5_value == [] && m_graft == [] && m_chunks == [] && m_cur_chunk_bytes == 0
      requires m_md5 == (if Has(m_digests, MD5) then Some([]) else None)
      requires m_file_sha1 == m_chunk_sha1 == (if Has(m_digests, CVMFS) then Some([]) else None)
      ensures Running()
    {
      hide Has, CrcFold, Adler32, Crc32, FullChunks, OpenTail;
      NothingYet(lib.sha1, start);
    }

    method Update(buffer: seq<byte>)
      requires Running()
      modifies this
      ensures Running() && stream == old(stream) + buffer
    {
      hide Has, Summed, Chunking;
      UpdateSums(buffer);
      if Has(m_digests, CVMFS) {
        UpdateChunks(buffer);
      } else {
        NoChunks(stream, stream + buffer);
      }
      stream := stream + buffer;
    }

    lemma {:induction false} NoChunks(s: seq<byte>, t: seq<byte>)
      requires !Has(m_digests, CVMFS) && Chunking(s)
      ensures Chunking(t)
    {
    }

    /** The digests of the whole stream. */
    method UpdateSums(buffer: seq<byte>)
      requires Summed(stream)
      modifies this`m_offset, this`m_adler32, this`m_cksum, this`m_crc32, this`m_md5
      ensures Summed(stream + buffer)
    {
      hide Has, CrcFold, Adler32, Crc32;
      m_offset := m_offset + |buffer|;
      if Has(m_digests, ADLER32) {
        Adler32Concat(ADLER_START, stream, buffer);
        m_adler32 := Adler32(m_adler32, buffer);
      }
      if Has(m_digests, CKSUM) {
        CrcFoldConcat(0, stream, buffer);
        m_cksum := CksumBytes(m_cksum, buffer);
      }
      if Has(m_digests, CRC32) {
        Crc32Concat(start, stream, buffer);
        m_crc32 := Crc32(m_crc32, buffer);
      }
      if Has(m_digests, MD5) {
        m_md5 := Some(m_md5.value + buffer);
      }
    }

    /** The chunking part of `Update`; one slice may span many chunks. */
    method UpdateChunks(buffer: seq<byte>)
      requires Has(m_digests, CVMFS) && Chunking(stream)
      modifies this`m_file_sha1, this`m_chunk_sha1, this`m_chunks, this`m_cur_chunk_bytes
      ensures Chunking(stream + buffer)
    {
      hide Has, FullChunks, OpenTail, Hex;
      m_file_sha1 := Some(m_file_sha1.value + buffer);
      var bsize: nat := |buffer|;
      var totalBytes := m_cur_chunk_bytes + bsize;
      var bufferOffset: nat := 0;
      ghost var fed := stream;
      assert buffer[..0] == [] && stream + [] == stream;
      while totalBytes >= CHUNK_SIZE
        invariant bufferOffset + bsize == |buffer|
        invariant totalBytes == m_cur_chunk_bytes + bsize
        invariant fed == stream + buffer[..bufferOffset]
        invariant m_file_sha1 == Some(stream + buffer)
        invariant m_chunk_sha1 == Some(OpenTail(fed))
        invariant m_cur_chunk_bytes == |fed| % CHUNK_SIZE
        invariant m_chunks == FullChunks(lib.sha1, fed)
        decreases totalBytes
      {
        var newBytes := CHUNK_SIZE - m_cur_chunk_bytes;
        ghost var x := buffer[bufferOffset..bufferOffset + newBytes];
        m_chunk_sha1 := Some(m_chunk_sha1.value + buffer[bufferOffset..bufferOffset + newBytes]);
        bufferOffset := bufferOffset + newBytes;
        bsize := bsize - newBytes;

        var sha1Value := lib.sha1(m_chunk_sha1.value);
        m_chunk_sha1 := Some([]);
        var hex := HumanReadableEvp(sha1Value);
        var newOffset := if |m_chunks| == 0 then 0 else m_chunks[|m_chunks| - 1].offset + CHUNK_SIZE;
        ChunkCompletes(lib.sha1, fed, x);
        NextOffset(lib.sha1, fed);
        m_chunks := m_chunks + [CvmfsChunk(hex, newOffset)];

        m_cur_chunk_bytes := 0;
        totalBytes := totalBytes - CHUNK_SIZE;
        assert fed + x == stream + buffer[..bufferOffset];
        fed := fed + x;
      }
      ghost var y := buffer[bufferOffset..];
      TailGrows(lib.sha1, fed, y);
      assert fed + y == stream + buffer;
      m_chunk_sha1 := Some(m_chunk_sha1.value + buffer[bufferOffset..]);
      m_cur_chunk_bytes := m_cur_chunk_bytes + bsize;
    }

    method Finalize()
      requires Running()
      modifies this
      ensures Finalized() && stream == old(stream)
    {
      hide Has, Summed, Cksum, Adler32, Crc32, Graft, Chunking;
      FinalizeSums();
      if Has(m_digests, CVMFS) {
        FinalizeChunks();
      }
    }

    lemma {:induction false} SummedGives(s: seq<byte>)
      requires Summed(s)
      ensures m_offset == |s|
      ensures Has(m_digests, MD5) ==> m_md5 == Some(s)
      ensures Has(m_digests, CKSUM) ==> m_cksum == CrcFold(0, s)
      ensures Has(m_digests, ADLER32) ==> m_adler32 == Adler32(ADLER_START, s)
      ensures Has(m_digests, CRC32) ==> m_crc32 == Crc32(start, s)
    {
      hide Has, CrcFold, Crc32, Adler32;
    }

    /** The digests of the whole stream. */
    method FinalizeSums()
      requires Summed(stream)
      modifies this`m_md5, this`m_md5_value, this`m_cksum
      ensures Has(m_digests, CKSUM) ==> m_cksum == Cksum(stream)
      ensures Has(m_digests, MD5) ==> m_md5_value == lib.md5(stream) && m_md5 == None
      ensures Has(m_digests, ADLER32) ==> m_adler32 == Adler32(ADLER_START, stream)
      ensures Has(m_digests, CRC32) ==> m_crc32 == Crc32(start, stream)
      ensures m_offset == |stream|
    {
      hide *;
      SummedGives(stream);
      if Has(m_digests, MD5) {
        m_md5_value := lib.md5(m_md5.value);
        m_md5 := None;
      }
      if Has(m_digests, CKSUM) {
        m_cksum := FinalCksum(m_cksum, m_offset, stream);
      }
    }

    /** The chunking part of `Finalize`. The trailing chunk is digested and then forgotten. */
    method FinalizeChunks()
      requires Has(m_digests, CVMFS) && Chunking(stream) && m_offset == |stream|
      modifies this`m_file_sha1, this`m_chunk_sha1, this`m_sha1_final, this`m_graft
      ensures m_file_sha1 == None && m_chunk_sha1 == None
      ensures m_graft == Graft(lib.sha1, stream)
    {
      hide Has, Hex;
      var sha1Value := lib.sha1(m_file_sha1.value);
      m_file_sha1 := None;
      m_sha1_final := HumanReadableEvp(sha1Value);
      var chunkOffset := m_offset - m_cur_chunk_bytes;
      if m_cur_chunk_bytes != 0 && chunkOffset != 0 {
        sha1Value := lib.sha1(m_chunk_sha1.value);
        var hex := HumanReadableEvp(sha1Value);
        var newChunk := CvmfsChunk(hex, chunkOffset);
      }
      m_chunk_sha1 := None;
      m_graft := PrintGraft(m_offset, m_sha1_final, m_chunks);
    }

    lemma {:induction false} FinalTexts()
      ensures Finalized() && Has(m_digests, CKSUM) ==> CksumText(m_cksum) == DigestText(lib, start, CKSUM, stream)
      ensures Finalized() && Has(m_digests, CRC32) ==>
        Hex(NetworkOrder(m_crc32)) == DigestText(lib, start, CRC32, stream)
      ensures Finalized() && Has(m_digests, ADLER32) ==> AdlerText(m_adler32) == DigestText(lib, start, ADLER32, stream)
      ensures Finalized() && Has(m_digests, MD5) ==> Hex(m_md5_value) == DigestText(lib, start, MD5, stream)
      ensures Finalized() && Has(m_digests, CVMFS) ==> m_graft == DigestText(lib, start, CVMFS, stream)
      ensures DigestText(lib, start, 0, stream) == []
    {
      hide Cksum, Crc32, Adler32, Graft, Hex, Decimal, AdlerText, NetworkOrder, Has, DigestText;
      DigestTexts(lib, start, stream);
    }

    lemma {:induction false} FirstText(digest: bv32)
      ensures Finalized() ==>
        DigestText(lib, start, FirstOf(digest & m_digests), stream) ==
          if Has(digest, CKSUM) && Has(m_digests, CKSUM) then CksumText(m_cksum)
          else if Has(digest, CRC32) && Has(m_digests, CRC32) then Hex(NetworkOrder(m_crc32))
          else if Has(digest, ADLER32) && Has(m_digests, ADLER32) then AdlerText(m_adler32)
          else if Has(digest, MD5) && Has(m_digests, MD5) then Hex(m_md5_value)
          else if Has(digest, CVMFS) && Has(m_digests, CVMFS) then m_graft
          else []
    {
      hide *;
      BothDigests(digest, m_digests);
      FirstDigestText(lib, start, digest & m_digests, stream);
      FinalTexts();
    }

    function Get(digest: bv32): (r: Text)
      reads this
      ensures Finalized() ==> r == DigestText(lib, start, FirstOf(digest & m_digests), stream)
    {
      hide *;
      FirstText(digest);
      if Has(digest, CKSUM) && Has(m_digests, CKSUM) then CksumText(m_cksum)
      else if Has(digest, CRC32) && Has(m_digests, CRC32) then Hex(NetworkOrder(m_crc32))
      else if Has(digest, ADLER32) && Has(m_digests, ADLER32) then AdlerText(m_adler32)
      else if Has(digest, MD5) && Has(m_digests, MD5) then Hex(m_md5_value)
      else if Has(digest, CVMFS) && Has(m_digests, CVMFS) then m_graft
      else []
    }
  }

  /** A full chunk starts where the previous one ends. */
  lemma {:induction false} NextOffset(sha1: Digest, s: seq<byte>)
    ensures |s| / CHUNK_SIZE * CHUNK_SIZE ==
      if |FullChunks(sha1, s)| == 0 then 0 else FullChunks(sha1, s)[|FullChunks(sha1, s)| - 1].offset + CHUNK_SIZE
  {
    if |s| / CHUNK_SIZE > 0 {
      ListedAt(sha1, s, |s| / CHUNK_SIZE - 1);
    }
  }

  // ---------- slicing ----------

  /** A state that is given the slices one after the other. */
  method Feed(lib: Library, digests: bv32, garbage: bv32, slices: seq<seq<byte>>) returns (state: ChecksumState)
    ensures fresh(state) && state.Running() && state.stream == Concat(slices)
    ensures state.lib == lib && state.m_digests == digests && state.start == garbage
  {
    hide ChecksumState.Running;
    state := new ChecksumState(lib, digests, garbage);
    var i := 0;
    while i < |slices|
      invariant i <= |slices| && state.Running() && state.stream == Concat(slices[..i])
    {
      assert slices[..i + 1][..i] == slices[..i];
      state.Update(slices[i]);
      i := i + 1;
    }
    assert slices[..i] == slices;
  }

  /** Two ways of cutting the same octets into slices lead to the same running values; only the CRC-32 may
      differ, by what the uninitialised memory held. */
  method SlicingIndependent(lib: Library, digests: bv32, garbageA: bv32, garbageB: bv32, slicesA: seq<seq<byte>>,
                            slicesB: seq<seq<byte>>)
      returns (a: ChecksumState, b: ChecksumState)
    requires Concat(slicesA) == Concat(slicesB)
    ensures a.m_cksum == b.m_cksum && a.m_adler32 == b.m_adler32 && a.m_md5 == b.m_md5
    ensures a.m_file_sha1 == b.m_file_sha1 && a.m_chunk_sha1 == b.m_chunk_sha1 && a.m_chunks == b.m_chunks
    ensures a.m_cur_chunk_bytes == b.m_cur_chunk_bytes && a.m_offset == b.m_offset == |Concat(slicesA)|
    ensures garbageA == garbageB ==> a.m_crc32 == b.m_crc32
    ensures a.Running() && b.Running() && a.stream == b.stream == Concat(slicesA)
  {
    hide Has, CrcFold, Adler32, Crc32, FullChunks, OpenTail;
    a := Feed(lib, digests, garbageA, slicesA);
    b := Feed(lib, digests, garbageB, slicesB);
  }

  lemma {:induction false} OnlyCrc32UsesStart(lib: Library, start1: bv32, start2: bv32, flag: bv32, s: seq<byte>)
    requires start1 == start2 || flag != CRC32
    ensures DigestText(lib, start1, flag, s) == DigestText(lib, start2, flag, s)
  {
    hide Cksum, Crc32, Adler32, Decimal, Hex, Graft, AdlerText, NetworkOrder;
  }

  /** Finalized states that absorbed the same octets give the same texts. */
  lemma {:induction false} SameDigests(a: ChecksumState, b: ChecksumState, digest: bv32)
    requires a.Finalized() && b.Finalized() && a.stream == b.stream
    requires a.m_digests == b.m_digests && a.lib == b.lib
    requires a.start == b.start || FirstOf(digest & a.m_digests) != CRC32
    ensures a.Get(digest) == b.Get(digest)
  {
    hide *;
    OnlyCrc32UsesStart(a.lib, a.start, b.start, FirstOf(digest & a.m_digests), a.stream);
  }

  /** From slices to text: the same octets give the same digest, however they are cut. */
  method SlicedDigests(lib: Library, digests: bv32, garbageA: bv32, garbageB: bv32, slicesA: seq<seq<byte>>,
                       slicesB: seq<seq<byte>>, digest: bv32)
      returns (textA: Text, textB: Text)
    requires Concat(slicesA) == Concat(slicesB)
    ensures textA == DigestText(lib, garbageA, FirstOf(digest & digests), Concat(slicesA))
    ensures textA == textB || (FirstOf(digest & digests) == CRC32 && garbageA != garbageB)
  {
    hide *;
    var a := Feed(lib, digests, garbageA, slicesA);
    var b := Feed(lib, digests, garbageB, slicesB);
    a.Finalize();
    b.Finalize();
    textA := a.Get(digest);
    textB := b.Get(digest);
    if garbageA == garbageB || FirstOf(digest & digests) != CRC32 {
      SameDigests(a, b, digest);
    }
  }
}
