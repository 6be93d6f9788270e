/** CVMFS chunks: what the chunk list and the graft text are for a whole file, and which files
    the recorded chunk list covers. */
module Cvmfs {
  import opened Bytes

  const CHUNK_SIZE: nat := 24 * 1024 * 1024

  /** A digest algorithm of the OpenSSL library: nothing is assumed but that it is a function. */
  type Digest = seq<byte> -> seq<byte>

  datatype CvmfsChunk = CvmfsChunk(sha1: Text, offset: nat)

  // ---------- the chunk list of a file ----------

  function ChunkAt(sha1: Digest, s: seq<byte>, i: nat): CvmfsChunk
    requires (i + 1) * CHUNK_SIZE <= |s|
  {
    CvmfsChunk(Hex(sha1(s[i * CHUNK_SIZE..(i + 1) * CHUNK_SIZE])), i * CHUNK_SIZE)
  }

  /** One entry for each full chunk of `s`. */
  function FullChunks(sha1: Digest, s: seq<byte>): (chunks: seq<CvmfsChunk>)
    ensures |chunks| == |s| / CHUNK_SIZE
  {
    seq(|s| / CHUNK_SIZE, i requires 0 <= i < |s| / CHUNK_SIZE => ChunkAt(sha1, s, i))
  }

  /** The octets after the last full chunk. */
  function OpenTail(s: seq<byte>): (t: seq<byte>)
    ensures |t| == |s| % CHUNK_SIZE
  {
    s[|s| - |s| % CHUNK_SIZE..]
  }

  lemma {:induction false} ChunkOfPrefix(sha1: Digest, s: seq<byte>, x: seq<byte>, i: nat)
    requires i < |s| / CHUNK_SIZE
    ensures (i + 1) * CHUNK_SIZE <= |s| && ChunkAt(sha1, s + x, i) == ChunkAt(sha1, s, i)
  {
    hide Hex;
    assert (s + x)[i * CHUNK_SIZE..(i + 1) * CHUNK_SIZE] == s[i * CHUNK_SIZE..(i + 1) * CHUNK_SIZE];
  }

  /** Octets that do not complete a chunk only make the tail longer. */
  lemma {:induction false} TailGrows(sha1: Digest, s: seq<byte>, x: seq<byte>)
    requires |s| % CHUNK_SIZE + |x| < CHUNK_SIZE
    ensures FullChunks(sha1, s + x) == FullChunks(sha1, s)
    ensures OpenTail(s + x) == OpenTail(s) + x
  {
    hide ChunkAt;
    var n := |s| / CHUNK_SIZE;
    assert |s + x| / CHUNK_SIZE == n;
    forall i | 0 <= i < n
      ensures ChunkAt(sha1, s + x, i) == ChunkAt(sha1, s, i)
    {
      ChunkOfPrefix(sha1, s, x, i);
    }
  }

  /** Octets that complete a chunk exactly add one entry and empty the tail. */
  lemma {:induction false} ChunkCompletes(sha1: Digest, s: seq<byte>, x: seq<byte>)
    requires |s| % CHUNK_SIZE + |x| == CHUNK_SIZE
    ensures FullChunks(sha1, s + x) ==
      FullChunks(sha1, s) + [CvmfsChunk(Hex(sha1(OpenTail(s) + x)), |s| / CHUNK_SIZE * CHUNK_SIZE)]
    ensures OpenTail(s + x) == [] && |s + x| % CHUNK_SIZE == 0
  {
    var n := |s| / CHUNK_SIZE;
    OneChunkMore(sha1, s, x, n);
    hide ChunkAt, Hex;
    forall i | 0 <= i < n
      ensures ChunkAt(sha1, s + x, i) == ChunkAt(sha1, s, i)
    {
      ChunkOfPrefix(sha1, s, x, i);
    }
  }

  lemma {:induction false} OneChunkMore(sha1: Digest, s: seq<byte>, x: seq<byte>, n: nat)
    requires |s| % CHUNK_SIZE + |x| == CHUNK_SIZE && n == |s| / CHUNK_SIZE
    ensures |s + x| == (n + 1) * CHUNK_SIZE && |s + x| / CHUNK_SIZE == n + 1
    ensures ChunkAt(sha1, s + x, n) == CvmfsChunk(Hex(sha1(OpenTail(s) + x)), n * CHUNK_SIZE)
  {
    hide Hex;
    assert |s| == n * CHUNK_SIZE + |s| % CHUNK_SIZE;
    assert (s + x)[n * CHUNK_SIZE..(n + 1) * CHUNK_SIZE] == OpenTail(s) + x;
  }

  // ---------- the graft text ----------

  const SIZE: Text := [0x73, 0x69, 0x7A, 0x65, 0x3D]  // "size="
  const CHECKSUM: Text := [0x3B, 0x63, 0x68, 0x65, 0x63, 0x6B, 0x73, 0x75, 0x6D, 0x3D]  // ";checksum="
  // ";chunk_offsets=0"
  const OFFSETS_0: Text := [
    0x3B, 0x63, 0x68, 0x75, 0x6E, 0x6B, 0x5F, 0x6F, 0x66, 0x66, 0x73, 0x65,
    0x74, 0x73, 0x3D, 0x30]
  // ";chunk_checksums="
  const CHECKSUMS: Text := [
    0x3B, 0x63, 0x68, 0x75, 0x6E, 0x6B, 0x5F, 0x63, 0x68, 0x65, 0x63, 0x6B,
    0x73, 0x75, 0x6D, 0x73, 0x3D]
  const COMMA: Text := [0x2C]  // ","

  function MoreOffsets(chunks: seq<CvmfsChunk>, k: nat): Text
    requires k <= |chunks|
  {
    if k <= 1 then [] else MoreOffsets(chunks, k - 1) + COMMA + Decimal(chunks[k - 1].offset)
  }

  function MoreChecksums(chunks: seq<CvmfsChunk>, k: nat): Text
    requires k <= |chunks|
  {
    if k <= 1 then [] else MoreChecksums(chunks, k - 1) + COMMA + chunks[k - 1].sha1
  }

  /** What the text lists: the chunk list, or one entry for the whole file. */
  function Listed(sha1: Digest, s: seq<byte>, chunks: seq<CvmfsChunk>): (listed: seq<CvmfsChunk>)
    ensures listed != []
  {
    if |chunks| < 2 then [CvmfsChunk(Hex(sha1(s)), 0)] else chunks
  }

  function GraftOf(size: nat, checksum: Text, listed: seq<CvmfsChunk>): Text
    requires listed != []
  {
    SIZE + Decimal(size) + CHECKSUM + checksum +
    OFFSETS_0 + MoreOffsets(listed, |listed|) +
    CHECKSUMS + listed[0].sha1 + MoreChecksums(listed, |listed|)
  }

  /** The graft of a file: its size, its SHA-1 and its chunk list. */
  function Graft(sha1: Digest, s: seq<byte>): Text {
    GraftOf(|s|, Hex(sha1(s)), Listed(sha1, s, FullChunks(sha1, s)))
  }

  lemma {:induction false} PlainWords()
    ensures Plain(SIZE) && Plain(CHECKSUM) && Plain(OFFSETS_0) && Plain(CHECKSUMS) && Plain(COMMA)
  {
  }

  lemma {:induction false} PlainOffsets(chunks: seq<CvmfsChunk>, k: nat)
    requires k <= |chunks|
    ensures Plain(MoreOffsets(chunks, k))
  {
    hide IsPlain;
    if k > 1 {
      PlainOffsets(chunks, k - 1);
      PlainWords();
      DecimalRoundTrip(chunks[k - 1].offset);
    }
  }

  lemma {:induction false} PlainChecksums(chunks: seq<CvmfsChunk>, k: nat)
    requires k <= |chunks|
    requires forall i :: 0 <= i < |chunks| ==> Plain(chunks[i].sha1)
    ensures Plain(MoreChecksums(chunks, k))
  {
    hide IsPlain;
    if k > 1 {
      PlainChecksums(chunks, k - 1);
      PlainWords();
    }
  }

  /** A graft can be stored as a checksum value: it holds no white space and no NUL. */
  lemma {:induction false} GraftPlain(sha1: Digest, s: seq<byte>)
    ensures Graft(sha1, s) != [] && Plain(Graft(sha1, s))
  {
    hide IsPlain, Hex, Decimal;
    var listed := Listed(sha1, s, FullChunks(sha1, s));
    PlainWords();
    DecimalRoundTrip(|s|);
    HexRoundTrip(sha1(s));
    forall i | 0 <= i < |listed|
      ensures Plain(listed[i].sha1)
    {
      ListedPlain(sha1, s, i);
    }
    PlainOffsets(listed, |listed|);
    PlainChecksums(listed, |listed|);
    GraftOfPlain(|s|, Hex(sha1(s)), listed);
  }

  lemma {:induction false} ListedPlain(sha1: Digest, s: seq<byte>, i: nat)
    requires i < |Listed(sha1, s, FullChunks(sha1, s))|
    ensures Plain(Listed(sha1, s, FullChunks(sha1, s))[i].sha1)
  {
    hide Hex, Plain, FullChunks;
    HexRoundTrip(sha1(s));
    if |FullChunks(sha1, s)| >= 2 {
      ListedAt(sha1, s, i);
      HexRoundTrip(sha1(s[i * CHUNK_SIZE..(i + 1) * CHUNK_SIZE]));
    }
  }

  lemma {:induction false} GraftOfPlain(size: nat, checksum: Text, listed: seq<CvmfsChunk>)
    requires listed != [] && Plain(checksum) && Plain(listed[0].sha1) && Plain(Decimal(size))
    requires Plain(MoreOffsets(listed, |listed|)) && Plain(MoreChecksums(listed, |listed|))
    ensures Plain(GraftOf(size, checksum, listed)) && GraftOf(size, checksum, listed) != []
  {
    PlainWords();
    hide IsPlain, Decimal, MoreOffsets, MoreChecksums;
    var a := SIZE + Decimal(size);
    var b := a + CHECKSUM + checksum;
    var c := b + OFFSETS_0 + MoreOffsets(listed, |listed|);
    assert Plain(a);
    assert Plain(b);
    assert Plain(c);
    assert Plain(c + CHECKSUMS + listed[0].sha1);
    assert |SIZE| == 5;
  }

  // ---------- which files the listed chunks cover ----------

  /** Where entry `i` ends for a reader of the list: at the next entry, or at the end of the file. */
  function EndOf(listed: seq<CvmfsChunk>, size: nat, i: nat): nat
    requires i < |listed|
  {
    if i + 1 < |listed| then listed[i + 1].offset else size
  }

  /** Entry `i` carries the digest of exactly the octets it stands for. */
  ghost predicate EntryRight(sha1: Digest, s: seq<byte>, listed: seq<CvmfsChunk>, i: nat)
    requires i < |listed|
  {
    && listed[i].offset <= EndOf(listed, |s|, i) <= |s|
    && listed[i].sha1 == Hex(sha1(s[listed[i].offset..EndOf(listed, |s|, i)]))
  }

  /** The entries start at 0, cover the file without gap or overlap, and each is right. */
  ghost predicate Tiles(sha1: Digest, s: seq<byte>, listed: seq<CvmfsChunk>) {
    && listed != [] && listed[0].offset == 0
    && forall i :: 0 <= i < |listed| ==> EntryRight(sha1, s, listed, i)
  }

  lemma {:induction false} WholeFileTiles(sha1: Digest, s: seq<byte>)
    ensures Tiles(sha1, s, [CvmfsChunk(Hex(sha1(s)), 0)])
  {
    assert s[0..|s|] == s;
  }

  lemma {:induction false} FullEntryRight(sha1: Digest, s: seq<byte>, listed: seq<CvmfsChunk>, i: nat)
    requires i < |listed| && (i + 1) * CHUNK_SIZE <= |s|
    requires listed[i] == ChunkAt(sha1, s, i) && EndOf(listed, |s|, i) == (i + 1) * CHUNK_SIZE
    ensures EntryRight(sha1, s, listed, i)
  {
  }

  lemma {:induction false} TailEntryRight(sha1: Digest, s: seq<byte>, listed: seq<CvmfsChunk>, i: nat)
    requires i + 1 == |listed|
    requires listed[i] == CvmfsChunk(Hex(sha1(OpenTail(s))), |s| - |OpenTail(s)|)
    ensures EntryRight(sha1, s, listed, i)
  {
    assert s[listed[i].offset..EndOf(listed, |s|, i)] == OpenTail(s);
  }

  lemma {:induction false} ChunkCount(size: nat, i: nat)
    requires i < size / CHUNK_SIZE
    ensures (i + 1) * CHUNK_SIZE <= size
    ensures i + 1 == size / CHUNK_SIZE ==> (i + 1) * CHUNK_SIZE == size - size % CHUNK_SIZE
  {
  }

  /** The list as it would be if `Finalize` appended the trailing chunk it builds. */
  function WithTrailing(sha1: Digest, s: seq<byte>): seq<CvmfsChunk> {
    var chunks := FullChunks(sha1, s);
    var tail := OpenTail(s);
    if tail != [] && |s| - |tail| != 0 then chunks + [CvmfsChunk(Hex(sha1(tail)), |s| - |tail|)] else chunks
  }

  lemma {:induction false} ListedAt(sha1: Digest, s: seq<byte>, i: nat)
    requires i < |s| / CHUNK_SIZE
    ensures (i + 1) * CHUNK_SIZE <= |s|
    ensures FullChunks(sha1, s)[i] == ChunkAt(sha1, s, i) && ChunkAt(sha1, s, i).offset == i * CHUNK_SIZE
  {
    ChunkCount(|s|, i);
  }

  /** Recording the trailing chunk would cover every file. */
  lemma {:induction false} IntendedListTiles(sha1: Digest, s: seq<byte>)
    ensures Tiles(sha1, s, Listed(sha1, s, WithTrailing(sha1, s)))
  {
    var full, listed := FullChunks(sha1, s), WithTrailing(sha1, s);
    if |listed| < 2 {
      WholeFileTiles(sha1, s);
    } else {
      forall i | 0 <= i < |listed|
        ensures EntryRight(sha1, s, listed, i)
      {
        hide ChunkAt, OpenTail, Hex, EntryRight;
        if i < |full| {
          ChunkCount(|s|, i);
          ListedAt(sha1, s, i);
          if i + 1 < |full| {
            ListedAt(sha1, s, i + 1);
          }
          FullEntryRight(sha1, s, listed, i);
        } else {
          TailEntryRight(sha1, s, listed, i);
        }
      }
      ListedAt(sha1, s, 0);
    }
  }

  /** Which files the list covers that is actually written. */
  predicate Covered(size: nat) {
    size / CHUNK_SIZE < 2 || size % CHUNK_SIZE == 0
  }

  lemma {:induction false} CoveredFilesTile(sha1: Digest, s: seq<byte>)
    requires Covered(|s|)
    ensures Tiles(sha1, s, Listed(sha1, s, FullChunks(sha1, s)))
  {
    var listed := FullChunks(sha1, s);
    if |listed| < 2 {
      WholeFileTiles(sha1, s);
    } else {
      forall i | 0 <= i < |listed|
        ensures EntryRight(sha1, s, listed, i)
      {
        hide ChunkAt, Hex, EntryRight;
        ChunkCount(|s|, i);
        ListedAt(sha1, s, i);
        if i + 1 < |listed| {
          ListedAt(sha1, s, i + 1);
        }
        FullEntryRight(sha1, s, listed, i);
      }
      ListedAt(sha1, s, 0);
    }
  }

  /** The last full chunk, and what the last entry has to stand for. */
  function LastChunk(s: seq<byte>): seq<byte>
    requires |s| >= CHUNK_SIZE
  {
    s[(|s| / CHUNK_SIZE - 1) * CHUNK_SIZE..|s| / CHUNK_SIZE * CHUNK_SIZE]
  }

  function LastStretch(s: seq<byte>): seq<byte>
    requires |s| >= CHUNK_SIZE
  {
    s[(|s| / CHUNK_SIZE - 1) * CHUNK_SIZE..]
  }

  lemma {:induction false} HexInjective(a: seq<byte>, b: seq<byte>)
    requires Hex(a) == Hex(b)
    ensures a == b
  {
    hide *;
    HexRoundTrip(a);
    HexRoundTrip(b);
  }

  /** The last entry, which carries the digest of the last full chunk, is right if and only if the digest
      takes the chunk and all there is from its start on for the same. */
  lemma {:induction false} LastEntryRightIff(sha1: Digest, s: seq<byte>, listed: seq<CvmfsChunk>)
    requires |listed| == |s| / CHUNK_SIZE > 0
    requires listed[|listed| - 1] == ChunkAt(sha1, s, |listed| - 1)
    ensures EntryRight(sha1, s, listed, |listed| - 1) <==> sha1(LastChunk(s)) == sha1(LastStretch(s))
  {
    hide Hex;
    var k := |listed| - 1;
    ChunkCount(|s|, k);
    assert s[k * CHUNK_SIZE..] == s[k * CHUNK_SIZE..|s|];
    if Hex(sha1(LastChunk(s))) == Hex(sha1(LastStretch(s))) {
      HexInjective(sha1(LastChunk(s)), sha1(LastStretch(s)));
    }
  }

  /** Every entry but the last is right for every file. */
  lemma {:induction false} EarlierEntryRight(sha1: Digest, s: seq<byte>, i: nat)
    requires i + 1 < |s| / CHUNK_SIZE
    ensures EntryRight(sha1, s, FullChunks(sha1, s), i)
  {
    hide ChunkAt, Hex, EntryRight;
    ListedAt(sha1, s, i);
    ListedAt(sha1, s, i + 1);
    FullEntryRight(sha1, s, FullChunks(sha1, s), i);
  }

  /** For every digest function and file: the list covers the file exactly when it has fewer than two full
      chunks, or no octets after the last one, or the digest of the last chunk does not change when these
      octets are added to it. */
  lemma {:induction false} TilesIffCovered(sha1: Digest, s: seq<byte>)
    ensures Tiles(sha1, s, Listed(sha1, s, FullChunks(sha1, s))) <==>
      Covered(|s|) || sha1(LastChunk(s)) == sha1(LastStretch(s))
  {
    var listed := FullChunks(sha1, s);
    if Covered(|s|) {
      CoveredFilesTile(sha1, s);
    } else {
      ListedAt(sha1, s, |listed| - 1);
      LastEntryRightIff(sha1, s, listed);
      ListedAt(sha1, s, 0);
      forall i | 0 <= i < |listed| - 1
        ensures EntryRight(sha1, s, listed, i)
      {
        EarlierEntryRight(sha1, s, i);
      }
    }
  }

  /** So the size alone decides only for the files that are covered: for every other one some digest
      function gives it away. */
  lemma {:induction false} TilesForEveryDigest(s: seq<byte>)
    ensures (forall sha1: Digest :: Tiles(sha1, s, Listed(sha1, s, FullChunks(sha1, s)))) <==> Covered(|s|)
  {
    hide Tiles, Listed, FullChunks;
    if Covered(|s|) {
      forall sha1: Digest
        ensures Tiles(sha1, s, Listed(sha1, s, FullChunks(sha1, s)))
      {
        TilesIffCovered(sha1, s);
      }
    } else {
      var identity: Digest := x => x;
      TilesIffCovered(identity, s);
      assert |LastChunk(s)| == CHUNK_SIZE < |LastStretch(s)|;
    }
  }
}
