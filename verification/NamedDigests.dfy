/** The entries `ChecksumManager::Set(pfn, state)` stores for a file, and reading them back. */
module NamedDigests {
  import opened Bytes
  import opened Checksums
  import opened Sidecar
  import opened SidecarMap

  const CKSUM_NAME: Text := [0x43, 0x4B, 0x53, 0x55, 0x4D]  // "CKSUM"
  const ADLER32_NAME: Text := [0x41, 0x44, 0x4C, 0x45, 0x52, 0x33, 0x32]  // "ADLER32"
  const CRC32_NAME: Text := [0x43, 0x52, 0x43, 0x33, 0x32]  // "CRC32"
  const MD5_NAME: Text := [0x4D, 0x44, 0x35]  // "MD5"
  const CVMFS_NAME: Text := [0x43, 0x56, 0x4D, 0x46, 0x53]  // "CVMFS"

  function NameOf(flag: bv32): Text {
    if flag == CKSUM then CKSUM_NAME else if flag == ADLER32 then ADLER32_NAME
    else if flag == CRC32 then CRC32_NAME else if flag == MD5 then MD5_NAME else CVMFS_NAME
  }

  /** Empty values are not stored. */
  function Kept(name: Text, value: Text): seq<Entry> {
    if value == [] then [] else [Entry(name, value)]
  }

  /** What a finalized state that was asked for `digests` gives for one of them. */
  function TextOf(lib: Library, start: bv32, digests: bv32, flag: bv32, s: seq<byte>): Text {
    DigestText(lib, start, FirstOf(flag & digests), s)
  }

  function Named(lib: Library, start: bv32, digests: bv32, s: seq<byte>): seq<Entry> {
    Kept(CKSUM_NAME, TextOf(lib, start, digests, CKSUM, s)) +
    Kept(ADLER32_NAME, TextOf(lib, start, digests, ADLER32, s)) +
    Kept(CRC32_NAME, TextOf(lib, start, digests, CRC32, s)) +
    Kept(MD5_NAME, TextOf(lib, start, digests, MD5, s)) +
    Kept(CVMFS_NAME, TextOf(lib, start, digests, CVMFS, s))
  }

  ghost predicate GoodName(name: Text) {
    Plain(name) && COLON !in name && UpperText(name) == name
  }

  lemma {:induction false} GoodNames()
    ensures GoodName(CKSUM_NAME) && GoodName(ADLER32_NAME) && GoodName(CRC32_NAME)
    ensures GoodName(MD5_NAME) && GoodName(CVMFS_NAME)
  {
  }

  lemma {:induction false} KeptStorable(name: Text, value: Text)
    requires GoodName(name) && Plain(value)
    ensures AllStorable(Kept(name, value)) && UpperNames(Kept(name, value)) == Kept(name, value)
  {
    hide IsPlain, UpperText;
  }

  lemma {:induction false} BothStorable(a: seq<Entry>, b: seq<Entry>)
    requires AllStorable(a) && UpperNames(a) == a && AllStorable(b) && UpperNames(b) == b
    ensures AllStorable(a + b) && UpperNames(a + b) == a + b
  {
    hide Storable, UpperText;
    forall i | 0 <= i < |a + b|
      ensures Storable((a + b)[i]) && UpperNames(a + b)[i] == (a + b)[i]
    {
      if i < |a| {
        assert UpperNames(a)[i] == a[i];
      } else {
        assert UpperNames(b)[i - |a|] == b[i - |a|];
      }
    }
  }

  lemma {:induction false} NamedStorable(lib: Library, start: bv32, digests: bv32, s: seq<byte>)
    ensures AllStorable(Named(lib, start, digests, s))
    ensures UpperNames(Named(lib, start, digests, s)) == Named(lib, start, digests, s)
  {
    hide DigestText, FirstOf, GoodName, AllStorable, UpperNames, Kept, Plain;
    GoodNames();
    DigestTextPlain(lib, start, FirstOf(CKSUM & digests), s);
    DigestTextPlain(lib, start, FirstOf(ADLER32 & digests), s);
    DigestTextPlain(lib, start, FirstOf(CRC32 & digests), s);
    DigestTextPlain(lib, start, FirstOf(MD5 & digests), s);
    DigestTextPlain(lib, start, FirstOf(CVMFS & digests), s);
    var k1 := Kept(CKSUM_NAME, TextOf(lib, start, digests, CKSUM, s));
    var k2 := Kept(ADLER32_NAME, TextOf(lib, start, digests, ADLER32, s));
    var k3 := Kept(CRC32_NAME, TextOf(lib, start, digests, CRC32, s));
    var k4 := Kept(MD5_NAME, TextOf(lib, start, digests, MD5, s));
    var k5 := Kept(CVMFS_NAME, TextOf(lib, start, digests, CVMFS, s));
    KeptStorable(CKSUM_NAME, TextOf(lib, start, digests, CKSUM, s));
    KeptStorable(ADLER32_NAME, TextOf(lib, start, digests, ADLER32, s));
    KeptStorable(CRC32_NAME, TextOf(lib, start, digests, CRC32, s));
    KeptStorable(MD5_NAME, TextOf(lib, start, digests, MD5, s));
    KeptStorable(CVMFS_NAME, TextOf(lib, start, digests, CVMFS, s));
    BothStorable(k1, k2);
    BothStorable(k1 + k2, k3);
    BothStorable(k1 + k2 + k3, k4);
    BothStorable(k1 + k2 + k3 + k4, k5);
  }

  /** The stored text of a file's digests reads back as exactly those digests under those names. */
  lemma {:induction false} NamedReadBack(lib: Library, start: bv32, digests: bv32, s: seq<byte>)
    ensures ParseText(Print(Named(lib, start, digests, s))) == Parsed(0, Named(lib, start, digests, s))
    ensures NulFree(Print(Named(lib, start, digests, s)))
  {
    hide *;
    NamedStorable(lib, start, digests, s);
    RoundTripIffStorable(Named(lib, start, digests, s));
    PrintNulFree(Named(lib, start, digests, s));
  }

  lemma {:induction false} LookupConcat(a: seq<Entry>, b: seq<Entry>, name: Text)
    ensures Lookup(a + b, name) == if Names(b, name) then Lookup(b, name) else Lookup(a, name)
  {
    hide SameName;
    if b == [] {
      assert a + b == a;
    } else {
      var n := |b| - 1;
      assert (a + b)[..|a + b| - 1] == a + b[..n] && b == b[..n] + [b[n]];
      LookupConcat(a, b[..n], name);
      OneMore(b[..n], b[n], name, []);
    }
  }

  lemma {:induction false} KeptNames(name: Text, value: Text, other: Text)
    ensures Names(Kept(name, value), other) <==> value != [] && SameName(name, other)
    ensures Lookup(Kept(name, value), other) == if SameName(name, other) then value else []
  {
    hide SameName;
    if value != [] {
      assert Kept(name, value)[0] == Entry(name, value);
    }
  }

  lemma {:induction false} NamesDiffer()
    ensures !SameName(ADLER32_NAME, CKSUM_NAME) && !SameName(CRC32_NAME, CKSUM_NAME)
    ensures !SameName(MD5_NAME, CKSUM_NAME) && !SameName(CVMFS_NAME, CKSUM_NAME)
    ensures !SameName(CRC32_NAME, ADLER32_NAME) && !SameName(MD5_NAME, ADLER32_NAME)
    ensures !SameName(CVMFS_NAME, ADLER32_NAME)
    ensures !SameName(MD5_NAME, CRC32_NAME) && !SameName(CVMFS_NAME, CRC32_NAME) && !SameName(CVMFS_NAME, MD5_NAME)
  {
    assert UpperText(CKSUM_NAME)[1] == 0x4B && UpperText(CKSUM_NAME)[0] == 0x43;
    assert UpperText(CRC32_NAME)[1] == 0x52 && UpperText(CRC32_NAME)[0] == 0x43;
    assert UpperText(CVMFS_NAME)[1] == 0x56 && UpperText(CVMFS_NAME)[0] == 0x43;
    assert UpperText(ADLER32_NAME)[0] == 0x41 && UpperText(MD5_NAME)[0] == 0x4D;
  }

  /** Five entries under different names: looking one of the names up finds its own value. */
  lemma {:induction false} FiveLookups(v1: Text, v2: Text, v3: Text, v4: Text, v5: Text, name: Text)
    ensures var all := Kept(CKSUM_NAME, v1) + Kept(ADLER32_NAME, v2) + Kept(CRC32_NAME, v3) +
        Kept(MD5_NAME, v4) + Kept(CVMFS_NAME, v5);
      Lookup(all, name) ==
        if SameName(CVMFS_NAME, name) && v5 != [] then v5 else if SameName(MD5_NAME, name) && v4 != [] then v4
        else if SameName(CRC32_NAME, name) && v3 != [] then v3 else if SameName(ADLER32_NAME, name) && v2 != [] then v2
        else if SameName(CKSUM_NAME, name) then v1 else []
  {
    hide *;
    var k1, k2, k3 := Kept(CKSUM_NAME, v1), Kept(ADLER32_NAME, v2), Kept(CRC32_NAME, v3);
    var k4, k5 := Kept(MD5_NAME, v4), Kept(CVMFS_NAME, v5);
    KeptNames(CKSUM_NAME, v1, name);
    KeptNames(ADLER32_NAME, v2, name);
    KeptNames(CRC32_NAME, v3, name);
    KeptNames(MD5_NAME, v4, name);
    KeptNames(CVMFS_NAME, v5, name);
    LookupConcat(k1, k2, name);
    LookupConcat(k1 + k2, k3, name);
    LookupConcat(k1 + k2 + k3, k4, name);
    LookupConcat(k1 + k2 + k3 + k4, k5, name);
  }

  /** In what is stored for a file, the name of each digest, in any case, finds the text of that digest. */
  lemma {:induction false} NamedLookup(lib: Library, start: bv32, digests: bv32, s: seq<byte>, name: Text)
    ensures SameName(CKSUM_NAME, name) ==>
      Lookup(Named(lib, start, digests, s), name) == TextOf(lib, start, digests, CKSUM, s)
    ensures SameName(ADLER32_NAME, name) ==>
      Lookup(Named(lib, start, digests, s), name) == TextOf(lib, start, digests, ADLER32, s)
    ensures SameName(CRC32_NAME, name) ==>
      Lookup(Named(lib, start, digests, s), name) == TextOf(lib, start, digests, CRC32, s)
    ensures SameName(MD5_NAME, name) ==>
      Lookup(Named(lib, start, digests, s), name) == TextOf(lib, start, digests, MD5, s)
    ensures SameName(CVMFS_NAME, name) ==>
      Lookup(Named(lib, start, digests, s), name) == TextOf(lib, start, digests, CVMFS, s)
  {
    hide TextOf, Lookup, UpperText;
    NamesDiffer();
    FiveLookups(TextOf(lib, start, digests, CKSUM, s), TextOf(lib, start, digests, ADLER32, s),
      TextOf(lib, start, digests, CRC32, s), TextOf(lib, start, digests, MD5, s),
      TextOf(lib, start, digests, CVMFS, s), name);
  }

  /** The names as they are spelled in the source. */
  lemma {:induction false} NamesAre()
    ensures Spells(CKSUM_NAME, "CKSUM") && Spells(ADLER32_NAME, "ADLER32") && Spells(CRC32_NAME, "CRC32")
    ensures Spells(MD5_NAME, "MD5") && Spells(CVMFS_NAME, "CVMFS")
  {
  }
}
