/** From the octets a client writes to the checksums another client reads. */
module EndToEnd {
  import opened Bytes
  import opened PosixCksum
  import opened Zlib
  import opened Checksums
  import opened HdfsReplies
  import opened HdfsWorld
  import opened ReadAhead
  import opened SequentialWrites
  import opened Sidecar
  import opened SidecarMap
  import opened NamedDigests
  import opened XrdHdfs

  /** What is found under `name` in the checksum file stored for the file `s`. */
  function Recorded(lib: Library, start: bv32, digests: bv32, s: seq<byte>, name: Text): Text {
    Lookup(ParseText(Print(Named(lib, start, digests, s))).values, name)
  }

  /** Every digest the state was asked for is found under its name, in any case, after storing and
      parsing; one that it was not asked for is not. */
  lemma {:induction false} RecordedIsDigest(lib: Library, start: bv32, digests: bv32, s: seq<byte>, name: Text,
      flag: bv32)
    requires flag in {CKSUM, ADLER32, CRC32, MD5, CVMFS} && SameName(NameOf(flag), name)
    ensures Recorded(lib, start, digests, s, name) == if Has(digests, flag) then DigestText(lib, start, flag, s) else []
  {
    hide ParseText, Print, Named, Lookup, SameName, DigestText, FirstOf, Has;
    NamedReadBack(lib, start, digests, s);
    NamedLookup(lib, start, digests, s, name);
    OneFlag(digests, flag);
    DigestTexts(lib, start, s);
  }

  lemma {:induction false} AllDigests(flag: bv32)
    requires flag in {MD5, CKSUM, ADLER32, CVMFS, CRC32}
    ensures Has(ALL, flag)
  {
  }

  /** Two files of equal length that differ only within four consecutive octets have different CKSUM
      entries in what is stored for them. */
  lemma {:induction false} BurstShowsInRecord(lib: Library, start1: bv32, start2: bv32, s: seq<byte>,
      t: seq<byte>, lo: nat)
    requires |s| == |t| && s != t
    requires forall i :: 0 <= i < |s| && s[i] != t[i] ==> lo <= i < lo + 4
    ensures Recorded(lib, start1, ALL, s, CKSUM_NAME) != Recorded(lib, start2, ALL, t, CKSUM_NAME)
  {
    hide Recorded, Cksum, Decimal, SameName;
    SameNameReflexive(CKSUM_NAME);
    AllDigests(CKSUM);
    RecordedIsDigest(lib, start1, ALL, s, CKSUM_NAME, CKSUM);
    RecordedIsDigest(lib, start2, ALL, t, CKSUM_NAME, CKSUM);
    FourOctetBurstDetected(s, t, lo);
    if Decimal(Cksum(s) as nat) == Decimal(Cksum(t) as nat) {
      CksumTextInjective(Cksum(s), Cksum(t));
    }
  }

  lemma {:induction false} SameNameReflexive(name: Text)
    ensures SameName(name, name)
  {
  }

  /** The CRC32 entry stored for a file is its CRC-32 exactly when the memory the constructor left
      uninitialised held 0. */
  lemma {:induction false} RecordedCrc32RightIff(lib: Library, start: bv32, s: seq<byte>)
    ensures Recorded(lib, start, ALL, s, CRC32_NAME) == Hex(NetworkOrder(Crc32(0, s))) <==> start == 0
  {
    hide Recorded, Crc32, Hex, NetworkOrder, SameName;
    SameNameReflexive(CRC32_NAME);
    AllDigests(CRC32);
    RecordedIsDigest(lib, start, ALL, s, CRC32_NAME, CRC32);
    DigestTexts(lib, start, s);
    Crc32RightIffStartZero(start, s);
    HexRoundTrip(NetworkOrder(Crc32(start, s)));
    HexRoundTrip(NetworkOrder(Crc32(0, s)));
    if NetworkOrder(Crc32(start, s)) == NetworkOrder(Crc32(0, s)) {
      NetworkOrderInjective(Crc32(start, s), Crc32(0, s));
    }
  }

  /** `Calc` stores its result even when it is told not to, and then only the requested digest: every
      other checksum that was recorded is gone. */
  lemma {:induction false} CalcForgetsOthers(lib: Library, start: bv32, s: seq<byte>, flag: bv32, name: Text,
      other: bv32)
    requires flag in {MD5, CKSUM, ADLER32, CRC32}
    requires other in {CKSUM, ADLER32, CRC32, MD5, CVMFS} && SameName(NameOf(other), name)
    ensures Recorded(lib, start, CalcDigests(false, flag), s, name) ==
      if other == flag then DigestText(lib, start, flag, s) else []
  {
    hide Recorded, SameName, DigestText;
    RecordedIsDigest(lib, start, CalcDigests(false, flag), s, name, other);
  }

  /** The library grants and accepts everything, and neither path is a directory. */
  ghost predicate AllGranted(world: World, path: Path)
    reads world
  {
    && world.connects == [] && world.writes == [] && world.closes == [] && FirstFault(world.preads) == 0
    && path !in world.dirs && ChecksumFilename(path) !in world.dirs
  }

  /** A client writes a file slice by slice, every write is accepted in full, the file is closed and its
      checksum file read: it holds the digests of exactly the octets written. */
  method StoreAndReadBack(world: World, lib: Library, path: Path, slices: seq<seq<byte>>)
      returns (ok: bool, values: seq<Entry>, ghost stored: int, ghost start: bv32)
    requires !InCksums(path) && NeverStalls(world.writes)
    modifies world
    ensures ok && stored == 0 ==>
      path in world.files && world.files[path] == Concat(slices) && values == Named(lib, start, ALL, Concat(slices))
    ensures old(AllGranted(world, path)) ==> ok && stored == 0
  {
    hide *;
    ok, values, stored, start := false, [], 0, 0;
    if AllGranted(world, path) {
      RecordIsNoDirectory(world, path);
    }
    var file := new HdfsFile(world, lib);
    var rc := OpenForWriting(file, path);
    if rc != 0 {
      return;
    }
    var full := WriteSlices(file, path, slices);
    start := file.m_state.start;
    var ret;
    ret, stored := CloseWritten(file, path, Concat(slices));
    if !full || ret != 0 {
      return;
    }
    var manager := new ChecksumManager(world, lib);
    var contents;
    rc, contents := ReadRecord(manager, path, Print(Named(lib, start, ALL, Concat(slices))), stored);
    if rc != 0 {
      return;
    }
    rc, values := Parse(contents);
    ok := true;
    NamedReadBack(lib, start, ALL, Concat(slices));
  }

  lemma {:induction false} RecordIsNoDirectory(world: World, path: Path)
    requires AllGranted(world, path)
    ensures ChecksumFilename(path) !in world.dirs
  {
  }

  /** A file object with a fresh checksum state whose file holds what the state has absorbed. */
  ghost predicate Fed(file: HdfsFile, path: Path, s: seq<byte>)
    reads file, file.m_state, file.world`files
  {
    && file.fh == Some(Handle(path, true)) && file.fname == Some(path)
    && file.m_state != null && file.m_state.Running() && file.m_state.stream == s
    && file.m_state.m_digests == ALL && file.m_state.lib == file.lib
    && path in file.world.files && file.world.files[path] == s && file.m_nextoff == |s|
  }

  method OpenForWriting(file: HdfsFile, path: Path) returns (rc: int)
    requires !InCksums(path) && file.Valid() && file.fh == None && file.m_state == null && file.m_nextoff == 0
    modifies file, file.world
    ensures file.world.writes == old(file.world.writes)
    ensures rc == 0 ==> Fed(file, path, []) && fresh(file.m_state) && file.fname == Some(path)
    ensures old(AllGranted(file.world, path)) ==> rc == 0 && AllGranted(file.world, path)
  {
    hide ChecksumState.Running, InCksums, HdfsFile.Valid, FirstFault;
    rc := file.Open(path, OpenMode(O_WRONLY, false));
  }

  method WriteSlices(file: HdfsFile, path: Path, slices: seq<seq<byte>>) returns (full: bool)
    requires Fed(file, path, []) && NeverStalls(file.world.writes)
    modifies file`m_nextoff, file.m_state, file.world`files, file.world`writes
    ensures full ==> Fed(file, path, Concat(slices))
    ensures file.m_state.Running() && NeverStalls(file.world.writes)
    ensures old(AllGranted(file.world, path)) ==> full && AllGranted(file.world, path)
  {
    hide ChecksumState.Running, FirstFault;
    var i := 0;
    assert slices[..0] == [];
    while i < |slices|
      invariant i <= |slices| && Fed(file, path, Concat(slices[..i])) && NeverStalls(file.world.writes)
      invariant old(file.world.writes) == [] ==> file.world.writes == []
    {
      assert slices[..i + 1][..i] == slices[..i];
      RestNeverStalls(file.world.writes);
      var r := file.Write(slices[i], file.m_nextoff);
      if r != |slices[i]| {
        return false;
      }
      assert Stored(Call(slices[i], |Concat(slices[..i])|, r)) == slices[i];
      i := i + 1;
    }
    assert slices[..i] == slices;
    return true;
  }

  lemma {:induction false} RestNeverStalls(script: seq<WriteReply>)
    requires NeverStalls(script)
    ensures NeverStalls(Rest(script))
  {
  }

  method CloseWritten(file: HdfsFile, path: Path, ghost s: seq<byte>) returns (ret: int, ghost stored: int)
    requires file.m_state != null && file.m_state.Running() && file.fname == Some(path)
    requires NeverStalls(file.world.writes)
    modifies file, file.m_state, file.world
    ensures ret == 0 && stored == 0 && old(Fed(file, path, s)) ==>
      var text := Print(Named(file.lib, old(file.m_state).start, ALL, s));
      && path in file.world.files && file.world.files[path] == s
      && ChecksumFilename(path) in file.world.files && file.world.files[ChecksumFilename(path)] == text
    ensures old(AllGranted(file.world, path)) ==> ret == 0 && stored == 0
    ensures old(AllGranted(file.world, path)) ==> file.world.connects == [] && FirstFault(file.world.preads) == 0
  {
    hide ChecksumState.Running, WriteLoop, Named, Print, SidecarOutcome, FirstFault;
    ghost var text := Print(Named(file.m_state.lib, file.m_state.start, file.m_state.m_digests, file.m_state.stream));
    ghost var before, script, connects := file.world.files, file.world.writes, file.world.connects;
    ret, stored := file.Close();
    if ret == 0 {
      CompleteOutcome(stored, before, file.world.files, ChecksumFilename(path), text, script, connects,
        file.world.dirs);
    }
  }

  lemma {:induction false} CompleteOutcome(rc: int, before: map<Path, seq<byte>>,
                                           after: map<Path, seq<byte>>, path: Path, text: Text,
                                           script: seq<WriteReply>, connects: seq<OpenReply>, dirs: set<Path>)
    requires SidecarOutcome(rc, before, after, path, text, script, connects, dirs) && NeverStalls(script)
    ensures rc == 0 ==> after == before[path := text]
    ensures connects == [] && path !in dirs && script == [] ==> rc == 0
  {
    hide WriteLoop;
    WriteLoopComplete(text, 0, script);
    assert text[..|text|] == text;
    if script == [] {
      WriteLoopSucceeds(text, 0, script);
    }
  }

  /** Reading a checksum file that is known to hold `text`, if `stored` is 0. */
  method ReadRecord(manager: ChecksumManager, path: Path, ghost text: Text, ghost stored: int)
      returns (rc: int, contents: Text)
    requires stored == 0 ==> ChecksumFilename(path) in manager.world.files
    requires stored == 0 ==> manager.world.files[ChecksumFilename(path)] == text
    modifies manager.world
    ensures manager.world.files == old(manager.world.files)
    ensures rc == 0 && stored == 0 && NulFree(text) ==> contents == text
    ensures stored == 0 && ChecksumFilename(path) !in manager.world.dirs ==>
      (old(manager.world.connects) == [] && FirstFault(old(manager.world.preads)) == 0 ==> rc == 0)
  {
    hide FirstFault, ChecksumFilename, NulFree, OpenError;
    rc, contents := manager.GetFileContents(path);
  }

  // ---------- setting one checksum and getting it back ----------

  /** What the checksum file parses to after a successful `Set`, and that it shows no NUL. */
  lemma {:induction false} StoredAfterSet(contents: Text, name: Text, value: Text)
    requires NulFree(contents) && ParseText(contents).rc == 0 && Storable(Entry(name, value))
    ensures var values := ParseText(contents).values;
      var stored := if NamesWith(values, name, value) then contents else Print(Upsert(values, name, value));
      ParseText(stored) == Parsed(0, AfterSet(values, name, value)) && NulFree(stored)
  {
    var values := ParseText(contents).values;
    SetStoresAfterSet(contents, name, value);
    ParsedStorable(CString(contents));
    UpsertStorable(values, name, value);
    hide *;
    PrintNulFree(Upsert(values, name, value));
  }

  lemma {:induction false} StorableNulFree(e: Entry)
    requires Storable(e)
    ensures NulFree(e.name) && NulFree(e.value)
  {
  }

  /** `Set` and then `Get`, when both succeed on a checksum file without NULs: the value that was set is
      got, for any case of the name, if and only if the file was rewritten or said so already; on distinct
      names always. A value that fits can be got whenever the file can be read. */
  method SetThenGet(manager: ChecksumManager, pfn: Path, name: Text, value: Text, any: Text, valuSize: nat)
      returns (rcSet: int, rcGet: int, got: Text, ghost seen: bool)
    requires Storable(Entry(name, value)) && SameName(name, any) && NeverStalls(manager.world.writes)
    requires ChecksumFilename(pfn) in manager.world.files && NulFree(manager.world.files[ChecksumFilename(pfn)])
    modifies manager.world
    ensures var values := ParseText(old(manager.world.files)[ChecksumFilename(pfn)]).values;
      && (rcSet == 0 && rcGet == 0 ==>
            (got == value <==> !NamesWith(values, name, value) || Lookup(values, name) == value))
      && (rcSet == 0 && rcGet == 0 && Distinct(values) ==> got == value)
      && (rcSet == 0 && seen && Distinct(values) && |value| <= valuSize ==> rcGet == 0)
  {
    ghost var path := ChecksumFilename(pfn);
    ghost var before := manager.world.files;
    ghost var values := ParseText(before[path]).values;
    StorableNulFree(Entry(name, value));
    hide *;
    rcGet, got, seen := 0, [], false;
    ghost var seenSet, contents;
    rcSet, seenSet, contents := SetStored(manager, pfn, name, value);
    if rcSet != 0 {
      return;
    }
    StoredAfterSet(before[path], name, value);
    SetFoundIff(values, name, value, any);
    if Distinct(values) {
      SetOnDistinctNames(values, name, value);
    }
    rcGet, got, seen := GetSeen(manager, pfn, any, valuSize);
    ValueNotEmpty(name, value);
  }

  lemma {:induction false} ValueNotEmpty(name: Text, value: Text)
    requires Storable(Entry(name, value))
    ensures value != []
  {
  }

  method SetStored(manager: ChecksumManager, pfn: Path, name: Text, value: Text)
      returns (rc: int, ghost seen: bool, ghost contents: Text)
    requires NulFree(name) && NulFree(value) && NeverStalls(manager.world.writes)
    requires ChecksumFilename(pfn) in manager.world.files && NulFree(manager.world.files[ChecksumFilename(pfn)])
    modifies manager.world
    ensures rc == 0 ==>
      var path := ChecksumFilename(pfn);
      var parsed := ParseText(old(manager.world.files)[path]);
      && parsed.rc == 0 && path in manager.world.files
      && manager.world.files[path] ==
        if NamesWith(parsed.values, name, value) then old(manager.world.files)[path]
        else Print(Upsert(parsed.values, name, value))
  {
    hide ParseText, NamesWith, Print, Upsert, ChecksumFilename, SidecarOutcome, NulFree, FirstFault, NeverStalls;
    ghost var before, script, connects := manager.world.files, manager.world.writes, manager.world.connects;
    rc, seen, contents := manager.Set(pfn, name, value);
    if rc == 0 && !NamesWith(ParseText(contents).values, name, value) {
      CompleteOutcome(rc, before, manager.world.files, ChecksumFilename(pfn),
        Print(Upsert(ParseText(contents).values, name, value)), script, Rest(connects), manager.world.dirs);
    }
  }

  method GetSeen(manager: ChecksumManager, pfn: Path, any: Text, valuSize: nat)
      returns (rc: int, got: Text, ghost seen: bool)
    requires ChecksumFilename(pfn) in manager.world.files && NulFree(manager.world.files[ChecksumFilename(pfn)])
    modifies manager.world
    ensures var parsed := ParseText(old(manager.world.files)[ChecksumFilename(pfn)]);
      && (rc == 0 ==> got == Lookup(parsed.values, any))
      && (seen && parsed.rc == 0 && 0 < |Lookup(parsed.values, any)| <= valuSize ==> rc == 0)
  {
    hide ParseText, Lookup, NulFree, ChecksumFilename, FirstFault, OpenError, CanOpen;
    ghost var contents;
    rc, got, seen, contents := manager.Get(pfn, any, valuSize);
  }

  // ---------- what a file says and what `Get` and `Set` make of it ----------

  /** The checksum file can be read. */
  ghost predicate CanReadRecord(world: World, pfn: Path)
    reads world
  {
    && world.connects == [] && FirstFault(world.preads) == 0
    && ChecksumFilename(pfn) !in world.dirs && ChecksumFilename(pfn) in world.files
    && NulFree(world.files[ChecksumFilename(pfn)])
  }

  lemma {:induction false} ReadEntryNotEmpty(t: Text, values: seq<Entry>, name: Text)
    requires NulFree(t) && Reads(t, values)
    ensures Lookup(values, name) == [] <==> !Names(values, name)
  {
    hide SameName, Reads, ParseFrom, Lookup, Names;
    ParseIffReads(t, values);
    ParsedStorable(t);
    LookupIs(values, name);
  }

  /** `Get` on a checksum file that can be read, by what the file says. A malformed file keeps the data file; so
      does one with an entry of that name, in any case; only a well-formed one without it has it removed. */
  method GetFromRecord(manager: ChecksumManager, pfn: Path, requested: Text, valuSize: nat,
                       ghost values: seq<Entry>)
      returns (rc: int, got: Text)
    requires CanReadRecord(manager.world, pfn)
    modifies manager.world
    ensures var t := old(manager.world.files)[ChecksumFilename(pfn)];
      && ((forall any :: !Reads(t, any)) ==> rc == -ESRCH && manager.world.files == old(manager.world.files))
      && (Reads(t, values) && Names(values, requested) ==>
            manager.world.files == old(manager.world.files) &&
            if |Lookup(values, requested)| <= valuSize then rc == 0 && got == Lookup(values, requested)
            else rc == -EDOM)
      && (Reads(t, values) && !Names(values, requested) ==>
            rc == -ESRCH && manager.world.files ==
              if CanDelete([], old(manager.world.deletes)) then old(manager.world.files) - {pfn}
              else old(manager.world.files))
  {
    hide ChecksumFilename, FirstFault, OpenError, NulFree, ParseText, Reads, Lookup, Names, SameName;
    ghost var t := manager.world.files[ChecksumFilename(pfn)];
    ghost var seen, contents;
    rc, got, seen, contents := manager.Get(pfn, requested, valuSize);
    ParseIffReads(t, values);
    if Reads(t, values) {
      ReadEntryNotEmpty(t, values, requested);
    }
  }

  /** `Set` on a malformed checksum file fails and changes nothing. */
  method SetOnMalformed(manager: ChecksumManager, pfn: Path, name: Text, value: Text) returns (rc: int)
    requires CanReadRecord(manager.world, pfn) && NulFree(name) && NulFree(value)
    requires forall any :: !Reads(manager.world.files[ChecksumFilename(pfn)], any)
    modifies manager.world
    ensures rc == -EIO && manager.world.files == old(manager.world.files)
  {
    hide ChecksumFilename, FirstFault, OpenError, NulFree, ParseText, Reads, NamesWith, Print, Upsert, SidecarOutcome;
    ghost var t := manager.world.files[ChecksumFilename(pfn)];
    ghost var seen, contents;
    rc, seen, contents := manager.Set(pfn, name, value);
    ParseIffReads(t, []);
  }

  /** Without a checksum file `Get` asks for the checksum to be computed, and removes nothing. */
  method GetWithoutRecord(manager: ChecksumManager, pfn: Path, requested: Text, valuSize: nat) returns (rc: int)
    requires manager.world.connects == []
    requires ChecksumFilename(pfn) !in manager.world.dirs && ChecksumFilename(pfn) !in manager.world.files
    modifies manager.world
    ensures rc == -ESRCH && manager.world.files == old(manager.world.files)
  {
    hide ChecksumFilename, FirstFault, OpenError, ParseText, Lookup;
    OpenErrorIs([], manager.world.dirs, manager.world.files, ChecksumFilename(pfn));
    var got;
    ghost var seen, contents;
    rc, got, seen, contents := manager.Get(pfn, requested, valuSize);
  }

  /** `Calc` of the digest a name means, in any case, on a library that grants everything: it returns that
      digest of the file, and the record has under every name the digest of that name, or nothing if `Calc`
      was not to set it. */
  method CalcRecords(manager: ChecksumManager, pfn: Path, name: Text, doSet: bool, ghost flag: bv32,
                     ghost other: bv32, ghost any: Text)
      returns (rc: int, value: Text, ghost start: bv32)
    requires flag in {MD5, CKSUM, ADLER32, CRC32} && SameName(NameOf(flag), name)
    requires other in {CKSUM, ADLER32, CRC32, MD5, CVMFS} && SameName(NameOf(other), any)
    requires manager.world.connects == [] && manager.world.writes == [] && FirstFault(manager.world.preads) == 0
    requires pfn in manager.world.files && pfn !in manager.world.dirs
    requires ChecksumFilename(pfn) !in manager.world.dirs
    modifies manager.world
    ensures var s := old(manager.world.files)[pfn];
      && value == DigestText(manager.lib, start, flag, s) && rc == (if value == [] then -EIO else 0)
      && ChecksumFilename(pfn) in manager.world.files
      && manager.world.files == old(manager.world.files)[ChecksumFilename(pfn) :=
          manager.world.files[ChecksumFilename(pfn)]]
      && Lookup(ParseText(manager.world.files[ChecksumFilename(pfn)]).values, any) ==
        if doSet || other == flag then DigestText(manager.lib, start, other, s) else []
  {
    hide ChecksumFilename, FirstFault, OpenError, SameName, Print, Named, DigestText, SidecarOutcome, CalcDigests, Has;
    RequestedIff(name, flag);
    hide Requested, NameOf;
    ghost var before, s := manager.world.files, manager.world.files[pfn];
    ghost var finished, stored;
    rc, value, finished, stored, start := manager.Calc(pfn, name, doSet);
    CompleteOutcome(stored, before, manager.world.files, ChecksumFilename(pfn),
      Print(Named(manager.lib, start, CalcDigests(doSet, flag), s)), [], [], manager.world.dirs);
    RecordedIsDigest(manager.lib, start, CalcDigests(doSet, flag), s, any, other);
    CalcDigestsIff(doSet, flag, other);
  }

  // ---------- asking for what is not on record ----------

  /** On the checksum file that `Calc` leaves behind without `do_set`, asking for any other digest removes the
      data file. */
  method GetAfterCalc(manager: ChecksumManager, pfn: Path, any: Text, valuSize: nat, ghost start: bv32,
                      ghost flag: bv32, ghost s: seq<byte>, ghost other: bv32)
      returns (rc: int)
    requires flag in {MD5, CKSUM, ADLER32, CRC32} && other in {CKSUM, ADLER32, CRC32, MD5, CVMFS} && other != flag
    requires SameName(NameOf(other), any)
    requires manager.world.connects == [] && manager.world.deletes == [] && FirstFault(manager.world.preads) == 0
    requires ChecksumFilename(pfn) !in manager.world.dirs && ChecksumFilename(pfn) in manager.world.files
    requires manager.world.files[ChecksumFilename(pfn)] ==
      Print(Named(manager.lib, start, CalcDigests(false, flag), s))
    modifies manager.world
    ensures rc == -ESRCH && manager.world.files == old(manager.world.files) - {pfn}
  {
    hide ParseText, Lookup, NulFree, ChecksumFilename, FirstFault, OpenError, SameName, Print, Named, Has;
    NamedReadBack(manager.lib, start, CalcDigests(false, flag), s);
    CalcForgetsOthers(manager.lib, start, s, flag, any, other);
    var got;
    ghost var seen, contents;
    rc, got, seen, contents := manager.Get(pfn, any, valuSize);
  }

  lemma {:induction false} RequestedIs(name: Text)
    ensures Requested(name) in {0, MD5, CKSUM, ADLER32, CRC32}
  {
  }

  /** Two calls that only ask, on a library that grants everything: `Calc` of one digest, without `do_set`, and
      `Get` of another. Afterwards the data file is gone. */
  method CalcThenGet(manager: ChecksumManager, pfn: Path, name: Text, any: Text, valuSize: nat, ghost other: bv32)
      returns (rcCalc: int, rcGet: int, ghost start: bv32)
    requires Requested(name) != 0
    requires other in {CKSUM, ADLER32, CRC32, MD5, CVMFS} && other != Requested(name) && SameName(NameOf(other), any)
    requires manager.world.connects == [] && manager.world.writes == [] && manager.world.deletes == []
    requires FirstFault(manager.world.preads) == 0
    requires pfn in manager.world.files && pfn !in manager.world.dirs
    requires ChecksumFilename(pfn) !in manager.world.dirs
    modifies manager.world
    ensures rcGet == -ESRCH && pfn !in manager.world.files
    ensures var s := old(manager.world.files)[pfn];
      && rcCalc == (if DigestText(manager.lib, start, Requested(name), s) == [] then -EIO else 0)
      && manager.world.files == old(manager.world.files)[ChecksumFilename(pfn) :=
          Print(Named(manager.lib, start, CalcDigests(false, Requested(name)), s))] - {pfn}
  {
    hide ChecksumFilename, FirstFault, OpenError, SameName, Print, Named, DigestText, SidecarOutcome, CalcDigests;
    RequestedIs(name);
    hide Requested, NameOf;
    ghost var before, s := manager.world.files, manager.world.files[pfn];
    ghost var finished, stored;
    var value;
    rcCalc, value, finished, stored, start := manager.Calc(pfn, name, false);
    CompleteOutcome(stored, before, manager.world.files, ChecksumFilename(pfn),
      Print(Named(manager.lib, start, CalcDigests(false, Requested(name)), s)), [], [], manager.world.dirs);
    rcGet := GetAfterCalc(manager, pfn, any, valuSize, start, Requested(name), s, other);
  }

  // ---------- smaller traps ----------

  /** The ENOTSUP that `Write` hands to `Emsg` for a call out of order is returned only if errno holds it. */
  lemma {:induction false} OutOfOrderCodeIff(errno: int)
    ensures Emsg(errno) == -ENOTSUP <==> errno == ENOTSUP || errno == -ENOTSUP
  {
  }

  /** A checksum file with a NUL is read without an error, but not as it is. */
  method NulIsLost(manager: ChecksumManager, pfn: Path) returns (rc: int, result: Text)
    requires manager.world.connects == [] && FirstFault(manager.world.preads) == 0
    requires ChecksumFilename(pfn) !in manager.world.dirs && ChecksumFilename(pfn) in manager.world.files
    requires NUL in manager.world.files[ChecksumFilename(pfn)]
    modifies manager.world
    ensures manager.world.files == old(manager.world.files)
    ensures rc == 0 && result != manager.world.files[ChecksumFilename(pfn)] && NUL !in result
  {
    hide ChecksumFilename, FirstFault, OpenError;
    rc, result := manager.GetFileContents(pfn);
  }

  // ---------- one object, two sessions ----------

  /** Open any object for writing, whatever it was used for before, and write at the start: that works if and
      only if the object has never stored an octet before (and the library takes one now). Otherwise the
      write is rejected, and the file, which the open has emptied, stays empty. */
  method OpenAndWrite(file: HdfsFile, path: Path, mode: OpenMode, data: seq<byte>) returns (rc: int, r: int)
    requires file.Valid() && file.fh == None && file.m_state == null && Writes(mode) && data != []
    modifies file, file.world
    ensures rc == 0 <==>
      CanOpen(old(file.world.connects), file.world.dirs, old(file.world.files), path, true)
    ensures rc == 0 ==> (r > 0 <==> old(file.m_nextoff) == 0 && WriteResult(data, old(file.world.writes)) > 0)
    ensures rc == 0 ==> path in file.world.files && file.world.files[path] == Stored(Call(data, 0, r))
    ensures rc == 0 && old(file.m_nextoff) != 0 ==> r < 0 && file.world.files[path] == []
    ensures rc == 0 && old(file.m_nextoff) == 0 ==>
      r == WriteResult(data, old(file.world.writes)) && file.m_nextoff == |Stored(Call(data, 0, r))|
    ensures file.world.connects == Rest(old(file.world.connects)) && file.world.closes == old(file.world.closes)
    ensures rc == 0 ==> file.fname == Some(path)
    ensures file.m_state != null ==> fresh(file.m_state) && file.m_state.Running()
  {
    hide ChecksumState.Running, HdfsFile.Valid, CanOpen, OpenError, InCksums, WriteResult;
    r := 0;
    rc := file.Open(path, mode);
    if rc == 0 {
      r := file.Write(data, 0);
    }
  }

  /** Even when the library grants everything: a second session of one object loses what it is given. */
  method ReopenLosesData(world: World, lib: Library, path: Path, data: seq<byte>)
      returns (first: int, closed: int, reopened: int, second: int)
    requires data != [] && world.connects == [] && world.writes == [] && world.closes == [] && path !in world.dirs
    modifies world
    ensures first == |data| && closed == 0 && reopened == 0 && second < 0
    ensures path in world.files && world.files[path] == []
  {
    hide ChecksumState.Running, HdfsFile.Valid, SidecarOutcome, Named, Print, OpenError;
    assert data[..|data|] == data;
    var file := new HdfsFile(world, lib);
    reopened, first := OpenAndWrite(file, path, OpenMode(O_WRONLY, false), data);
    ghost var stored;
    closed, stored := file.Close();
    reopened, second := OpenAndWrite(file, path, OpenMode(O_WRONLY, false), data);
  }
}
