/** `XrdHdfsFile` and `ChecksumManager`. They are one module because closing a written file stores its
    digests through a second file object. */
module XrdHdfs {
  import opened Bytes
  import opened Checksums
  import opened HdfsReplies
  import opened HdfsWorld
  import opened ReadAhead
  import opened SequentialWrites
  import opened Sidecar
  import opened SidecarMap
  import opened NamedDigests

  const O_RDONLY := 0
  const O_WRONLY := 1
  const O_RDWR := 2

  /** The access bits of the open mode and O_TRUNC. */
  datatype OpenMode = OpenMode(access: int, trunc: bool)

  predicate Writes(mode: OpenMode) {
    mode.trunc || mode.access == O_WRONLY || mode.access == O_RDWR
  }

  const ESRCH := 3
  const EDOM := 33
  const ENOTSUP := 95

  /** The digest `Calc` is asked for by name; 0 if there is none. */
  function Requested(name: Text): bv32 {
    if SameName(name, MD5_NAME) then MD5
    else if SameName(name, CKSUM_NAME) then CKSUM
    else if SameName(name, CRC32_NAME) then CRC32
    else if SameName(name, ADLER32_NAME) then ADLER32
    else 0
  }

  function CalcDigests(doSet: bool, flag: bv32): bv32 {
    (if doSet then ALL else 0) | flag
  }

  lemma {:induction false} SoleDigest(doSet: bool, flag: bv32)
    requires flag in {MD5, CKSUM, ADLER32, CRC32}
    ensures FirstOf(flag & CalcDigests(doSet, flag)) == flag
  {
  }

  /** Where checksum files live. */
  const CKSUMS := "/cksums"

  predicate InCksums(path: Path) {
    |path| >= 7 && path[..7] == CKSUMS
  }

  /** `GetChecksumFilename`. */
  function ChecksumFilename(pfn: Path): (path: Path)
    ensures InCksums(path) && path != pfn
  {
    var path := "/cksums/" + pfn;
    assert path[..7] == CKSUMS;
    assert |path| == |pfn| + 8;
    path
  }

  /** Writing is asked for by O_WRONLY, by O_RDWR and by O_TRUNC, and by nothing else. */
  lemma {:induction false} WritesIff(mode: OpenMode)
    ensures !Writes(mode) <==> !mode.trunc && mode.access !in {O_WRONLY, O_RDWR}
  {
  }

  lemma {:induction false} InCksumsIff(path: Path)
    ensures InCksums(path) <==> exists rest :: path == "/cksums" + rest
  {
    if InCksums(path) {
      assert path == CKSUMS + path[7..];
    }
  }

  /** Different files have different checksum files. */
  lemma {:induction false} ChecksumFilenameInjective(a: Path, b: Path)
    requires ChecksumFilename(a) == ChecksumFilename(b)
    ensures a == b
  {
    assert ("/cksums/" + a)[8..] == a && ("/cksums/" + b)[8..] == b;
  }

  /** A name asks for a digest if and only if it is the name of the digest in some case. */
  lemma {:induction false} RequestedIff(name: Text, flag: bv32)
    requires flag in {MD5, CKSUM, CRC32, ADLER32}
    ensures Requested(name) == flag <==> SameName(NameOf(flag), name)
    ensures Requested(name) != 0 <==>
      || SameName(MD5_NAME, name) || SameName(CKSUM_NAME, name)
      || SameName(CRC32_NAME, name) || SameName(ADLER32_NAME, name)
  {
    hide UpperText;
    NamesDiffer();
  }

  /** `Calc` takes every digest if it is to set them, and only the one asked for if not. */
  lemma {:induction false} CalcDigestsIff(doSet: bool, flag: bv32, other: bv32)
    requires flag in {MD5, CKSUM, ADLER32, CRC32} && other in {MD5, CKSUM, ADLER32, CRC32, CVMFS}
    ensures Has(CalcDigests(doSet, flag), other) <==> doSet || other == flag
  {
  }

  lemma {:induction false} BytesFit(w: Window, file: Option<seq<byte>>, offset: nat, blen: nat, script: seq<PreadReply>)
    ensures |ReadStep(w, file, offset, blen, script).bytes| <= blen
  {
    hide Fill, Pread;
    if blen <= w.size && !IsHit(w, offset, blen) {
      OverlapShort(w, offset, blen);
    }
  }

  lemma {:induction false} NothingStored(files: map<Path, seq<byte>>, path: Path)
    requires path in files
    ensures files[path := files[path] + []] == files && files[path] + [] == files[path]
  {
    assert files[path] + [] == files[path];
  }

  class HdfsFile {
    const world: World
    const lib: Library
    var fh: Option<Handle>
    var fname: Option<Path>
    var m_nextoff: nat
    var readbuf: array?<byte>
    var readbuf_size: nat
    var readbuf_offset: nat
    var readbuf_len: nat
    var m_state: ChecksumState?

    ghost predicate BufferValid()
      reads this
    {
      && readbuf_len <= readbuf_size
      && (readbuf == null ==> readbuf_size == 0)
      && (readbuf != null ==> readbuf.Length == readbuf_size > 0)
    }

    function Data(): (data: seq<byte>)
      requires BufferValid()
      reads this, readbuf
      ensures |data| == readbuf_len
    {
      if readbuf == null then [] else readbuf[..readbuf_len]
    }

    ghost function TheWindow(): Window
      requires BufferValid()
      reads this, readbuf
    {
      Window(readbuf_size, readbuf_offset, Data())
    }

    /** The window holds octets of the file that is open, and of no other. */
    ghost predicate Valid()
      reads this, readbuf, world`files
    {
      BufferValid() && Sound(TheWindow(), world.Readable(fh))
    }

    constructor (world: World, lib: Library)
      ensures Valid() && this.world == world && this.lib == lib
      ensures fh == None && m_state == null && m_nextoff == 0 && TheWindow() == CLOSED && readbuf == null
    {
      this.world := world;
      this.lib := lib;
      fh := None;
      fname := None;
      m_nextoff := 0;
      readbuf := null;
      readbuf_size := 0;
      readbuf_offset := 0;
      readbuf_len := 0;
      m_state := null;
    }

    /** A successful open leaves an empty window, whatever the object was used for before, and for writing
        outside /cksums a fresh checksum state. It does not touch m_nextoff. */
    method Open(path: Path, mode: OpenMode) returns (rc: int)
      requires Valid()
      modifies this, world
      ensures Valid() && rc <= 0
      ensures readbuf == old(readbuf) || fresh(readbuf)
      ensures m_nextoff == old(m_nextoff)
      ensures world.preads == old(world.preads) && world.writes == old(world.writes)
      ensures world.closes == old(world.closes) && world.deletes == old(world.deletes)
      ensures old(fh) == None ==> TheWindow() == Opened(old(TheWindow()), MallocGrants(old(world.mallocs)))
      ensures old(fh) == None ==> world.connects == Rest(old(world.connects))
      ensures rc == 0 <==>
        old(fh) == None && CanOpen(old(world.connects), world.dirs, old(world.files), path, Writes(mode))
      ensures old(fh) == None && rc != 0 ==> rc == OpenError(old(world.connects), world.dirs, old(world.files), path)
      ensures rc != 0 ==> fh == old(fh) && m_state == old(m_state) && world.files == old(world.files)
      ensures old(fh).Some? ==> rc == -EINVAL && TheWindow() == old(TheWindow())
      ensures rc == 0 ==> OpenedFor(path, Writes(mode))
      ensures rc == 0 ==>
        world.files == (if Writes(mode) then old(world.files)[path := []] else old(world.files))
      ensures rc == 0 && Writes(mode) && !InCksums(path) ==> fresh(m_state) && FreshState(m_state)
      ensures !Writes(mode) || InCksums(path) ==> m_state == old(m_state)
    {
      hide InCksums, Sound, FreshState, READBUF_SIZE, CanOpen, OpenError, MallocGrants;
      if fh.Some? {
        return -EINVAL;
      }
      fname := Some(path);
      ResetBuffer();
      var writing := mode.access == O_WRONLY || mode.access == O_RDWR;
      if mode.trunc {
        writing := true;
      }
      rc := OpenHandle(path, writing);
      EmptyWindowValid();
      if rc == 0 && writing && !InCksums(path) {
        NewState();
      }
    }

    lemma {:induction false} EmptyWindowValid()
      requires BufferValid() && TheWindow().data == []
      ensures Valid()
    {
    }

    method NewState()
      modifies this`m_state
      ensures fresh(m_state) && FreshState(m_state)
    {
      hide *;
      var garbage := world.Uninitialised();
      m_state := new ChecksumState(lib, ALL, garbage);
      NewStateIsFresh();
    }

    lemma {:induction false} NewStateIsFresh()
      requires m_state != null && m_state.Running() && m_state.stream == []
      requires m_state.m_digests == ALL && m_state.lib == lib
      ensures FreshState(m_state)
    {
      hide Has;
    }

    ghost predicate OpenedFor(path: Path, writing: bool)
      reads this, world`files
    {
      fh == Some(Handle(path, writing)) && fname == Some(path) && path in world.files
    }

    ghost predicate FreshState(state: ChecksumState?)
      reads state
    {
      state != null && state.Running() && state.stream == [] && state.m_digests == ALL && state.lib == lib
    }

    /** Allocate the buffer unless there is one, and invalidate it. */
    method ResetBuffer()
      requires BufferValid()
      modifies this`readbuf, this`readbuf_size, this`readbuf_offset, this`readbuf_len, world`mallocs
      ensures BufferValid() && TheWindow() == Opened(old(TheWindow()), MallocGrants(old(world.mallocs)))
      ensures readbuf == old(readbuf) || fresh(readbuf)
    {
      if readbuf == null {
        var granted := world.Malloc();
        if granted {
          readbuf_size := READBUF_SIZE;
          readbuf := new byte[READBUF_SIZE];
        } else {
          readbuf_size := 0;
        }
      }
      readbuf_offset := 0;
      readbuf_len := 0;
    }

    /** Connect to HDFS and open the file; a failure is told apart by what the path is. */
    method OpenHandle(path: Path, writing: bool) returns (rc: int)
      requires fh == None
      modifies this`fh, world`connects, world`files, world`errno
      ensures rc <= 0 && world.connects == Rest(old(world.connects))
      ensures rc == 0 <==> CanOpen(old(world.connects), world.dirs, old(world.files), path, writing)
      ensures rc != 0 ==> rc == OpenError(old(world.connects), world.dirs, old(world.files), path)
      ensures rc != 0 ==> fh == None && world.files == old(world.files)
      ensures rc == 0 ==> fh == Some(Handle(path, writing)) && path in world.files
      ensures rc == 0 ==> world.files == (if writing then old(world.files)[path := []] else old(world.files))
    {
      if world.connects != [] && world.connects[0].NoConnection? {
        world.errno := world.connects[0].errno;
        world.connects := Rest(world.connects);
        return Emsg(world.errno);
      }
      var errCode := 0;
      fh := world.OpenFile(path, writing);
      if fh == None {
        if path in world.dirs {
          errCode := EISDIR;
        } else if path in world.files {
          errCode := EEXIST;
        } else {
          errCode := ENOENT;
        }
      }
      return -errCode;
    }

    /** The object and the library are where the pure read `e` leaves them. */
    ghost predicate EndsAs(e: ReadEnd, nbytes: int)
      reads this, readbuf, world`preads
    {
      BufferValid() && TheWindow() == e.window && nbytes == e.r && world.preads == e.rest
    }

    /** The caller's buffer starts with the octets of the read `e`; the rest is as before. */
    static ghost predicate Gave(buff: array<byte>, e: ReadEnd, original: seq<byte>)
      reads buff
    {
      && |e.bytes| <= buff.Length == |original|
      && buff[..|e.bytes|] == e.bytes && buff[|e.bytes|..] == original[|e.bytes|..]
    }

    /** `Read` is the pure read of the window, whatever the library answers. */
    method Read(buff: array<byte>, offset: nat, blen: nat) returns (nbytes: int)
      requires Valid() && buff != readbuf && blen <= buff.Length
      modifies this`readbuf_offset, this`readbuf_len, readbuf, buff, world`preads, world`errno
      ensures Valid()
      ensures var e := ReadStep(old(TheWindow()), world.Readable(fh), offset, blen, old(world.preads));
        && EndsAs(e, nbytes) && Gave(buff, e, old(buff[..])) && |e.bytes| <= blen
        && RightRead(world.Readable(fh), readbuf_size, offset, blen, nbytes, e.bytes)
    {
      ReadStepRight(TheWindow(), world.Readable(fh), offset, blen, world.preads);
      BytesFit(TheWindow(), world.Readable(fh), offset, blen, world.preads);
      hide *;
      nbytes := ReadAny(buff, offset, blen);
    }

    method ReadAny(buff: array<byte>, offset: nat, blen: nat) returns (nbytes: int)
      requires BufferValid() && buff != readbuf && blen <= buff.Length
      modifies this`readbuf_offset, this`readbuf_len, readbuf, buff, world`preads, world`errno
      ensures readbuf_size == old(readbuf_size)
      ensures var e := ReadStep(old(TheWindow()), world.Readable(fh), offset, blen, old(world.preads));
        EndsAs(e, nbytes) && Gave(buff, e, old(buff[..])) && |e.bytes| <= blen
    {
      hide Pread, Fill, AfterFill;
      ghost var before := TheWindow();
      if blen > readbuf_size {
        world.errno := 0;
        ghost var original := buff[..];
        nbytes := world.PreadInto(fh, offset, buff, 0, blen);
        if nbytes > 0 {
          PastedPrefix(original, 0, world.Readable(fh).value[offset..offset + nbytes]);
        }
        if nbytes == 0 && world.errno != 0 {
          nbytes := -1;
        }
        assert TheWindow() == before;
      } else if offset >= readbuf_offset && offset + blen <= readbuf_offset + readbuf_len {
        var offsetInReadbuf := offset - readbuf_offset;
        nbytes := blen;
        CopyHit(buff, offsetInReadbuf, blen);
      } else {
        nbytes := ReadThrough(buff, offset, blen);
        return;
      }
      if nbytes < 0 {
        return Emsg(world.errno);
      }
    }

    /** Octets from position `from` of the buffer go to the front of the caller's. */
    method CopyHit(buff: array<byte>, from: nat, n: nat)
      requires BufferValid() && buff != readbuf && n <= buff.Length && from + n <= readbuf_len
      modifies buff
      ensures TheWindow() == old(TheWindow())
      ensures buff[..n] == Data()[from..from + n] && buff[n..] == old(buff[..])[n..]
    {
      if n > 0 {
        SliceOfSlice(readbuf[..], 0, readbuf_len, from, from + n);
        assert readbuf[..][0..readbuf_len] == Data();
        assert readbuf[from..from + n] == readbuf[..][from..from + n];
        PastedPrefix(buff[..], 0, Data()[from..from + n]);
      }
      ghost var data := Data();
      Memcpy(buff, 0, readbuf, from, n);
      assert Data() == data;
      hide Pasted;
    }

    /** The last branch of `Read`: a partial hit or a miss, and the refill loop. */
    method ReadThrough(buff: array<byte>, offset: nat, blen: nat) returns (nbytes: int)
      requires BufferValid() && buff != readbuf && blen <= buff.Length
      requires blen <= readbuf_size && !IsHit(TheWindow(), offset, blen)
      modifies this`readbuf_offset, this`readbuf_len, readbuf, buff, world`preads, world`errno
      ensures readbuf_size == old(readbuf_size)
      ensures var e := ReadStep(old(TheWindow()), world.Readable(fh), offset, blen, old(world.preads));
        EndsAs(e, nbytes) && Gave(buff, e, old(buff[..])) && |e.bytes| <= blen
    {
      hide ReadStep, AfterFill, Fill, Pread, IsHit, Overlap, EndsAs, Gave, BufferValid, Data;
      ghost var got, buffer := Overlap(TheWindow(), offset), buff[..];
      MissIs(TheWindow(), world.Readable(fh), offset, blen, world.preads);
      var pos, rc := OverlapAndRefill(buff, offset, blen);
      nbytes := FinishRead(buff, pos, blen - pos, rc, got, buffer);
    }

    /** Give out the octets the buffer has, then load it from behind them. */
    method OverlapAndRefill(buff: array<byte>, offset: nat, blen: nat) returns (pos: nat, rc: int)
      requires BufferValid() && buff != readbuf && blen <= buff.Length
      requires |Overlap(TheWindow(), offset)| <= blen
      modifies this`readbuf_offset, this`readbuf_len, readbuf, buff, world`preads, world`errno
      ensures BufferValid() && readbuf_size == old(readbuf_size)
      ensures pos == |Overlap(old(TheWindow()), offset)| <= blen
      ensures buff[..pos] == Overlap(old(TheWindow()), offset) && buff[pos..] == old(buff[..])[pos..]
      ensures readbuf_offset == offset + pos
      ensures Filling(Data(), rc, world.preads) ==
        Fill(world.Readable(fh), offset + pos, [], readbuf_size, old(world.preads))
    {
      hide Overlap, Fill, Pread;
      pos := TakeOverlap(buff, offset, blen);
      readbuf_offset := offset + pos;
      readbuf_len := 0;
      rc := Refill(offset + pos);
    }

    /** The end of `Read` after the refill loop; `got` is what the caller's buffer starts with by now. */
    method FinishRead(buff: array<byte>, pos: nat, wanted: nat, rc: int, ghost got: seq<byte>,
                      ghost original: seq<byte>)
        returns (nbytes: int)
      requires BufferValid() && buff != readbuf && pos + wanted <= buff.Length == |original| && pos == |got|
      requires buff[..pos] == got && buff[pos..] == original[pos..]
      modifies buff
      ensures TheWindow() == old(TheWindow())
      ensures var e := AfterFill(readbuf_size, readbuf_offset, got, wanted, Filling(Data(), rc, world.preads));
        EndsAs(e, nbytes) && Gave(buff, e, original) && |e.bytes| <= pos + wanted
    {
      if rc < 0 {
        return rc;
      }
      var bytesToCopy := if readbuf_len < wanted then readbuf_len else wanted;
      PastedEnds(buff[..], original, got, Data()[..bytesToCopy]);
      CopyPrefix(buff, pos, bytesToCopy);
      nbytes := pos + bytesToCopy;
    }

    /** The first `n` octets of the buffer go to position `pos`. */
    method CopyPrefix(buff: array<byte>, pos: nat, n: nat)
      requires BufferValid() && buff != readbuf && pos + n <= buff.Length && n <= readbuf_len
      modifies buff
      ensures TheWindow() == old(TheWindow())
      ensures buff[..] == Pasted(old(buff[..]), pos, Data()[..n])
    {
      ghost var data := Data();
      assert n > 0 ==> readbuf[0..n] == data[..n];
      Memcpy(buff, pos, readbuf, 0, n);
      assert Data() == data;
    }

    /** As much of the request as the buffer has. */
    method TakeOverlap(buff: array<byte>, offset: nat, blen: nat) returns (nbytes: nat)
      requires BufferValid() && buff != readbuf && blen <= buff.Length
      requires |Overlap(TheWindow(), offset)| <= blen
      modifies buff
      ensures TheWindow() == old(TheWindow())
      ensures nbytes == |Overlap(TheWindow(), offset)|
      ensures buff[..nbytes] == Overlap(TheWindow(), offset) && buff[nbytes..] == old(buff[..])[nbytes..]
    {
      if offset >= readbuf_offset && offset < readbuf_offset + readbuf_len {
        var offsetInReadbuf := offset - readbuf_offset;
        nbytes := readbuf_len - offsetInReadbuf;
        assert Data()[offsetInReadbuf..offsetInReadbuf + nbytes] == Data()[offsetInReadbuf..];
        CopyHit(buff, offsetInReadbuf, nbytes);
      } else {
        nbytes := 0;
      }
    }

    /** The refill loop: short reads are continued and interrupted calls repeated. */
    method Refill(offset: nat) returns (rc: int)
      requires BufferValid() && readbuf_len == 0
      modifies this`readbuf_len, readbuf, world`preads, world`errno
      ensures BufferValid() && readbuf_size == old(readbuf_size)
      ensures Filling(Data(), rc, world.preads) == Fill(world.Readable(fh), offset, [], readbuf_size, old(world.preads))
    {
      ghost var file := world.Readable(fh);
      ghost var all := Fill(file, offset, [], readbuf_size, world.preads);
      assert Data() == [];
      while readbuf_len < readbuf_size
        invariant BufferValid()
        invariant Fill(file, offset, Data(), readbuf_size, world.preads) == all
        decreases readbuf_size - readbuf_len, |world.preads|
      {
        hide Fill, Pread;
        var stop;
        stop, rc := RefillOnce(offset);
        if stop {
          return;
        }
      }
      FillFull(file, offset, Data(), readbuf_size, world.preads);
      return 0;
    }

    /** The body of the refill loop. */
    method RefillOnce(offset: nat) returns (stop: bool, rc: int)
      requires BufferValid() && readbuf_len < readbuf_size
      modifies this`readbuf_len, readbuf, world`preads, world`errno
      ensures BufferValid()
      ensures var all := Fill(world.Readable(fh), offset, old(Data()), readbuf_size, old(world.preads));
        if stop then all == Filling(Data(), rc, world.preads)
        else all == Fill(world.Readable(fh), offset, Data(), readbuf_size, world.preads)
      ensures stop || readbuf_len > old(readbuf_len) ||
        (readbuf_len == old(readbuf_len) && |world.preads| < |old(world.preads)|)
    {
      hide Pread, Fill;
      ghost var file, data, before := world.Readable(fh), Data(), readbuf[..];
      FillOneCall(file, offset, data, readbuf_size, world.preads);
      world.errno := 0;
      var n := world.PreadInto(fh, offset + readbuf_len, readbuf, readbuf_len, readbuf_size - readbuf_len);
      if n > 0 {
        PastedPrefix(before, readbuf_len, file.value[offset + readbuf_len..offset + readbuf_len + n]);
      }
      hide Pasted;
      assert data == before[..readbuf_len];
      assert Data() == data;
      if n < 0 && world.errno == EINTR {
        return false, 0;
      } else if n < 0 || (world.errno != 0 && n == 0) {
        return true, Emsg(world.errno);
      } else if n == 0 {
        return true, 0;
      }
      readbuf_len := readbuf_len + n;
      return false, 0;
    }

    // ---------- writing ----------

    ghost predicate Writing()
      reads this, world`files
    {
      fh.Some? && fh.value.writing && fh.value.path in world.files
    }

    /** The file as the writer of a session with a checksum state sees it. */
    ghost function TheWriter(): Writer
      requires Writing() && m_state != null
      reads this, world`files, m_state
    {
      Writer(world.files[fh.value.path], m_nextoff, m_state.stream)
    }

    /** A call out of order is rejected and changes nothing; any other appends what the library accepts,
        and the checksum state absorbs everything that was passed in. */
    method Write(buff: seq<byte>, offset: nat) returns (result: int)
      requires m_state != null ==> m_state.Running()
      modifies this`m_nextoff, m_state, world`files, world`writes
      ensures m_state != null ==> m_state.Running()
      ensures m_state != null ==>
        m_state.stream == old(m_state.stream) + (if offset == old(m_nextoff) then buff else [])
      ensures offset != old(m_nextoff) ==> result == Emsg(world.errno) && m_nextoff == old(m_nextoff)
      ensures offset != old(m_nextoff) ==> world.files == old(world.files) && world.writes == old(world.writes)
      ensures Writing() == old(Writing())
      ensures offset == old(m_nextoff) && !Writing() ==>
        result == -1 && m_nextoff == old(m_nextoff) && world.files == old(world.files)
      ensures offset == old(m_nextoff) && Writing() ==>
        result == WriteResult(buff, old(world.writes)) && world.writes == Rest(old(world.writes))
      ensures offset == old(m_nextoff) && Writing() ==>
        var stored := Stored(Call(buff, offset, result));
        m_nextoff == old(m_nextoff) + |stored|
        && world.files == old(world.files)[fh.value.path := old(world.files)[fh.value.path] + stored]
      ensures m_state != null && Writing() ==> TheWriter() == AfterCall(old(TheWriter()), Call(buff, offset, result))
    {
      hide ChecksumState.Running, WriteResult;
      if offset != m_nextoff {
        assert m_state != null ==> m_state.stream + [] == m_state.stream;
        return Emsg(world.errno);
      }
      if Writing() {
        NothingStored(world.files, fh.value.path);
      }
      result := world.WriteTo(fh, buff);
      if result >= 0 {
        m_nextoff := m_nextoff + result;
      }
      if m_state != null {
        m_state.Update(buff);
      }
    }

    /** Closing a written file stores its digests next to it, if the library closed it without an error.
        `stored` is the result of storing them, which the caller never sees. */
    method Close() returns (ret: int, ghost stored: int)
      requires m_state != null ==> m_state.Running() && fname.Some?
      modifies this, m_state, world
      ensures Valid() && fh == None && m_state == null && fname == None && TheWindow() == CLOSED && ret <= 0
      ensures m_nextoff == old(m_nextoff) && world.preads == old(world.preads)
      ensures ret ==
        if old(fh).Some? && !CloseWorks(old(world.closes)) then Emsg(old(world.closes)[0].errno) else 0
      ensures old(m_state) == null || ret != 0 ==> world.files == old(world.files)
      ensures old(m_state) == null ==> world.writes == old(world.writes) && world.connects == old(world.connects)
      ensures old(m_state) == null ==> world.deletes == old(world.deletes)
      ensures old(m_state) != null && ret == 0 ==>
        SidecarOutcome(stored, old(world.files), world.files, ChecksumFilename(old(fname).value),
          Print(Named(old(m_state).lib, old(m_state).start, old(m_state).m_digests, old(m_state.stream))),
          old(world.writes), old(world.connects), world.dirs)
      ensures old(m_state) != null && ret == 0 ==> world.connects == Rest(old(world.connects))
      decreases if m_state != null then 1 else 0, 0
    {
      hide ChecksumState.Running, ChecksumState.Finalized, Named, SidecarOutcome, CloseWorks;
      ret, stored := 0, 0;
      if fh.Some? {
        var ok := world.CloseFile();
        if !ok {
          ret := Emsg(world.errno);
        }
      }
      fh := None;
      readbuf := null;
      readbuf_size := 0;
      readbuf_offset := 0;
      readbuf_len := 0;
      if m_state != null {
        m_state.Finalize();
        if ret == 0 {
          var manager := new ChecksumManager(world, lib);
          stored := manager.SetState(fname.value, m_state);
        }
        m_state := null;
      }
      fname := None;
    }
  }

  /** What trying to store `text` in a checksum file comes to: if the file cannot be opened, nothing has
      happened; if it can, it holds what the write loop stored. */
  ghost predicate SidecarOutcome(rc: int, before: map<Path, seq<byte>>, after: map<Path, seq<byte>>,
                                 path: Path, text: Text, script: seq<WriteReply>,
                                 connects: seq<OpenReply>, dirs: set<Path>)
  {
    var w := WriteLoop(text, 0, script);
    if CanOpen(connects, dirs, before, path, true) then
      w.done <= |text| && after == before[path := text[..w.done]] && rc == (if w.retval < 0 then w.retval else 0)
    else
      after == before && rc == OpenError(connects, dirs, before, path)
  }

  /** How storing a text comes out is decided by the replies: it is complete, cut short without an error, or
      rejected, according to which reply stops the loop and how much the library takes before. */
  lemma {:induction false} OutcomeByReplies(rc: int, before: map<Path, seq<byte>>, after: map<Path, seq<byte>>,
                                            path: Path, text: Text, script: seq<WriteReply>,
                                            connects: seq<OpenReply>, dirs: set<Path>)
    requires SidecarOutcome(rc, before, after, path, text, script, connects, dirs)
    requires CanOpen(connects, dirs, before, path, true)
    ensures path in after && after == before[path := after[path]]
    ensures var stop, enough := FirstStop(script), Ready(script) >= |text|;
      text != [] ==>
        && (rc == 0 && after[path] == text <==> stop == None || enough)
        && (rc == 0 && after[path] != text <==> stop == Some(Accepted(0)) && !enough)
        && (rc < 0 <==> stop.Some? && stop.value.Rejected? && !enough)
        && after[path] == (if stop == None || enough then text else text[..Ready(script)])
  {
    hide WriteLoop, Ready, FirstStop;
    if text != [] {
      WriteLoopRight(text, 0, script);
      assert text[..|text|] == text;
      assert |after[path]| == WriteLoop(text, 0, script).done;
    }
  }

  lemma {:induction false} OutcomeOfLoop(before: map<Path, seq<byte>>, path: Path, text: Text,
                                         script: seq<WriteReply>, connects: seq<OpenReply>, dirs: set<Path>)
    requires WriteLoop(text, 0, script).done <= |text| && CanOpen(connects, dirs, before, path, true)
    ensures var w := WriteLoop(text, 0, script);
      SidecarOutcome(if w.retval < 0 then w.retval else 0, before, before[path := []][path := text[..w.done]],
        path, text, script, connects, dirs)
  {
    hide WriteLoop;
    var done := WriteLoop(text, 0, script).done;
    assert before[path := []][path := text[..done]] == before[path := text[..done]];
  }

  // ---------- reading a checksum file ----------

  /** `contents` is what C strings show of the file: all of it exactly when it holds no NUL. */
  ghost predicate SeenContents(files: map<Path, seq<byte>>, path: Path, contents: Text) {
    path in files && NulFree(contents) && (contents == files[path] <==> NulFree(files[path]))
  }

  /** `ss` is what C strings show of the first `offset` octets. */
  ghost predicate ReadSoFar(content: Text, offset: nat, ss: Text) {
    && offset <= |content| && NulFree(ss) && |ss| <= offset
    && (NulFree(content[..offset]) ==> ss == content[..offset])
    && (!NulFree(content[..offset]) ==> |ss| < offset)
  }

  lemma {:induction false} NothingRead(content: Text)
    ensures ReadSoFar(content, 0, [])
  {
  }

  lemma {:induction false} MoreRead(content: Text, offset: nat, ss: Text, chunk: Text)
    requires ReadSoFar(content, offset, ss) && offset + |chunk| <= |content|
    requires chunk == content[offset..offset + |chunk|]
    ensures ReadSoFar(content, offset + |chunk|, ss + CString(chunk))
  {
    hide CString;
    var next := offset + |chunk|;
    assert content[..next] == content[..offset] + chunk;
    assert NulFree(content[..next]) <==> NulFree(content[..offset]) && NulFree(chunk);
    if !NulFree(chunk) {
      assert |CString(chunk)| < |chunk|;
    }
  }

  lemma {:induction false} ReadAll(files: map<Path, seq<byte>>, path: Path, ss: Text)
    requires path in files && ReadSoFar(files[path], |files[path]|, ss)
    ensures SeenContents(files, path, ss)
  {
    assert files[path][..|files[path]|] == files[path];
  }

  class ChecksumManager {
    const world: World
    const lib: Library

    constructor (world: World, lib: Library)
      ensures this.world == world && this.lib == lib
    {
      this.world := world;
      this.lib := lib;
    }

    /** The contents of the checksum file, as far as C strings show them: all of it exactly when it
        holds no NUL. */
    method GetFileContents(pfn: Path) returns (rc: int, result: Text)
      modifies world
      ensures world.files == old(world.files) && world.writes == old(world.writes)
      ensures world.connects == Rest(old(world.connects)) && world.deletes == old(world.deletes)
      ensures rc == 0 ==> SeenContents(world.files, ChecksumFilename(pfn), result)
      ensures rc <= 0
      ensures rc != 0 ==> rc == old(ReadError(world.connects, world.preads, ChecksumFilename(pfn)))
      ensures old(CannotRead(world.connects, ChecksumFilename(pfn))) ==> rc != 0
      ensures !old(CannotRead(world.connects, ChecksumFilename(pfn))) && FirstFault(old(world.preads)) == 0 ==> rc == 0
    {
      assert ReadError(world.connects, world.preads, ChecksumFilename(pfn)) ==
        if CannotRead(world.connects, ChecksumFilename(pfn))
        then OpenError(world.connects, world.dirs, world.files, ChecksumFilename(pfn)) else FirstFault(world.preads);
      hide *;
      var checksumFile := new HdfsFile(world, lib);
      var path := ChecksumFilename(pfn);
      rc := OpenForReading(checksumFile, path);
      if rc != 0 {
        return rc, [];
      }
      rc, result := ReadText(checksumFile, path);
      var closed, _ := checksumFile.Close();
      if rc < 0 {
        return rc, [];
      }
      ReadAll(world.files, path, result);
    }

    ghost predicate CannotRead(connects: seq<OpenReply>, path: Path)
      reads world`files
    {
      !CanOpen(connects, world.dirs, world.files, path, false)
    }

    /** The code of a failure to read a whole file: that of the open, or of the first fault while reading. */
    ghost function ReadError(connects: seq<OpenReply>, preads: seq<PreadReply>, path: Path): int
      reads world`files
    {
      if CannotRead(connects, path) then OpenError(connects, world.dirs, world.files, path) else FirstFault(preads)
    }

    method OpenForReading(file: HdfsFile, path: Path) returns (rc: int)
      requires file.world == world && file.Valid() && file.fh == None && file.m_state == null
      modifies file, world
      ensures file.Valid() && file.m_state == null && (file.readbuf == old(file.readbuf) || fresh(file.readbuf))
      ensures world.files == old(world.files) && world.writes == old(world.writes) && world.preads == old(world.preads)
      ensures world.connects == Rest(old(world.connects)) && world.deletes == old(world.deletes)
      ensures rc <= 0 && (rc == 0 <==> !old(CannotRead(world.connects, path)))
      ensures rc != 0 ==> rc == OpenError(old(world.connects), world.dirs, old(world.files), path)
      ensures rc == 0 ==> file.fh == Some(Handle(path, false)) && path in world.files
    {
      hide HdfsFile.Valid, CanOpen, OpenError, Opened;
      rc := file.Open(path, OpenMode(O_RDONLY, false));
    }

    /** The reading loop of `GetFileContents`. */
    method ReadText(file: HdfsFile, path: Path) returns (retval: int, ss: Text)
      requires file.world == world && file.Valid() && file.fh == Some(Handle(path, false)) && path in world.files
      modifies file`readbuf_offset, file`readbuf_len, file.readbuf, world`preads, world`errno
      ensures file.Valid() && (retval == 0 || retval == FirstFault(old(world.preads)) < 0)
      ensures retval == 0 ==> ReadSoFar(world.files[path], |world.files[path]|, ss)
    {
      hide ReadSoFar, CString, HdfsFile.Valid, FirstFault;
      var readBuffer := new byte[4096];
      ghost var content := world.files[path];
      var offset: nat := 0;
      ss := [];
      NothingRead(content);
      while true
        invariant file.Valid() && offset <= |content| && ReadSoFar(content, offset, ss)
        invariant FirstFault(world.preads) == FirstFault(old(world.preads))
        decreases |content| - offset, |world.preads|
      {
        retval := ReadOnce(file, path, readBuffer, offset, 4095);
        if retval == -EINTR {
          continue;
        }
        if retval > 0 {
          readBuffer[retval] := NUL;
          CStringStops(readBuffer[..], retval);
          MoreRead(content, offset, ss, content[offset..offset + retval]);
          ss := ss + CString(readBuffer[..]);
          offset := offset + retval;
        }
        if retval <= 0 {
          return;
        }
      }
    }

    /** One `Read` of a file that is open for reading. */
    method ReadOnce(file: HdfsFile, path: Path, buffer: array<byte>, offset: nat, blen: nat)
        returns (retval: int)
      requires file.world == world && file.Valid() && file.fh == Some(Handle(path, false)) && path in world.files
      requires buffer != file.readbuf && 0 < blen <= buffer.Length
      modifies file`readbuf_offset, file`readbuf_len, file.readbuf, buffer, world`preads, world`errno
      ensures file.Valid() && retval <= blen
      ensures retval > 0 ==> offset + retval <= |world.files[path]|
      ensures retval > 0 ==> buffer[..retval] == world.files[path][offset..offset + retval]
      ensures retval == 0 ==> offset >= |world.files[path]|
      ensures |world.preads| <= |old(world.preads)|
      ensures retval < 0 ==> |world.preads| < |old(world.preads)|
      ensures if retval < 0 && retval != -EINTR then retval == FirstFault(old(world.preads))
              else FirstFault(world.preads) == FirstFault(old(world.preads))
    {
      hide ReadStep, Sound, FirstFault;
      ghost var w, script := file.TheWindow(), world.preads;
      ErrorUsesReply(w, world.Readable(file.fh), offset, blen, script);
      ReadReportsFault(w, world.Readable(file.fh), offset, blen, script);
      retval := file.Read(buffer, offset, blen);
    }

    /** `Get`. `valuSize` is the room the caller has for the value; `seen` tells whether the checksum file
        could be read. When it can, and has no value for the name, the source removes the data file. */
    method Get(pfn: Path, requested: Text, valuSize: nat)
        returns (rc: int, value: Text, ghost seen: bool, ghost contents: Text)
      modifies world
      ensures !old(CannotRead(world.connects, ChecksumFilename(pfn))) && FirstFault(old(world.preads)) == 0 ==> seen
      ensures old(CannotRead(world.connects, ChecksumFilename(pfn))) ==> !seen
      ensures !seen ==>
        var code := old(ReadError(world.connects, world.preads, ChecksumFilename(pfn)));
        code < 0 && rc == (if code == -ENOENT then -ESRCH else code) && world.files == old(world.files)
      ensures seen ==> SeenContents(old(world.files), ChecksumFilename(pfn), contents)
      ensures seen ==>
        var found := Lookup(ParseText(contents).values, requested);
        if ParseText(contents).rc != 0 then rc == -ESRCH && world.files == old(world.files)
        else if found == [] then
          rc == -ESRCH && world.files ==
            if CanDelete(Rest(old(world.connects)), old(world.deletes)) then old(world.files) - {pfn}
            else old(world.files)
        else if |found| > valuSize then rc == -EDOM && world.files == old(world.files)
        else rc == 0 && value == found && world.files == old(world.files)
    {
      hide ParseText, Lookup, SeenContents, OpenError, FirstFault, CanOpen, CannotRead, ReadError, CanDelete, Rest;
      seen, contents := false, [];
      var text: Text;
      rc, text := GetFileContents(pfn);
      if rc != 0 {
        return if rc == -ENOENT then -ESRCH else rc, [], false, [];
      }
      seen, contents := true, text;
      var values: seq<Entry>;
      rc, values := Parse(text);
      if rc != 0 {
        return -ESRCH, [], true, contents;
      }
      value := Find(values, requested);
      if |value| == 0 {
        Del(pfn);
        return -ESRCH, [], true, contents;
      }
      if |value| > valuSize {
        return -EDOM, [], true, contents;
      }
    }

    method Del(pfn: Path)
      modifies world`files, world`connects, world`deletes
      ensures world.files ==
        if CanDelete(old(world.connects), old(world.deletes)) then old(world.files) - {pfn} else old(world.files)
    {
      world.Unlink(pfn);
    }

    /** `Set(pfn, cks)`: the file is rewritten unless an entry of that name has the value already. */
    method Set(pfn: Path, name: Text, value: Text) returns (rc: int, ghost seen: bool, ghost contents: Text)
      requires NulFree(name) && NulFree(value)
      modifies world
      ensures !old(CannotRead(world.connects, ChecksumFilename(pfn))) && FirstFault(old(world.preads)) == 0 ==> seen
      ensures !seen ==> world.files == old(world.files)
      ensures !seen ==> rc == old(ReadError(world.connects, world.preads, ChecksumFilename(pfn))) < 0
      ensures seen ==> SeenContents(old(world.files), ChecksumFilename(pfn), contents)
      ensures seen ==>
        var parsed := ParseText(contents);
        if parsed.rc != 0 then rc == parsed.rc && world.files == old(world.files)
        else if NamesWith(parsed.values, name, value) then rc == 0 && world.files == old(world.files)
        else SidecarOutcome(rc, old(world.files), world.files, ChecksumFilename(pfn),
          Print(Upsert(parsed.values, name, value)), old(world.writes), Rest(old(world.connects)), world.dirs)
    {
      hide ParseText, Upsert, NamesWith, NulFree, SidecarOutcome, SeenContents;
      hide OpenError, FirstFault, CanOpen, CannotRead, ReadError;
      seen, contents := false, [];
      var text: Text;
      rc, text := GetFileContents(pfn);
      if rc != 0 {
        return;
      }
      seen, contents := true, text;
      var values: seq<Entry>;
      rc, values := Parse(text);
      if rc != 0 {
        return;
      }
      var after, changed := Update(values, name, value);
      if !changed {
        rc := 0;
        return;
      }
      rc := SetMultiple(pfn, after);
    }

    /** `Calc`: digest the whole file and store the digests. `finished` tells whether the file was read to
        its end, `stored` what storing came to, `start` what the CRC-32 state started from. */
    method Calc(pfn: Path, name: Text, doSet: bool)
        returns (rc: int, value: Text, ghost finished: bool, ghost stored: int, ghost start: bv32)
      modifies world
      ensures !finished ==> rc < 0 && world.files == old(world.files)
      ensures Requested(name) == 0 ==> !finished && rc == -ENOTSUP
      ensures Requested(name) != 0 && old(CannotRead(world.connects, pfn)) ==>
        !finished && rc == OpenError(old(world.connects), world.dirs, old(world.files), pfn)
      ensures Requested(name) != 0 && !old(CannotRead(world.connects, pfn)) && !finished ==> rc == -EIO
      ensures Requested(name) != 0 && !old(CannotRead(world.connects, pfn)) && FirstFault(old(world.preads)) == 0 ==>
        finished
      ensures finished ==> pfn in old(world.files)
      ensures finished ==> SidecarOutcome(stored, old(world.files), world.files, ChecksumFilename(pfn),
        Print(Named(lib, start, CalcDigests(doSet, Requested(name)), old(world.files)[pfn])), old(world.writes),
        Rest(old(world.connects)), world.dirs)
      ensures finished ==> value == DigestText(lib, start, Requested(name), old(world.files)[pfn])
      ensures finished ==> rc == if value == [] then -EIO else 0
      ensures finished ==> world.connects == Rest(Rest(old(world.connects))) && world.deletes == old(world.deletes)
      ensures finished ==> FirstFault(world.preads) == FirstFault(old(world.preads))
    {
      hide DigestText, SidecarOutcome, Named, SameName, Has, OpenError, FirstFault, CanOpen;
      finished, stored, start, value := false, 0, 0, [];
      var digests: bv32 := 0;
      if doSet {
        digests := ALL;
      }
      var returnDigest: bv32;
      if SameName(name, MD5_NAME) {
        returnDigest := MD5;
      } else if SameName(name, CKSUM_NAME) {
        returnDigest := CKSUM;
      } else if SameName(name, CRC32_NAME) {
        returnDigest := CRC32;
      } else if SameName(name, ADLER32_NAME) {
        returnDigest := ADLER32;
      } else {
        rc := -ENOTSUP;
        return;
      }
      digests := digests | returnDigest;
      var state: ChecksumState?;
      rc, state := DigestFile(pfn, digests);
      if rc < 0 {
        return;
      }
      finished, start := true, state.start;
      stored := SetState(pfn, state);
      value := state.Get(returnDigest);
      SoleDigest(doSet, returnDigest);
      if value == [] {
        rc := -EIO;
        return;
      }
      rc := 0;
    }

    /** Read the file to its end and digest it. */
    method DigestFile(pfn: Path, digests: bv32) returns (rc: int, state: ChecksumState?)
      modifies world
      ensures rc <= 0 && world.files == old(world.files) && world.writes == old(world.writes)
      ensures world.connects == Rest(old(world.connects)) && world.deletes == old(world.deletes)
      ensures rc == 0 ==> FirstFault(world.preads) == FirstFault(old(world.preads))
      ensures old(CannotRead(world.connects, pfn)) ==>
        rc != 0 && rc == OpenError(old(world.connects), world.dirs, old(world.files), pfn)
      ensures !old(CannotRead(world.connects, pfn)) ==> rc == 0 || rc == -EIO
      ensures !old(CannotRead(world.connects, pfn)) && FirstFault(old(world.preads)) == 0 ==> rc == 0
      ensures rc == 0 ==> pfn in world.files && state != null && fresh(state) && state.Finalized()
      ensures rc == 0 ==> state.stream == world.files[pfn] && state.m_digests == digests && state.lib == lib
    {
      hide ChecksumState.Running, ChecksumState.Finalized, OpenError, CanOpen, CannotRead, FirstFault;
      state := null;
      var fh := new HdfsFile(world, lib);
      rc := OpenForReading(fh, pfn);
      if rc != 0 {
        return;
      }
      var garbage := world.Uninitialised();
      state := new ChecksumState(lib, digests, garbage);
      var retval := FeedFile(fh, pfn, state);
      var closed, _ := fh.Close();
      if retval < 0 {
        rc := -EIO;
        return;
      }
      state.Finalize();
      rc := 0;
    }

    /** The reading loop of `Calc`: every octet goes to the state once and in order. */
    method FeedFile(file: HdfsFile, path: Path, state: ChecksumState) returns (retval: int)
      requires file.world == world && file.Valid() && file.fh == Some(Handle(path, false)) && path in world.files
      requires state.Running() && state.stream == []
      modifies file`readbuf_offset, file`readbuf_len, file.readbuf, world`preads, world`errno, state
      ensures file.Valid() && state.Running() && (retval == 0 || retval == FirstFault(old(world.preads)) < 0)
      ensures state.stream <= world.files[path]
      ensures retval == 0 ==> state.stream == world.files[path]
      ensures retval == 0 ==> FirstFault(world.preads) == FirstFault(old(world.preads))
    {
      hide ChecksumState.Running, HdfsFile.Valid, FirstFault;
      var readBuffer := new byte[256 * 1024];
      ghost var content := world.files[path];
      var offset: nat := 0;
      while true
        invariant file.Valid() && state.Running()
        invariant offset <= |content| && state.stream == content[..offset]
        invariant FirstFault(world.preads) == FirstFault(old(world.preads))
        decreases |content| - offset, |world.preads|
      {
        retval := ReadOnce(file, path, readBuffer, offset, 256 * 1024);
        if retval == -EINTR {
          continue;
        }
        if retval > 0 {
          state.Update(readBuffer[..retval]);
          assert content[..offset] + content[offset..offset + retval] == content[..offset + retval];
          offset := offset + retval;
        }
        if retval <= 0 {
          return;
        }
      }
    }

    method SetMultiple(pfn: Path, values: seq<Entry>) returns (rc: int)
      modifies world
      ensures SidecarOutcome(rc, old(world.files), world.files, ChecksumFilename(pfn), Print(values), old(world.writes),
        old(world.connects), world.dirs)
      ensures world.preads == old(world.preads) && world.connects == Rest(old(world.connects))
      ensures world.deletes == old(world.deletes)
      decreases 0, 2
    {
      hide Print, ChecksumFilename, WriteLoop, CanOpen, OpenError;
      var result := PrintAll(values);
      var fh := new HdfsFile(world, lib);
      var path := ChecksumFilename(pfn);
      rc := fh.Open(path, OpenMode(O_WRONLY, false));
      if rc != 0 {
        return;
      }
      var retval := StoreText(fh, path, result);
      var closed, _ := fh.Close();
      OutcomeOfLoop(old(world.files), path, result, old(world.writes), old(world.connects), world.dirs);
      rc := if retval < 0 then retval else 0;
    }

    /** The retry loop: the offset stays the file's write position, so no call is out of order. */
    method StoreText(fh: HdfsFile, path: Path, result: Text) returns (retval: int)
      requires fh.world == world && fh.fh == Some(Handle(path, true)) && fh.m_state == null && fh.m_nextoff == 0
      requires path in world.files && world.files[path] == []
      modifies fh`m_nextoff, world`files, world`writes
      ensures var w := WriteLoop(result, 0, old(world.writes));
        retval == w.retval && w.done <= |result| && world.files == old(world.files)[path := result[..w.done]]
    {
      hide WriteLoop, WriteResult;
      ghost var before, script := world.files, world.writes;
      assert result[0..] == result && result[..0] == [];
      var offset := 0;
      while true
        invariant fh.m_nextoff == offset <= |result|
        invariant path in world.files && world.files == before[path := result[..offset]]
        invariant WriteLoop(result, offset, world.writes) == WriteLoop(result, 0, script)
        decreases |result| - offset, |world.writes|
      {
        WriteLoopOnce(result, offset, world.writes);
        retval := fh.Write(result[offset..], offset);
        StoredSoFar(result, offset, retval);
        if retval == -EINTR {
          continue;
        }
        if retval > 0 {
          offset := offset + retval;
        }
        if !(retval > 0 && offset < |result|) {
          return;
        }
      }
    }

    method SetState(pfn: Path, state: ChecksumState) returns (rc: int)
      requires state.Finalized()
      modifies world
      ensures SidecarOutcome(rc, old(world.files), world.files, ChecksumFilename(pfn),
        Print(Named(state.lib, state.start, state.m_digests, state.stream)), old(world.writes),
        old(world.connects), world.dirs)
      ensures world.preads == old(world.preads) && world.connects == Rest(old(world.connects))
      ensures world.deletes == old(world.deletes)
      decreases 0, 3
    {
      hide *;
      var values := StateValues(state);
      rc := SetMultiple(pfn, values);
    }

    /** One entry for each digest the state was asked for. */
    method StateValues(state: ChecksumState) returns (values: seq<Entry>)
      requires state.Finalized()
      ensures values == Named(state.lib, state.start, state.m_digests, state.stream)
    {
      hide ChecksumState.Finalized, DigestText, FirstOf, Kept;
      var value := state.Get(CKSUM);
      values := PushValue([], CKSUM_NAME, value);
      assert values == Kept(CKSUM_NAME, value);
      value := state.Get(ADLER32);
      values := PushValue(values, ADLER32_NAME, value);
      value := state.Get(CRC32);
      values := PushValue(values, CRC32_NAME, value);
      value := state.Get(MD5);
      values := PushValue(values, MD5_NAME, value);
      value := state.Get(CVMFS);
      values := PushValue(values, CVMFS_NAME, value);
    }

    method PushValue(values: seq<Entry>, name: Text, value: Text) returns (pushed: seq<Entry>)
      ensures pushed == values + Kept(name, value)
    {
      pushed := values;
      if value != [] {
        pushed := pushed + [Entry(name, value)];
      }
    }
  }
}
