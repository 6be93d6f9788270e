/** What lies outside the plug-in: the files of the HDFS instance, the client library, errno and malloc. */
module HdfsWorld {
  import opened Bytes
  import opened HdfsReplies

  datatype Handle = Handle(path: Path, writing: bool)

  datatype OpenReply = Granted | NoConnection(errno: int) | Refused

  datatype CloseReply = Closed | Broken(errno: int)

  /** Whether an open succeeds, given the replies to come. */
  predicate CanOpen(connects: seq<OpenReply>, dirs: set<Path>, files: map<Path, seq<byte>>, path: Path, writing: bool) {
    (connects == [] || connects[0].Granted?) && path !in dirs && (writing || path in files)
  }

  /** The code of an open that fails. */
  function OpenError(connects: seq<OpenReply>, dirs: set<Path>, files: map<Path, seq<byte>>, path: Path): (code: int)
    ensures code < 0
  {
    if connects != [] && connects[0].NoConnection? then Emsg(connects[0].errno)
    else if path in dirs then -EISDIR else if path in files then -EEXIST else -ENOENT
  }

  /** A code tells what kept the file from being opened; ENOENT in particular that there is no such path. */
  lemma {:induction false} OpenErrorIs(connects: seq<OpenReply>, dirs: set<Path>, files: map<Path, seq<byte>>,
                                       path: Path)
    requires connects == [] || !connects[0].NoConnection?
    ensures OpenError(connects, dirs, files, path) == -ENOENT <==> path !in dirs && path !in files
    ensures OpenError(connects, dirs, files, path) == -EISDIR <==> path in dirs
    ensures OpenError(connects, dirs, files, path) == -EEXIST <==> path in files && path !in dirs
  {
  }

  predicate CloseWorks(closes: seq<CloseReply>) {
    closes == [] || closes[0].Closed?
  }

  predicate MallocGrants(mallocs: seq<bool>) {
    mallocs == [] || mallocs[0]
  }

  /** Whether a file can be deleted, given the replies to come. */
  predicate CanDelete(connects: seq<OpenReply>, deletes: seq<bool>) {
    (connects == [] || !connects[0].NoConnection?) && (deletes == [] || deletes[0])
  }

  method Memcpy(dst: array<byte>, at: nat, src: array?<byte>, from: nat, n: nat)
    requires at + n <= dst.Length && (n > 0 ==> src != null) && (src != null ==> from + n <= src.Length)
    requires dst != src
    modifies dst
    ensures n == 0 ==> dst[..] == old(dst[..])
    ensures n > 0 ==> dst[..] == Pasted(old(dst[..]), at, src[from..from + n])
  {
    if n > 0 {
      forall i | 0 <= i < n {
        dst[at + i] := src[from + i];
      }
    }
  }

  class World {
    var files: map<Path, seq<byte>>
    const dirs: set<Path>
    var errno: int

    // What the library and the allocator decide from now on. When a script runs out, everything succeeds.
    var connects: seq<OpenReply>
    var preads: seq<PreadReply>
    var writes: seq<WriteReply>
    var closes: seq<CloseReply>
    var deletes: seq<bool>
    var mallocs: seq<bool>

    /** The file a handle can read, if it can. */
    function Readable(fh: Option<Handle>): Option<seq<byte>>
      reads this`files
    {
      if fh.Some? && !fh.value.writing && fh.value.path in files then Some(files[fh.value.path]) else None
    }

    method Malloc() returns (granted: bool)
      modifies this`mallocs
      ensures granted == MallocGrants(old(mallocs))
    {
      granted := MallocGrants(mallocs);
      mallocs := Rest(mallocs);
    }

    /** Whatever uninitialised memory holds. */
    method Uninitialised() returns (garbage: bv32)
    {
      garbage := *;
    }

    /** `hdfsOpenFile`; opening for writing creates the file or empties it. */
    method OpenFile(path: Path, writing: bool) returns (fh: Option<Handle>)
      modifies this`files, this`connects
      ensures fh.Some? <==>
        (old(connects) == [] || !old(connects)[0].Refused?) && path !in dirs && (writing || path in old(files))
      ensures fh.Some? ==> fh == Some(Handle(path, writing)) && path in files
      ensures connects == Rest(old(connects))
      ensures fh.Some? && writing ==> files == old(files)[path := []]
      ensures fh.None? || !writing ==> files == old(files)
    {
      var refused := connects != [] && connects[0].Refused?;
      connects := Rest(connects);
      if refused || path in dirs || (!writing && path !in files) {
        fh := None;
      } else {
        if writing {
          files := files[path := []];
        }
        fh := Some(Handle(path, writing));
      }
    }

    /** `hdfsPread` into `dst` from position `at` on. */
    method PreadInto(fh: Option<Handle>, offset: nat, dst: array<byte>, at: nat, len: nat) returns (n: int)
      requires at + len <= dst.Length
      modifies this`preads, this`errno, dst
      ensures var a := Pread(Readable(fh), offset, len, old(preads));
        n == a.n && errno == a.errno && preads == a.rest
      ensures n <= len && (n > 0 ==> Readable(fh).Some? && offset + n <= |Readable(fh).value|)
      ensures n <= 0 ==> dst[..] == old(dst[..])
      ensures n > 0 ==> dst[..] == Pasted(old(dst[..]), at, Readable(fh).value[offset..offset + n])
    {
      hide Pread;
      var a := Pread(Readable(fh), offset, len, preads);
      n := a.n;
      errno := a.errno;
      preads := a.rest;
      if n > 0 {
        var file := Readable(fh).value;
        forall i | 0 <= i < n {
          dst[at + i] := file[offset + i];
        }
      }
    }

    /** `hdfsWrite`: appends what it accepts. A handle that is not open for writing is refused. */
    method WriteTo(fh: Option<Handle>, data: seq<byte>) returns (n: int)
      modifies this`files, this`writes
      ensures var open := fh.Some? && fh.value.writing && fh.value.path in old(files);
        && n == (if open then WriteResult(data, old(writes)) else -1)
        && writes == (if open then Rest(old(writes)) else old(writes))
        && files == (if open && n > 0 then old(files)[fh.value.path := old(files)[fh.value.path] + data[..n]]
                     else old(files))
    {
      if fh.None? || !fh.value.writing || fh.value.path !in files {
        return -1;
      }
      n := WriteResult(data, writes);
      writes := Rest(writes);
      if n > 0 {
        files := files[fh.value.path := files[fh.value.path] + data[..n]];
      }
    }

    /** `XrdHdfsSys::Unlink` of a file. */
    method Unlink(path: Path)
      modifies this`files, this`connects, this`deletes
      ensures files == if CanDelete(old(connects), old(deletes)) then old(files) - {path} else old(files)
    {
      if CanDelete(connects, deletes) {
        files := files - {path};
      }
      if connects == [] || !connects[0].NoConnection? {
        deletes := Rest(deletes);
      }
      connects := Rest(connects);
    }

    method CloseFile() returns (ok: bool)
      modifies this`closes, this`errno
      ensures ok == CloseWorks(old(closes)) && closes == Rest(old(closes))
      ensures !ok ==> errno == old(closes)[0].errno
    {
      ok := CloseWorks(closes);
      if !ok {
        errno := closes[0].errno;
      }
      closes := Rest(closes);
    }
  }
}
