/** The read-ahead window of `XrdHdfsFile::Read` against a plain read of the file. */
module ReadAhead {
  import opened Bytes
  import opened HdfsReplies

  /** `readbuf_size`, `readbuf_offset` and the `readbuf_len` octets in `readbuf`. */
  datatype Window = Window(size: nat, offset: nat, data: seq<byte>)

  /** No buffer is allocated. */
  const CLOSED := Window(0, 0, [])

  const READBUF_SIZE: nat := 32768

  /** `Open`: allocate the buffer unless there is one, and empty it. */
  function Opened(w: Window, granted: bool): Window {
    Window(if w.size > 0 then w.size else if granted then READBUF_SIZE else 0, 0, [])
  }

  /** The window holds octets of this file only, from where it says. */
  ghost predicate Sound(w: Window, file: Option<seq<byte>>) {
    && |w.data| <= w.size
    && (w.data != [] ==>
          && file.Some? && w.offset + |w.data| <= |file.value|
          && w.data == file.value[w.offset..w.offset + |w.data|])
  }

  lemma {:induction false} SliceOfSlice(f: seq<byte>, at: nat, len: nat, lo: nat, hi: nat)
    requires at + len <= |f| && lo <= hi <= len
    ensures f[at..at + len][lo..hi] == f[at + lo..at + hi]
  {
    var x, y := f[at..at + len][lo..hi], f[at + lo..at + hi];
    forall i | 0 <= i < hi - lo
      ensures x[i] == y[i]
    {
      assert x[i] == f[at..at + len][lo + i] == f[at + (lo + i)];
    }
  }

  lemma {:induction false} SliceThenSlice(f: seq<byte>, a: nat, b: nat, c: nat)
    requires a <= b <= c <= |f|
    ensures f[a..b] + f[b..c] == f[a..c]
  {
  }

  // ---------- the refill loop ----------

  datatype Filling = Filling(data: seq<byte>, rc: int, rest: seq<PreadReply>)

  /** The loop that fills the buffer from `at`, when `data` is there already. */
  function Fill(file: Option<seq<byte>>, at: nat, data: seq<byte>, size: nat, script: seq<PreadReply>): Filling
    requires |data| <= size
    decreases size - |data|, |script|
  {
    if |data| == size then Filling(data, 0, script)
    else
      var a := Pread(file, at + |data|, size - |data|, script);
      if a.n < 0 && a.errno == EINTR then Fill(file, at, data, size, a.rest)
      else if a.n < 0 || (a.errno != 0 && a.n == 0) then Filling(data, Emsg(a.errno), a.rest)
      else if a.n == 0 then Filling(data, 0, a.rest)
      else Fill(file, at, data + file.value[at + |data|..at + |data| + a.n], size, a.rest)
  }

  lemma {:induction false} FillFull(file: Option<seq<byte>>, at: nat, data: seq<byte>, size: nat,
                                    script: seq<PreadReply>)
    requires |data| == size
    ensures Fill(file, at, data, size, script) == Filling(data, 0, script)
  {
  }

  /** What one call of the refill loop makes of the rest of it. */
  lemma {:induction false} FillOneCall(file: Option<seq<byte>>, at: nat, data: seq<byte>, size: nat,
                                       script: seq<PreadReply>)
    requires |data| < size
    ensures var a := Pread(file, at + |data|, size - |data|, script);
      var f := Fill(file, at, data, size, script);
      if a.n < 0 && a.errno == EINTR then f == Fill(file, at, data, size, a.rest)
      else if a.n < 0 || (a.errno != 0 && a.n == 0) then f == Filling(data, Emsg(a.errno), a.rest)
      else if a.n == 0 then f == Filling(data, 0, a.rest)
      else f == Fill(file, at, data + file.value[at + |data|..at + |data| + a.n], size, a.rest)
  {
  }

  ghost predicate Holds(file: Option<seq<byte>>, at: nat, data: seq<byte>) {
    data != [] ==> file.Some? && at + |data| <= |file.value| && data == file.value[at..at + |data|]
  }

  /** However the replies fall, the buffer ends with true octets of the file; without an error it ends full
      or at the end of the file. */
  lemma {:induction false} FillRight(file: Option<seq<byte>>, at: nat, data: seq<byte>, size: nat,
                                     script: seq<PreadReply>)
    requires |data| <= size && Holds(file, at, data)
    ensures var f := Fill(file, at, data, size, script);
      && |f.data| <= size && Holds(file, at, f.data) && f.rc <= 0
      && (f.rc == 0 && file.Some? ==> |f.data| == Available(|file.value|, at, size))
      && (f.rc == 0 && file.None? ==> size == |data|)
    decreases size - |data|, |script|
  {
    if |data| < size {
      var a := Pread(file, at + |data|, size - |data|, script);
      if a.n < 0 && a.errno == EINTR {
        FillRight(file, at, data, size, a.rest);
      } else if a.n > 0 {
        var more := data + file.value[at + |data|..at + |data| + a.n];
        JoinHolds(file.value, at, data, file.value[at + |data|..at + |data| + a.n]);
        FillRight(file, at, more, size, a.rest);
      }
    }
  }

  // ---------- one read ----------

  /** The window after a read, its result, what it put at the front of the caller's buffer, and the
      replies still to come. */
  datatype ReadEnd = ReadEnd(window: Window, r: int, bytes: seq<byte>, rest: seq<PreadReply>)

  predicate IsHit(w: Window, offset: nat, blen: nat) {
    offset >= w.offset && offset + blen <= w.offset + |w.data|
  }

  /** The part of the request the window already has, when it is not a full hit. */
  function Overlap(w: Window, offset: nat): (got: seq<byte>)
    ensures |got| <= |w.data|
  {
    if w.offset <= offset < w.offset + |w.data| then w.data[offset - w.offset..] else []
  }

  lemma {:induction false} OverlapShort(w: Window, offset: nat, blen: nat)
    requires !IsHit(w, offset, blen)
    ensures |Overlap(w, offset)| <= blen
  {
  }

  function Bypass(w: Window, file: Option<seq<byte>>, offset: nat, blen: nat, script: seq<PreadReply>): ReadEnd {
    var a := Pread(file, offset, blen, script);
    if a.n < 0 || (a.n == 0 && a.errno != 0) then ReadEnd(w, Emsg(a.errno), [], a.rest)
    else ReadEnd(w, a.n, if a.n == 0 then [] else file.value[offset..offset + a.n], a.rest)
  }

  /** The end of a miss or partial hit, once the refill loop is over. */
  function AfterFill(size: nat, at: nat, got: seq<byte>, wanted: nat, f: Filling): ReadEnd {
    var w := Window(size, at, f.data);
    if f.rc < 0 then ReadEnd(w, f.rc, got, f.rest)
    else
      var taken := if |f.data| < wanted then |f.data| else wanted;
      ReadEnd(w, |got| + taken, got + f.data[..taken], f.rest)
  }

  /** `Read` of `blen` octets at `offset`. */
  function ReadStep(w: Window, file: Option<seq<byte>>, offset: nat, blen: nat, script: seq<PreadReply>): ReadEnd {
    if blen > w.size then Bypass(w, file, offset, blen, script)
    else if IsHit(w, offset, blen) then
      ReadEnd(w, blen, w.data[offset - w.offset..offset - w.offset + blen], script)
    else
      OverlapShort(w, offset, blen);
      var got := Overlap(w, offset);
      AfterFill(w.size, offset + |got|, got, blen - |got|, Fill(file, offset + |got|, [], w.size, script))
  }

  lemma {:induction false} MissIs(w: Window, file: Option<seq<byte>>, offset: nat, blen: nat, script: seq<PreadReply>)
    requires blen <= w.size && !IsHit(w, offset, blen)
    ensures |Overlap(w, offset)| <= blen
    ensures var got := Overlap(w, offset);
      ReadStep(w, file, offset, blen, script) ==
      AfterFill(w.size, offset + |got|, got, blen - |got|, Fill(file, offset + |got|, [], w.size, script))
  {
    hide Fill, AfterFill;
    OverlapShort(w, offset, blen);
  }

  /** What a plain read of a file that can be read has to deliver. */
  ghost predicate RightRead(file: Option<seq<byte>>, size: nat, offset: nat, blen: nat, r: int, bytes: seq<byte>) {
    && Holds(file, offset, bytes)
    && (r >= 0 ==> |bytes| == r <= blen)
    && (r >= 0 && file.Some? && blen <= size ==> r == Available(|file.value|, offset, blen))
    && (r == 0 && file.Some? && blen > 0 ==> offset >= |file.value|)
    && (r >= 0 && file.None? ==> r == 0)
  }

  lemma {:induction false} BypassRight(w: Window, file: Option<seq<byte>>, offset: nat, blen: nat,
                                       script: seq<PreadReply>)
    requires Sound(w, file) && blen > w.size
    ensures var e := Bypass(w, file, offset, blen, script);
      e.window == w && RightRead(file, w.size, offset, blen, e.r, e.bytes)
  {
  }

  lemma {:induction false} HitRight(w: Window, file: Option<seq<byte>>, offset: nat, blen: nat)
    requires Sound(w, file) && IsHit(w, offset, blen)
    ensures RightRead(file, w.size, offset, blen, blen, w.data[offset - w.offset..offset - w.offset + blen])
  {
    if blen > 0 {
      var lo := offset - w.offset;
      SliceOfSlice(file.value, w.offset, |w.data|, lo, lo + blen);
    }
  }

  lemma {:induction false} OverlapRight(w: Window, file: Option<seq<byte>>, offset: nat)
    requires Sound(w, file)
    ensures Holds(file, offset, Overlap(w, offset))
  {
  }

  lemma {:induction false} AfterFillRight(size: nat, file: Option<seq<byte>>, offset: nat, blen: nat,
                                          got: seq<byte>, f: Filling)
    requires |got| <= blen <= size && Holds(file, offset, got)
    requires |f.data| <= size && Holds(file, offset + |got|, f.data) && f.rc <= 0
    requires f.rc == 0 && file.Some? ==> |f.data| == Available(|file.value|, offset + |got|, size)
    requires f.rc == 0 && file.None? ==> size == 0
    ensures var e := AfterFill(size, offset + |got|, got, blen - |got|, f);
      Sound(e.window, file) && e.window.size == size && RightRead(file, size, offset, blen, e.r, e.bytes)
  {
    if f.rc == 0 && file.Some? {
      var wanted, at := blen - |got|, offset + |got|;
      var taken := if |f.data| < wanted then |f.data| else wanted;
      PrefixHolds(file.value, at, f.data, taken);
      JoinHolds(file.value, offset, got, f.data[..taken]);
      hide Holds;
      assert AfterFill(size, at, got, wanted, f).bytes == got + f.data[..taken];
    }
  }

  lemma {:induction false} PrefixHolds(f: seq<byte>, at: nat, data: seq<byte>, n: nat)
    requires Holds(Some(f), at, data) && n <= |data|
    ensures Holds(Some(f), at, data[..n])
  {
    if n > 0 {
      SliceOfSlice(f, at, |data|, 0, n);
    }
  }

  lemma {:induction false} JoinHolds(f: seq<byte>, at: nat, a: seq<byte>, b: seq<byte>)
    requires Holds(Some(f), at, a) && Holds(Some(f), at + |a|, b)
    ensures Holds(Some(f), at, a + b)
  {
    if a == [] {
      assert a + b == b;
    } else if b == [] {
      assert a + b == a;
    } else {
      SliceThenSlice(f, at, at + |a|, at + |a| + |b|);
    }
  }

  /** One read keeps the window sound and delivers exactly what a plain read would: the octets of the file
      from `offset`, all there are when the request fits the buffer. This holds after errors too. */
  lemma {:induction false} ReadStepRight(w: Window, file: Option<seq<byte>>, offset: nat, blen: nat,
                                         script: seq<PreadReply>)
    requires Sound(w, file)
    ensures var e := ReadStep(w, file, offset, blen, script);
      Sound(e.window, file) && e.window.size == w.size && RightRead(file, w.size, offset, blen, e.r, e.bytes)
  {
    hide Pread, Fill, Sound, Holds, RightRead, AfterFill, Overlap;
    if blen > w.size {
      BypassRight(w, file, offset, blen, script);
    } else if IsHit(w, offset, blen) {
      HitRight(w, file, offset, blen);
    } else {
      OverlapShort(w, offset, blen);
      var got := Overlap(w, offset);
      FillRight(file, offset + |got|, [], w.size, script);
      OverlapRight(w, file, offset);
      AfterFillRight(w.size, file, offset, blen, got, Fill(file, offset + |got|, [], w.size, script));
    }
  }

  /** Every reply delivers data or is an interrupted call. */
  ghost predicate OnlyInterrupted(script: seq<PreadReply>) {
    forall i :: 0 <= i < |script| ==> script[i].Data? || script[i] == Failed(EINTR)
  }

  lemma {:induction false} FillSucceeds(file: Option<seq<byte>>, at: nat, data: seq<byte>, size: nat,
                                        script: seq<PreadReply>)
    requires |data| <= size && file.Some? && OnlyInterrupted(script)
    ensures var f := Fill(file, at, data, size, script); f.rc == 0 && OnlyInterrupted(f.rest)
    decreases size - |data|, |script|
  {
    if |data| < size {
      var a := Pread(file, at + |data|, size - |data|, script);
      if a.n < 0 {
        FillSucceeds(file, at, data, size, a.rest);
      } else if a.n > 0 {
        FillSucceeds(file, at, data + file.value[at + |data|..at + |data| + a.n], size, a.rest);
      }
    }
  }

  /** Interrupted calls are not errors: a read that fits the buffer succeeds. */
  lemma {:induction false} ReadSucceeds(w: Window, file: Option<seq<byte>>, offset: nat, blen: nat,
                                        script: seq<PreadReply>)
    requires Sound(w, file) && file.Some? && blen <= w.size && OnlyInterrupted(script)
    ensures ReadStep(w, file, offset, blen, script).r == Available(|file.value|, offset, blen)
  {
    ReadStepRight(w, file, offset, blen, script);
    FillSucceeds(file, offset + |Overlap(w, offset)|, [], w.size, script);
  }

  /** A request that lies in the window is served from it without asking the library. */
  lemma {:induction false} HitAsksNothing(w: Window, file: Option<seq<byte>>, offset: nat, blen: nat,
                                          script: seq<PreadReply>)
    requires blen <= w.size && w.offset <= offset && offset + blen <= w.offset + |w.data|
    ensures ReadStep(w, file, offset, blen, script) ==
      ReadEnd(w, blen, w.data[offset - w.offset..offset - w.offset + blen], script)
  {
  }

  /** What the library is asked for starts right behind the window if the request starts in it, and else where
      the request does. */
  lemma {:induction false} AsksBehindWindow(w: Window, file: Option<seq<byte>>, offset: nat, blen: nat,
                                            script: seq<PreadReply>)
    requires blen <= w.size && (offset < w.offset || offset + blen > w.offset + |w.data|)
    ensures var e := ReadStep(w, file, offset, blen, script);
      e.window.offset == if w.offset <= offset < w.offset + |w.data| then w.offset + |w.data| else offset
  {
    hide Pread, Fill;
    OverlapShort(w, offset, blen);
  }

  /** An open leaves nothing in the window, and 32 KiB to read ahead into whenever memory is to be had. */
  lemma {:induction false} OpenedIsEmpty(w: Window, granted: bool)
    ensures Opened(w, granted).data == []
    ensures w.size == 0 || w.size == 32768 ==>
      Opened(w, granted).size == if w.size == 0 && !granted then 0 else 32768
  {
  }

  /** Reading ahead: after a buffered read that had to ask the library and did not fail, no read of the file
      behind it, up to the size of the buffer from where it started, asks again. */
  lemma {:induction false} ReadsAhead(w: Window, file: seq<byte>, offset: nat, blen: nat, script: seq<PreadReply>,
                                      next: nat, more: nat, later: seq<PreadReply>)
    requires Sound(w, Some(file)) && blen <= w.size
    requires offset < w.offset || offset + blen > w.offset + |w.data|
    requires ReadStep(w, Some(file), offset, blen, script).r >= 0
    requires offset + blen <= next && next + more <= offset + w.size && next + more <= |file|
    ensures var e := ReadStep(w, Some(file), offset, blen, script);
      ReadStep(e.window, Some(file), next, more, later).rest == later
  {
    hide Pread, Fill, Sound, Holds;
    OverlapShort(w, offset, blen);
    var got := Overlap(w, offset);
    OverlapRight(w, Some(file), offset);
    FillFromNothing(file, offset + |got|, w.size, script);
    var e := ReadStep(w, Some(file), offset, blen, script);
    HitAsksNothing(e.window, Some(file), next, more, later);
  }

  lemma {:induction false} FillFromNothing(file: seq<byte>, at: nat, size: nat, script: seq<PreadReply>)
    ensures var f := Fill(Some(file), at, [], size, script);
      f.rc >= 0 ==> |f.data| == Available(|file|, at, size)
  {
    FillRight(Some(file), at, [], size, script);
  }

  /** Every error uses up a reply of the library. */
  lemma {:induction false} FillErrorUsesReply(file: Option<seq<byte>>, at: nat, data: seq<byte>, size: nat,
                                              script: seq<PreadReply>)
    requires |data| <= size && file.Some?
    ensures var f := Fill(file, at, data, size, script);
      |f.rest| <= |script| && (f.rc < 0 ==> |f.rest| < |script|)
    decreases size - |data|, |script|
  {
    if |data| < size {
      var a := Pread(file, at + |data|, size - |data|, script);
      if a.n < 0 && a.errno == EINTR {
        FillErrorUsesReply(file, at, data, size, a.rest);
      } else if a.n > 0 {
        FillErrorUsesReply(file, at, data + file.value[at + |data|..at + |data| + a.n], size, a.rest);
      }
    }
  }

  lemma {:induction false} ErrorUsesReply(w: Window, file: Option<seq<byte>>, offset: nat, blen: nat,
                                          script: seq<PreadReply>)
    requires file.Some?
    ensures var e := ReadStep(w, file, offset, blen, script);
      |e.rest| <= |script| && (e.r < 0 ==> |e.rest| < |script|)
  {
    if blen <= w.size && !IsHit(w, offset, blen) {
      hide Fill, Pread;
      OverlapShort(w, offset, blen);
      FillErrorUsesReply(file, offset + |Overlap(w, offset)|, [], w.size, script);
    }
  }

  /** A reply that is neither data nor, once `Read` has made a code of it, an interruption. */
  predicate IsFault(reply: PreadReply) {
    match reply
    case Data(_) => false
    case Failed(e) => Emsg(e) != -EINTR
    case Silent(e) => Emsg(e) != -EINTR
  }

  /** The code of the first fault to come; 0 if there is none. */
  function FirstFault(script: seq<PreadReply>): (code: int)
    ensures code <= 0 && code != -EINTR
  {
    if script == [] then 0
    else if IsFault(script[0]) then
      Emsg(if script[0].Failed? then script[0].errno else script[0].error)
    else FirstFault(script[1..])
  }

  lemma {:induction false} FillFault(file: Option<seq<byte>>, at: nat, data: seq<byte>, size: nat,
                                     script: seq<PreadReply>)
    requires |data| <= size && file.Some?
    ensures var f := Fill(file, at, data, size, script);
      if f.rc < 0 && f.rc != -EINTR then f.rc == FirstFault(script) else FirstFault(f.rest) == FirstFault(script)
    decreases size - |data|, |script|
  {
    if |data| < size {
      var a := Pread(file, at + |data|, size - |data|, script);
      if a.n < 0 && a.errno == EINTR {
        FillFault(file, at, data, size, a.rest);
      } else if a.n > 0 {
        FillFault(file, at, data + file.value[at + |data|..at + |data| + a.n], size, a.rest);
      }
    }
  }

  /** A read that fails for good reports the first fault to come; any other does not hide it. */
  lemma {:induction false} ReadReportsFault(w: Window, file: Option<seq<byte>>, offset: nat, blen: nat,
                                            script: seq<PreadReply>)
    requires file.Some?
    ensures var e := ReadStep(w, file, offset, blen, script);
      if e.r < 0 && e.r != -EINTR then e.r == FirstFault(script) else FirstFault(e.rest) == FirstFault(script)
  {
    if blen <= w.size && !IsHit(w, offset, blen) {
      hide Fill, Pread;
      OverlapShort(w, offset, blen);
      FillFault(file, offset + |Overlap(w, offset)|, [], w.size, script);
    }
  }

  /** Without a fault a read of any size can at worst be interrupted. */
  lemma {:induction false} NoFaultNoError(w: Window, file: Option<seq<byte>>, offset: nat, blen: nat,
                                          script: seq<PreadReply>)
    requires file.Some? && FirstFault(script) == 0
    ensures var e := ReadStep(w, file, offset, blen, script);
      FirstFault(e.rest) == 0 && (e.r >= 0 || e.r == -EINTR)
  {
    hide ReadStep, FirstFault;
    ReadReportsFault(w, file, offset, blen, script);
  }

  // ---------- whole runs ----------

  /** `granted`: memory is to be had; `works`: the library opens the file. */
  datatype Op = Open(path: Path, granted: bool, works: bool) | Read(offset: nat, blen: nat) | Close

  /** The open file, if any, and the window. */
  datatype Session = Session(path: Option<Path>, window: Window)

  function FileOf(files: map<Path, seq<byte>>, path: Option<Path>): Option<seq<byte>> {
    if path.Some? && path.value in files then Some(files[path.value]) else None
  }

  /** A read that took place: the file that was open, the request and what it returned. */
  datatype Event = Event(file: Option<seq<byte>>, size: nat, offset: nat, blen: nat, r: int, bytes: seq<byte>)

  function Apply(files: map<Path, seq<byte>>, s: Session, op: Op, script: seq<PreadReply>):
      (Session, seq<Event>, seq<PreadReply>)
  {
    match op
    case Open(path, granted, works) =>
      if s.path.Some? then (s, [], script)
      else (Session(if works && path in files then Some(path) else None, Opened(s.window, granted)), [], script)
    case Read(offset, blen) =>
      var file := FileOf(files, s.path);
      var e := ReadStep(s.window, file, offset, blen, script);
      (s.(window := e.window), [Event(file, s.window.size, offset, blen, e.r, e.bytes)], e.rest)
    case Close => (Session(None, CLOSED), [], script)
  }

  /** The reads of a run of opens, reads and closes of one file object. */
  function Run(files: map<Path, seq<byte>>, s: Session, ops: seq<Op>, script: seq<PreadReply>): seq<Event>
    decreases |ops|
  {
    if ops == [] then []
    else
      var (t, events, rest) := Apply(files, s, ops[0], script);
      events + Run(files, t, ops[1..], rest)
  }

  ghost predicate EventRight(e: Event) {
    RightRead(e.file, e.size, e.offset, e.blen, e.r, e.bytes)
  }

  /** Every read of every run delivers octets of the file that is open at that moment, and never an octet
      of a file opened before. */
  lemma {:induction false} RunRight(files: map<Path, seq<byte>>, s: Session, ops: seq<Op>, script: seq<PreadReply>)
    requires Sound(s.window, FileOf(files, s.path))
    ensures forall i :: 0 <= i < |Run(files, s, ops, script)| ==> EventRight(Run(files, s, ops, script)[i])
    decreases |ops|
  {
    if ops != [] {
      var (t, events, rest) := Apply(files, s, ops[0], script);
      if ops[0].Read? {
        ReadStepRight(s.window, FileOf(files, s.path), ops[0].offset, ops[0].blen, script);
      }
      hide ReadStep, RightRead;
      assert Sound(t.window, FileOf(files, t.path));
      RunRight(files, t, ops[1..], rest);
    }
  }

  /** A new object starts without file or buffer. */
  lemma {:induction false} RunOfNewObject(files: map<Path, seq<byte>>, ops: seq<Op>, script: seq<PreadReply>)
    ensures forall i :: 0 <= i < |Run(files, Session(None, CLOSED), ops, script)| ==>
      EventRight(Run(files, Session(None, CLOSED), ops, script)[i])
  {
    RunRight(files, Session(None, CLOSED), ops, script);
  }
}
