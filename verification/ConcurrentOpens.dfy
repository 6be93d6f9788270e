/** Threads that open, close and read through one file object. `Open` tests the handle and installs the new
    one outside the mutex and empties the window inside it; `Close` drops the handle outside it too. */
module ConcurrentOpens {
  import opened Bytes
  import opened HdfsReplies
  import opened ReadAhead
  import Reads = ConcurrentReads

  /** Where a thread is in `Open` or `Close`. */
  datatype Pc = Done | Tested(path: Path) | Emptied(path: Path) | HandleClosed

  /** `last` is the file whose handle was installed last; `served` are the reads that have returned, each
      with the file that was installed last at that moment. */
  datatype State = State(readers: Reads.State, fh: Option<Path>, last: Option<Path>, pcs: map<nat, Pc>,
                         served: seq<Event>)

  datatype Action =
    | Reader(act: Reads.Action)
    | Test(thread: nat, path: Path)
    | Empty(thread: nat, granted: bool)
    | Install(thread: nat, connected: bool, works: bool)
    | CloseHandle(thread: nat)
    | CloseBuffer(thread: nat)

  function PcOf(s: State, t: nat): Pc {
    if t in s.pcs then s.pcs[t] else Done
  }

  function Goto(s: State, t: nat, pc: Pc): State {
    s.(pcs := s.pcs[t := pc])
  }

  /** The read that returns with this action. */
  function Returned(files: map<Path, seq<byte>>, s: State, act: Reads.Action): seq<Event> {
    match (act, Reads.PcOf(s.readers, act.thread))
    case (Leave(_), Returning(offset, blen, r, bytes)) =>
      [Event(FileOf(files, s.last), s.readers.window.size, offset, blen, r, bytes)]
    case _ => []
  }

  /** The effect of an action; one that is not enabled changes nothing. Every `hdfsPread` uses the handle
      there is at that moment. */
  function Step(files: map<Path, seq<byte>>, s: State, act: Action): State {
    match act
    case Reader(a) =>
      s.(readers := Reads.Step(FileOf(files, s.fh), true, s.readers, a), served := s.served + Returned(files, s, a))
    case Test(t, path) =>
      if PcOf(s, t).Done? && s.fh.None? then Goto(s, t, Tested(path)) else s
    case Empty(t, granted) =>
      if PcOf(s, t).Tested? && s.readers.mutex.None? then
        Goto(s, t, Emptied(PcOf(s, t).path)).(readers := s.readers.(window := Opened(s.readers.window, granted)))
      else s
    case Install(t, connected, works) =>
      if !PcOf(s, t).Emptied? then s
      else if !connected then Goto(s, t, Done)
      else if works && PcOf(s, t).path in files then
        Goto(s, t, Done).(fh := Some(PcOf(s, t).path), last := Some(PcOf(s, t).path))
      else Goto(s, t, Done).(fh := None)
    case CloseHandle(t) =>
      if PcOf(s, t).Done? then Goto(s, t, HandleClosed).(fh := None) else s
    case CloseBuffer(t) =>
      if PcOf(s, t).HandleClosed? && s.readers.mutex.None? then
        Goto(s, t, Done).(readers := s.readers.(window := CLOSED))
      else s
  }

  function Steps(files: map<Path, seq<byte>>, s: State, acts: seq<Action>): State {
    if acts == [] then s else Step(files, Steps(files, s, acts[..|acts| - 1]), acts[|acts| - 1])
  }

  /** A new file object. */
  function Initial(script: seq<PreadReply>): State {
    State(Reads.Initial(CLOSED, script), None, None, map[], [])
  }

  // ---------- opens that do not overlap ----------

  predicate Opening(s: State, t: nat) {
    PcOf(s, t).Tested? || PcOf(s, t).Emptied?
  }

  ghost predicate OneOpener(s: State) {
    forall t, u :: Opening(s, t) && Opening(s, u) ==> t == u
  }

  /** At no moment of the run are two threads between the test of the handle and its installation. */
  ghost predicate OpensApart(files: map<Path, seq<byte>>, s: State, acts: seq<Action>) {
    OneOpener(Steps(files, s, acts))
    && (acts == [] || OpensApart(files, s, acts[..|acts| - 1]))
  }

  // ---------- the invariant ----------

  /** A reader inside the mutex has octets of `file` only, and none at all while a new handle is about to be
      installed over an empty window. */
  ghost predicate Inside(file: Option<seq<byte>>, w: Window, emptied: bool, pc: Reads.Pc) {
    match pc
    case Bypassing(offset, blen) => blen > w.size
    case Refilling(offset, blen, got) =>
      && |got| <= blen <= w.size && w.offset == offset + |got| && Holds(file, offset, got)
      && (emptied ==> got == [])
    case Returning(offset, blen, r, bytes) =>
      RightRead(file, w.size, offset, blen, r, bytes)
      && (emptied ==> bytes == [] && (r < 0 || (r == 0 && blen == 0)))
    case _ => false
  }

  /** The window and the readers, when `file` was installed last. */
  ghost predicate ReadersRight(file: Option<seq<byte>>, emptied: bool, s: Reads.State) {
    && Sound(s.window, file)
    && (emptied ==> s.window.data == [])
    && (s.mutex.Some? ==> Inside(file, s.window, emptied, Reads.PcOf(s, s.mutex.value)))
    && (forall t :: t in s.pcs && s.mutex != Some(t) ==> Reads.Outside(s.pcs[t]))
  }

  ghost predicate SomeEmptied(s: State) {
    exists t :: t in s.pcs && s.pcs[t].Emptied?
  }

  ghost predicate Inv(files: map<Path, seq<byte>>, s: State) {
    && (s.fh.Some? ==> s.fh == s.last)
    && (forall t :: Opening(s, t) ==> s.fh == None)
    && ReadersRight(FileOf(files, s.last), SomeEmptied(s), s.readers)
    && (forall i :: 0 <= i < |s.served| ==> EventRight(s.served[i]))
  }

  // ---------- one action of a reader ----------

  lemma {:induction false} BeginRight(file: Option<seq<byte>>, emptied: bool, s: Reads.State, t: nat, offset: nat,
                                      blen: nat)
    requires Sound(s.window, file) && (emptied ==> s.window.data == [])
    ensures var s' := Reads.Begin(s, t, offset, blen);
      && Sound(s'.window, file) && (emptied ==> s'.window.data == [])
      && Inside(file, s'.window, emptied, Reads.PcOf(s', t))
  {
    var w := s.window;
    if blen <= w.size {
      if IsHit(w, offset, blen) {
        HitRight(w, file, offset, blen);
      } else {
        OverlapShort(w, offset, blen);
        OverlapRight(w, file, offset);
      }
    }
  }

  /** The handle is that of the file installed last, or there is none. */
  lemma {:induction false} BypassKeeps(file: Option<seq<byte>>, handle: Option<seq<byte>>, emptied: bool,
                                       s: Reads.State, t: nat, offset: nat, blen: nat)
    requires Sound(s.window, file) && (emptied ==> s.window.data == []) && blen > s.window.size
    requires handle == None || (handle == file && !emptied)
    ensures var s' := Reads.Return(s, t, offset, blen, Bypass(s.window, handle, offset, blen, s.script));
      s'.window == s.window && Inside(file, s'.window, emptied, Reads.PcOf(s', t))
  {
    hide Sound;
  }

  lemma {:induction false} SoundHolds(file: Option<seq<byte>>, w: Window)
    requires Sound(w, file)
    ensures |w.data| <= w.size && Holds(file, w.offset, w.data)
  {
  }

  lemma {:induction false} NoHandleNoData(offset: nat, len: nat, script: seq<PreadReply>)
    ensures Pread(None, offset, len, script) == PreadAnswer(-1, EBADF, script)
  {
  }

  lemma {:induction false} WindowGrows(file: seq<byte>, w: Window, n: nat)
    requires Sound(w, Some(file)) && |w.data| + n <= w.size && w.offset + |w.data| + n <= |file|
    ensures Sound(w.(data := w.data + file[w.offset + |w.data|..w.offset + |w.data| + n]), Some(file))
  {
    if w.data == [] {
      assert w.data + file[w.offset..w.offset + n] == file[w.offset..w.offset + n];
    } else {
      SliceThenSlice(file, w.offset, w.offset + |w.data|, w.offset + |w.data| + n);
    }
  }

  lemma {:induction false} WindowEnds(file: seq<byte>, w: Window)
    requires Sound(w, Some(file)) && |w.data| < w.size
    requires Available(|file|, w.offset + |w.data|, w.size - |w.data|) == 0
    ensures |w.data| == Available(|file|, w.offset, w.size)
  {
  }

  /** A full buffer has all there is up to its size. */
  lemma {:induction false} FilledRight(file: Option<seq<byte>>, w: Window)
    requires Sound(w, file) && |w.data| == w.size
    ensures Holds(file, w.offset, w.data)
    ensures if file.Some? then |w.data| == Available(|file.value|, w.offset, w.size) else w.size == 0
  {
  }

  lemma {:induction false} AfterFillKeeps(file: Option<seq<byte>>, emptied: bool, size: nat, offset: nat, blen: nat,
                                          got: seq<byte>, f: Filling)
    requires |got| <= blen <= size && Holds(file, offset, got) && (emptied ==> got == [] && f.data == [])
    requires |f.data| <= size && Holds(file, offset + |got|, f.data) && f.rc <= 0
    requires f.rc == 0 && file.Some? ==> |f.data| == Available(|file.value|, offset + |got|, size)
    requires f.rc == 0 && file.None? ==> size == 0
    requires emptied && f.rc == 0 ==> size == 0
    ensures var e := AfterFill(size, offset + |got|, got, blen - |got|, f);
      && Sound(e.window, file) && (emptied ==> e.window.data == []) && e.window.size == size
      && Inside(file, e.window, emptied, Reads.Returning(offset, blen, e.r, e.bytes))
  {
    AfterFillRight(size, file, offset, blen, got, f);
  }

  /** The loop of a reader ends: with what the buffer has, or with an error. */
  lemma {:induction false} EndKeeps(file: Option<seq<byte>>, emptied: bool, s: Reads.State, t: nat, offset: nat,
                                    blen: nat, got: seq<byte>, f: Filling)
    requires Sound(s.window, file) && (emptied ==> s.window.data == []) && f.data == s.window.data && f.rc <= 0
    requires Inside(file, s.window, emptied, Reads.Refilling(offset, blen, got))
    requires f.rc == 0 && file.Some? ==> |f.data| == Available(|file.value|, s.window.offset, s.window.size)
    requires f.rc == 0 && (file.None? || emptied) ==> s.window.size == 0
    ensures var s' := Reads.Return(s, t, offset, blen,
        AfterFill(s.window.size, s.window.offset, got, blen - |got|, f));
      && Sound(s'.window, file) && (emptied ==> s'.window.data == [])
      && Inside(file, s'.window, emptied, Reads.PcOf(s', t))
  {
    hide Sound, AfterFill, RightRead, Holds;
    SoundHolds(file, s.window);
    AfterFillKeeps(file, emptied, s.window.size, offset, blen, got, f);
  }

  lemma {:induction false} RefillKeeps(file: Option<seq<byte>>, handle: Option<seq<byte>>, emptied: bool,
                                       s: Reads.State, t: nat, offset: nat, blen: nat, got: seq<byte>)
    requires Reads.PcOf(s, t) == Reads.Refilling(offset, blen, got)
    requires Sound(s.window, file) && (emptied ==> s.window.data == [])
    requires Inside(file, s.window, emptied, Reads.PcOf(s, t))
    requires handle == None || (handle == file && !emptied)
    ensures var s' := Reads.Refill(handle, s, t, offset, blen, got);
      && Sound(s'.window, file) && (emptied ==> s'.window.data == [])
      && Inside(file, s'.window, emptied, Reads.PcOf(s', t))
  {
    hide Pread, Sound, AfterFill, RightRead, Holds, Reads.Return;
    var w := s.window;
    SoundHolds(file, w);
    if |w.data| == w.size {
      FilledRight(file, w);
      EndKeeps(file, emptied, s, t, offset, blen, got, Filling(w.data, 0, s.script));
    } else {
      var at, len := w.offset + |w.data|, w.size - |w.data|;
      var a := Pread(handle, at, len, s.script);
      NoHandleNoData(at, len, s.script);
      if a.n < 0 && a.errno == EINTR {
      } else if a.n < 0 || (a.errno != 0 && a.n == 0) {
        EndKeeps(file, emptied, s, t, offset, blen, got, Filling(w.data, Emsg(a.errno), a.rest));
      } else if a.n == 0 {
        WindowEnds(file.value, w);
        EndKeeps(file, emptied, s, t, offset, blen, got, Filling(w.data, 0, a.rest));
      } else {
        WindowGrows(file.value, w, a.n);
      }
    }
  }

  /** No action of a reader breaks the invariant of the window, whether there is a handle or not. */
  lemma {:induction false} ReadKeeps(file: Option<seq<byte>>, handle: Option<seq<byte>>, emptied: bool,
                                     s: Reads.State, act: Reads.Action)
    requires ReadersRight(file, emptied, s)
    requires handle == None || (handle == file && !emptied)
    ensures ReadersRight(file, emptied, Reads.Step(handle, true, s, act))
  {
    hide Sound, Inside, Reads.Begin, Reads.Refill, Reads.Return, Bypass;
    var t := act.thread;
    if s.mutex.Some? {
      InsideIsInside(file, s.window, emptied, Reads.PcOf(s, s.mutex.value));
    }
    match (act, Reads.PcOf(s, t))
    case (Request(_, offset, blen), Idle) =>
    case (Enter(_), Waiting(offset, blen)) =>
      if s.mutex.None? {
        BeginRight(file, emptied, s.(mutex := Some(t)), t, offset, blen);
        Reads.BeginFrame(s.(mutex := Some(t)), t, offset, blen);
      }
    case (Call(_), Bypassing(offset, blen)) =>
      BypassingIsLarge(file, s.window, emptied, offset, blen);
      BypassKeeps(file, handle, emptied, s, t, offset, blen);
      ReturnFrame(s, t, offset, blen, Bypass(s.window, handle, offset, blen, s.script));
    case (Call(_), Refilling(offset, blen, got)) =>
      RefillKeeps(file, handle, emptied, s, t, offset, blen, got);
      Reads.RefillFrame(handle, s, t, offset, blen, got);
    case (Leave(_), Returning(offset, blen, r, bytes)) =>
    case _ =>
  }

  lemma {:induction false} InsideIsInside(file: Option<seq<byte>>, w: Window, emptied: bool, pc: Reads.Pc)
    requires Inside(file, w, emptied, pc)
    ensures !Reads.Outside(pc)
  {
  }

  lemma {:induction false} BypassingIsLarge(file: Option<seq<byte>>, w: Window, emptied: bool, offset: nat, blen: nat)
    requires Inside(file, w, emptied, Reads.Bypassing(offset, blen))
    ensures blen > w.size
  {
  }

  lemma {:induction false} ReturnFrame(s: Reads.State, t: nat, offset: nat, blen: nat, e: ReadEnd)
    ensures var s' := Reads.Return(s, t, offset, blen, e);
      s'.mutex == s.mutex && s'.pcs == s.pcs[t := Reads.PcOf(s', t)]
  {
  }

  /** What a reader returns is right for the file installed last. */
  lemma {:induction false} ReturnedRight(files: map<Path, seq<byte>>, s: State, act: Reads.Action)
    requires ReadersRight(FileOf(files, s.last), SomeEmptied(s), s.readers)
    ensures forall i :: 0 <= i < |Returned(files, s, act)| ==> EventRight(Returned(files, s, act)[i])
  {
    hide Sound, SomeEmptied, RightRead;
  }

  /** An empty window and readers without octets are right for every file. */
  lemma {:induction false} EmptiedIsRight(file: Option<seq<byte>>, other: Option<seq<byte>>, s: Reads.State)
    requires ReadersRight(file, true, s)
    ensures ReadersRight(other, false, s)
  {
  }

  // ---------- one action ----------

  lemma {:induction false} SameEmptied(s: State, t: nat, pc: Pc)
    requires !PcOf(s, t).Emptied? && !pc.Emptied?
    ensures SomeEmptied(Goto(s, t, pc)) == SomeEmptied(s)
  {
    var pcs := s.pcs[t := pc];
    if u :| u in s.pcs && s.pcs[u].Emptied? {
      assert u in pcs && pcs[u].Emptied?;
    }
  }

  lemma {:induction false} LastOpenerLeaves(s: State, t: nat, after: State)
    requires OneOpener(s) && Opening(s, t) && after.pcs == s.pcs[t := Done]
    ensures !SomeEmptied(after) && forall u :: !Opening(after, u)
  {
    forall u
      ensures !Opening(after, u)
    {
      assert u != t && Opening(after, u) ==> Opening(s, u);
    }
    if u :| u in after.pcs && after.pcs[u].Emptied? {
      assert Opening(after, u);
    }
  }

  /** A window without octets is right for every file while no reader is inside. */
  lemma {:induction false} EmptyWindowRight(file: Option<seq<byte>>, emptied: bool, any: bool, s: Reads.State,
                                            w: Window)
    requires ReadersRight(file, emptied, s) && s.mutex == None && w.data == []
    ensures ReadersRight(file, any, s.(window := w))
  {
  }

  lemma {:induction false} ReadActionKeepsInv(files: map<Path, seq<byte>>, s: State, act: Reads.Action)
    requires Inv(files, s)
    ensures Inv(files, Step(files, s, Reader(act)))
  {
    hide ReadersRight, EventRight, Reads.Step, FileOf, Returned;
    if SomeEmptied(s) {
      var t :| t in s.pcs && s.pcs[t].Emptied?;
      assert Opening(s, t);
    }
    NoFile(files);
    ReadKeeps(FileOf(files, s.last), FileOf(files, s.fh), SomeEmptied(s), s.readers, act);
    ReturnedRight(files, s, act);
    var after := Step(files, s, Reader(act));
    assert after.pcs == s.pcs && SomeEmptied(after) == SomeEmptied(s);
    assert forall t :: Opening(after, t) == Opening(s, t);
  }

  lemma {:induction false} NoFile(files: map<Path, seq<byte>>)
    ensures FileOf(files, None) == None
  {
  }

  lemma {:induction false} OpenKeepsInv(files: map<Path, seq<byte>>, s: State, act: Action)
    requires Inv(files, s) && OneOpener(s) && (act.Test? || act.Empty? || act.Install?)
    ensures Inv(files, Step(files, s, act))
  {
    hide ReadersRight, EventRight, FileOf, SomeEmptied, OneOpener;
    var t := act.thread;
    var after := Step(files, s, act);
    if after != s {
      var pc := PcOf(after, t);
      if act.Test? {
        SameEmptied(s, t, pc);
      } else if act.Empty? {
        EmptyWindowRight(FileOf(files, s.last), SomeEmptied(s), SomeEmptied(after), s.readers, after.readers.window);
        assert Opening(s, t);
      } else {
        assert Opening(s, t);
        IsEmptied(s, t);
        LastOpenerLeaves(s, t, after);
        EmptiedIsRight(FileOf(files, s.last), FileOf(files, after.last), s.readers);
      }
    }
  }

  lemma {:induction false} IsEmptied(s: State, t: nat)
    requires PcOf(s, t).Emptied?
    ensures SomeEmptied(s)
  {
  }

  lemma {:induction false} SamePcs(a: State, b: State)
    requires a.pcs == b.pcs
    ensures SomeEmptied(a) == SomeEmptied(b) && forall t :: PcOf(a, t) == PcOf(b, t)
  {
  }

  lemma {:induction false} CloseKeepsInv(files: map<Path, seq<byte>>, s: State, act: Action)
    requires Inv(files, s) && (act.CloseHandle? || act.CloseBuffer?)
    ensures Inv(files, Step(files, s, act))
  {
    hide ReadersRight, EventRight, FileOf, SomeEmptied;
    var t := act.thread;
    var after := Step(files, s, act);
    if after != s {
      var pc := PcOf(after, t);
      SameEmptied(s, t, pc);
      SamePcs(Goto(s, t, pc), after);
      assert forall u :: Opening(after, u) ==> u != t && Opening(s, u);
      if act.CloseBuffer? {
        EmptyWindowRight(FileOf(files, s.last), SomeEmptied(s), SomeEmptied(s), s.readers, CLOSED);
      }
    }
  }

  /** No action breaks the invariant while at most one thread is inside `Open`. */
  lemma {:induction false} StepKeepsInv(files: map<Path, seq<byte>>, s: State, act: Action)
    requires Inv(files, s) && OneOpener(s)
    ensures Inv(files, Step(files, s, act))
  {
    hide Inv, OneOpener, Step;
    match act
    case Reader(a) => ReadActionKeepsInv(files, s, a);
    case Test(_, _) => OpenKeepsInv(files, s, act);
    case Empty(_, _) => OpenKeepsInv(files, s, act);
    case Install(_, _, _) => OpenKeepsInv(files, s, act);
    case CloseHandle(_) => CloseKeepsInv(files, s, act);
    case CloseBuffer(_) => CloseKeepsInv(files, s, act);
  }

  lemma {:induction false} InitialInv(files: map<Path, seq<byte>>, script: seq<PreadReply>)
    ensures Inv(files, Initial(script))
  {
  }

  lemma {:induction false} StepsKeepInv(files: map<Path, seq<byte>>, script: seq<PreadReply>, acts: seq<Action>)
    requires OpensApart(files, Initial(script), acts)
    ensures Inv(files, Steps(files, Initial(script), acts))
    decreases |acts|
  {
    hide Inv, Step, OneOpener;
    if acts == [] {
      InitialInv(files, script);
    } else {
      var n := |acts| - 1;
      StepsKeepInv(files, script, acts[..n]);
      ApartBefore(files, Initial(script), acts[..n]);
      StepKeepsInv(files, Steps(files, Initial(script), acts[..n]), acts[n]);
    }
  }

  lemma {:induction false} ApartBefore(files: map<Path, seq<byte>>, s: State, acts: seq<Action>)
    requires OpensApart(files, s, acts)
    ensures OneOpener(Steps(files, s, acts))
  {
    hide OneOpener, Steps;
  }

  /** However any number of threads read, open and close from a new object on, and whatever the library
      answers: if no two opens overlap, every read that has returned is right for the file that was installed
      last, and no octet of an earlier one is ever served. */
  lemma {:induction false} NoStaleOctet(files: map<Path, seq<byte>>, script: seq<PreadReply>, acts: seq<Action>)
    requires OpensApart(files, Initial(script), acts)
    ensures var s := Steps(files, Initial(script), acts);
      && (forall i :: 0 <= i < |s.served| ==> EventRight(s.served[i]))
      && Sound(s.readers.window, FileOf(files, s.last))
  {
    hide Steps, OpensApart, EventRight, Sound, FileOf, SomeEmptied, Inside;
    StepsKeepInv(files, script, acts);
  }

  // ---------- opens that overlap ----------

  const A: Path := "/a"
  const B: Path := "/b"
  const FILES: map<Path, seq<byte>> := map[A := [0x41], B := [0x42]]

  /** Both opens test the handle and empty the window before either installs its own; a read in between
      fills the window from the first file, and the second open leaves it there. */
  const RACE: seq<Action> := [
    Test(0, A), Test(1, B), Empty(0, true), Empty(1, true), Install(0, true, true),
    Reader(Reads.Request(2, 0, 1)), Reader(Reads.Enter(2)), Reader(Reads.Call(2)), Reader(Reads.Call(2)),
    Reader(Reads.Leave(2)), Install(1, true, true),
    Reader(Reads.Request(2, 0, 1)), Reader(Reads.Enter(2)), Reader(Reads.Leave(2))]

  function Nth(n: nat): State
    requires n <= |RACE|
  {
    Steps(FILES, Initial([]), RACE[..n])
  }

  lemma {:induction false} NthStep(n: nat)
    requires n < |RACE|
    ensures Nth(n + 1) == Step(FILES, Nth(n), RACE[n])
  {
    hide Step;
    assert RACE[..n + 1][..n] == RACE[..n];
  }

  lemma {:induction false} FilesAre()
    ensures A != B && A in FILES && B in FILES
    ensures FileOf(FILES, Some(A)) == Some([0x41]) && FileOf(FILES, Some(B)) == Some([0x42])
  {
    assert A[1] != B[1];
  }

  /** After the first five actions the first file is open and the second open is one action from its end. */
  ghost predicate SecondPending(s: State) {
    s.fh == s.last == Some(A) && PcOf(s, 1) == Emptied(B) && s.served == []
  }

  lemma {:induction false} NthZero()
    ensures Nth(0) == Initial([])
  {
    assert RACE[..0] == [];
  }

  lemma {:induction false} BothOpen()
    ensures Opening(Nth(4), 0) && Opening(Nth(4), 1)
    ensures SecondPending(Nth(5)) && Quiet(Nth(5).readers, [])
  {
    FilesAre();
    hide Nth, Reads.Step, Returned;
    NthZero();
    NthStep(0);
    NthStep(1);
    NthStep(2);
    NthStep(3);
    NthStep(4);
  }

  /** Nobody reads, the library delivers everything, and the window holds `data` from the start. */
  ghost predicate Quiet(r: Reads.State, data: seq<byte>) {
    r.window == Window(READBUF_SIZE, 0, data) && r.mutex == None && r.script == [] && Reads.PcOf(r, 2) == Reads.Idle
  }

  function After(r: Reads.State, act: Reads.Action): Reads.State {
    Reads.Step(Some([0x41]), true, r, act)
  }

  function Entered(r: Reads.State): Reads.State {
    After(After(r, Reads.Request(2, 0, 1)), Reads.Enter(2))
  }

  lemma {:induction false} FirstEnters(r: Reads.State)
    requires Quiet(r, [])
    ensures var e := Entered(r);
      e.window == Window(READBUF_SIZE, 0, []) && e.script == [] && Reads.PcOf(e, 2) == Reads.Refilling(0, 1, [])
  {
  }

  lemma {:induction false} FirstFetches(e: Reads.State)
    requires e.window == Window(READBUF_SIZE, 0, []) && e.script == []
    requires Reads.PcOf(e, 2) == Reads.Refilling(0, 1, [])
    ensures var f := After(e, Reads.Call(2));
      f.window == Window(READBUF_SIZE, 0, [0x41]) && f.script == [] && Reads.PcOf(f, 2) == Reads.Refilling(0, 1, [])
  {
    assert [] + [0x41 as byte][0..1] == [0x41];
  }

  lemma {:induction false} FirstEnds(f: Reads.State)
    requires f.window == Window(READBUF_SIZE, 0, [0x41]) && f.script == []
    requires Reads.PcOf(f, 2) == Reads.Refilling(0, 1, [])
    ensures var g := After(f, Reads.Call(2));
      && g.window == f.window && g.script == [] && Reads.PcOf(g, 2) == Reads.Returning(0, 1, 1, [0x41])
      && Quiet(After(g, Reads.Leave(2)), [0x41])
  {
    assert [] + [0x41 as byte][..1] == [0x41];
  }

  lemma {:induction false} SecondHits(r: Reads.State)
    requires Quiet(r, [0x41])
    ensures var e := Reads.Step(Some([0x42]), true, Reads.Step(Some([0x42]), true, r, Reads.Request(2, 0, 1)),
        Reads.Enter(2));
      e.window == r.window && Reads.PcOf(e, 2) == Reads.Returning(0, 1, 1, [0x41])
  {
    assert [0x41 as byte][0..1] == [0x41];
  }

  lemma {:induction false} FirstRead()
    ensures Nth(10).fh == Some(A) && PcOf(Nth(10), 1) == Emptied(B) && |Nth(10).served| == 1
    ensures Quiet(Nth(10).readers, [0x41])
  {
    BothOpen();
    FilesAre();
    hide Nth, Reads.Step, FILES;
    NthStep(5);
    NthStep(6);
    NthStep(7);
    NthStep(8);
    NthStep(9);
    FirstEnters(Nth(5).readers);
    FirstFetches(Nth(7).readers);
    FirstEnds(Nth(8).readers);
  }

  lemma {:induction false} SecondRead()
    ensures |Nth(14).served| == 2 && Nth(14).served[1] == Event(Some([0x42]), READBUF_SIZE, 0, 1, 1, [0x41])
  {
    FirstRead();
    FilesAre();
    hide Nth, Reads.Step, FILES;
    NthStep(10);
    NthStep(11);
    NthStep(12);
    NthStep(13);
    SecondHits(Nth(11).readers);
  }

  lemma {:induction false} WrongOctet()
    ensures !EventRight(Event(Some([0x42]), READBUF_SIZE, 0, 1, 1, [0x41]))
  {
    assert [0x42 as byte][0..1] == [0x42];
  }

  lemma {:induction false} ApartThroughout(files: map<Path, seq<byte>>, s: State, acts: seq<Action>, n: nat)
    requires OpensApart(files, s, acts) && n <= |acts|
    ensures OneOpener(Steps(files, s, acts[..n]))
    decreases |acts|
  {
    hide OneOpener, Steps;
    if n == |acts| {
      assert acts[..n] == acts;
    } else {
      ApartThroughout(files, s, acts[..|acts| - 1], n);
      assert acts[..|acts| - 1][..n] == acts[..n];
    }
  }

  /** Without that condition a read can be given the octet of a file that is no longer open. */
  lemma {:induction false} OverlapServesStale()
    ensures !OpensApart(FILES, Initial([]), RACE)
    ensures var s := Steps(FILES, Initial([]), RACE);
      && |s.served| == 2 && s.served[1] == Event(Some([0x42]), READBUF_SIZE, 0, 1, 1, [0x41])
      && !EventRight(s.served[1])
  {
    BothOpen();
    SecondRead();
    WrongOctet();
    hide Steps, EventRight, OpensApart, Opening, FILES;
    if OpensApart(FILES, Initial([]), RACE) {
      ApartThroughout(FILES, Initial([]), RACE, 4);
      assert false;
    }
    assert RACE[..14] == RACE;
  }
}
