/** Threads that share one file object: `Read` holds readbuf_mutex from beginning to end. One action is
    at most one `hdfsPread`. */
module ConcurrentReads {
  import opened Bytes
  import opened HdfsReplies
  import opened ReadAhead

  /** Where a thread is in `Read`. */
  datatype Pc =
    | Idle
    | Waiting(offset: nat, blen: nat)
    | Bypassing(offset: nat, blen: nat)
    | Refilling(offset: nat, blen: nat, got: seq<byte>)
    | Returning(offset: nat, blen: nat, r: int, bytes: seq<byte>)

  /** A read that has returned to its thread. */
  datatype Entry = Entry(thread: nat, offset: nat, blen: nat, r: int, bytes: seq<byte>)

  datatype State = State(window: Window, mutex: Option<nat>, pcs: map<nat, Pc>, script: seq<PreadReply>,
                         log: seq<Entry>)

  datatype Action = Request(thread: nat, offset: nat, blen: nat)
                  | Enter(thread: nat) | Call(thread: nat) | Leave(thread: nat)

  function PcOf(s: State, t: nat): Pc {
    if t in s.pcs then s.pcs[t] else Idle
  }

  function Goto(s: State, t: nat, pc: Pc): State {
    s.(pcs := s.pcs[t := pc])
  }

  function Return(s: State, t: nat, offset: nat, blen: nat, e: ReadEnd): State {
    Goto(s, t, Returning(offset, blen, e.r, e.bytes)).(window := e.window, script := e.rest)
  }

  /** The mutex has been taken: choose the branch of `Read`. */
  function Begin(s: State, t: nat, offset: nat, blen: nat): State {
    var w := s.window;
    if blen > w.size then Goto(s, t, Bypassing(offset, blen))
    else if IsHit(w, offset, blen) then
      Goto(s, t, Returning(offset, blen, blen, w.data[offset - w.offset..offset - w.offset + blen]))
    else
      var got := Overlap(w, offset);
      Goto(s, t, Refilling(offset, blen, got)).(window := Window(w.size, offset + |got|, []))
  }

  /** One round of the refill loop, or its end. The file position is the thread's own; the buffer is shared. */
  function Refill(file: Option<seq<byte>>, s: State, t: nat, offset: nat, blen: nat, got: seq<byte>): State {
    var w := s.window;
    var at := offset + |got|;
    var wanted := if |got| <= blen then blen - |got| else 0;
    if |w.data| >= w.size then Return(s, t, offset, blen, AfterFill(w.size, w.offset, got, wanted,
        Filling(w.data, 0, s.script)))
    else
      var a := Pread(file, at + |w.data|, w.size - |w.data|, s.script);
      if a.n < 0 && a.errno == EINTR then s.(script := a.rest)
      else if a.n < 0 || (a.errno != 0 && a.n == 0) then
        Return(s, t, offset, blen, AfterFill(w.size, w.offset, got, wanted, Filling(w.data, Emsg(a.errno), a.rest)))
      else if a.n == 0 then
        Return(s, t, offset, blen, AfterFill(w.size, w.offset, got, wanted, Filling(w.data, 0, a.rest)))
      else
        s.(window := w.(data := w.data + file.value[at + |w.data|..at + |w.data| + a.n]), script := a.rest)
  }

  /** The effect of an action; one that is not enabled changes nothing. Without `locking`, `Enter` does
      not wait for the mutex. */
  function Step(file: Option<seq<byte>>, locking: bool, s: State, act: Action): State {
    var t := act.thread;
    match (act, PcOf(s, t))
    case (Request(_, offset, blen), Idle) => Goto(s, t, Waiting(offset, blen))
    case (Enter(_), Waiting(offset, blen)) =>
      if locking && s.mutex.Some? then s else Begin(s.(mutex := Some(t)), t, offset, blen)
    case (Call(_), Bypassing(offset, blen)) =>
      Return(s, t, offset, blen, Bypass(s.window, file, offset, blen, s.script))
    case (Call(_), Refilling(offset, blen, got)) => Refill(file, s, t, offset, blen, got)
    case (Leave(_), Returning(offset, blen, r, bytes)) =>
      Goto(s, t, Idle).(mutex := None, log := s.log + [Entry(t, offset, blen, r, bytes)])
    case _ => s
  }

  function Steps(file: Option<seq<byte>>, locking: bool, s: State, acts: seq<Action>): State {
    if acts == [] then s
    else Step(file, locking, Steps(file, locking, s, acts[..|acts| - 1]), acts[|acts| - 1])
  }

  function Initial(w: Window, script: seq<PreadReply>): State {
    State(w, None, map[], script, [])
  }

  // ---------- the same reads one after the other ----------

  datatype Alone = Alone(window: Window, script: seq<PreadReply>)

  /** The window and the replies left after a lone reader has made the reads of `log` in that order. */
  function Replay(file: Option<seq<byte>>, start: Alone, log: seq<Entry>): Alone {
    if log == [] then start
    else
      var before := Replay(file, start, log[..|log| - 1]);
      var last := log[|log| - 1];
      var e := ReadStep(before.window, file, last.offset, last.blen, before.script);
      Alone(e.window, e.rest)
  }

  /** Every read of `log` returned what it would have returned to the lone reader. */
  ghost predicate AsIfAlone(file: Option<seq<byte>>, start: Alone, log: seq<Entry>) {
    log == [] ||
    (&& AsIfAlone(file, start, log[..|log| - 1])
     && var before := Replay(file, start, log[..|log| - 1]);
        var last := log[|log| - 1];
        var e := ReadStep(before.window, file, last.offset, last.blen, before.script);
        last.r == e.r && last.bytes == e.bytes)
  }

  predicate Outside(pc: Pc) {
    pc.Idle? || pc.Waiting?
  }

  /** The thread inside, which entered with `before`, will end as the lone reader does. */
  ghost predicate OnCourse(file: Option<seq<byte>>, before: Alone, w: Window, script: seq<PreadReply>, pc: Pc) {
    match pc
    case Bypassing(offset, blen) => blen > w.size && w == before.window && script == before.script
    case Refilling(offset, blen, got) =>
      && |got| <= blen && |w.data| <= w.size && w.offset == offset + |got|
      && ReadStep(before.window, file, offset, blen, before.script)
         == AfterFill(w.size, w.offset, got, blen - |got|, Fill(file, w.offset, w.data, w.size, script))
    case Returning(offset, blen, r, bytes) =>
      ReadStep(before.window, file, offset, blen, before.script) == ReadEnd(w, r, bytes, script)
    case _ => false
  }

  ghost predicate Inv(file: Option<seq<byte>>, start: Alone, s: State) {
    var before := Replay(file, start, s.log);
    && AsIfAlone(file, start, s.log)
    && (s.mutex.None? ==> s.window == before.window && s.script == before.script)
    && (s.mutex.Some? ==> OnCourse(file, before, s.window, s.script, PcOf(s, s.mutex.value)))
    && (forall t :: t in s.pcs && s.mutex != Some(t) ==> Outside(s.pcs[t]))
  }

  lemma {:induction false} BeginOnCourse(file: Option<seq<byte>>, before: Alone, s: State, t: nat, offset: nat,
      blen: nat)
    requires s.window == before.window && s.script == before.script
    ensures var s' := Begin(s, t, offset, blen);
      OnCourse(file, before, s'.window, s'.script, PcOf(s', t))
  {
    hide Pread, Fill, Bypass;
    if blen <= s.window.size && !IsHit(s.window, offset, blen) {
      OverlapShort(s.window, offset, blen);
    }
  }

  lemma {:induction false} BypassOnCourse(file: Option<seq<byte>>, before: Alone, s: State, t: nat,
      offset: nat, blen: nat)
    requires OnCourse(file, before, s.window, s.script, Bypassing(offset, blen))
    ensures var s' := Return(s, t, offset, blen, Bypass(s.window, file, offset, blen, s.script));
      OnCourse(file, before, s'.window, s'.script, PcOf(s', t))
  {
    hide Pread, Fill;
  }

  lemma {:induction false} RefillOnCourse(file: Option<seq<byte>>, before: Alone, s: State, t: nat,
                                          offset: nat, blen: nat, got: seq<byte>)
    requires PcOf(s, t) == Refilling(offset, blen, got)
    requires OnCourse(file, before, s.window, s.script, PcOf(s, t))
    ensures var s' := Refill(file, s, t, offset, blen, got);
      OnCourse(file, before, s'.window, s'.script, PcOf(s', t))
  {
    hide Pread, ReadStep, AfterFill;
    FillSizeKept(s.window.size, s.window.offset, got, blen - |got|);
  }

  lemma {:induction false} FillSizeKept(size: nat, at: nat, got: seq<byte>, wanted: nat)
    ensures forall f :: AfterFill(size, at, got, wanted, f).window == Window(size, at, f.data)
    ensures forall f :: AfterFill(size, at, got, wanted, f).rest == f.rest
  {
  }

  lemma {:induction false} LeaveMatches(file: Option<seq<byte>>, start: Alone, log: seq<Entry>, last: Entry,
                                        w: Window, script: seq<PreadReply>)
    requires AsIfAlone(file, start, log)
    requires var before := Replay(file, start, log);
      ReadStep(before.window, file, last.offset, last.blen, before.script) == ReadEnd(w, last.r, last.bytes, script)
    ensures AsIfAlone(file, start, log + [last]) && Replay(file, start, log + [last]) == Alone(w, script)
  {
    hide ReadStep;
    var more := log + [last];
    assert more[..|more| - 1] == log;
  }

  /** No action of any thread breaks the invariant. */
  lemma {:induction false} StepKeepsInv(file: Option<seq<byte>>, start: Alone, s: State, act: Action)
    requires Inv(file, start, s)
    ensures Inv(file, start, Step(file, true, s, act))
  {
    hide ReadStep, Replay, AsIfAlone, OnCourse, Begin, Refill, Bypass;
    var t := act.thread;
    var before := Replay(file, start, s.log);
    if s.mutex.Some? {
      InsideIsInside(file, before, s.window, s.script, PcOf(s, s.mutex.value));
    }
    match (act, PcOf(s, t))
    case (Request(_, offset, blen), Idle) =>
    case (Enter(_), Waiting(offset, blen)) =>
      if s.mutex.None? {
        BeginOnCourse(file, before, s.(mutex := Some(t)), t, offset, blen);
        BeginFrame(s.(mutex := Some(t)), t, offset, blen);
      }
    case (Call(_), Bypassing(offset, blen)) =>
      BypassOnCourse(file, before, s, t, offset, blen);
    case (Call(_), Refilling(offset, blen, got)) =>
      RefillOnCourse(file, before, s, t, offset, blen, got);
      RefillFrame(file, s, t, offset, blen, got);
    case (Leave(_), Returning(offset, blen, r, bytes)) =>
      ReturningOnCourse(file, before, s.window, s.script, offset, blen, r, bytes);
      LeaveMatches(file, start, s.log, Entry(t, offset, blen, r, bytes), s.window, s.script);
    case _ =>
  }

  lemma {:induction false} InsideIsInside(file: Option<seq<byte>>, before: Alone, w: Window,
      script: seq<PreadReply>, pc: Pc)
    requires OnCourse(file, before, w, script, pc)
    ensures !Outside(pc)
  {
  }

  lemma {:induction false} ReturningOnCourse(file: Option<seq<byte>>, before: Alone, w: Window, script: seq<PreadReply>,
                                             offset: nat, blen: nat, r: int, bytes: seq<byte>)
    requires OnCourse(file, before, w, script, Returning(offset, blen, r, bytes))
    ensures ReadStep(before.window, file, offset, blen, before.script) == ReadEnd(w, r, bytes, script)
  {
    hide ReadStep;
  }

  // What `Begin` and `Refill` leave alone.
  lemma {:induction false} BeginFrame(s: State, t: nat, offset: nat, blen: nat)
    ensures var s' := Begin(s, t, offset, blen);
      s'.mutex == s.mutex && s'.log == s.log && s'.pcs == s.pcs[t := PcOf(s', t)]
  {
  }

  lemma {:induction false} RefillFrame(file: Option<seq<byte>>, s: State, t: nat, offset: nat, blen: nat,
      got: seq<byte>)
    requires t in s.pcs
    ensures var s' := Refill(file, s, t, offset, blen, got);
      s'.mutex == s.mutex && s'.log == s.log && s'.pcs == s.pcs[t := PcOf(s', t)]
  {
    hide Pread, AfterFill;
    var s' := Refill(file, s, t, offset, blen, got);
    assert s'.pcs == s.pcs || s'.pcs == s.pcs[t := PcOf(s', t)];
  }

  lemma {:induction false} StepsKeepInv(file: Option<seq<byte>>, start: Alone, acts: seq<Action>)
    ensures Inv(file, start, Steps(file, true, Initial(start.window, start.script), acts))
    decreases |acts|
  {
    hide Step, ReadStep;
    if acts != [] {
      var n := |acts| - 1;
      StepsKeepInv(file, start, acts[..n]);
      StepKeepsInv(file, start, Steps(file, true, Initial(start.window, start.script), acts[..n]), acts[n]);
    }
  }

  // ---------- what the threads get ----------

  ghost predicate EntryRight(file: Option<seq<byte>>, size: nat, e: Entry) {
    RightRead(file, size, e.offset, e.blen, e.r, e.bytes)
  }

  lemma {:induction false} ReplayRight(file: Option<seq<byte>>, start: Alone, log: seq<Entry>)
    requires Sound(start.window, file) && AsIfAlone(file, start, log)
    ensures Sound(Replay(file, start, log).window, file)
    ensures Replay(file, start, log).window.size == start.window.size
    ensures forall i :: 0 <= i < |log| ==> EntryRight(file, start.window.size, log[i])
    decreases |log|
  {
    hide ReadStep, RightRead, Sound;
    if log != [] {
      var n := |log| - 1;
      ReplayRight(file, start, log[..n]);
      var before := Replay(file, start, log[..n]);
      ReadStepRight(before.window, file, log[n].offset, log[n].blen, before.script);
    }
  }

  /** However any number of threads interleave: every read that has returned gave its thread what a lone
      reader making the same reads in the order of the mutex gets, and that is what the file holds;
      whenever the mutex is free the window is sound and the one the lone reader would have. */
  lemma {:induction false} ThreadsReadAlone(file: Option<seq<byte>>, w: Window, script: seq<PreadReply>,
      acts: seq<Action>)
    requires Sound(w, file)
    ensures var s := Steps(file, true, Initial(w, script), acts);
      && AsIfAlone(file, Alone(w, script), s.log)
      && (forall i :: 0 <= i < |s.log| ==> EntryRight(file, w.size, s.log[i]))
      && (s.mutex.None? ==> Sound(s.window, file) && s.window == Replay(file, Alone(w, script), s.log).window)
  {
    hide Steps, Replay, AsIfAlone, EntryRight, Sound, OnCourse;
    StepsKeepInv(file, Alone(w, script), acts);
    ReplayRight(file, Alone(w, script), Steps(file, true, Initial(w, script), acts).log);
  }

  // ---------- every read can end ----------

  lemma {:induction false} StepsFirst(file: Option<seq<byte>>, s: State, act: Action, acts: seq<Action>)
    ensures Steps(file, true, s, [act] + acts) == Steps(file, true, Step(file, true, s, act), acts)
    decreases |acts|
  {
    hide Step;
    var all := [act] + acts;
    if acts == [] {
      assert all[..0] == [];
      assert Steps(file, true, s, []) == s;
    } else {
      assert all[..|all| - 1] == [act] + acts[..|acts| - 1];
      StepsFirst(file, s, act, acts[..|acts| - 1]);
    }
  }

  /** The thread inside has read everything and only has to leave. */
  lemma {:induction false} LeaveEnds(file: Option<seq<byte>>, s: State, t: nat)
    requires PcOf(s, t).Returning?
    ensures var pc := PcOf(s, t);
      var s' := Steps(file, true, s, [Leave(t)]);
      s'.mutex == None && s'.log == s.log + [Entry(t, pc.offset, pc.blen, pc.r, pc.bytes)]
  {
    assert [Leave(t)][..0] == [];
    assert Steps(file, true, s, []) == s;
  }

  /** Between two states the thread inside has got its result, or the buffer holds more, or as much after fewer
      replies to come. */
  ghost predicate Progress(s: State, after: State, t: nat)
    requires !Outside(PcOf(s, t))
  {
    var pc, now := PcOf(s, t), PcOf(after, t);
    && after.mutex == s.mutex && after.log == s.log
    && (now.Returning? ==> now.offset == pc.offset && now.blen == pc.blen)
    && (!now.Returning? ==>
          && now == pc && after.window.size == s.window.size && |after.window.data| <= s.window.size
          && |after.window.data| >= |s.window.data|
          && (|after.window.data| == |s.window.data| ==> |after.script| < |s.script|))
  }

  /** One more call of a thread in the refill loop returns, or brings it nearer to that. */
  lemma {:induction false} RefillProgress(file: Option<seq<byte>>, s: State, t: nat, offset: nat, blen: nat,
                                          got: seq<byte>)
    requires PcOf(s, t) == Refilling(offset, blen, got) && |s.window.data| <= s.window.size
    ensures Progress(s, Step(file, true, s, Call(t)), t)
  {
    hide Pread, AfterFill;
  }

  /** Whatever the library answers, a thread inside can go on until it has its result and the mutex is free:
      an entry for its request is added to the log, and no other. */
  lemma {:induction false} HolderEnds(file: Option<seq<byte>>, start: Alone, s: State, t: nat)
      returns (acts: seq<Action>)
    requires Inv(file, start, s) && s.mutex == Some(t)
    ensures var s', pc := Steps(file, true, s, acts), PcOf(s, t);
      && s'.mutex == None && |s'.log| == |s.log| + 1 && s'.log[..|s.log|] == s.log
      && s'.log[|s.log|].thread == t && s'.log[|s.log|].offset == pc.offset && s'.log[|s.log|].blen == pc.blen
    decreases if PcOf(s, t).Returning? then 0 else 1, s.window.size - |s.window.data|, |s.script|
  {
    hide Inv, AsIfAlone, Replay, ReadStep;
    var pc := PcOf(s, t);
    InsideCases(file, start, s, t);
    if pc.Returning? {
      LeaveEnds(file, s, t);
      acts := [Leave(t)];
    } else {
      var next := Step(file, true, s, Call(t));
      CallProgress(file, s, t);
      StepKeepsInv(file, start, s, Call(t));
      var rest := HolderEnds(file, start, next, t);
      acts := [Call(t)] + rest;
      StepsFirst(file, s, Call(t), rest);
    }
  }

  lemma {:induction false} InsideCases(file: Option<seq<byte>>, start: Alone, s: State, t: nat)
    requires Inv(file, start, s) && s.mutex == Some(t)
    ensures PcOf(s, t).Returning? || PcOf(s, t).Bypassing? || PcOf(s, t).Refilling?
    ensures PcOf(s, t).Refilling? ==> |s.window.data| <= s.window.size
  {
    hide AsIfAlone, Replay, ReadStep, AfterFill, Fill;
  }

  lemma {:induction false} CallProgress(file: Option<seq<byte>>, s: State, t: nat)
    requires PcOf(s, t).Bypassing? || (PcOf(s, t).Refilling? && |s.window.data| <= s.window.size)
    ensures Progress(s, Step(file, true, s, Call(t)), t)
  {
    if PcOf(s, t).Refilling? {
      RefillProgress(file, s, t, PcOf(s, t).offset, PcOf(s, t).blen, PcOf(s, t).got);
    } else {
      hide Bypass;
    }
  }

  /** From every state that threads can reach there is a way on in which the mutex becomes free; and from a free
      mutex on, any request of any idle thread can be served, with the result of a lone reader. */
  lemma {:induction false} ReadCanEnd(file: Option<seq<byte>>, start: Alone, s: State, t: nat, offset: nat, blen: nat)
      returns (acts: seq<Action>)
    requires Inv(file, start, s) && s.mutex == None && PcOf(s, t).Idle?
    ensures var s' := Steps(file, true, s, acts);
      var e := ReadStep(s.window, file, offset, blen, s.script);
      s'.mutex == None && s'.log == s.log + [Entry(t, offset, blen, e.r, e.bytes)]
  {
    hide ReadStep, AsIfAlone, Replay, Begin, OnCourse;
    var s1 := Step(file, true, s, Request(t, offset, blen));
    var s2 := Step(file, true, s1, Enter(t));
    StepKeepsInv(file, start, s, Request(t, offset, blen));
    StepKeepsInv(file, start, s1, Enter(t));
    BeginRequest(s1.(mutex := Some(t)), t, offset, blen);
    BeginFrame(s1.(mutex := Some(t)), t, offset, blen);
    var rest := HolderEnds(file, start, s2, t);
    acts := [Request(t, offset, blen)] + ([Enter(t)] + rest);
    StepsFirst(file, s, Request(t, offset, blen), [Enter(t)] + rest);
    StepsFirst(file, s1, Enter(t), rest);
    StepsInv(file, start, s2, rest);
    var s' := Steps(file, true, s2, rest);
    LastEntry(file, start, s, s'.log);
  }

  lemma {:induction false} BeginRequest(s: State, t: nat, offset: nat, blen: nat)
    ensures var pc := PcOf(Begin(s, t, offset, blen), t);
      (pc.Returning? || pc.Bypassing? || pc.Refilling?) && pc.offset == offset && pc.blen == blen
  {
  }

  lemma {:induction false} StepsInv(file: Option<seq<byte>>, start: Alone, s: State, acts: seq<Action>)
    requires Inv(file, start, s)
    ensures Inv(file, start, Steps(file, true, s, acts))
    decreases |acts|
  {
    hide Step, Inv;
    if acts != [] {
      StepsInv(file, start, s, acts[..|acts| - 1]);
      StepKeepsInv(file, start, Steps(file, true, s, acts[..|acts| - 1]), acts[|acts| - 1]);
    }
  }

  lemma {:induction false} LastEntry(file: Option<seq<byte>>, start: Alone, s: State, log: seq<Entry>)
    requires Inv(file, start, s) && s.mutex == None && AsIfAlone(file, start, log)
    requires |log| == |s.log| + 1 && log[..|s.log|] == s.log
    ensures var last := log[|s.log|];
      var e := ReadStep(s.window, file, last.offset, last.blen, s.script);
      log == s.log + [Entry(last.thread, last.offset, last.blen, e.r, e.bytes)]
  {
    hide ReadStep, Replay;
    assert log == log[..|s.log|] + [log[|s.log|]];
  }

  // ---------- without the mutex ----------

  const TWO_OCTETS: Option<seq<byte>> := Some([0x41, 0x42])

  /** Thread 1 enters between thread 0's entering and its first `hdfsPread`. */
  const RACE: seq<Action> := [Request(0, 0, 1), Request(1, 1, 1), Enter(0), Enter(1), Call(0), Call(0),
    Call(1), Leave(1)]

  lemma {:induction false} StepsOne(s: State, acts: seq<Action>, n: nat)
    requires n < |acts|
    ensures Steps(TWO_OCTETS, false, s, acts[..n + 1])
         == Step(TWO_OCTETS, false, Steps(TWO_OCTETS, false, s, acts[..n]), acts[n])
  {
    hide Step;
    assert acts[..n + 1][..n] == acts[..n];
  }

  const BEFORE: State := Goto(Goto(Initial(Window(2, 0, []), []), 0, Waiting(0, 1)), 1, Waiting(1, 1))

  /** Both threads are inside; the file position of thread 0 is 0, but the window says 1. */
  const BOTH_INSIDE: State :=
    Goto(Goto(BEFORE, 0, Refilling(0, 1, [])), 1, Refilling(1, 1, [])).(mutex := Some(1), window := Window(2, 1, []))

  lemma {:induction false} BothEnter()
    ensures Step(TWO_OCTETS, false, Goto(BEFORE, 0, Refilling(0, 1, [])).(mutex := Some(0)), Enter(1)) == BOTH_INSIDE
    ensures Step(TWO_OCTETS, false, BEFORE, Enter(0)) == Goto(BEFORE, 0, Refilling(0, 1, [])).(mutex := Some(0))
  {
  }

  lemma {:induction false} FirstCall()
    ensures Step(TWO_OCTETS, false, BOTH_INSIDE, Call(0)) == BOTH_INSIDE.(window := Window(2, 1, [0x41, 0x42]))
  {
    assert TWO_OCTETS.value[0..2] == [0x41, 0x42];
  }

  lemma {:induction false} FirstOctet(s: State, t: nat, offset: nat)
    requires s.window == Window(2, 1, [0x41, 0x42]) && PcOf(s, t) == Refilling(offset, 1, [])
    ensures Step(TWO_OCTETS, false, s, Call(t)) == Goto(s, t, Returning(offset, 1, 1, [0x41]))
  {
    assert s.window.data[..1] == [0x41];
    assert [] + s.window.data[..1] == [0x41];
  }

  lemma {:induction false} BothRequest(s0: State)
    requires s0 == Initial(Window(2, 0, []), [])
    ensures Step(TWO_OCTETS, false, s0, Request(0, 0, 1)) == Goto(s0, 0, Waiting(0, 1))
    ensures Step(TWO_OCTETS, false, Goto(s0, 0, Waiting(0, 1)), Request(1, 1, 1)) == BEFORE
  {
  }

  lemma {:induction false} LastLeaves(s: State)
    requires PcOf(s, 1) == Returning(1, 1, 1, [0x41]) && s.log == []
    ensures Step(TWO_OCTETS, false, s, Leave(1)).log == [Entry(1, 1, 1, 1, [0x41])]
  {
  }

  lemma {:induction false} WrongOctet()
    ensures !EntryRight(TWO_OCTETS, 2, Entry(1, 1, 1, 1, [0x41]))
  {
    assert TWO_OCTETS.value[1..2] == [0x42];
  }

  /** If `Enter` did not wait, a thread could be given the octet of another position. */
  lemma {:induction false} MutexNeeded()
    ensures var s := Steps(TWO_OCTETS, false, Initial(Window(2, 0, []), []), RACE);
      s.log == [Entry(1, 1, 1, 1, [0x41])] && !EntryRight(TWO_OCTETS, 2, s.log[0])
  {
    hide Step, Steps, EntryRight;
    var s0 := Initial(Window(2, 0, []), []);
    var s1 := Goto(s0, 0, Waiting(0, 1));
    var s3 := Goto(BEFORE, 0, Refilling(0, 1, [])).(mutex := Some(0));
    var s5 := BOTH_INSIDE.(window := Window(2, 1, [0x41, 0x42]));
    var s6 := Goto(s5, 0, Returning(0, 1, 1, [0x41]));
    var s7 := Goto(s6, 1, Returning(1, 1, 1, [0x41]));
    BothRequest(s0);
    BothEnter();
    FirstCall();
    FirstOctet(s5, 0, 0);
    FirstOctet(s6, 1, 1);
    LastLeaves(s7);
    WrongOctet();
    RaceSteps(s0, s1, BEFORE, s3, BOTH_INSIDE, s5, s6, s7, Step(TWO_OCTETS, false, s7, Leave(1)));
  }

  lemma {:induction false} RaceSteps(s0: State, s1: State, s2: State, s3: State, s4: State, s5: State, s6: State,
                                     s7: State, s8: State)
    requires Step(TWO_OCTETS, false, s0, Request(0, 0, 1)) == s1 && Step(TWO_OCTETS, false, s1, Request(1, 1, 1)) == s2
    requires Step(TWO_OCTETS, false, s2, Enter(0)) == s3 && Step(TWO_OCTETS, false, s3, Enter(1)) == s4
    requires Step(TWO_OCTETS, false, s4, Call(0)) == s5 && Step(TWO_OCTETS, false, s5, Call(0)) == s6
    requires Step(TWO_OCTETS, false, s6, Call(1)) == s7 && Step(TWO_OCTETS, false, s7, Leave(1)) == s8
    ensures Steps(TWO_OCTETS, false, s0, RACE) == s8
  {
    hide Step;
    assert RACE[..0] == [] && RACE[..8] == RACE;
    StepsOne(s0, RACE, 0);
    StepsOne(s0, RACE, 1);
    StepsOne(s0, RACE, 2);
    StepsOne(s0, RACE, 3);
    StepsOne(s0, RACE, 4);
    StepsOne(s0, RACE, 5);
    StepsOne(s0, RACE, 6);
    StepsOne(s0, RACE, 7);
  }
}
