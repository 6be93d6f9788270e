/** Sequential writes: what the stored octets and the digested octets are under short and failing writes. */
module SequentialWrites {
  import opened Bytes
  import opened HdfsReplies

  // ---------- the retry loop of SetMultiple ----------

  /** How far the loop came, the last result and the replies still to come. */
  datatype Written = Written(done: nat, retval: int, rest: seq<WriteReply>)

  /** The loop when the first `done` octets of `text` are stored. */
  function WriteLoop(text: Text, done: nat, script: seq<WriteReply>): Written
    requires done <= |text|
    decreases |text| - done, |script|
  {
    var n := WriteResult(text[done..], script);
    if n == -EINTR then WriteLoop(text, done, Rest(script))
    else if n > 0 && done + n < |text| then WriteLoop(text, done + n, Rest(script))
    else Written(if n > 0 then done + n else done, n, Rest(script))
  }

  lemma {:induction false} WriteLoopOnce(text: Text, done: nat, script: seq<WriteReply>)
    requires done <= |text|
    ensures var n := WriteResult(text[done..], script);
      WriteLoop(text, done, script) ==
        if n == -EINTR then WriteLoop(text, done, Rest(script))
        else if n > 0 && done + n < |text| then WriteLoop(text, done + n, Rest(script))
        else Written(if n > 0 then done + n else done, n, Rest(script))
    ensures WriteResult(text[done..], script) == -EINTR ==> |Rest(script)| < |script|
  {
  }

  predicate Interrupts(reply: WriteReply) {
    reply == Rejected(EINTR - 1)
  }

  /** A reply after which the loop does not call again, whatever is left to write. */
  predicate Stops(reply: WriteReply) {
    reply == Accepted(0) || (reply.Rejected? && !Interrupts(reply))
  }

  function FirstStop(script: seq<WriteReply>): (stop: Option<WriteReply>)
    ensures stop.Some? ==> Stops(stop.value)
  {
    if script == [] then None else if Stops(script[0]) then Some(script[0]) else FirstStop(script[1..])
  }

  /** How many octets the library is ready to take before the first reply that stops the loop. */
  function Ready(script: seq<WriteReply>): nat {
    if script == [] || Stops(script[0]) then 0
    else (if script[0].Accepted? then script[0].n else 0) + Ready(script[1..])
  }

  /** The replies alone decide how the loop ends: the rest of the text is stored unless a reply that stops
      the loop comes before the library has taken that much; if that reply is a 0 the file is cut short and
      no error reported, and if it is a rejection its code is. */
  lemma {:induction false} WriteLoopRight(text: Text, done: nat, script: seq<WriteReply>)
    requires done < |text|
    ensures var w, stop, enough := WriteLoop(text, done, script), FirstStop(script), Ready(script) >= |text| - done;
      && (w.retval > 0 && w.done == |text| <==> stop == None || enough)
      && (w.retval == 0 && w.done < |text| <==> stop == Some(Accepted(0)) && !enough)
      && (w.retval < 0 <==> stop.Some? && stop.value.Rejected? && !enough)
      && (w.retval < 0 ==> w.retval == -(stop.value.code + 1))
      && w.done == (if stop == None || enough then |text| else done + Ready(script))
    decreases |text| - done, |script|
  {
    var n := WriteResult(text[done..], script);
    if n == -EINTR {
      WriteLoopRight(text, done, Rest(script));
    } else if n > 0 && done + n < |text| {
      WriteLoopRight(text, done + n, Rest(script));
    }
  }

  /** One answer of 0 and the loop reports success on an empty file. */
  lemma {:induction false} StallCutsShort(text: Text)
    requires text != []
    ensures WriteLoop(text, 0, [Accepted(0)]) == Written(0, 0, [])
  {
  }

  /** The library never answers 0 to a non-empty write. */
  ghost predicate NeverStalls(script: seq<WriteReply>) {
    forall i :: 0 <= i < |script| ==> script[i] != Accepted(0)
  }

  lemma {:induction false} WriteLoopComplete(text: Text, done: nat, script: seq<WriteReply>)
    requires done <= |text| && (done < |text| || text == []) && NeverStalls(script)
    ensures WriteLoop(text, done, script).retval >= 0 ==> WriteLoop(text, done, script).done == |text|
    decreases |text| - done, |script|
  {
    var n := WriteResult(text[done..], script);
    if n == -EINTR {
      WriteLoopComplete(text, done, Rest(script));
    } else if n > 0 && done + n < |text| {
      WriteLoopComplete(text, done + n, Rest(script));
    }
  }

  /** If only interruptions and short writes occur, the text is stored whatever their pattern. */
  lemma {:induction false} WriteLoopSucceeds(text: Text, done: nat, script: seq<WriteReply>)
    requires done <= |text| && (done < |text| || text == []) && NeverStalls(script)
    requires forall i :: 0 <= i < |script| ==> script[i].Accepted? || Interrupts(script[i])
    ensures WriteLoop(text, done, script).retval >= 0 && WriteLoop(text, done, script).done == |text|
    decreases |text| - done, |script|
  {
    var n := WriteResult(text[done..], script);
    if n == -EINTR {
      WriteLoopSucceeds(text, done, Rest(script));
    } else if n > 0 && done + n < |text| {
      WriteLoopSucceeds(text, done + n, Rest(script));
    }
  }

  // ---------- a client's writes to a data file ----------

  /** A call of `Write` and its result. */
  datatype Call = Call(data: seq<byte>, offset: nat, result: int)

  /** `content` is what the file holds, `digested` what the checksum state absorbed. */
  datatype Writer = Writer(content: seq<byte>, nextoff: nat, digested: seq<byte>)

  function Stored(c: Call): seq<byte> {
    if 0 < c.result <= |c.data| then c.data[..c.result] else []
  }

  lemma {:induction false} StoredSoFar(text: Text, offset: nat, retval: int)
    requires offset <= |text| && retval <= |text| - offset
    ensures text[..offset] + Stored(Call(text[offset..], offset, retval)) ==
      if retval > 0 then text[..offset + retval] else text[..offset]
  {
  }

  predicate InOrder(w: Writer, c: Call) {
    c.offset == w.nextoff
  }

  /** `Write`: a call out of order changes nothing; any other digests all its octets, stored or not. */
  function AfterCall(w: Writer, c: Call): Writer {
    if !InOrder(w, c) then w
    else Writer(w.content + Stored(c), w.nextoff + |Stored(c)|, w.digested + c.data)
  }

  function AfterCalls(w: Writer, calls: seq<Call>): Writer {
    if calls == [] then w else AfterCall(AfterCalls(w, calls[..|calls| - 1]), calls[|calls| - 1])
  }

  /** Every call that was not out of order reported that it stored everything it was given. */
  ghost predicate AllFull(w: Writer, calls: seq<Call>) {
    calls == [] ||
    (&& AllFull(w, calls[..|calls| - 1])
     && var last := calls[|calls| - 1];
        (InOrder(AfterCalls(w, calls[..|calls| - 1]), last) ==> |Stored(last)| == |last.data|))
  }

  lemma {:induction false} StoredIsPrefix(c: Call)
    ensures Stored(c) <= c.data
    ensures |Stored(c)| == |c.data| ==> Stored(c) == c.data
  {
  }

  lemma {:induction false} CallsBalance(w: Writer, calls: seq<Call>)
    requires w.content == w.digested
    ensures var v := AfterCalls(w, calls);
      && v.nextoff - |v.content| == w.nextoff - |w.content|
      && |v.content| <= |v.digested|
      && (AllFull(w, calls) <==> |v.content| == |v.digested|)
      && (AllFull(w, calls) ==> v.content == v.digested)
    decreases |calls|
  {
    if calls != [] {
      var n := |calls| - 1;
      CallsBalance(w, calls[..n]);
      StoredIsPrefix(calls[n]);
    }
  }

  /** However a client writes, and whatever the library answers: the octets digested are the octets of the
      file if and only if no accepted call was short. The write position stays the length of the content if
      it was when the file was opened. */
  lemma {:induction false} DigestsContentIffFull(nextoff: nat, calls: seq<Call>)
    ensures var v := AfterCalls(Writer([], nextoff, []), calls);
      && (v.digested == v.content <==> AllFull(Writer([], nextoff, []), calls))
      && v.nextoff == nextoff + |v.content|
  {
    CallsBalance(Writer([], nextoff, []), calls);
  }

  /** Two calls, the second of them a retry of the first, which the library did not store: the octets
      are digested twice. */
  lemma {:induction false} RetryDigestsTwice(data: seq<byte>)
    requires data != []
    ensures var v := AfterCalls(Writer([], 0, []), [Call(data, 0, -1), Call(data, 0, |data|)]);
      v.content == data && v.digested == data + data && v.digested != v.content
  {
    var w, c1, c2 := Writer([], 0, []), Call(data, 0, -1), Call(data, 0, |data|);
    assert [c1, c2][..1] == [c1] && [c1][..0] == [];
    assert AfterCalls(w, [c1]) == AfterCall(AfterCalls(w, []), c1);
    assert AfterCall(w, c1) == Writer([], 0, data);
    assert data[..|data|] == data;
  }

  // ---------- one object, several sessions ----------

  /** What a session that starts at write position `nextoff` comes to; the file was emptied by `Open`. */
  function AfterSession(nextoff: nat, calls: seq<Call>): Writer {
    AfterCalls(Writer([], nextoff, []), calls)
  }

  /** The write position after some sessions of one object, which `Open` and `Close` leave alone. */
  function NextoffAfter(sessions: seq<seq<Call>>): nat {
    if sessions == [] then 0
    else AfterSession(NextoffAfter(sessions[..|sessions| - 1]), sessions[|sessions| - 1]).nextoff
  }

  /** All that the calls were told is stored. */
  function Reported(calls: seq<Call>): seq<byte> {
    if calls == [] then [] else Reported(calls[..|calls| - 1]) + Stored(calls[|calls| - 1])
  }

  /** A call out of order is told so, as `Write` does. */
  ghost predicate Honest(nextoff: nat, calls: seq<Call>) {
    calls == [] ||
    (&& Honest(nextoff, calls[..|calls| - 1])
     && (!InOrder(AfterSession(nextoff, calls[..|calls| - 1]), calls[|calls| - 1]) ==> calls[|calls| - 1].result < 0))
  }

  ghost predicate AllHonest(sessions: seq<seq<Call>>) {
    sessions == [] ||
    (AllHonest(sessions[..|sessions| - 1])
     && Honest(NextoffAfter(sessions[..|sessions| - 1]), sessions[|sessions| - 1]))
  }

  lemma {:induction false} PositionGrows(nextoff: nat, calls: seq<Call>)
    requires Honest(nextoff, calls)
    ensures AfterSession(nextoff, calls).content == Reported(calls)
    ensures AfterSession(nextoff, calls).nextoff == nextoff + |Reported(calls)|
    decreases |calls|
  {
    if calls != [] {
      PositionGrows(nextoff, calls[..|calls| - 1]);
    }
  }

  lemma {:induction false} PositionIsZeroIff(sessions: seq<seq<Call>>)
    requires AllHonest(sessions)
    ensures NextoffAfter(sessions) == 0 <==> forall k :: 0 <= k < |sessions| ==> Reported(sessions[k]) == []
    decreases |sessions|
  {
    hide AfterSession, AfterCalls, Honest, Reported;
    if sessions != [] {
      var n := |sessions| - 1;
      PositionIsZeroIff(sessions[..n]);
      PositionGrows(NextoffAfter(sessions[..n]), sessions[n]);
      assert forall k :: 0 <= k < n ==> sessions[..n][k] == sessions[k];
    }
  }

  /** The client starts at 0 and goes on where its last call said the file ends. */
  predicate FromStart(calls: seq<Call>) {
    calls == [] ||
    (FromStart(calls[..|calls| - 1]) && calls[|calls| - 1].offset == |Reported(calls[..|calls| - 1])|)
  }

  /** Every call was in order. */
  ghost predicate Served(nextoff: nat, calls: seq<Call>) {
    calls == [] ||
    (Served(nextoff, calls[..|calls| - 1])
     && InOrder(AfterSession(nextoff, calls[..|calls| - 1]), calls[|calls| - 1]))
  }

  lemma {:induction false} ServedIffPositionZero(nextoff: nat, calls: seq<Call>)
    requires Honest(nextoff, calls) && FromStart(calls)
    ensures calls != [] ==> (Served(nextoff, calls) <==> nextoff == 0)
    ensures nextoff > 0 ==> Reported(calls) == [] && forall i :: 0 <= i < |calls| ==> calls[i].result < 0
    decreases |calls|
  {
    hide AfterSession;
    if calls != [] {
      var n := |calls| - 1;
      ServedIffPositionZero(nextoff, calls[..n]);
      PositionGrows(nextoff, calls[..n]);
      forall i | 0 <= i < |calls| && nextoff > 0
        ensures calls[i].result < 0
      {
        assert i < n ==> calls[i] == calls[..n][i];
      }
    }
  }

  /** Over any run of sessions of one object, whatever its clients did before: a client that writes a file
      from its start is served if and only if no earlier session stored an octet. Otherwise every call is
      rejected and the file, which the open emptied, stays empty. */
  lemma {:induction false} SessionServedIff(sessions: seq<seq<Call>>, calls: seq<Call>)
    requires AllHonest(sessions) && Honest(NextoffAfter(sessions), calls) && FromStart(calls) && calls != []
    ensures Served(NextoffAfter(sessions), calls) <==>
      forall k :: 0 <= k < |sessions| ==> Reported(sessions[k]) == []
    ensures !Served(NextoffAfter(sessions), calls) ==>
      AfterSession(NextoffAfter(sessions), calls).content == [] && forall i :: 0 <= i < |calls| ==> calls[i].result < 0
  {
    hide AfterSession, AfterCalls, FromStart, Reported, Served, Honest;
    PositionIsZeroIff(sessions);
    ServedIffPositionZero(NextoffAfter(sessions), calls);
    PositionGrows(NextoffAfter(sessions), calls);
  }
}
