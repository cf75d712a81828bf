/**
 What the hooked calls say, read from the list of calls alone: the bytes an application wrote and read on a connection,
 and when it was torn down. The kernel's offsets and the recorded plaintext are those of this history.
 */
module ProbeHistory {
  import opened Bytes
  import opened FlowSynth
  import opened SslProbe
  import opened TlsCapture

  // ---- the calls ----

  /** The n bytes of memory from an address. */
  function BytesAt(mem: Memory, addr: nat, n: nat): (s: seq<byte>)
    ensures |s| == n && forall i :: 0 <= i < n ==> s[i] == mem(addr + i)
  {
    seq(n, i requires 0 <= i < n => mem(addr + i))
  }

  predicate ReadsOn(call: ProbeCall, tid: u32) {
    (call.ReadEnter? || call.ReadExit?) && call.tid == tid
  }

  /** Call e entered a read of its thread that no later call of the thread has ended or replaced. */
  predicate Pending(calls: seq<ProbeCall>, e: int, tid: u32) {
    && 0 <= e < |calls| && calls[e].ReadEnter? && calls[e].tid == tid
    && forall k :: e < k < |calls| ==> !ReadsOn(calls[k], tid)
  }

  /** The last call is a read exit that answers the enter at e. */
  predicate Answers(calls: seq<ProbeCall>, e: int) {
    calls != [] && calls[|calls| - 1].ReadExit? && Pending(calls[..|calls| - 1], e, calls[|calls| - 1].tid)
  }

  /** The last call is an SSL_read on `c` that returned `ret`; `buf` is the buffer it was entered with. */
  ghost predicate ReadReturned(calls: seq<ProbeCall>, c: nat, buf: nat, ret: int) {
    exists e :: Answers(calls, e) && calls[e].ssl == c && calls[e].buf == buf && calls[|calls| - 1].ret == ret
  }

  /** The last call is an SSL_write on `c` of these bytes. */
  predicate Wrote(calls: seq<ProbeCall>, c: nat, text: seq<byte>) {
    && calls != [] && calls[|calls| - 1].SslWrite?
    && var call := calls[|calls| - 1];
    call.ssl == c && call.buf != 0 && call.num > 0 && text == BytesAt(call.mem, call.buf, call.num)
  }

  /** The last call is an SSL_read on `c` that delivered these bytes. */
  ghost predicate Read(calls: seq<ProbeCall>, c: nat, text: seq<byte>) {
    && text != [] && calls != [] && calls[|calls| - 1].ReadExit?
    && exists buf :: buf != 0 && ReadReturned(calls, c, buf, |text|)
                     && text == BytesAt(calls[|calls| - 1].mem, buf, |text|)
  }

  /** The last call moved these bytes: a write moves client bytes, a read server bytes. */
  ghost predicate Carried(calls: seq<ProbeCall>, c: nat, dir: StreamDir, text: seq<byte>) {
    match dir
    case ClientToServer => Wrote(calls, c, text)
    case ServerToClient => Read(calls, c, text)
  }

  /** The last call ended connection `c`: a shutdown, a free, or a read that returned 0. */
  ghost predicate Ended(calls: seq<ProbeCall>, c: nat) {
    && calls != []
    && (calls[|calls| - 1] == Shutdown(c) || calls[|calls| - 1] == Free(c) || exists buf :: ReadReturned(calls, c, buf, 0))
  }

  ghost function Moved(calls: seq<ProbeCall>, c: nat, dir: StreamDir): seq<byte> {
    if text :| Carried(calls, c, dir, text) then text else []
  }

  /** The bytes moved on (c, dir) since c last ended. */
  ghost function BytesSince(calls: seq<ProbeCall>, c: nat, dir: StreamDir): seq<byte> {
    if calls == [] || Ended(calls, c) then []
    else BytesSince(calls[..|calls| - 1], c, dir) + Moved(calls, c, dir)
  }

  /** How often c has ended. */
  ghost function Ends(calls: seq<ProbeCall>, c: nat): nat {
    if calls == [] then 0 else Ends(calls[..|calls| - 1], c) + if Ended(calls, c) then 1 else 0
  }

  /** The bytes moved on (c, dir) between the n-th end and the next. */
  ghost function BytesOfLife(calls: seq<ProbeCall>, c: nat, dir: StreamDir, n: nat): seq<byte> {
    if calls == [] then []
    else
      BytesOfLife(calls[..|calls| - 1], c, dir, n)
        + if Ends(calls[..|calls| - 1], c) == n then Moved(calls, c, dir) else []
  }

  // ---- the kernel after a list of calls ----

  function KernelAfter(calls: seq<ProbeCall>): Kernel {
    if calls == [] then BOOT else KernelNext(KernelAfter(calls[..|calls| - 1]), calls[|calls| - 1])
  }

  /** The stash of a thread is the enter it has pending. */
  ghost predicate StashTrue(calls: seq<ProbeCall>, tid: u32) {
    var stash := KernelAfter(calls).readArgs;
    && (tid in stash <==> exists e :: Pending(calls, e, tid))
    && (forall e :: Pending(calls, e, tid) ==> tid in stash && stash[tid] == ReadArgs(calls[e].ssl, calls[e].buf))
  }

  lemma StashStep(k: Kernel, call: ProbeCall, tid: u32)
    ensures var was, now := k.readArgs, KernelNext(k, call).readArgs;
            && (!ReadsOn(call, tid) ==> (tid in now <==> tid in was) && (tid in now ==> now[tid] == was[tid]))
            && (call.ReadExit? && call.tid == tid ==> tid !in now)
            && (call.ReadEnter? && call.tid == tid ==> tid in now && now[tid] == ReadArgs(call.ssl, call.buf))
  {
  }

  lemma PendingStep(calls: seq<ProbeCall>, e: int, tid: u32)
    requires calls != []
    ensures var init, last := calls[..|calls| - 1], calls[|calls| - 1];
            Pending(calls, e, tid) <==> if ReadsOn(last, tid) then last.ReadEnter? && e == |calls| - 1
                                        else Pending(init, e, tid)
  {
    var init, last := calls[..|calls| - 1], calls[|calls| - 1];
    assert forall k :: 0 <= k < |init| ==> init[k] == calls[k];
    if Pending(init, e, tid) && !ReadsOn(last, tid) {
      assert forall k :: e < k < |calls| ==> k == |init| || calls[k] == init[k];
    }
    if Pending(calls, e, tid) && e < |init| {
      assert !ReadsOn(calls[|calls| - 1], tid);
    }
  }

  lemma {:induction false} StashIsThePendingEnter(calls: seq<ProbeCall>, tid: u32)
    ensures StashTrue(calls, tid)
  {
    if calls != [] {
      var init, last := calls[..|calls| - 1], calls[|calls| - 1];
      StashIsThePendingEnter(init, tid);
      StashStep(KernelAfter(init), last, tid);
      forall e ensures Pending(calls, e, tid) <==> if ReadsOn(last, tid) then last.ReadEnter? && e == |calls| - 1
                                                   else Pending(init, e, tid)
      {
        PendingStep(calls, e, tid);
      }
      if ReadsOn(last, tid) && last.ReadEnter? {
        assert Pending(calls, |calls| - 1, tid);
      }
    }
  }

  // ---- what a call means ----

  lemma ExitAnswers(calls: seq<ProbeCall>, c: nat, buf: nat, ret: int)
    requires calls != [] && calls[|calls| - 1].ReadExit?
    ensures var stash, call := KernelAfter(calls[..|calls| - 1]).readArgs, calls[|calls| - 1];
            ReadReturned(calls, c, buf, ret) <==> call.tid in stash && stash[call.tid] == ReadArgs(c, buf) && call.ret == ret
  {
    var init, call := calls[..|calls| - 1], calls[|calls| - 1];
    StashIsThePendingEnter(init, call.tid);
    if call.tid in KernelAfter(init).readArgs {
      var e :| Pending(init, e, call.tid);
      assert Answers(calls, e) && calls[e] == init[e];
    }
  }

  /** The probe's reading of a call is the history's: what it carried and what it ended. */
  ghost predicate ReadRight(calls: seq<ProbeCall>, m: Meaning) {
    && (forall c, dir, text :: Carried(calls, c, dir, text) <==> m == Plaintext(c, dir, text))
    && (forall c :: Ended(calls, c) <==> m == Teardown(c))
  }

  lemma SameBytes(mem: Memory, addr: nat, n: nat)
    ensures BytesAt(mem, addr, n) == ReadUser(mem, addr, n)
  {
  }

  lemma ExitIsReadRight(calls: seq<ProbeCall>)
    requires calls != [] && calls[|calls| - 1].ReadExit?
    ensures ReadRight(calls, Interpret(KernelAfter(calls[..|calls| - 1]), calls[|calls| - 1]))
  {
    var init, call := calls[..|calls| - 1], calls[|calls| - 1];
    var m := Interpret(KernelAfter(init), call);
    forall c, buf: nat, ret
      ensures ReadReturned(calls, c, buf, ret) <==>
              call.tid in KernelAfter(init).readArgs && KernelAfter(init).readArgs[call.tid] == ReadArgs(c, buf)
              && call.ret == ret
    {
      ExitAnswers(calls, c, buf, ret);
    }
    forall c, text ensures Read(calls, c, text) <==> m == Plaintext(c, ServerToClient, text) {
      if m == Plaintext(c, ServerToClient, text) {
        var buf := KernelAfter(init).readArgs[call.tid].buf;
        SameBytes(call.mem, buf, call.ret);
        assert ReadReturned(calls, c, buf, |text|);
      }
      if Read(calls, c, text) {
        var buf :| buf != 0 && ReadReturned(calls, c, buf, |text|) && text == BytesAt(call.mem, buf, |text|);
        SameBytes(call.mem, buf, |text|);
      }
    }
    forall c ensures Ended(calls, c) <==> m == Teardown(c) {
      if m == Teardown(c) {
        assert ReadReturned(calls, c, KernelAfter(init).readArgs[call.tid].buf, 0);
      }
    }
  }

  lemma CallIsReadRight(calls: seq<ProbeCall>)
    requires calls != []
    ensures ReadRight(calls, Interpret(KernelAfter(calls[..|calls| - 1]), calls[|calls| - 1]))
  {
    match calls[|calls| - 1] {
      case ReadExit(_, _, _) => ExitIsReadRight(calls);
      case SslWrite(ssl, buf, num, mem) =>
        if num > 0 {
          SameBytes(mem, buf, num);
        }
      case _ =>
    }
  }

  lemma MovedIs(calls: seq<ProbeCall>, m: Meaning, c: nat, dir: StreamDir)
    requires ReadRight(calls, m)
    ensures Moved(calls, c, dir) == if m.Plaintext? && m.conn == c && m.dir == dir then m.text else []
  {
    if m.Plaintext? && m.conn == c && m.dir == dir {
      assert Carried(calls, c, dir, m.text);
    }
  }

  // ---- the laws ----

  /** The kernel's stream offsets count the bytes written and read on each connection since it last ended. */
  lemma {:induction false} OffsetsCountTheBytes(calls: seq<ProbeCall>, c: nat, dir: StreamDir)
    ensures StreamOff(KernelAfter(calls), c, dir) == |BytesSince(calls, c, dir)|
  {
    if calls != [] {
      var init, last := calls[..|calls| - 1], calls[|calls| - 1];
      var m := Interpret(KernelAfter(init), last);
      OffsetsCountTheBytes(init, c, dir);
      CallIsReadRight(calls);
      MovedIs(calls, m, c, dir);
    }
  }

  /** The calls of a run, without what the ring refused and when events were delivered. */
  function CallsOf(steps: seq<Step>): seq<ProbeCall> {
    if steps == [] then []
    else CallsOf(steps[..|steps| - 1]) + match steps[|steps| - 1] case Call(call, _) => [call] case Deliver(_) => []
  }

  ghost predicate HistoryTrue(w: World, calls: seq<ProbeCall>) {
    && w.kernel == KernelAfter(calls)
    && (forall c :: Count(w.epochs, c) == Ends(calls, c))
    && (forall c, dir, n :: PlainOf(w, Stream(c, dir, n)) == BytesOfLife(calls, c, dir, n))
  }

  lemma LifeStep(calls: seq<ProbeCall>, call: ProbeCall, m: Meaning, c: nat, dir: StreamDir, n: nat)
    requires m == Interpret(KernelAfter(calls), call)
    ensures Ends(calls + [call], c) == Ends(calls, c) + if m == Teardown(c) then 1 else 0
    ensures BytesOfLife(calls + [call], c, dir, n)
         == BytesOfLife(calls, c, dir, n)
            + if m.Plaintext? && m.conn == c && m.dir == dir && Ends(calls, c) == n then m.text else []
  {
    assert (calls + [call])[..|calls|] == calls;
    CallIsReadRight(calls + [call]);
    MovedIs(calls + [call], m, c, dir);
  }

  lemma KernelStep(w: World, calls: seq<ProbeCall>, call: ProbeCall, refused: set<nat>)
    requires w.kernel == KernelAfter(calls)
    ensures AfterCall(w, call, refused).kernel == KernelAfter(calls + [call])
  {
    assert (calls + [call])[..|calls|] == calls;
  }

  lemma EndsRecorded(w: World, call: ProbeCall, refused: set<nat>, c: nat)
    ensures Count(AfterCall(w, call, refused).epochs, c)
         == Count(w.epochs, c) + if Interpret(w.kernel, call) == Teardown(c) then 1 else 0
  {
  }

  lemma BytesRecorded(w: World, call: ProbeCall, refused: set<nat>, c: nat, dir: StreamDir, n: nat)
    ensures var m := Interpret(w.kernel, call);
            PlainOf(AfterCall(w, call, refused), Stream(c, dir, n))
            == PlainOf(w, Stream(c, dir, n))
               + if m.Plaintext? && m.conn == c && m.dir == dir && Count(w.epochs, c) == n then m.text else []
  {
  }

  lemma CallKeepsHistory(w: World, calls: seq<ProbeCall>, call: ProbeCall, refused: set<nat>)
    requires HistoryTrue(w, calls)
    ensures HistoryTrue(AfterCall(w, call, refused), calls + [call])
  {
    var w' := AfterCall(w, call, refused);
    var m := Interpret(w.kernel, call);
    KernelStep(w, calls, call, refused);
    forall c ensures Count(w'.epochs, c) == Ends(calls + [call], c) {
      LifeStep(calls, call, m, c, ClientToServer, 0);
      EndsRecorded(w, call, refused, c);
    }
    forall c, dir, n ensures PlainOf(w', Stream(c, dir, n)) == BytesOfLife(calls + [call], c, dir, n) {
      LifeStep(calls, call, m, c, dir, n);
      BytesRecorded(w, call, refused, c, dir, n);
      assert PlainOf(w, Stream(c, dir, n)) == BytesOfLife(calls, c, dir, n) && Count(w.epochs, c) == Ends(calls, c);
    }
  }

  lemma DeliveryKeepsHistory(cfg: SynthConfig, w: World, calls: seq<ProbeCall>, ts: int)
    requires HistoryTrue(w, calls)
    ensures HistoryTrue(AfterDelivery(cfg, w, ts), calls)
  {
    var w' := AfterDelivery(cfg, w, ts);
    assert w'.kernel == w.kernel && w'.epochs == w.epochs && w'.plain == w.plain;
    assert forall c, dir, n :: PlainOf(w', Stream(c, dir, n)) == PlainOf(w, Stream(c, dir, n));
  }

  /** In every run the recorded plaintext of a stream is exactly what the calls wrote or read in that life. */
  lemma {:induction false} PlaintextIsTheCalls(cfg: SynthConfig, steps: seq<Step>)
    ensures HistoryTrue(Run(cfg, steps), CallsOf(steps))
  {
    if steps != [] {
      var init := steps[..|steps| - 1];
      PlaintextIsTheCalls(cfg, init);
      match steps[|steps| - 1] {
        case Call(call, refused) => CallKeepsHistory(Run(cfg, init), CallsOf(init), call, refused);
        case Deliver(ts) =>
          DeliveryKeepsHistory(cfg, Run(cfg, init), CallsOf(init), ts);
          assert CallsOf(steps) == CallsOf(init);
      }
    }
  }
}
