/**
 The probe side of TLS capture (server/h-ebpf-prog/src/main.rs): SSL_write / SSL_read / SSL_shutdown / SSL_free
 calls become ring-buffer events stamped with absolute stream offsets. The ring may refuse any reservation.
 */
module SslProbe {
  import opened Bytes
  import opened FlowSynth

  const DATA_CAP := 32768
  const MAX_CHUNKS := 8

  datatype Event =
    | Data(conn: nat, dir: StreamDir, seqOff: nat, bytes: seq<byte>)
    | Close(conn: nat)

  /** User memory as the probe sees it during one call; every read is taken to succeed. */
  type Memory = nat -> byte

  function ReadUser(mem: Memory, addr: nat, n: nat): (s: seq<byte>)
    ensures |s| == n && forall i :: 0 <= i < n ==> s[i] == mem(addr + i)
  {
    seq(n, i requires 0 <= i < n => mem(addr + i))
  }

  lemma ReadUserSlice(mem: Memory, addr: nat, len: nat, start: nat, n: nat)
    requires start + n <= len
    ensures ReadUser(mem, addr + start, n) == ReadUser(mem, addr, len)[start..start + n]
  {
    var whole, part := ReadUser(mem, addr, len), ReadUser(mem, addr + start, n);
    forall i | 0 <= i < n
      ensures part[i] == whole[start..start + n][i]
    {
      assert addr + start + i == addr + (start + i);
    }
  }

  datatype ReadArgs = ReadArgs(ssl: nat, buf: nat)

  /** The three BPF maps as a value. */
  datatype Kernel = Kernel(writeOff: map<nat, nat>, readOff: map<nat, nat>, readArgs: map<u32, ReadArgs>)

  const BOOT := Kernel(map[], map[], map[])

  function StreamOff(k: Kernel, conn: nat, dir: StreamDir): nat {
    var m := if dir.ClientToServer? then k.writeOff else k.readOff;
    if conn in m then m[conn] else 0
  }

  function SetStreamOff(k: Kernel, conn: nat, dir: StreamDir, next: nat): (k': Kernel)
    ensures forall c, d :: StreamOff(k', c, d) == if c == conn && d == dir then next else StreamOff(k, c, d)
    ensures k'.readArgs == k.readArgs
  {
    if dir.ClientToServer? then k.(writeOff := k.writeOff[conn := next])
    else k.(readOff := k.readOff[conn := next])
  }

  function ForgetOffsets(k: Kernel, conn: nat): (k': Kernel)
    ensures forall c, d :: StreamOff(k', c, d) == if c == conn then 0 else StreamOff(k, c, d)
    ensures k'.readArgs == k.readArgs
  {
    k.(writeOff := k.writeOff - {conn}, readOff := k.readOff - {conn})
  }

  /** One hooked call. `num` and `ret` are the C ints of the hooked functions. */
  datatype ProbeCall =
    | SslWrite(ssl: nat, buf: nat, num: int, mem: Memory)
    | ReadEnter(tid: u32, ssl: nat, buf: nat)
    | ReadExit(tid: u32, ret: int, mem: Memory)
    | Shutdown(ssl: nat)
    | Free(ssl: nat)

  /** What a call means for the captured streams: some plaintext, a teardown, or nothing. */
  datatype Meaning =
    | Plaintext(conn: nat, dir: StreamDir, text: seq<byte>)
    | Teardown(gone: nat)
    | Nothing

  function Interpret(k: Kernel, call: ProbeCall): Meaning {
    match call
    case SslWrite(ssl, buf, num, mem) =>
      if buf != 0 && num > 0 then Plaintext(ssl, ClientToServer, ReadUser(mem, buf, num)) else Nothing
    case ReadEnter(_, _, _) => Nothing
    case ReadExit(tid, ret, mem) =>
      if tid !in k.readArgs then Nothing
      else
        var a := k.readArgs[tid];
        if a.buf != 0 && ret > 0 then Plaintext(a.ssl, ServerToClient, ReadUser(mem, a.buf, ret))
        else if ret == 0 then Teardown(a.ssl)
        else Nothing
    case Shutdown(ssl) => Teardown(ssl)
    case Free(ssl) => Teardown(ssl)
  }

  function Stash(k: Kernel, call: ProbeCall): (k': Kernel)
    ensures forall c, d :: StreamOff(k', c, d) == StreamOff(k, c, d)
  {
    match call
    case ReadEnter(tid, ssl, buf) => k.(readArgs := k.readArgs[tid := ReadArgs(ssl, buf)])
    case ReadExit(tid, _, _) => k.(readArgs := k.readArgs - {tid})
    case _ => k
  }

  function KernelNext(k: Kernel, call: ProbeCall): Kernel {
    var k' := Stash(k, call);
    match Interpret(k, call)
    case Plaintext(c, d, text) => SetStreamOff(k', c, d, StreamOff(k, c, d) + |text|)
    case Teardown(c) => ForgetOffsets(k', c)
    case Nothing => k'
  }

  /** The events of the first n chunks of one call; chunk numbers in `refused` found the ring full. */
  function ChunkEvents(conn: nat, dir: StreamDir, text: seq<byte>, base: nat, n: nat, refused: set<nat>): seq<Event>
    decreases n, |text|
  {
    if n == 0 then []
    else ChunkEvents(conn, dir, text, base, n - 1, refused) + ChunkEvent(conn, dir, text, base, n - 1, refused)
  }

  function ChunkEvent(conn: nat, dir: StreamDir, text: seq<byte>, base: nat, i: nat, refused: set<nat>): seq<Event> {
    var start := i * DATA_CAP;
    if start >= |text| || i in refused then []
    else
      var n := if |text| - start > DATA_CAP then DATA_CAP else |text| - start;
      [Data(conn, dir, base + start, text[start..start + n])]
  }

  function Emitted(k: Kernel, call: ProbeCall, refused: set<nat>): seq<Event> {
    match Interpret(k, call)
    case Plaintext(c, d, text) => ChunkEvents(c, d, text, StreamOff(k, c, d), MAX_CHUNKS, refused)
    case Teardown(c) => if 0 in refused then [] else [Close(c)]
    case Nothing => []
  }

  /** An event of this call shows a non-empty stretch of the call's text at its true absolute offset. */
  predicate EventOf(e: Event, conn: nat, dir: StreamDir, text: seq<byte>, base: nat) {
    && e.Data? && e.conn == conn && e.dir == dir
    && base <= e.seqOff && 0 < |e.bytes| && e.seqOff - base + |e.bytes| <= |text|
    && e.bytes == text[e.seqOff - base..e.seqOff - base + |e.bytes|]
  }

  /** Whatever the ring refuses, every event that gets through is placed right. */
  lemma {:induction false} EventsPlacedRight(conn: nat, dir: StreamDir, text: seq<byte>, base: nat, n: nat,
                                             refused: set<nat>)
    ensures forall e <- ChunkEvents(conn, dir, text, base, n, refused) :: EventOf(e, conn, dir, text, base)
  {
    if n > 0 {
      EventsPlacedRight(conn, dir, text, base, n - 1, refused);
    }
  }

  function EventBytes(es: seq<Event>): seq<byte> {
    if es == [] then []
    else EventBytes(es[..|es| - 1]) + (if es[|es| - 1].Data? then es[|es| - 1].bytes else [])
  }

  const CALL_CAP := MAX_CHUNKS * DATA_CAP

  function Min(a: nat, b: nat): nat {
    if a < b then a else b
  }

  /** With nothing refused, the first n chunks carry exactly the first n * 32768 bytes of the call. */
  lemma {:induction false} UnrefusedCallBytes(conn: nat, dir: StreamDir, text: seq<byte>, base: nat, n: nat,
                                              es: seq<Event>)
    requires es == ChunkEvents(conn, dir, text, base, n, {})
    ensures EventBytes(es) == text[..Min(n * DATA_CAP, |text|)]
    decreases n
  {
    if n > 0 {
      var init, last := ChunkEvents(conn, dir, text, base, n - 1, {}), ChunkEvent(conn, dir, text, base, n - 1, {});
      UnrefusedCallBytes(conn, dir, text, base, n - 1, init);
      AppendedBytes(init, last);
      UnrefusedChunk(conn, dir, text, base, n - 1);
    }
  }

  lemma AppendedBytes(init: seq<Event>, last: seq<Event>)
    requires |last| <= 1
    ensures EventBytes(init + last) == EventBytes(init) + EventBytes(last)
  {
    if last == [] {
      assert init + last == init;
    } else {
      assert (init + last)[..|init|] == init && last[..0] == [];
    }
  }

  lemma UnrefusedChunk(conn: nat, dir: StreamDir, text: seq<byte>, base: nat, i: nat)
    ensures text[..Min(i * DATA_CAP, |text|)] + EventBytes(ChunkEvent(conn, dir, text, base, i, {}))
         == text[..Min((i + 1) * DATA_CAP, |text|)]
  {
    var e := ChunkEvent(conn, dir, text, base, i, {});
    var start, end := Min(i * DATA_CAP, |text|), Min((i + 1) * DATA_CAP, |text|);
    if start < |text| {
      assert e == [Data(conn, dir, base + start, text[start..end])];
      OneEventBytes(e[0]);
    }
    NextStretch(text, start, end);
  }

  lemma OneEventBytes(e: Event)
    requires e.Data?
    ensures EventBytes([e]) == e.bytes
  {
    assert [e][..0] == [];
  }

  lemma NextStretch(text: seq<byte>, start: nat, end: nat)
    requires start <= end <= |text|
    ensures text[..start] + text[start..end] == text[..end] && text[..start] + [] == text[..start]
  {
  }

  /** With nothing refused, the events of a call lie back to back from its base offset. */
  lemma {:induction false} UnrefusedCallOffsets(conn: nat, dir: StreamDir, text: seq<byte>, base: nat, n: nat,
                                                es: seq<Event>, k: nat)
    requires es == ChunkEvents(conn, dir, text, base, n, {}) && k < |es|
    ensures es[k].Data? && es[k].seqOff == base + |EventBytes(es[..k])|
    decreases n
  {
    var init := ChunkEvents(conn, dir, text, base, n - 1, {});
    if k < |init| {
      UnrefusedCallOffsets(conn, dir, text, base, n - 1, init, k);
      assert es[..k] == init[..k];
    } else {
      UnrefusedCallBytes(conn, dir, text, base, n - 1, init);
      assert es[..k] == init;
    }
  }

  /** So a whole call loses exactly its bytes past 262144. */
  lemma OnlyTheTailIsLost(conn: nat, dir: StreamDir, text: seq<byte>, base: nat)
    ensures EventBytes(ChunkEvents(conn, dir, text, base, 8, {})) == text[..if |text| < 262_144 then |text| else 262_144]
  {
    UnrefusedCallBytes(conn, dir, text, base, MAX_CHUNKS, ChunkEvents(conn, dir, text, base, MAX_CHUNKS, {}));
  }

  /** The probes themselves. `ring` is the ring buffer's accepted history, `refused` the ring's choices for one call. */
  class Probe {
    var writeOff: map<nat, nat>
    var readOff: map<nat, nat>
    var readArgs: map<u32, ReadArgs>
    var ring: seq<Event>

    constructor ()
      ensures State() == BOOT && ring == []
    {
      writeOff, readOff, readArgs, ring := map[], map[], map[], [];
    }

    ghost function State(): Kernel
      reads this
    {
      Kernel(writeOff, readOff, readArgs)
    }

    method OnSslWrite(ssl: nat, buf: nat, num: int, mem: Memory, refused: set<nat>)
      modifies this
      ensures State() == KernelNext(old(State()), SslWrite(ssl, buf, num, mem))
      ensures ring == old(ring) + Emitted(old(State()), SslWrite(ssl, buf, num, mem), refused)
    {
      if buf != 0 && num > 0 {
        EmitData(ClientToServer, ssl, buf, num, mem, refused);
      }
    }

    method OnReadEnter(tid: u32, ssl: nat, buf: nat)
      modifies this
      ensures State() == KernelNext(old(State()), ReadEnter(tid, ssl, buf))
      ensures ring == old(ring)
    {
      readArgs := readArgs[tid := ReadArgs(ssl, buf)];
    }

    method OnReadExit(tid: u32, ret: int, mem: Memory, refused: set<nat>)
      modifies this
      ensures State() == KernelNext(old(State()), ReadExit(tid, ret, mem))
      ensures ring == old(ring) + Emitted(old(State()), ReadExit(tid, ret, mem), refused)
    {
      if tid !in readArgs {
        assert readArgs - {tid} == readArgs;
        return;
      }
      var args := readArgs[tid];
      readArgs := readArgs - {tid};
      if args.buf != 0 && ret > 0 {
        EmitData(ServerToClient, args.ssl, args.buf, ret, mem, refused);
      } else if ret == 0 {
        EmitClose(args.ssl, refused);
      }
    }

    method OnShutdown(ssl: nat, refused: set<nat>)
      modifies this
      ensures State() == KernelNext(old(State()), Shutdown(ssl))
      ensures ring == old(ring) + Emitted(old(State()), Shutdown(ssl), refused)
    {
      EmitClose(ssl, refused);
    }

    method OnFree(ssl: nat, refused: set<nat>)
      modifies this
      ensures State() == KernelNext(old(State()), Free(ssl))
      ensures ring == old(ring) + Emitted(old(State()), Free(ssl), refused)
    {
      EmitClose(ssl, refused);
    }

    /** `emit_chunk_at` for the i-th chunk of the call that found the ring at `before` and has the buffer `text`. */
    method EmitChunkAt(dir: StreamDir, ssl: nat, buf: nat, mem: Memory, i: nat, len: nat, base: nat, refused: set<nat>,
                       ghost text: seq<byte>, ghost before: seq<Event>)
      requires text == ReadUser(mem, buf, len)
      requires ring == before + ChunkEvents(ssl, dir, text, base, i, refused)
      modifies this`ring
      ensures ring == before + ChunkEvents(ssl, dir, text, base, i + 1, refused)
    {
      var start := i * DATA_CAP;
      if start >= len {
        return;
      }
      var remaining := len - start;
      var n := if remaining > DATA_CAP then DATA_CAP else remaining;
      if i in refused {
        return;
      }
      var bytes := ReadUser(mem, buf + start, n);
      ReadUserSlice(mem, buf, len, start, n);
      ring := ring + [Data(ssl, dir, base + start, bytes)];
    }

    /** Unrolled, as the source has it. */
    method EmitData(dir: StreamDir, ssl: nat, buf: nat, len: nat, mem: Memory, refused: set<nat>)
      modifies this
      ensures State() == SetStreamOff(old(State()), ssl, dir, StreamOff(old(State()), ssl, dir) + len)
      ensures ring == old(ring) + ChunkEvents(ssl, dir, ReadUser(mem, buf, len), StreamOff(old(State()), ssl, dir),
                                              MAX_CHUNKS, refused)
    {
      var base := LoadStreamOff(ssl, dir);
      ghost var text := ReadUser(mem, buf, len);
      ghost var before := ring;
      EmitChunkAt(dir, ssl, buf, mem, 0, len, base, refused, text, before);
      EmitChunkAt(dir, ssl, buf, mem, 1, len, base, refused, text, before);
      EmitChunkAt(dir, ssl, buf, mem, 2, len, base, refused, text, before);
      EmitChunkAt(dir, ssl, buf, mem, 3, len, base, refused, text, before);
      EmitChunkAt(dir, ssl, buf, mem, 4, len, base, refused, text, before);
      EmitChunkAt(dir, ssl, buf, mem, 5, len, base, refused, text, before);
      EmitChunkAt(dir, ssl, buf, mem, 6, len, base, refused, text, before);
      EmitChunkAt(dir, ssl, buf, mem, 7, len, base, refused, text, before);
      StoreStreamOff(ssl, dir, base + len);
    }

    method LoadStreamOff(conn: nat, dir: StreamDir) returns (off: nat)
      ensures off == StreamOff(State(), conn, dir)
    {
      if dir.ClientToServer? {
        off := if conn in writeOff then writeOff[conn] else 0;
      } else {
        off := if conn in readOff then readOff[conn] else 0;
      }
    }

    method StoreStreamOff(conn: nat, dir: StreamDir, next: nat)
      modifies this`writeOff, this`readOff
      ensures State() == SetStreamOff(old(State()), conn, dir, next)
    {
      if dir.ClientToServer? {
        writeOff := writeOff[conn := next];
      } else {
        readOff := readOff[conn := next];
      }
    }

    method EmitClose(ssl: nat, refused: set<nat>)
      modifies this
      ensures State() == ForgetOffsets(old(State()), ssl)
      ensures ring == old(ring) + (if 0 in refused then [] else [Close(ssl)])
    {
      writeOff := writeOff - {ssl};
      readOff := readOff - {ssl};
      if 0 in refused {
        return;
      }
      ring := ring + [Close(ssl)];
    }
  }
}
