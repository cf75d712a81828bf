/**
 Whole runs of the synthesizer: any sequence of open, data and close calls, starting from a fresh one.
 The reference notions (`CloseCount`, `Live`, `MaxEnd`) look at the calls only, never at the synthesizer's state.
 */
module FlowRuns {
  import opened Bytes
  import opened Wrappers
  import opened Packets
  import opened Frames
  import opened FlowSynth
  import opened FlowWire

  datatype Op =
    | Open(conn: nat, tuple: ConnTuple)
    | Data(conn: nat, dir: StreamDir, bytes: seq<byte>, seqOff: nat)
    | Close(conn: nat)

  function Next(s: SynthState, op: Op): SynthState {
    match op
    case Open(c, t) => OpenNext(s, c, t)
    case Data(c, d, b, off) => DataNext(s, c, d, b, off)
    case Close(c) => CloseNext(s, c)
  }

  function Run(ops: seq<Op>): SynthState {
    if ops == [] then FRESH else Next(Run(ops[..|ops| - 1]), ops[|ops| - 1])
  }

  function CloseCount(ops: seq<Op>, c: nat): nat {
    if ops == [] then 0
    else CloseCount(ops[..|ops| - 1], c) + (if ops[|ops| - 1] == Close(c) then 1 else 0)
  }

  /** No close of `c` at or after position `i`. */
  predicate SameLife(ops: seq<Op>, c: nat, i: nat) {
    forall k :: i <= k < |ops| ==> ops[k] != Close(c)
  }

  predicate Opens(op: Op, c: nat) {
    op.conn == c && op.Open?
  }

  predicate Carries(op: Op, c: nat) {
    op.conn == c && op.Data? && op.bytes != []
  }

  /** Since its last close, `c` was opened or carried data. */
  predicate Live(ops: seq<Op>, c: nat) {
    exists i :: 0 <= i < |ops| && (Opens(ops[i], c) || Carries(ops[i], c)) && SameLife(ops, c, i)
  }

  /** Since its last close, `c` was never registered with a tuple of its own. */
  predicate LazyLife(ops: seq<Op>, c: nat) {
    forall i :: 0 <= i < |ops| && Opens(ops[i], c) ==> !SameLife(ops, c, i)
  }

  /** The greatest `seqOff + length` delivered for (c, dir) since `c` was last opened or closed, 0 if none. */
  function MaxEnd(ops: seq<Op>, c: nat, dir: StreamDir): nat {
    if ops == [] then 0
    else
      var last := ops[|ops| - 1];
      var before := MaxEnd(ops[..|ops| - 1], c, dir);
      if last == Close(c) || Opens(last, c) then 0
      else if Carries(last, c) && last.dir == dir && last.seqOff + |last.bytes| > before then last.seqOff + |last.bytes|
      else before
  }

  lemma {:induction false} LiveStep(ops: seq<Op>, c: nat)
    requires ops != []
    ensures var last := ops[|ops| - 1];
            Live(ops, c) <==> last != Close(c)
                              && (Live(ops[..|ops| - 1], c) || Opens(last, c) || Carries(last, c))
  {
    var last, init := ops[|ops| - 1], ops[..|ops| - 1];
    if last != Close(c) && Live(init, c) {
      var i :| 0 <= i < |init| && (Opens(init[i], c) || Carries(init[i], c)) && SameLife(init, c, i);
      assert ops[i] == init[i] && SameLife(ops, c, i);
    }
    if last != Close(c) && (Opens(last, c) || Carries(last, c)) {
      assert SameLife(ops, c, |ops| - 1);
    }
    if Live(ops, c) {
      var i :| 0 <= i < |ops| && (Opens(ops[i], c) || Carries(ops[i], c)) && SameLife(ops, c, i);
      assert ops[|ops| - 1] != Close(c);
      if i < |init| {
        assert init[i] == ops[i] && SameLife(init, c, i);
      }
    }
  }

  lemma {:induction false} LazyStep(ops: seq<Op>, c: nat)
    requires ops != []
    ensures var last := ops[|ops| - 1];
            LazyLife(ops, c) <==> last == Close(c) || (LazyLife(ops[..|ops| - 1], c) && !Opens(last, c))
  {
    var last, init := ops[|ops| - 1], ops[..|ops| - 1];
    if last == Close(c) {
      assert forall i :: 0 <= i < |ops| ==> !SameLife(ops, c, i);
    } else {
      forall i | 0 <= i < |init|
        ensures SameLife(init, c, i) <==> SameLife(ops, c, i)
      {
        if SameLife(ops, c, i) {
          forall k | i <= k < |init| ensures init[k] != Close(c) { assert ops[k] == init[k]; }
        }
      }
      assert SameLife(ops, c, |ops| - 1);
      if LazyLife(ops, c) {
        forall i | 0 <= i < |init| && Opens(init[i], c) ensures !SameLife(init, c, i) {
          assert ops[i] == init[i];
        }
      }
      if LazyLife(init, c) && !Opens(last, c) {
        forall i | 0 <= i < |ops| && Opens(ops[i], c) ensures !SameLife(ops, c, i) {
          assert i < |init| && ops[i] == init[i];
        }
      }
    }
  }

  /** A connection opened lazily cannot have a registration alive. */
  lemma LiveOrLazy(ops: seq<Op>, c: nat)
    ensures Live(ops, c) || LazyLife(ops, c)
  {
    if !LazyLife(ops, c) {
      var i :| 0 <= i < |ops| && Opens(ops[i], c) && SameLife(ops, c, i);
    }
  }

  /**
   After every run: the stored generation is the number of closes (modulo 2^32), the table holds exactly the live
   connections, each high-water mark is the greatest end delivered since the connection was opened, and a connection
   that was never registered in this life has the placeholder tuple of its current generation.
   */
  lemma {:induction false} StateMirrorsHistory(ops: seq<Op>, c: nat)
    ensures var s := Run(ops);
            && Generation(s, c) == CloseCount(ops, c) % TWO32
            && (c in s.conns <==> Live(ops, c))
            && (c in s.conns ==> forall dir :: s.conns[c].HiOff(dir) == MaxEnd(ops, c, dir))
            && (c !in s.conns ==> forall dir :: MaxEnd(ops, c, dir) == 0)
            && (c in s.conns && LazyLife(ops, c) ==>
                  s.conns[c].tuple == SyntheticTuple(c, CloseCount(ops, c) % TWO32))
  {
    if ops != [] {
      var init, last := ops[..|ops| - 1], ops[|ops| - 1];
      StateMirrorsHistory(init, c);
      LiveStep(ops, c);
      LazyStep(ops, c);
      assert last == Close(c) ==> (CloseCount(init, c) % TWO32 + 1) % TWO32 == (CloseCount(init, c) + 1) % TWO32;
      assert last.Close? && last.conn == c ==> last == Close(c);
      LiveOrLazy(init, c);
    }
  }

  /** Chunk i was delivered in `dir` since `c` was last opened or closed: it counts for the mark. */
  predicate Counted(ops: seq<Op>, c: nat, dir: StreamDir, i: int) {
    && 0 <= i < |ops| && Carries(ops[i], c) && ops[i].dir == dir && SameLife(ops, c, i)
    && forall k :: i < k < |ops| ==> !Opens(ops[k], c)
  }

  function End(op: Op): nat
    requires op.Data?
  {
    op.seqOff + |op.bytes|
  }

  lemma CountedInit(ops: seq<Op>, c: nat, dir: StreamDir, i: nat)
    requires i + 1 < |ops|
    ensures var last := ops[|ops| - 1];
            Counted(ops, c, dir, i) <==>
            Counted(ops[..|ops| - 1], c, dir, i) && last != Close(c) && !Opens(last, c)
  {
    var init := ops[..|ops| - 1];
    assert forall k :: 0 <= k < |init| ==> init[k] == ops[k];
    if Counted(init, c, dir, i) && ops[|ops| - 1] != Close(c) && !Opens(ops[|ops| - 1], c) {
      assert forall k :: i <= k < |ops| ==> k == |ops| - 1 || ops[k] == init[k];
    }
  }

  /** The mark bounds every chunk that counts for it, and one of them reaches it. */
  lemma {:induction false} MaxEndIsTheGreatest(ops: seq<Op>, c: nat, dir: StreamDir)
    ensures forall i :: Counted(ops, c, dir, i) ==> End(ops[i]) <= MaxEnd(ops, c, dir)
    ensures MaxEnd(ops, c, dir) == 0 || exists i :: Counted(ops, c, dir, i) && End(ops[i]) == MaxEnd(ops, c, dir)
  {
    if ops != [] {
      var n := |ops| - 1;
      var init, last := ops[..n], ops[n];
      MaxEndIsTheGreatest(init, c, dir);
      forall i | Counted(ops, c, dir, i) ensures End(ops[i]) <= MaxEnd(ops, c, dir) {
        if i < n {
          CountedInit(ops, c, dir, i);
        }
      }
      if MaxEnd(ops, c, dir) != 0 {
        if Carries(last, c) && last.dir == dir && End(last) == MaxEnd(ops, c, dir) {
          assert Counted(ops, c, dir, n);
        } else {
          var i :| Counted(init, c, dir, i) && End(init[i]) == MaxEnd(init, c, dir);
          CountedInit(ops, c, dir, i);
        }
      }
    }
  }

  /**
   As a standard decoder sees it, `p` goes from client to server (or back, for the other direction) and carries `flags`,
   sequence `seqNo` and no payload.
   */
  predicate IsControl(p: RawPacket, t: ConnTuple, dir: StreamDir, seqNo: u32, ack: u32, flags: byte) {
    var client, server := OnWire(t.client, t.server), OnWire(t.server, t.client);
    DecodeFrame(p.data)
      == Some(match dir
              case ClientToServer => Segment(client, server, seqNo, ack, flags, [])
              case ServerToClient => Segment(server, client, seqNo, ack, flags, []))
  }

  lemma ControlDecodes(cfg: SynthConfig, t: ConnTuple, dir: StreamDir, seqNo: u32, ack: u32, flags: byte, ts: int)
    ensures IsControl(ControlPacket(cfg, t, dir, seqNo, ack, flags, ts), t, dir, seqNo, ack, flags)
  {
    SynthesizedFrameDecodes(Src(t, dir), Dst(t, dir), seqNo, ack, flags, []);
  }

  /**
   Closing a live connection emits one FIN per direction, at 1 plus the greatest end delivered in that direction, and
   nothing for a connection that is not live (flags 0x11 are FIN and ACK). An opening handshake is a SYN and a SYN-ACK at sequence 0.
   */
  lemma CloseAfterRun(cfg: SynthConfig, ops: seq<Op>, c: nat, ts: int)
    ensures var out := CloseFrames(cfg, Run(ops), c, ts);
            if Live(ops, c) then
              && |out| == 2 && c in Run(ops).conns
              && IsControl(out[0], Run(ops).conns[c].tuple, ClientToServer,
                           SeqNo(MaxEnd(ops, c, ClientToServer)), 1, 0x11)
              && IsControl(out[1], Run(ops).conns[c].tuple, ServerToClient,
                           SeqNo(MaxEnd(ops, c, ServerToClient)), 1, 0x11)
            else out == []
  {
    StateMirrorsHistory(ops, c);
    if Live(ops, c) {
      var k := Run(ops).conns[c];
      assert k.hiC2s == k.HiOff(ClientToServer) && k.hiS2c == k.HiOff(ServerToClient);
      ControlDecodes(cfg, k.tuple, ClientToServer, SeqNo(k.hiC2s), 1, TCP_FIN + TCP_ACK, ts);
      ControlDecodes(cfg, k.tuple, ServerToClient, SeqNo(k.hiS2c), 1, TCP_FIN + TCP_ACK, ts);
    }
  }

  lemma HandshakeDecodes(cfg: SynthConfig, t: ConnTuple, ts: int)
    ensures var out := OpenFrames(cfg, t, ts);
            if cfg.emitHandshake then
              && |out| == 2
              && IsControl(out[0], t, ClientToServer, 0, 0, 0x02)
              && IsControl(out[1], t, ServerToClient, 0, 1, 0x12)
            else out == []
  {
    ControlDecodes(cfg, t, ClientToServer, 0, 0, TCP_SYN, ts);
    ControlDecodes(cfg, t, ServerToClient, 0, 1, TCP_SYN + TCP_ACK, ts);
  }

  /** Chunk i was sent on the 4-tuple that a close would send the FINs on. */
  predicate SameFlow(ops: seq<Op>, c: nat, i: nat)
    requires i < |ops|
  {
    c in Run(ops).conns && Entry(Run(ops[..i]), c).tuple == Run(ops).conns[c].tuple
  }

  /** Chunks that count for the mark travel in the flow of the FIN. */
  lemma {:induction false} CountedShareTheFlow(ops: seq<Op>, c: nat, dir: StreamDir, i: nat)
    requires Counted(ops, c, dir, i)
    ensures SameFlow(ops, c, i)
  {
    var n := |ops| - 1;
    if i < n {
      CountedInit(ops, c, dir, i);
      CountedShareTheFlow(ops[..n], c, dir, i);
      assert ops[..n][..i] == ops[..i];
    }
  }

  lemma SmallSeqNo(off: nat)
    requires off + 1 < TWO32
    ensures SeqNo(off) == off + 1
  {
  }

  /** All segments of a chunk lie after the SYN's sequence 0 and end at or before `fin`. */
  predicate EndsBefore(op: Op, seg: nat, fin: u32)
    requires op.Data? && 1 <= seg
  {
    var ps := Cut(op.bytes, op.seqOff, seg);
    forall k :: 0 <= k < |ps| ==> 0 < SeqNo(ps[k].off) && SeqNo(ps[k].off) + |ps[k].payload| <= fin
  }

  lemma {:induction false} LastPieceEnds(text: seq<byte>, off: nat, seg: nat)
    requires text != [] && 1 <= seg
    ensures var ps := Cut(text, off, seg);
            ps != [] && ps[|ps| - 1].off + |ps[|ps| - 1].payload| == off + |text|
    decreases |text|
  {
    if |text| > seg {
      LastPieceEnds(text[seg..], off + seg, seg);
    }
  }

  lemma EndsBeforeExactly(op: Op, seg: nat, hi: nat)
    requires op.Data? && op.bytes != [] && 1 <= seg && End(op) + 1 < TWO32 && hi + 1 < TWO32
    ensures EndsBefore(op, seg, SeqNo(hi)) <==> End(op) <= hi
  {
    var ps := Cut(op.bytes, op.seqOff, seg);
    SmallSeqNo(hi);
    PiecesAreSmall(op.bytes, op.seqOff, seg, ps);
    LastPieceEnds(op.bytes, op.seqOff, seg);
    if EndsBefore(op, seg, SeqNo(hi)) {
      assert SeqNo(ps[|ps| - 1].off) + |ps[|ps| - 1].payload| <= SeqNo(hi);
    }
  }

  lemma PiecesAreSmall(text: seq<byte>, off: nat, seg: nat, ps: seq<Piece>)
    requires 1 <= seg && ps == Cut(text, off, seg) && off + |text| + 1 < TWO32
    ensures forall k :: 0 <= k < |ps| ==>
              SeqNo(ps[k].off) == ps[k].off + 1 && ps[k].off + |ps[k].payload| <= off + |text|
  {
    CutIsExact(text, off, seg);
    forall k | 0 <= k < |ps|
      ensures SeqNo(ps[k].off) == ps[k].off + 1 && ps[k].off + |ps[k].payload| <= off + |text|
    {
      assert PieceOf(ps[k], text, off, seg);
      SmallSeqNo(ps[k].off);
    }
  }

  /**
   Close ordering on sequence numbers, exactly: a chunk of the closing life that ends below 2^32 - 1 has all its
   segments after the SYN and none beyond the FIN if and only if some chunk of its direction, delivered since the
   connection was last registered, reaches at least as far.
   */
  lemma DataEndsBeforeFinExactly(ops: seq<Op>, c: nat, i: nat, seg: nat)
    requires i < |ops| && Carries(ops[i], c) && SameLife(ops, c, i) && 1 <= seg
    requires End(ops[i]) + 1 < TWO32 && MaxEnd(ops, c, ops[i].dir) + 1 < TWO32
    ensures EndsBefore(ops[i], seg, SeqNo(MaxEnd(ops, c, ops[i].dir))) <==>
            exists j :: Counted(ops, c, ops[i].dir, j) && End(ops[j]) >= End(ops[i])
    ensures forall j :: Counted(ops, c, ops[i].dir, j) ==> SameFlow(ops, c, j)
  {
    forall j | Counted(ops, c, ops[i].dir, j) ensures SameFlow(ops, c, j) {
      CountedShareTheFlow(ops, c, ops[i].dir, j);
    }
    MaxEndIsTheGreatest(ops, c, ops[i].dir);
    EndsBeforeExactly(ops[i], seg, MaxEnd(ops, c, ops[i].dir));
  }

  /**
   In particular every chunk delivered since the connection was last registered ends before the FIN, in the FIN's own
   flow.
   */
  lemma DataEndsBeforeFin(ops: seq<Op>, c: nat, i: nat, seg: nat)
    requires i < |ops| && Carries(ops[i], c) && SameLife(ops, c, i) && 1 <= seg
    requires forall k :: i < k < |ops| ==> !Opens(ops[k], c)
    requires MaxEnd(ops, c, ops[i].dir) + 1 < TWO32
    ensures EndsBefore(ops[i], seg, SeqNo(MaxEnd(ops, c, ops[i].dir))) && SameFlow(ops, c, i)
  {
    assert Counted(ops, c, ops[i].dir, i);
    CountedShareTheFlow(ops, c, ops[i].dir, i);
    MaxEndIsTheGreatest(ops, c, ops[i].dir);
    DataEndsBeforeFinExactly(ops, c, i, seg);
  }

  /** The bound is tight: after 2^32 - 1 bytes the FIN's sequence wraps to 0, before the data. */
  lemma FinWrapsToZero(b: byte)
    ensures var ops := [Data(7, ClientToServer, [b], TWO32 - 2)];
            && MaxEnd(ops, 7, ClientToServer) == TWO32 - 1
            && SeqNo(MaxEnd(ops, 7, ClientToServer)) == 0
            && !EndsBefore(ops[0], 1, 0)
  {
    var ops := [Data(7, ClientToServer, [b], TWO32 - 2)];
    assert ops[..0] == [];
    assert Cut([b], TWO32 - 2, 1) == [Piece(TWO32 - 2, [b])];
    assert Cut(ops[0].bytes, ops[0].seqOff, 1)[0].off == TWO32 - 2;
  }

  /** Registering a connection again while it carries data forgets the mark: its FIN then precedes data already sent. */
  lemma ReopenForgetsTheMark(t: ConnTuple)
    ensures var ops := [Data(7, ClientToServer, [65, 66, 67], 0), Open(7, t)];
            && Live(ops, 7) && SameLife(ops, 7, 0) && SeqNo(MaxEnd(ops, 7, ClientToServer)) == 1 < 1 + |ops[0].bytes|
            && (SameFlow(ops, 7, 0) <==> t == SyntheticTuple(7, 0))
  {
    var ops := [Data(7, ClientToServer, [65, 66, 67], 0), Open(7, t)];
    assert ops[..0] == [] && ops[..1] == [ops[0]];
    assert Opens(ops[1], 7) && SameLife(ops, 7, 1);
  }

  // ---- reuse of a connection id ----

  /** `p` is one of the packets that delivering chunk i at time ts returns. */
  predicate Returned(cfg: SynthConfig, ops: seq<Op>, i: nat, ts: int, p: RawPacket)
    requires i < |ops| && ops[i].Data?
  {
    p in DataFrames(cfg, Run(ops[..i]), ops[i].conn, ops[i].dir, ops[i].bytes, ops[i].seqOff, ts)
  }

  /** Chunk i belongs to a life of c that was never registered. */
  predicate Lazily(ops: seq<Op>, c: nat, i: nat) {
    i < |ops| && Carries(ops[i], c) && LazyLife(ops[..i], c)
  }

  lemma LazyTuple(ops: seq<Op>, c: nat)
    requires LazyLife(ops, c)
    ensures Entry(Run(ops), c).tuple == SyntheticTuple(c, CloseCount(ops, c) % TWO32)
  {
    StateMirrorsHistory(ops, c);
  }

  lemma LazyFrameDecodes(cfg: SynthConfig, ops: seq<Op>, c: nat, i: nat, ts: int, p: RawPacket)
    requires Lazily(ops, c, i) && Returned(cfg, ops, i, ts, p)
    ensures OnPlaceholder(p, c, CloseCount(ops[..i], c) % TWO32, ops[i].dir)
  {
    LazyTuple(ops[..i], c);
    PlaceholderFrames(cfg, c, CloseCount(ops[..i], c) % TWO32, ops[i].dir, ops[i].bytes, ops[i].seqOff, ts, p);
  }

  /**
   Reusing a connection id changes the flow on the wire: frames of two unregistered lives fewer than 34 closes apart
   decode to different client ports, and frames of one such life to the same two endpoints.
   */
  lemma ReuseChangesTheFlow(cfg: SynthConfig, ops: seq<Op>, c: nat, i: nat, j: nat, ti: int, tj: int, p: RawPacket,
                            q: RawPacket)
    requires Lazily(ops, c, i) && Lazily(ops, c, j) && Returned(cfg, ops, i, ti, p) && Returned(cfg, ops, j, tj, q)
    ensures OnPlaceholder(p, c, CloseCount(ops[..i], c) % TWO32, ops[i].dir)
    ensures OnPlaceholder(q, c, CloseCount(ops[..j], c) % TWO32, ops[j].dir)
    ensures var d, e := DecodeFrame(p.data).value, DecodeFrame(q.data).value;
            var closes := CloseCount(ops[..j], c) - CloseCount(ops[..i], c);
            && (0 < closes < 34 ==> ClientEnd(d, ops[i].dir).port != ClientEnd(e, ops[j].dir).port)
            && (closes == 0 ==> ClientEnd(d, ops[i].dir) == ClientEnd(e, ops[j].dir)
                                && ServerEnd(d, ops[i].dir) == ServerEnd(e, ops[j].dir))
  {
    LazyFrameDecodes(cfg, ops, c, i, ti, p);
    LazyFrameDecodes(cfg, ops, c, j, tj, q);
    PlaceholdersDiffer(c, CloseCount(ops[..i], c), CloseCount(ops[..j], c), p, ops[i].dir, q, ops[j].dir);
  }
}
