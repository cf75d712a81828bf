/**
 What every run of the capture machine guarantees about the frames it sends: loss never shifts a byte, overlapping
 frames agree, and without loss a stream's frames are exactly its plaintext.
 */
module TlsTheorems {
  import opened Bytes
  import opened Wrappers
  import opened Packets
  import opened Frames
  import opened FlowSynth
  import opened SslProbe
  import opened TlsCapture
  import opened FlowWire
  import opened ProbeHistory

  /**
   A standard decoder reads from the frame the flow's endpoints and a segment whose every byte is the plaintext byte
   at the stream offset that the sequence number stands for (sequence numbers start at 1 and wrap at 2^32).
   */
  predicate TellsTheTruth(w: World, s: Sent) {
    var d := DecodeFrame(s.pkt.data);
    && !IsHeartbeat(s.pkt)
    && s.tuple == SyntheticTuple(s.stream.conn, s.flow % TWO32)
    && d.Some?
    && d.value.src == Src(s.tuple, s.stream.dir)
    && d.value.dst == Dst(s.tuple, s.stream.dir)
    && d.value.flags == 0x18  // PSH and ACK
    && d.value.ack == 1
    && d.value.seqNo == (1 + s.piece.off) % 0x1_0000_0000
    && 0 < |d.value.payload| <= 60_000
    && s.piece.off + |d.value.payload| <= |PlainOf(w, s.stream)|
    && forall j :: 0 <= j < |d.value.payload| ==> d.value.payload[j] == PlainOf(w, s.stream)[s.piece.off + j]
  }

  lemma DataFrameDecodes(cfg: SynthConfig, t: ConnTuple, dir: StreamDir, p: Piece, ts: int)
    requires t.client.ip.V4? && t.server.ip.V4? && |p.payload| <= MAX_SEGMENT_PAYLOAD
    ensures DecodeFrame(DataPacket(cfg, t, dir, p, ts).data)
         == Some(Segment(Src(t, dir), Dst(t, dir), SeqNo(p.off), 1, TCP_PSH + TCP_ACK, p.payload))
  {
    SynthesizedFrameDecodes(Src(t, dir), Dst(t, dir), SeqNo(p.off), 1, TCP_PSH + TCP_ACK, p.payload);
  }

  lemma DataFrameIsTraffic(cfg: SynthConfig, t: ConnTuple, dir: StreamDir, p: Piece, ts: int)
    requires |p.payload| <= MAX_SEGMENT_PAYLOAD
    ensures !IsHeartbeat(DataPacket(cfg, t, dir, p, ts))
  {
    SynthesizedFrameIsTraffic(cfg.sourceId, Src(t, dir), Dst(t, dir), SeqNo(p.off), 1, TCP_PSH + TCP_ACK, p.payload, ts);
  }

  lemma PlacedTellsTheTruth(cfg: SynthConfig, w: World, s: Sent)
    requires SentPlaced(cfg, w, s)
    ensures TellsTheTruth(w, s)
  {
    SentFrameDecodes(cfg, s, s.tuple, s.stream.conn, s.flow % TWO32);
    PlacedBytes(w, s.stream, s.piece);
  }

  lemma SentFrameDecodes(cfg: SynthConfig, s: Sent, t: ConnTuple, conn: nat, generation: u32)
    requires t == s.tuple == SyntheticTuple(conn, generation) && |s.piece.payload| <= MAX_SEGMENT_PAYLOAD
    requires s.pkt == DataPacket(cfg, t, s.stream.dir, s.piece, s.ts)
    ensures DecodeFrame(s.pkt.data)
         == Some(Segment(Src(t, s.stream.dir), Dst(t, s.stream.dir), SeqNo(s.piece.off), 1, TCP_PSH + TCP_ACK,
                         s.piece.payload))
    ensures !IsHeartbeat(s.pkt)
  {
    DataFrameDecodes(cfg, t, s.stream.dir, s.piece, s.ts);
    DataFrameIsTraffic(cfg, t, s.stream.dir, s.piece, s.ts);
  }

  lemma PlacedBytes(w: World, st: Stream, p: Piece)
    requires Placed(w, st, p.off, p.payload)
    ensures p.off + |p.payload| <= |PlainOf(w, st)|
    ensures forall j :: 0 <= j < |p.payload| ==> p.payload[j] == PlainOf(w, st)[p.off + j]
  {
  }

  /**
   In every run, whatever the call sizes and whichever events the ring refuses, every frame tells the truth. A lost
   event leaves a gap; it never shifts a later byte.
   */
  lemma LossNeverShiftsAByte(cfg: SynthConfig, steps: seq<Step>)
    ensures var w := Run(cfg, steps);
            forall i :: 0 <= i < |w.sent| ==> TellsTheTruth(w, w.sent[i])
  {
    InvHolds(cfg, steps);
    var w := Run(cfg, steps);
    forall i | 0 <= i < |w.sent| ensures TellsTheTruth(w, w.sent[i]) {
      PlacedTellsTheTruth(cfg, w, w.sent[i]);
    }
  }

  /** Every frame carries the time of its delivery and the configured source. */
  lemma SentIsStamped(cfg: SynthConfig, steps: seq<Step>, i: nat)
    requires i < |Run(cfg, steps).sent|
    ensures var s := Run(cfg, steps).sent[i];
            Stamped(s.pkt, cfg, s.ts)
  {
    InvHolds(cfg, steps);
    assert SentPlaced(cfg, Run(cfg, steps), Run(cfg, steps).sent[i]);
  }

  lemma SentOnPlaceholder(cfg: SynthConfig, w: World, s: Sent)
    requires SentPlaced(cfg, w, s)
    ensures OnPlaceholder(s.pkt, s.stream.conn, s.flow % TWO32, s.stream.dir)
  {
    PlaceholderFrame(cfg, s.stream.conn, s.flow % TWO32, s.stream.dir, s.piece, s.ts);
  }

  /**
   Frames of one connection sent fewer than 34 delivered closes apart decode to different client ports; frames sent
   between the same two closes decode to the same two endpoints.
   */
  lemma FlowsDifferOnTheWire(cfg: SynthConfig, steps: seq<Step>, i: nat, j: nat)
    requires i < |Run(cfg, steps).sent| && j < |Run(cfg, steps).sent|
    requires Run(cfg, steps).sent[i].stream.conn == Run(cfg, steps).sent[j].stream.conn
    ensures var s, t := Run(cfg, steps).sent[i], Run(cfg, steps).sent[j];
            && OnPlaceholder(s.pkt, s.stream.conn, s.flow % TWO32, s.stream.dir)
            && OnPlaceholder(t.pkt, t.stream.conn, t.flow % TWO32, t.stream.dir)
            && var d, e := DecodeFrame(s.pkt.data).value, DecodeFrame(t.pkt.data).value;
            && (s.flow < t.flow < s.flow + 34 ==>
                  ClientEnd(d, s.stream.dir).port != ClientEnd(e, t.stream.dir).port)
            && (s.flow == t.flow ==>
                  ClientEnd(d, s.stream.dir) == ClientEnd(e, t.stream.dir)
                  && ServerEnd(d, s.stream.dir) == ServerEnd(e, t.stream.dir))
  {
    InvHolds(cfg, steps);
    var w := Run(cfg, steps);
    var s, t := w.sent[i], w.sent[j];
    SentOnPlaceholder(cfg, w, s);
    SentOnPlaceholder(cfg, w, t);
    PlaceholdersDiffer(s.stream.conn, s.flow, t.flow, s.pkt, s.stream.dir, t.pkt, t.stream.dir);
  }

  /** The direction a decoded frame travels in: toward port 443, or from it. */
  function DirectionOf(d: Segment): StreamDir {
    if d.dst.port == 443 then ClientToServer else ServerToClient
  }

  /** The frame's payload is a stretch of what the calls moved, in the direction and at the position it shows. */
  ghost predicate ShowsTheCalls(s: Sent, calls: seq<ProbeCall>) {
    && DecodeFrame(s.pkt.data).Some?
    && var d := DecodeFrame(s.pkt.data).value;
    IsStretch(d, s.piece.off, BytesOfLife(calls, s.stream.conn, DirectionOf(d), s.stream.epoch))
  }

  predicate IsStretch(d: Segment, off: nat, moved: seq<byte>) {
    && d.payload != [] && d.seqNo == (1 + off) % 0x1_0000_0000
    && off + |d.payload| <= |moved| && d.payload == moved[off..off + |d.payload|]
  }

  /**
   From the calls to the wire: whatever the ring refuses, every frame sent toward port 443 shows bytes that the
   application wrote, and every other frame bytes that it read, in one life of the connection, each at the position
   that the sequence number says.
   */
  lemma EveryFrameShowsTheCalls(cfg: SynthConfig, steps: seq<Step>, i: nat)
    requires i < |Run(cfg, steps).sent|
    ensures ShowsTheCalls(Run(cfg, steps).sent[i], CallsOf(steps))
  {
    var w := Run(cfg, steps);
    InvHolds(cfg, steps);
    assert SentPlaced(cfg, w, w.sent[i]);
    PlaintextIsTheCalls(cfg, steps);
    PlacedShowsTheCalls(cfg, w, w.sent[i], CallsOf(steps));
  }

  lemma PlacedShowsTheCalls(cfg: SynthConfig, w: World, s: Sent, calls: seq<ProbeCall>)
    requires SentPlaced(cfg, w, s) && HistoryTrue(w, calls)
    ensures ShowsTheCalls(s, calls)
  {
    SentOnPlaceholder(cfg, w, s);
    PlacedTellsTheTruth(cfg, w, s);
    DirectionShows(s);
    StreamIsTheLife(w, calls, s.stream);
    PayloadIsTheStretch(w, s, PlainOf(w, s.stream));
  }

  lemma StreamIsTheLife(w: World, calls: seq<ProbeCall>, st: Stream)
    requires HistoryTrue(w, calls)
    ensures PlainOf(w, st) == BytesOfLife(calls, st.conn, st.dir, st.epoch)
  {
    assert st == Stream(st.conn, st.dir, st.epoch);
  }

  lemma DirectionShows(s: Sent)
    requires OnPlaceholder(s.pkt, s.stream.conn, s.flow % TWO32, s.stream.dir)
    ensures DirectionOf(DecodeFrame(s.pkt.data).value) == s.stream.dir
  {
  }

  lemma PayloadIsTheStretch(w: World, s: Sent, plain: seq<byte>)
    requires TellsTheTruth(w, s) && plain == PlainOf(w, s.stream)
    ensures IsStretch(DecodeFrame(s.pkt.data).value, s.piece.off, plain)
  {
  }

  lemma PlacedInRun(cfg: SynthConfig, steps: seq<Step>, i: nat)
    requires i < |Run(cfg, steps).sent|
    ensures var w := Run(cfg, steps);
            var s := w.sent[i];
            && Placed(w, s.stream, s.piece.off, s.piece.payload)
            && |s.piece.payload| <= EffectiveSegment(cfg)
            && s.flow + s.lost == s.stream.epoch
            && s.lost <= Count(w.lost, s.stream.conn)
  {
    InvHolds(cfg, steps);
    assert SentPlaced(cfg, Run(cfg, steps), Run(cfg, steps).sent[i]);
  }

  /**
   A frame travels in the flow of its own epoch exactly when no close of its connection had been refused before its
   call; otherwise it lags by the number of closes refused.
   */
  lemma FlowIsTheEpochUnlessClosesWereRefused(cfg: SynthConfig, steps: seq<Step>, i: nat)
    requires i < |Run(cfg, steps).sent|
    ensures var s := Run(cfg, steps).sent[i];
            && s.flow + s.lost == s.stream.epoch
            && (s.flow == s.stream.epoch <==> s.lost == 0)
  {
    PlacedInRun(cfg, steps, i);
  }

  /**
   Byte a of one frame and byte b of another claim the same sequence number of one flow and direction, mean positions
   less than 2^32 apart, and the same number of closes had been refused before each.
   */
  predicate ClaimSameByte(s: Sent, a: nat, t: Sent, b: nat) {
    && s.stream.conn == t.stream.conn && s.stream.dir == t.stream.dir && s.flow == t.flow && s.lost == t.lost
    && a < |s.piece.payload| && b < |t.piece.payload|
    && (SeqNo(s.piece.off) + a) % TWO32 == (SeqNo(t.piece.off) + b) % TWO32
    && -TWO32 < (s.piece.off + a) - (t.piece.off + b) < TWO32
  }

  /** Overlapping frames never disagree. */
  lemma OverlapsAgree(cfg: SynthConfig, steps: seq<Step>, i: nat, a: nat, j: nat, b: nat)
    requires i < |Run(cfg, steps).sent| && j < |Run(cfg, steps).sent|
    requires ClaimSameByte(Run(cfg, steps).sent[i], a, Run(cfg, steps).sent[j], b)
    ensures Run(cfg, steps).sent[i].piece.payload[a] == Run(cfg, steps).sent[j].piece.payload[b]
  {
    var w := Run(cfg, steps);
    PlacedInRun(cfg, steps, i);
    PlacedInRun(cfg, steps, j);
    ClaimsAgree(w, w.sent[i], a, w.sent[j], b);
  }

  lemma ClaimsAgree(w: World, s: Sent, a: nat, t: Sent, b: nat)
    requires ClaimSameByte(s, a, t, b)
    requires Placed(w, s.stream, s.piece.off, s.piece.payload) && s.flow + s.lost == s.stream.epoch
    requires Placed(w, t.stream, t.piece.off, t.piece.payload) && t.flow + t.lost == t.stream.epoch
    ensures s.piece.payload[a] == t.piece.payload[b]
  {
    assert s.stream == t.stream;
    PlacedOverlap(w, s.stream, s.piece, t.piece, a, b);
  }

  lemma PlacedOverlap(w: World, st: Stream, p: Piece, q: Piece, a: nat, b: nat)
    requires Placed(w, st, p.off, p.payload) && Placed(w, st, q.off, q.payload)
    requires a < |p.payload| && b < |q.payload|
    requires (SeqNo(p.off) + a) % TWO32 == (SeqNo(q.off) + b) % TWO32
    requires -TWO32 < (p.off + a) - (q.off + b) < TWO32
    ensures p.payload[a] == q.payload[b]
  {
    SamePosition(p.off, a, q.off, b);
    PlacedByte(w, st, p, a);
    PlacedByte(w, st, q, b);
  }

  lemma PlacedByte(w: World, st: Stream, p: Piece, a: nat)
    requires Placed(w, st, p.off, p.payload) && a < |p.payload|
    ensures p.off + a < |PlainOf(w, st)| && p.payload[a] == PlainOf(w, st)[p.off + a]
  {
  }

  lemma SamePosition(p: nat, a: nat, q: nat, b: nat)
    requires (SeqNo(p) + a) % TWO32 == (SeqNo(q) + b) % TWO32
    requires -TWO32 < (p + a) - (q + b) < TWO32
    ensures p + a == q + b
  {
  }

  /**
   A refused close does harm: the next stream on the same SSL value restarts at offset 0 inside the old flow, and two
   frames then claim the same sequence numbers with different bytes.
   */
  lemma RefusedCloseSplicesStreams(cfg: SynthConfig)
    ensures var sent := Run(cfg, SpliceSteps()).sent;
            && |sent| == 2
            && sent[0].flow == sent[1].flow && sent[0].tuple == sent[1].tuple
            && sent[0].stream.dir == sent[1].stream.dir
            && sent[0].piece == Piece(0, [65]) && sent[1].piece == Piece(0, [66])
  {
    var steps := SpliceSteps();
    var w := Next(cfg, Next(cfg, Next(cfg, START, steps[0]), steps[1]), steps[2]);
    SplicedCalls(cfg, w);
    SplicedDeliveries(cfg, w, Next(cfg, w, steps[3]));
    RunOfFive(cfg, steps);
  }

  /** Memory that holds the byte `b` everywhere. */
  function Filled(b: byte): Memory {
    x => b
  }

  function SpliceSteps(): seq<Step> {
    [Call(SslWrite(7, 1, 1, Filled(65)), {}), Call(Shutdown(7), {0}),
     Call(SslWrite(7, 1, 1, Filled(66)), {}), Deliver(1), Deliver(2)]
  }

  lemma SplicedCalls(cfg: SynthConfig, w: World)
    requires var s := SpliceSteps(); w == Next(cfg, Next(cfg, Next(cfg, START, s[0]), s[1]), s[2])
    ensures w.ring == [Queued(Event.Data(7, ClientToServer, 0, [65]), 0, 0),
                       Queued(Event.Data(7, ClientToServer, 0, [66]), 1, 1)]
    ensures w.synth == FlowSynth.FRESH && w.closes == map[] && w.sent == []
  {
    var s := SpliceSteps();
    var w1 := Next(cfg, START, s[0]);
    WriteOneByte(START, w1, 65);
    var w2 := Next(cfg, w1, s[1]);
    RefusedShutdown(w1, w2);
    WriteOneByte(w2, w, 66);
  }

  lemma RefusedShutdown(w: World, w': World)
    requires w' == AfterCall(w, Shutdown(7), {0})
    ensures w' == w.(kernel := w'.kernel, epochs := w'.epochs, lost := w'.lost)
    ensures Count(w'.epochs, 7) == Count(w.epochs, 7) + 1 && Count(w'.lost, 7) == Count(w.lost, 7) + 1
    ensures StreamOff(w'.kernel, 7, ClientToServer) == 0
  {
    assert w'.ring == w.ring;
  }

  lemma WriteOneByte(w: World, w': World, b: byte)
    requires w' == AfterCall(w, SslWrite(7, 1, 1, Filled(b)), {}) && StreamOff(w.kernel, 7, ClientToServer) == 0
    ensures w'.ring == w.ring + [Queued(Event.Data(7, ClientToServer, 0, [b]), Count(w.epochs, 7), Count(w.lost, 7))]
    ensures w' == w.(ring := w'.ring, kernel := w'.kernel, plain := w'.plain)
  {
    assert ReadUser(Filled(b), 1, 1) == [b];
    OneByteCall(7, ClientToServer, [b], 0);
  }

  lemma SplicedDeliveries(cfg: SynthConfig, w: World, w': World)
    requires w.ring == [Queued(Event.Data(7, ClientToServer, 0, [65]), 0, 0),
                        Queued(Event.Data(7, ClientToServer, 0, [66]), 1, 1)]
    requires w.synth == FlowSynth.FRESH && w.closes == map[] && w.sent == []
    requires w' == Next(cfg, w, Deliver(1))
    ensures var sent := Next(cfg, w', Deliver(2)).sent;
            && |sent| == 2
            && sent[0].flow == sent[1].flow && sent[0].tuple == sent[1].tuple
            && sent[0].stream.dir == sent[1].stream.dir
            && sent[0].piece == Piece(0, [65]) && sent[1].piece == Piece(0, [66])
  {
    assert w'.ring == [Queued(Event.Data(7, ClientToServer, 0, [66]), 1, 1)];
    assert Entry(w'.synth, 7).tuple == Entry(w.synth, 7).tuple;
  }

  lemma OneByteCall(c: nat, d: StreamDir, text: seq<byte>, base: nat)
    requires |text| == 1
    ensures ChunkEvents(c, d, text, base, MAX_CHUNKS, {}) == [Event.Data(c, d, base, text)]
  {
    OneByteChunks(c, d, text, base, MAX_CHUNKS);
  }

  lemma {:induction false} OneByteChunks(c: nat, d: StreamDir, text: seq<byte>, base: nat, n: nat)
    requires |text| == 1 && 1 <= n
    ensures ChunkEvents(c, d, text, base, n, {}) == [Event.Data(c, d, base, text)]
  {
    if n > 1 {
      OneByteChunks(c, d, text, base, n - 1);
      assert ChunkEvent(c, d, text, base, n - 1, {}) == [];
    } else {
      assert text[0..1] == text;
      assert ChunkEvents(c, d, text, base, 0, {}) == [];
    }
  }

  lemma RunOfFive(cfg: SynthConfig, s: seq<Step>)
    requires |s| == 5
    ensures Run(cfg, s) == Next(cfg, Next(cfg, Next(cfg, Next(cfg, Next(cfg, START, s[0]), s[1]), s[2]), s[3]), s[4])
  {
    assert s[..4][..3] == s[..3] && s[..3][..2] == s[..2] && s[..2][..1] == s[..1] && s[..1][..0] == [];
    assert Run(cfg, s[..1]) == Next(cfg, START, s[0]);
    assert Run(cfg, s[..2]) == Next(cfg, Run(cfg, s[..1]), s[1]);
    assert Run(cfg, s[..3]) == Next(cfg, Run(cfg, s[..2]), s[2]);
    assert Run(cfg, s[..4]) == Next(cfg, Run(cfg, s[..3]), s[3]);
  }

  // ---- runs without loss ----

  /** Nothing refused and no call longer than its eight chunks hold. */
  predicate StepUnhindered(w: World, step: Step) {
    match step
    case Call(call, refused) =>
      refused == {} && (Interpret(w.kernel, call).Plaintext? ==> |Interpret(w.kernel, call).text| <= CALL_CAP)
    case Deliver(_) => true
  }

  predicate Unhindered(cfg: SynthConfig, steps: seq<Step>) {
    forall i :: 0 <= i < |steps| ==> StepUnhindered(Run(cfg, steps[..i]), steps[i])
  }

  function SentOf(s: Sent, st: Stream): seq<byte> {
    if s.stream == st then s.piece.payload else []
  }

  /** The payloads of a stream's frames, joined in the order they were sent. */
  function SentBytes(sent: seq<Sent>, st: Stream): seq<byte> {
    if sent == [] then [] else SentOf(sent[0], st) + SentBytes(sent[1..], st)
  }

  function QueuedOf(q: Queued, st: Stream): seq<byte> {
    if q.ev.Data? && Stream(q.ev.conn, q.ev.dir, q.epoch) == st then q.ev.bytes else []
  }

  function QueuedBytes(qs: seq<Queued>, st: Stream): seq<byte> {
    if qs == [] then [] else QueuedBytes(qs[..|qs| - 1], st) + QueuedOf(qs[|qs| - 1], st)
  }

  lemma Regroup(a: seq<byte>, b: seq<byte>, c: seq<byte>)
    ensures a + (b + c) == (a + b) + c
  {
  }

  lemma {:induction false} QueuedAppend(a: seq<Queued>, b: seq<Queued>, st: Stream)
    ensures QueuedBytes(a + b, st) == QueuedBytes(a, st) + QueuedBytes(b, st)
  {
    if b == [] {
      assert a + b == a;
    } else {
      var init, last := b[..|b| - 1], b[|b| - 1];
      QueuedAppend(a, init, st);
      assert (a + b)[..|a + b| - 1] == a + init && (a + b)[|a + b| - 1] == last;
      Regroup(QueuedBytes(a, st), QueuedBytes(init, st), QueuedOf(last, st));
    }
  }

  lemma QueuedHead(qs: seq<Queued>, st: Stream)
    requires qs != []
    ensures QueuedBytes(qs, st) == QueuedOf(qs[0], st) + QueuedBytes(qs[1..], st)
  {
    QueuedAppend(qs[..1], qs[1..], st);
    assert qs == qs[..1] + qs[1..] && qs[..1][..0] == [];
  }

  lemma {:induction false} TaggedBytes(es: seq<Event>, c: nat, d: StreamDir, epoch: nat, lost: nat, st: Stream)
    requires forall i :: 0 <= i < |es| ==> es[i].Data? && es[i].conn == c && es[i].dir == d
    ensures QueuedBytes(Tagged(es, epoch, lost), st) == if st == Stream(c, d, epoch) then EventBytes(es) else []
  {
    if es != [] {
      TaggedBytes(es[..|es| - 1], c, d, epoch, lost, st);
      assert Tagged(es, epoch, lost)[..|es| - 1] == Tagged(es[..|es| - 1], epoch, lost);
    }
  }

  lemma {:induction false} SentAppend(a: seq<Sent>, b: seq<Sent>, st: Stream)
    ensures SentBytes(a + b, st) == SentBytes(a, st) + SentBytes(b, st)
  {
    if a == [] {
      assert a + b == b;
    } else {
      SentAppend(a[1..], b, st);
      assert (a + b)[1..] == a[1..] + b && (a + b)[0] == a[0];
      Regroup(SentOf(a[0], st), SentBytes(a[1..], st), SentBytes(b, st));
    }
  }

  lemma {:induction false} SentPieces(fs: seq<Sent>, ps: seq<Piece>, own: Stream, st: Stream)
    requires |fs| == |ps| && forall i :: 0 <= i < |ps| ==> fs[i].stream == own && fs[i].piece == ps[i]
    ensures SentBytes(fs, st) == if st == own then Joined(ps) else []
  {
    if ps != [] {
      SentPieces(fs[1..], ps[1..], own, st);
    }
  }

  /** Sent plus queued is the whole plaintext, in order and without gaps. */
  ghost predicate Complete(w: World) {
    forall st :: SentBytes(w.sent, st) + QueuedBytes(w.ring, st) == PlainOf(w, st)
  }

  predicate SentContiguous(w: World) {
    forall i :: 0 <= i < |w.sent| ==> w.sent[i].piece.off == |SentBytes(w.sent[..i], w.sent[i].stream)|
  }

  predicate QueueContiguousAt(w: World, i: nat)
    requires i < |w.ring|
  {
    var q := w.ring[i];
    q.ev.Data? ==>
      var st := Stream(q.ev.conn, q.ev.dir, q.epoch);
      q.ev.seqOff == |SentBytes(w.sent, st)| + |QueuedBytes(w.ring[..i], st)|
  }

  predicate QueueContiguous(w: World) {
    forall i :: 0 <= i < |w.ring| ==> QueueContiguousAt(w, i)
  }

  ghost predicate Seamless(w: World) {
    && Complete(w) && SentContiguous(w) && QueueContiguous(w)
    && (forall c :: Count(w.lost, c) == 0)
  }

  lemma QueueKept(w: World, w': World)
    requires QueueContiguous(w) && w'.sent == w.sent && |w.ring| <= |w'.ring| && w'.ring[..|w.ring|] == w.ring
    ensures forall i :: 0 <= i < |w.ring| ==> QueueContiguousAt(w', i)
  {
    forall i | 0 <= i < |w.ring| ensures QueueContiguousAt(w', i) {
      assert QueueContiguousAt(w, i) && w'.ring[i] == w.ring[i] && w'.ring[..i] == w.ring[..i];
    }
  }

  /** `w'` is `w` after an unrefused call with plaintext `text`, whose events are `es`. */
  ghost predicate TextAdded(w: World, w': World, es: seq<Event>, c: nat, d: StreamDir, text: seq<byte>) {
    var st := Stream(c, d, Count(w.epochs, c));
    && |text| <= CALL_CAP
    && w'.sent == w.sent && w'.lost == w.lost
    && w'.ring == w.ring + Tagged(es, Count(w.epochs, c), Count(w.lost, c))
    && w'.plain == w.plain[st := PlainOf(w, st) + text]
    && es == ChunkEvents(c, d, text, |PlainOf(w, st)|, MAX_CHUNKS, {})
  }

  lemma CallEvents(es: seq<Event>, c: nat, d: StreamDir, text: seq<byte>, base: nat)
    requires |text| <= CALL_CAP && es == ChunkEvents(c, d, text, base, MAX_CHUNKS, {})
    ensures EventBytes(es) == text
    ensures forall i :: 0 <= i < |es| ==> es[i].Data? && es[i].conn == c && es[i].dir == d
  {
    EventsPlacedRight(c, d, text, base, MAX_CHUNKS, {});
    assert forall i :: 0 <= i < |es| ==> EventOf(es[i], c, d, text, base);
    UnrefusedCallBytes(c, d, text, base, MAX_CHUNKS, es);
  }

  lemma CompleteText(w: World, w': World, es: seq<Event>, c: nat, d: StreamDir, text: seq<byte>)
    requires Complete(w) && TextAdded(w, w', es, c, d, text)
    ensures Complete(w')
  {
    var own := Stream(c, d, Count(w.epochs, c));
    CallEvents(es, c, d, text, |PlainOf(w, own)|);
    forall st ensures SentBytes(w'.sent, st) + QueuedBytes(w'.ring, st) == PlainOf(w', st) {
      var added := if st == own then text else [];
      TextFor(w, w', es, c, d, text, st, added);
      Regroup(SentBytes(w.sent, st), QueuedBytes(w.ring, st), added);
    }
  }

  lemma TextFor(w: World, w': World, es: seq<Event>, c: nat, d: StreamDir, text: seq<byte>, st: Stream, added: seq<byte>)
    requires TextAdded(w, w', es, c, d, text) && EventBytes(es) == text
    requires forall i :: 0 <= i < |es| ==> es[i].Data? && es[i].conn == c && es[i].dir == d
    requires added == if st == Stream(c, d, Count(w.epochs, c)) then text else []
    ensures QueuedBytes(w'.ring, st) == QueuedBytes(w.ring, st) + added
    ensures PlainOf(w', st) == PlainOf(w, st) + added
  {
    TextQueued(w.ring, Tagged(es, Count(w.epochs, c), Count(w.lost, c)), es, c, d, Count(w.epochs, c), Count(w.lost, c), st);
    PlainExtended(w, w', Stream(c, d, Count(w.epochs, c)), text, st);
  }

  lemma TextQueued(ring: seq<Queued>, qs: seq<Queued>, es: seq<Event>, c: nat, d: StreamDir, epoch: nat, lost: nat,
                   st: Stream)
    requires forall i :: 0 <= i < |es| ==> es[i].Data? && es[i].conn == c && es[i].dir == d
    requires qs == Tagged(es, epoch, lost)
    ensures QueuedBytes(ring + qs, st)
         == QueuedBytes(ring, st) + if st == Stream(c, d, epoch) then EventBytes(es) else []
  {
    QueuedAppend(ring, qs, st);
    TaggedBytes(es, c, d, epoch, lost, st);
  }

  lemma PlainExtended(w: World, w': World, own: Stream, text: seq<byte>, st: Stream)
    requires w'.plain == w.plain[own := PlainOf(w, own) + text]
    ensures PlainOf(w', st) == PlainOf(w, st) + if st == own then text else []
  {
  }

  lemma OwnLength(w: World, own: Stream)
    requires Complete(w)
    ensures |SentBytes(w.sent, own)| + |QueuedBytes(w.ring, own)| == |PlainOf(w, own)|
  {
    assert SentBytes(w.sent, own) + QueuedBytes(w.ring, own) == PlainOf(w, own);
  }

  lemma QueueText(w: World, w': World, es: seq<Event>, c: nat, d: StreamDir, text: seq<byte>)
    requires Complete(w) && QueueContiguous(w) && TextAdded(w, w', es, c, d, text)
    ensures QueueContiguous(w')
  {
    var own := Stream(c, d, Count(w.epochs, c));
    CallEvents(es, c, d, text, |PlainOf(w, own)|);
    QueueKept(w, w');
    OwnLength(w, own);
    QueueNew(w, w', es, c, d, text);
  }

  lemma QueueNew(w: World, w': World, es: seq<Event>, c: nat, d: StreamDir, text: seq<byte>)
    requires TextAdded(w, w', es, c, d, text)
    requires forall i :: 0 <= i < |es| ==> es[i].Data? && es[i].conn == c && es[i].dir == d
    requires var own := Stream(c, d, Count(w.epochs, c));
             |SentBytes(w.sent, own)| + |QueuedBytes(w.ring, own)| == |PlainOf(w, own)|
    ensures forall i :: |w.ring| <= i < |w'.ring| ==> QueueContiguousAt(w', i)
  {
    forall i | |w.ring| <= i < |w'.ring| ensures QueueContiguousAt(w', i) {
      QueueTextAt(w, w', es, c, d, text, i - |w.ring|);
    }
  }

  lemma QueueTextAt(w: World, w': World, es: seq<Event>, c: nat, d: StreamDir, text: seq<byte>, k: nat)
    requires TextAdded(w, w', es, c, d, text) && k < |es|
    requires forall i :: 0 <= i < |es| ==> es[i].Data? && es[i].conn == c && es[i].dir == d
    requires var own := Stream(c, d, Count(w.epochs, c));
             |SentBytes(w.sent, own)| + |QueuedBytes(w.ring, own)| == |PlainOf(w, own)|
    ensures QueueContiguousAt(w', |w.ring| + k)
  {
    var own := Stream(c, d, Count(w.epochs, c));
    var part := Tagged(es[..k], Count(w.epochs, c), Count(w.lost, c));
    assert w'.ring[..|w.ring| + k] == w.ring + part;
    UnrefusedCallOffsets(c, d, text, |PlainOf(w, own)|, MAX_CHUNKS, es, k);
    QueuedAppend(w.ring, part, own);
    TaggedBytes(es[..k], c, d, Count(w.epochs, c), Count(w.lost, c), own);
  }

  lemma SeamlessText(w: World, w': World, es: seq<Event>, c: nat, d: StreamDir, text: seq<byte>)
    requires Seamless(w) && TextAdded(w, w', es, c, d, text)
    ensures Seamless(w')
  {
    CompleteText(w, w', es, c, d, text);
    QueueText(w, w', es, c, d, text);
  }

  lemma QueuedClose(ring: seq<Queued>, q: Queued, st: Stream)
    requires q.ev.Close?
    ensures QueuedBytes(ring + [q], st) == QueuedBytes(ring, st)
  {
    assert (ring + [q])[..|ring|] == ring;
  }

  lemma SeamlessClose(w: World, w': World, q: Queued)
    requires Seamless(w) && w'.sent == w.sent && w'.plain == w.plain
    requires forall k :: Count(w'.lost, k) == 0
    requires q.ev.Close? && w'.ring == w.ring + [q]
    ensures Seamless(w')
  {
    forall st ensures SentBytes(w'.sent, st) + QueuedBytes(w'.ring, st) == PlainOf(w', st) {
      assert SentBytes(w.sent, st) + QueuedBytes(w.ring, st) == PlainOf(w, st);
      QueuedClose(w.ring, q, st);
    }
    QueueKept(w, w');
    assert SentContiguous(w');
  }

  lemma SeamlessTeardown(w: World, w': World, call: ProbeCall)
    requires Seamless(w) && Interpret(w.kernel, call).Teardown? && w' == AfterCall(w, call, {})
    ensures Seamless(w')
  {
    var c := Interpret(w.kernel, call).gone;
    assert forall k :: Count(w'.lost, k) == Count(w.lost, k);
    SeamlessClose(w, w', Queued(Event.Close(c), Count(w.epochs, c), Count(w.lost, c)));
  }

  lemma SeamlessNothing(w: World, w': World, k: Kernel)
    requires Seamless(w) && w' == w.(kernel := k)
    ensures Seamless(w')
  {
    assert forall st :: PlainOf(w', st) == PlainOf(w, st);
    QueueKept(w, w');
  }

  lemma SeamlessCall(w: World, w': World, call: ProbeCall)
    requires OffsetsTrue(w) && Seamless(w) && StepUnhindered(w, Call(call, {})) && w' == AfterCall(w, call, {})
    ensures Seamless(w')
  {
    match Interpret(w.kernel, call) {
      case Plaintext(c, d, text) => SeamlessText(w, w', Emitted(w.kernel, call, {}), c, d, text);
      case Teardown(_) => SeamlessTeardown(w, w', call);
      case Nothing => SeamlessNothing(w, w', w'.kernel);
    }
  }

  /** `w'` is `w` after its head event was cut into the pieces `ps`, sent as `fs`. */
  ghost predicate Delivered(w: World, w': World, fs: seq<Sent>, ps: seq<Piece>, seg: nat) {
    && w.ring != [] && w.ring[0].ev.Data? && 1 <= seg
    && w'.ring == w.ring[1..] && w'.sent == w.sent + fs && w'.plain == w.plain && w'.lost == w.lost
    && var q := w.ring[0];
    && ps == Cut(q.ev.bytes, q.ev.seqOff, seg) && |fs| == |ps|
    && forall i :: 0 <= i < |ps| ==> fs[i].stream == Stream(q.ev.conn, q.ev.dir, q.epoch) && fs[i].piece == ps[i]
  }

  lemma DeliveredBytes(w: World, w': World, fs: seq<Sent>, ps: seq<Piece>, seg: nat, st: Stream)
    requires Delivered(w, w', fs, ps, seg)
    ensures SentBytes(w'.sent, st) == SentBytes(w.sent, st) + QueuedOf(w.ring[0], st)
    ensures QueuedBytes(w.ring, st) == QueuedOf(w.ring[0], st) + QueuedBytes(w'.ring, st)
  {
    var q := w.ring[0];
    SentAppend(w.sent, fs, st);
    SentPieces(fs, ps, Stream(q.ev.conn, q.ev.dir, q.epoch), st);
    assert Joined(ps) == q.ev.bytes by { CutIsExact(q.ev.bytes, q.ev.seqOff, seg); }
    QueuedHead(w.ring, st);
  }

  lemma DeliveredContiguous(w: World, w': World, fs: seq<Sent>, ps: seq<Piece>, seg: nat)
    requires SentContiguous(w) && QueueContiguous(w) && Delivered(w, w', fs, ps, seg)
    ensures SentContiguous(w')
  {
    var q := w.ring[0];
    var own := Stream(q.ev.conn, q.ev.dir, q.epoch);
    assert QueueContiguousAt(w, 0) && w.ring[..0] == [];
    forall i | 0 <= i < |w'.sent| ensures w'.sent[i].piece.off == |SentBytes(w'.sent[..i], w'.sent[i].stream)| {
      if i < |w.sent| {
        assert w'.sent[..i] == w.sent[..i];
      } else {
        var k := i - |w.sent|;
        assert w'.sent[..i] == w.sent + fs[..k];
        SentAppend(w.sent, fs[..k], own);
        SentPieces(fs[..k], ps[..k], own, own);
        assert ps[k].off == q.ev.seqOff + |Joined(ps[..k])| by { CutIsExact(q.ev.bytes, q.ev.seqOff, seg); }
      }
    }
  }

  lemma SeamlessDeliveredData(w: World, w': World, fs: seq<Sent>, ps: seq<Piece>, seg: nat)
    requires Seamless(w) && Delivered(w, w', fs, ps, seg)
    ensures Seamless(w')
  {
    DeliveredContiguous(w, w', fs, ps, seg);
    forall st
      ensures SentBytes(w'.sent, st) == SentBytes(w.sent, st) + QueuedOf(w.ring[0], st)
      ensures SentBytes(w'.sent, st) + QueuedBytes(w'.ring, st) == PlainOf(w', st)
    {
      DeliveredBytes(w, w', fs, ps, seg, st);
      Regroup(SentBytes(w.sent, st), QueuedOf(w.ring[0], st), QueuedBytes(w'.ring, st));
    }
    SeamlessQueueShift(w, w');
  }

  lemma SeamlessQueueShift(w: World, w': World)
    requires QueueContiguous(w) && w.ring != [] && w'.ring == w.ring[1..]
    requires forall st :: SentBytes(w'.sent, st) == SentBytes(w.sent, st) + QueuedOf(w.ring[0], st)
    ensures QueueContiguous(w')
  {
    forall i | 0 <= i < |w'.ring| ensures QueueContiguousAt(w', i) {
      assert QueueContiguousAt(w, i + 1) && w'.ring[i] == w.ring[i + 1];
      if w'.ring[i].ev.Data? {
        QueuedHead(w.ring[..i + 1], Stream(w'.ring[i].ev.conn, w'.ring[i].ev.dir, w'.ring[i].epoch));
        assert w.ring[..i + 1][1..] == w'.ring[..i];
      }
    }
  }

  lemma SeamlessDelivery(cfg: SynthConfig, w: World, w': World, ts: int)
    requires Seamless(w) && w.ring != [] && w' == AfterDelivery(cfg, w, ts)
    ensures Seamless(w')
  {
    match w.ring[0].ev {
      case Data(c, d, off, bytes) =>
        var ps := Cut(bytes, off, EffectiveSegment(cfg));
        SeamlessDeliveredData(w, w', w'.sent[|w.sent|..], ps, EffectiveSegment(cfg));
      case Close(c) =>
        SeamlessDeliveredClose(w, w');
    }
  }

  lemma SeamlessDeliveredClose(w: World, w': World)
    requires Seamless(w) && w.ring != [] && w.ring[0].ev.Close?
    requires w'.sent == w.sent && w'.plain == w.plain && w'.lost == w.lost && w'.ring == w.ring[1..]
    ensures Seamless(w')
  {
    forall st ensures QueuedBytes(w.ring, st) == QueuedBytes(w'.ring, st) && QueuedOf(w.ring[0], st) == [] {
      QueuedHead(w.ring, st);
    }
    assert forall st :: PlainOf(w', st) == PlainOf(w, st);
    SeamlessQueueShift(w, w');
  }

  lemma {:induction false} SeamlessRun(cfg: SynthConfig, steps: seq<Step>)
    requires Unhindered(cfg, steps)
    ensures Seamless(Run(cfg, steps))
  {
    if steps != [] {
      var init, last := steps[..|steps| - 1], steps[|steps| - 1];
      forall i | 0 <= i < |init| ensures StepUnhindered(Run(cfg, init[..i]), init[i]) {
        assert init[..i] == steps[..i] && StepUnhindered(Run(cfg, steps[..i]), steps[i]);
      }
      SeamlessRun(cfg, init);
      InvHolds(cfg, init);
      var w := Run(cfg, init);
      assert StepUnhindered(w, last);
      match last {
        case Call(call, refused) => SeamlessCall(w, Next(cfg, w, last), call);
        case Deliver(ts) => if w.ring != [] { SeamlessDelivery(cfg, w, Next(cfg, w, last), ts); }
      }
    }
  }

  /**
   Without loss, what a stream has sent at any moment of any run is a prefix of its plaintext, and all of it once the
   ring is drained.
   */
  lemma LosslessStream(cfg: SynthConfig, steps: seq<Step>, st: Stream)
    requires Unhindered(cfg, steps)
    ensures var w := Run(cfg, steps);
            && SentBytes(w.sent, st) <= PlainOf(w, st)
            && (w.ring == [] ==> SentBytes(w.sent, st) == PlainOf(w, st))
  {
    SeamlessRun(cfg, steps);
    var w := Run(cfg, steps);
    assert SentBytes(w.sent, st) + QueuedBytes(w.ring, st) == PlainOf(w, st);
  }

  /**
   Without loss, each frame sits directly behind the frames its stream sent before it (so sequence numbers run on
   from 1), carries between 1 and segment-size bytes and travels in its own epoch's flow.
   */
  lemma LosslessFrame(cfg: SynthConfig, steps: seq<Step>, i: nat)
    requires Unhindered(cfg, steps) && i < |Run(cfg, steps).sent|
    ensures var w := Run(cfg, steps);
            var s := w.sent[i];
            && s.piece.off == |SentBytes(w.sent[..i], s.stream)|
            && 1 <= |s.piece.payload| <= EffectiveSegment(cfg)
            && s.flow == s.stream.epoch
  {
    PlacedInRun(cfg, steps, i);
    SeamlessRun(cfg, steps);
    assert Count(Run(cfg, steps).lost, Run(cfg, steps).sent[i].stream.conn) == 0;
  }
}
