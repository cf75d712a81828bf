/**
 Probe, ring buffer and synthesizer as one machine: hooked SSL calls append events to the ring (or find it full),
 deliveries take the oldest event and turn it into frames. Every interleaving is a sequence of steps.

 The world also keeps history that no component reads: the plaintext of each stream, how often each connection was
 torn down, how many of those teardowns the ring refused, and every data frame sent.
 */
module TlsCapture {
  import opened Bytes
  import opened Packets
  import opened FlowSynth
  import opened SslProbe

  /** One direction of one connection between two teardowns; `epoch` counts the teardowns before it. */
  datatype Stream = Stream(conn: nat, dir: StreamDir, epoch: nat)

  /** An event in the ring, with the connection's teardowns and refused teardowns at the time of its call. */
  datatype Queued = Queued(ev: Event, epoch: nat, lost: nat)

  /** A data frame, the stream its bytes came from, and the flow (closes delivered so far) it was sent in. */
  datatype Sent = Sent(stream: Stream, lost: nat, flow: nat, tuple: ConnTuple, piece: Piece, ts: int, pkt: RawPacket)

  datatype World = World(
    kernel: Kernel,
    ring: seq<Queued>,
    synth: SynthState,
    plain: map<Stream, seq<byte>>,
    epochs: map<nat, nat>,
    lost: map<nat, nat>,
    closes: map<nat, nat>,
    sent: seq<Sent>)

  datatype Step =
    | Call(call: ProbeCall, refused: set<nat>)
    | Deliver(ts: int)

  const START := World(BOOT, [], FlowSynth.FRESH, map[], map[], map[], map[], [])

  function Count(m: map<nat, nat>, c: nat): nat {
    if c in m then m[c] else 0
  }

  function PlainOf(w: World, st: Stream): seq<byte> {
    if st in w.plain then w.plain[st] else []
  }

  function Tagged(es: seq<Event>, epoch: nat, lost: nat): (qs: seq<Queued>)
    ensures |qs| == |es| && forall i :: 0 <= i < |es| ==> qs[i] == Queued(es[i], epoch, lost)
  {
    seq(|es|, i requires 0 <= i < |es| => Queued(es[i], epoch, lost))
  }

  function SentFrames(cfg: SynthConfig, st: Stream, lost: nat, flow: nat, t: ConnTuple, ps: seq<Piece>, ts: int)
    : (fs: seq<Sent>)
    ensures |fs| == |ps|
    ensures forall i :: 0 <= i < |ps| ==>
              fs[i] == Sent(st, lost, flow, t, ps[i], ts, DataPacket(cfg, t, st.dir, ps[i], ts))
  {
    seq(|ps|, i requires 0 <= i < |ps| => Sent(st, lost, flow, t, ps[i], ts, DataPacket(cfg, t, st.dir, ps[i], ts)))
  }

  function AfterCall(w: World, call: ProbeCall, refused: set<nat>): World {
    var k := KernelNext(w.kernel, call);
    match Interpret(w.kernel, call)
    case Plaintext(c, d, text) =>
      var st := Stream(c, d, Count(w.epochs, c));
      w.(kernel := k,
         ring := w.ring + Tagged(Emitted(w.kernel, call, refused), Count(w.epochs, c), Count(w.lost, c)),
         plain := w.plain[st := PlainOf(w, st) + text])
    case Teardown(c) =>
      w.(kernel := k,
         ring := w.ring + Tagged(Emitted(w.kernel, call, refused), Count(w.epochs, c), Count(w.lost, c)),
         epochs := w.epochs[c := Count(w.epochs, c) + 1],
         lost := w.lost[c := Count(w.lost, c) + (if 0 in refused then 1 else 0)])
    case Nothing => w.(kernel := k)
  }

  function AfterDelivery(cfg: SynthConfig, w: World, ts: int): World {
    if w.ring == [] then w
    else
      var q := w.ring[0];
      match q.ev
      case Data(c, d, off, bytes) =>
        w.(ring := w.ring[1..],
           synth := DataNext(w.synth, c, d, bytes, off),
           sent := w.sent + SentFrames(cfg, Stream(c, d, q.epoch), q.lost, Count(w.closes, c), Entry(w.synth, c).tuple,
                                       Cut(bytes, off, EffectiveSegment(cfg)), ts))
      case Close(c) =>
        w.(ring := w.ring[1..],
           synth := CloseNext(w.synth, c),
           closes := w.closes[c := Count(w.closes, c) + 1])
  }

  function Next(cfg: SynthConfig, w: World, step: Step): World {
    match step
    case Call(call, refused) => AfterCall(w, call, refused)
    case Deliver(ts) => AfterDelivery(cfg, w, ts)
  }

  function Run(cfg: SynthConfig, steps: seq<Step>): World {
    if steps == [] then START else Next(cfg, Run(cfg, steps[..|steps| - 1]), steps[|steps| - 1])
  }

  /** The frames that a delivery records are the ones the synthesizer returns. */
  lemma SentAreTheSynthesizersFrames(cfg: SynthConfig, w: World, ts: int)
    requires w.ring != [] && w.ring[0].ev.Data?
    ensures var ev := w.ring[0].ev;
            var w' := AfterDelivery(cfg, w, ts);
            var out := DataFrames(cfg, w.synth, ev.conn, ev.dir, ev.bytes, ev.seqOff, ts);
            && |w'.sent| == |w.sent| + |out|
            && forall i :: 0 <= i < |out| ==> w'.sent[|w.sent| + i].pkt == out[i] && w'.sent[|w.sent| + i].ts == ts
  {
  }

  // ---- the invariant ----

  /** `bytes` is the stretch of stream `st` at offset `off`. */
  predicate Placed(w: World, st: Stream, off: nat, bytes: seq<byte>) {
    && 0 < |bytes|
    && off + |bytes| <= |PlainOf(w, st)|
    && bytes == PlainOf(w, st)[off..off + |bytes|]
  }

  function ClosesIn(qs: seq<Queued>, c: nat): nat {
    if qs == [] then 0 else (if qs[0].ev == Close(c) then 1 else 0) + ClosesIn(qs[1..], c)
  }

  /** The kernel's counters are the lengths of the current streams; no stream of a future epoch exists. */
  ghost predicate OffsetsTrue(w: World) {
    && (forall c, d :: StreamOff(w.kernel, c, d) == |PlainOf(w, Stream(c, d, Count(w.epochs, c)))|)
    && (forall st :: st in w.plain ==> st.epoch <= Count(w.epochs, st.conn))
  }

  predicate RingPlaced(w: World) {
    forall i :: 0 <= i < |w.ring| && w.ring[i].ev.Data? ==>
      var q := w.ring[i];
      Placed(w, Stream(q.ev.conn, q.ev.dir, q.epoch), q.ev.seqOff, q.ev.bytes)
  }

  /** Teardowns are closes delivered, closes still in the ring and closes refused. */
  ghost predicate Balanced(w: World) {
    forall c :: Count(w.epochs, c) == Count(w.closes, c) + ClosesIn(w.ring, c) + Count(w.lost, c)
  }

  /** The flow an event will be delivered into is its epoch less the closes refused before it. */
  predicate TagTrue(w: World, i: nat)
    requires i < |w.ring|
  {
    var q := w.ring[i];
    && q.epoch == Count(w.closes, q.ev.conn) + ClosesIn(w.ring[..i], q.ev.conn) + q.lost
    && q.lost <= Count(w.lost, q.ev.conn)
  }

  predicate TagsTrue(w: World) {
    forall i :: 0 <= i < |w.ring| ==> TagTrue(w, i)
  }

  ghost predicate SynthTrue(w: World) {
    && (forall c :: Generation(w.synth, c) == Count(w.closes, c) % TWO32)
    && (forall c :: c in w.synth.conns ==>
          w.synth.conns[c].tuple == SyntheticTuple(c, Count(w.closes, c) % TWO32))
  }

  predicate SentPlaced(cfg: SynthConfig, w: World, s: Sent) {
    && Placed(w, s.stream, s.piece.off, s.piece.payload)
    && |s.piece.payload| <= EffectiveSegment(cfg)
    && s.stream.epoch == s.flow + s.lost
    && s.lost <= Count(w.lost, s.stream.conn)
    && s.tuple == SyntheticTuple(s.stream.conn, s.flow % TWO32)
    && s.pkt == DataPacket(cfg, s.tuple, s.stream.dir, s.piece, s.ts)
  }

  predicate AllSentPlaced(cfg: SynthConfig, w: World) {
    forall i :: 0 <= i < |w.sent| ==> SentPlaced(cfg, w, w.sent[i])
  }

  ghost predicate Inv(cfg: SynthConfig, w: World) {
    OffsetsTrue(w) && RingPlaced(w) && Balanced(w) && TagsTrue(w) && SynthTrue(w) && AllSentPlaced(cfg, w)
  }

  lemma {:induction false} ClosesAppend(a: seq<Queued>, b: seq<Queued>, c: nat)
    ensures ClosesIn(a + b, c) == ClosesIn(a, c) + ClosesIn(b, c)
  {
    if a == [] {
      assert a + b == b;
    } else {
      ClosesAppend(a[1..], b, c);
      assert (a + b)[1..] == a[1..] + b;
    }
  }

  lemma {:induction false} NoClosesInData(qs: seq<Queued>, c: nat)
    requires forall i :: 0 <= i < |qs| ==> qs[i].ev.Data?
    ensures ClosesIn(qs, c) == 0
  {
    if qs != [] {
      NoClosesInData(qs[1..], c);
    }
  }

  /** Growing streams at their end moves nothing that was placed. */
  lemma GrowthKeepsPlaced(w: World, w': World, st: Stream, off: nat, bytes: seq<byte>)
    requires Placed(w, st, off, bytes)
    requires PlainOf(w, st) <= PlainOf(w', st)
    ensures Placed(w', st, off, bytes)
  {
  }

  ghost predicate Grows(w: World, w': World) {
    && (forall st :: PlainOf(w, st) <= PlainOf(w', st))
    && (forall c :: Count(w.lost, c) <= Count(w'.lost, c))
  }

  lemma SentSurvives(cfg: SynthConfig, w: World, w': World)
    requires AllSentPlaced(cfg, w) && w'.sent == w.sent && Grows(w, w')
    ensures AllSentPlaced(cfg, w')
  {
    forall i | 0 <= i < |w'.sent| ensures SentPlaced(cfg, w', w'.sent[i]) {
      var s := w.sent[i];
      assert SentPlaced(cfg, w, s);
      GrowthKeepsPlaced(w, w', s.stream, s.piece.off, s.piece.payload);
    }
  }

  lemma RingSurvives(w: World, w': World)
    requires RingPlaced(w) && Grows(w, w') && |w'.ring| >= |w.ring| && w'.ring[..|w.ring|] == w.ring
    ensures forall i :: 0 <= i < |w.ring| && w'.ring[i].ev.Data? ==>
              var q := w'.ring[i];
              Placed(w', Stream(q.ev.conn, q.ev.dir, q.epoch), q.ev.seqOff, q.ev.bytes)
  {
    forall i | 0 <= i < |w.ring| && w'.ring[i].ev.Data?
      ensures var q := w'.ring[i];
              Placed(w', Stream(q.ev.conn, q.ev.dir, q.epoch), q.ev.seqOff, q.ev.bytes)
    {
      var q := w'.ring[i];
      assert q == w.ring[i];
      GrowthKeepsPlaced(w, w', Stream(q.ev.conn, q.ev.dir, q.epoch), q.ev.seqOff, q.ev.bytes);
    }
  }

  lemma PlaintextOffsets(w: World, w': World, call: ProbeCall, refused: set<nat>)
    requires OffsetsTrue(w) && Interpret(w.kernel, call).Plaintext? && w' == AfterCall(w, call, refused)
    ensures OffsetsTrue(w') && Grows(w, w')
  {
    var Plaintext(c, d, text) := Interpret(w.kernel, call);
    var st := Stream(c, d, Count(w.epochs, c));
    assert forall s :: s != st ==> PlainOf(w', s) == PlainOf(w, s);
  }

  /** The events of a call lie at their true offsets in the stream that the call extends. */
  lemma PlaintextRing(w: World, w': World, call: ProbeCall, refused: set<nat>)
    requires OffsetsTrue(w) && RingPlaced(w)
    requires Interpret(w.kernel, call).Plaintext? && w' == AfterCall(w, call, refused)
    ensures RingPlaced(w')
  {
    PlaintextOffsets(w, w', call, refused);
    var Plaintext(c, d, text) := Interpret(w.kernel, call);
    EventsAppended(w, w', Emitted(w.kernel, call, refused), c, d, text, refused);
  }

  lemma EventsAppended(w: World, w': World, es: seq<Event>, c: nat, d: StreamDir, text: seq<byte>, refused: set<nat>)
    requires RingPlaced(w) && Grows(w, w')
    requires w'.ring == w.ring + Tagged(es, Count(w.epochs, c), Count(w.lost, c))
    requires var st := Stream(c, d, Count(w.epochs, c));
             && PlainOf(w', st) == PlainOf(w, st) + text
             && es == ChunkEvents(c, d, text, |PlainOf(w, st)|, MAX_CHUNKS, refused)
    ensures RingPlaced(w')
  {
    RingSurvives(w, w');
    var st := Stream(c, d, Count(w.epochs, c));
    var base := |PlainOf(w, st)|;
    EventsPlacedRight(c, d, text, base, MAX_CHUNKS, refused);
    forall i | |w.ring| <= i < |w'.ring|
      ensures var q := w'.ring[i];
              q.ev.Data? && Placed(w', Stream(q.ev.conn, q.ev.dir, q.epoch), q.ev.seqOff, q.ev.bytes)
    {
      EventPlaced(w', st, es[i - |w.ring|], PlainOf(w, st), text);
    }
  }

  lemma EventPlaced(w: World, st: Stream, e: Event, before: seq<byte>, text: seq<byte>)
    requires EventOf(e, st.conn, st.dir, text, |before|) && PlainOf(w, st) == before + text
    ensures Placed(w, st, e.seqOff, e.bytes)
  {
    AppendedSlice(before, text, e.seqOff - |before|, |e.bytes|);
  }

  lemma AppendedSlice(s: seq<byte>, t: seq<byte>, a: nat, n: nat)
    requires a + n <= |t|
    ensures (s + t)[|s| + a..|s| + a + n] == t[a..a + n]
  {
  }

  lemma PlaintextTags(w: World, w': World, call: ProbeCall, refused: set<nat>)
    requires Balanced(w) && TagsTrue(w)
    requires Interpret(w.kernel, call).Plaintext? && w' == AfterCall(w, call, refused)
    ensures Balanced(w') && TagsTrue(w')
  {
    var Plaintext(c, d, text) := Interpret(w.kernel, call);
    var es := Emitted(w.kernel, call, refused);
    EventsPlacedRight(c, d, text, StreamOff(w.kernel, c, d), MAX_CHUNKS, refused);
    assert forall i :: 0 <= i < |es| ==> EventOf(es[i], c, d, text, StreamOff(w.kernel, c, d));
    DataAppended(w, w', es, c);
  }

  lemma DataAppended(w: World, w': World, es: seq<Event>, c: nat)
    requires Balanced(w) && TagsTrue(w) && w'.closes == w.closes && w'.lost == w.lost && w'.epochs == w.epochs
    requires forall i :: 0 <= i < |es| ==> es[i].Data? && es[i].conn == c
    requires w'.ring == w.ring + Tagged(es, Count(w.epochs, c), Count(w.lost, c))
    ensures Balanced(w') && TagsTrue(w')
  {
    var added := Tagged(es, Count(w.epochs, c), Count(w.lost, c));
    forall k ensures ClosesIn(w'.ring, k) == ClosesIn(w.ring, k) {
      ClosesAppend(w.ring, added, k);
      NoClosesInData(added, k);
    }
    forall i | 0 <= i < |w'.ring| ensures TagTrue(w', i) {
      if i < |w.ring| {
        assert TagTrue(w, i) && w'.ring[..i] == w.ring[..i];
      } else {
        assert w'.ring[..i] == w.ring + added[..i - |w.ring|];
        ClosesAppend(w.ring, added[..i - |w.ring|], c);
        NoClosesInData(added[..i - |w.ring|], c);
      }
    }
  }

  lemma TeardownOffsets(w: World, w': World, call: ProbeCall, refused: set<nat>)
    requires OffsetsTrue(w) && Interpret(w.kernel, call).Teardown? && w' == AfterCall(w, call, refused)
    ensures OffsetsTrue(w') && Grows(w, w')
  {
    var c := Interpret(w.kernel, call).gone;
    assert forall st :: PlainOf(w', st) == PlainOf(w, st);
    forall d ensures PlainOf(w', Stream(c, d, Count(w'.epochs, c))) == [] {
      assert Stream(c, d, Count(w'.epochs, c)) !in w.plain;
    }
  }

  lemma TeardownStep(cfg: SynthConfig, w: World, w': World, call: ProbeCall, refused: set<nat>)
    requires Inv(cfg, w) && Interpret(w.kernel, call).Teardown? && w' == AfterCall(w, call, refused)
    ensures Inv(cfg, w')
  {
    TeardownOffsets(w, w', call, refused);
    SentSurvives(cfg, w, w');
    TeardownRing(w, w', call, refused);
    TeardownTags(w, w', call, refused);
  }

  lemma TeardownRing(w: World, w': World, call: ProbeCall, refused: set<nat>)
    requires RingPlaced(w) && Grows(w, w') && Interpret(w.kernel, call).Teardown? && w' == AfterCall(w, call, refused)
    ensures RingPlaced(w')
  {
    RingSurvives(w, w');
  }

  lemma TeardownTags(w: World, w': World, call: ProbeCall, refused: set<nat>)
    requires Balanced(w) && TagsTrue(w)
    requires Interpret(w.kernel, call).Teardown? && w' == AfterCall(w, call, refused)
    ensures Balanced(w') && TagsTrue(w')
  {
    CloseAppended(w, w', Interpret(w.kernel, call).gone, 0 in refused);
  }

  lemma CloseAppended(w: World, w': World, c: nat, full: bool)
    requires Balanced(w) && TagsTrue(w) && w'.closes == w.closes
    requires w'.epochs == w.epochs[c := Count(w.epochs, c) + 1]
    requires w'.lost == w.lost[c := Count(w.lost, c) + (if full then 1 else 0)]
    requires w'.ring == w.ring + Tagged(if full then [] else [Close(c)], Count(w.epochs, c), Count(w.lost, c))
    ensures Balanced(w') && TagsTrue(w')
  {
    if full {
      assert w'.ring == w.ring;
      TagsOutlive(w, w');
    } else {
      CloseQueued(w, w', c, Queued(Close(c), Count(w.epochs, c), Count(w.lost, c)));
    }
  }

  /** Old tags stay true while the ring only grows and losses only mount. */
  lemma TagsOutlive(w: World, w': World)
    requires TagsTrue(w) && w'.closes == w.closes && forall k :: Count(w'.lost, k) >= Count(w.lost, k)
    requires |w'.ring| >= |w.ring| && w'.ring[..|w.ring|] == w.ring
    ensures forall i :: 0 <= i < |w.ring| ==> TagTrue(w', i)
  {
    forall i | 0 <= i < |w.ring| ensures TagTrue(w', i) {
      assert TagTrue(w, i) && w'.ring[i] == w.ring[i] && w'.ring[..i] == w.ring[..i];
    }
  }

  lemma CloseQueued(w: World, w': World, c: nat, q: Queued)
    requires Balanced(w) && TagsTrue(w) && w'.closes == w.closes
    requires w'.epochs == w.epochs[c := Count(w.epochs, c) + 1] && forall k :: Count(w'.lost, k) == Count(w.lost, k)
    requires q == Queued(Close(c), Count(w.epochs, c), Count(w.lost, c)) && w'.ring == w.ring + [q]
    ensures Balanced(w') && TagsTrue(w')
  {
    forall k ensures ClosesIn(w'.ring, k) == ClosesIn(w.ring, k) + if k == c then 1 else 0 {
      ClosesAppend(w.ring, [q], k);
      assert [q][1..] == [];
    }
    TagsOutlive(w, w');
    assert w'.ring[..|w.ring|] == w.ring;
  }

  lemma TagsSurvive(w: World, w': World)
    requires TagsTrue(w) && w'.ring == w.ring && w'.closes == w.closes && w'.lost == w.lost
    ensures TagsTrue(w')
  {
    forall i | 0 <= i < |w'.ring| ensures TagTrue(w', i) {
      assert TagTrue(w, i) && w'.ring[..i] == w.ring[..i];
    }
  }

  lemma CallStep(cfg: SynthConfig, w: World, w': World, call: ProbeCall, refused: set<nat>)
    requires Inv(cfg, w) && w' == AfterCall(w, call, refused)
    ensures Inv(cfg, w')
  {
    match Interpret(w.kernel, call) {
      case Plaintext(_, _, _) =>
        PlaintextOffsets(w, w', call, refused);
        PlaintextRing(w, w', call, refused);
        PlaintextTags(w, w', call, refused);
        SentSurvives(cfg, w, w');
      case Teardown(_) => TeardownStep(cfg, w, w', call, refused);
      case Nothing =>
        assert forall st :: PlainOf(w', st) == PlainOf(w, st);
        SentSurvives(cfg, w, w');
        RingSurvives(w, w');
        TagsSurvive(w, w');
    }
  }

  lemma DeliveryRing(w: World, w': World, cfg: SynthConfig, ts: int)
    requires RingPlaced(w) && w.ring != [] && w' == AfterDelivery(cfg, w, ts)
    ensures RingPlaced(w')
  {
    forall i | 0 <= i < |w'.ring| && w'.ring[i].ev.Data?
      ensures var q := w'.ring[i];
              Placed(w', Stream(q.ev.conn, q.ev.dir, q.epoch), q.ev.seqOff, q.ev.bytes)
    {
      var q := w'.ring[i];
      assert q == w.ring[i + 1];
      assert Placed(w, Stream(q.ev.conn, q.ev.dir, q.epoch), q.ev.seqOff, q.ev.bytes);
    }
  }

  lemma DeliveryTags(w: World, w': World, cfg: SynthConfig, ts: int)
    requires TagsTrue(w) && w.ring != [] && w' == AfterDelivery(cfg, w, ts)
    ensures TagsTrue(w')
  {
    forall i | 0 <= i < |w'.ring| ensures TagTrue(w', i) {
      assert TagTrue(w, i + 1);
      assert w'.ring[i] == w.ring[i + 1];
      assert w.ring[..i + 1][1..] == w'.ring[..i];
    }
  }

  lemma EntryTuple(w: World, c: nat)
    requires SynthTrue(w)
    ensures Entry(w.synth, c).tuple == SyntheticTuple(c, Count(w.closes, c) % TWO32)
  {
  }

  lemma DeliverySynth(cfg: SynthConfig, w: World, w': World, ts: int)
    requires SynthTrue(w) && w.ring != [] && w' == AfterDelivery(cfg, w, ts)
    ensures SynthTrue(w')
  {
    match w.ring[0].ev {
      case Data(c, d, off, bytes) => DataSynth(w, w', c, d, bytes, off);
      case Close(c) => CloseSynth(w, w', c);
    }
  }

  lemma DataSynth(w: World, w': World, c: nat, d: StreamDir, bytes: seq<byte>, off: nat)
    requires SynthTrue(w) && w'.synth == DataNext(w.synth, c, d, bytes, off) && w'.closes == w.closes
    ensures SynthTrue(w')
  {
    EntryTuple(w, c);
    assert forall k :: Generation(w'.synth, k) == Generation(w.synth, k);
  }

  lemma CloseSynth(w: World, w': World, c: nat)
    requires SynthTrue(w) && w'.synth == CloseNext(w.synth, c)
    requires w'.closes == w.closes[c := Count(w.closes, c) + 1]
    ensures SynthTrue(w')
  {
    WrapSucc(Count(w.closes, c));
    forall k ensures Generation(w'.synth, k) == Count(w'.closes, k) % TWO32 {
      assert Generation(w.synth, k) == Count(w.closes, k) % TWO32;
    }
  }

  lemma WrapSucc(n: nat)
    ensures (n % TWO32 + 1) % TWO32 == (n + 1) % TWO32
  {
  }

  lemma PiecePlaced(w: World, st: Stream, off: nat, bytes: seq<byte>, p: Piece, seg: nat)
    requires Placed(w, st, off, bytes) && PieceOf(p, bytes, off, seg)
    ensures Placed(w, st, p.off, p.payload) && |p.payload| <= seg
  {
    SliceOfSlice(PlainOf(w, st), off, |bytes|, p.off - off, |p.payload|);
  }

  lemma SliceOfSlice(s: seq<byte>, a: nat, n: nat, b: nat, m: nat)
    requires a + n <= |s| && b + m <= n
    ensures s[a..a + n][b..b + m] == s[a + b..a + b + m]
  {
    var part, whole := s[a..a + n][b..b + m], s[a + b..a + b + m];
    assert forall i :: 0 <= i < m ==> part[i] == whole[i];
  }

  lemma DeliveredPieces(cfg: SynthConfig, w: World, w': World, ts: int)
    requires RingPlaced(w) && TagsTrue(w) && SynthTrue(w) && AllSentPlaced(cfg, w)
    requires w.ring != [] && w.ring[0].ev.Data? && w' == AfterDelivery(cfg, w, ts)
    ensures AllSentPlaced(cfg, w')
  {
    var q := w.ring[0];
    var st, seg := Stream(q.ev.conn, q.ev.dir, q.epoch), EffectiveSegment(cfg);
    var ps := Cut(q.ev.bytes, q.ev.seqOff, seg);
    assert TagTrue(w, 0) && w.ring[..0] == [];
    EntryTuple(w, q.ev.conn);
    CutIsExact(q.ev.bytes, q.ev.seqOff, seg);
    var fs := SentFrames(cfg, st, q.lost, Count(w.closes, q.ev.conn), Entry(w.synth, q.ev.conn).tuple, ps, ts);
    FramesArePlaced(cfg, w, st, q, ps, fs);
    SentAdded(cfg, w, w', fs);
  }

  lemma SentAdded(cfg: SynthConfig, w: World, w': World, fs: seq<Sent>)
    requires AllSentPlaced(cfg, w) && forall i :: 0 <= i < |fs| ==> SentPlaced(cfg, w, fs[i])
    requires w'.sent == w.sent + fs && w'.plain == w.plain && w'.lost == w.lost
    ensures AllSentPlaced(cfg, w')
  {
    forall i | 0 <= i < |w'.sent| ensures SentPlaced(cfg, w', w'.sent[i]) {
      if i < |w.sent| {
        SamePlace(cfg, w, w', w.sent[i]);
      } else {
        SamePlace(cfg, w, w', fs[i - |w.sent|]);
      }
    }
  }

  lemma SamePlace(cfg: SynthConfig, w: World, w': World, s: Sent)
    requires SentPlaced(cfg, w, s) && w'.plain == w.plain && w'.lost == w.lost
    ensures SentPlaced(cfg, w', s)
  {
  }

  lemma FramesArePlaced(cfg: SynthConfig, w: World, st: Stream, q: Queued, ps: seq<Piece>, fs: seq<Sent>)
    requires q.ev.Data? && Placed(w, st, q.ev.seqOff, q.ev.bytes)
    requires forall i :: 0 <= i < |ps| ==> PieceOf(ps[i], q.ev.bytes, q.ev.seqOff, EffectiveSegment(cfg))
    requires |fs| == |ps| && forall i :: 0 <= i < |fs| ==>
               && fs[i].stream == st && fs[i].piece == ps[i] && st.epoch == fs[i].flow + fs[i].lost
               && fs[i].lost <= Count(w.lost, st.conn) && fs[i].tuple == SyntheticTuple(st.conn, fs[i].flow % TWO32)
               && fs[i].pkt == DataPacket(cfg, fs[i].tuple, st.dir, ps[i], fs[i].ts)
    ensures forall i :: 0 <= i < |fs| ==> SentPlaced(cfg, w, fs[i])
  {
    forall i | 0 <= i < |fs| ensures SentPlaced(cfg, w, fs[i]) {
      PiecePlaced(w, st, q.ev.seqOff, q.ev.bytes, ps[i], EffectiveSegment(cfg));
    }
  }

  lemma DeliveryStep(cfg: SynthConfig, w: World, w': World, ts: int)
    requires Inv(cfg, w) && w' == AfterDelivery(cfg, w, ts)
    ensures Inv(cfg, w')
  {
    if w.ring != [] {
      DeliveryOffsets(cfg, w, w', ts);
      DeliveryRing(w, w', cfg, ts);
      DeliveryTags(w, w', cfg, ts);
      DeliverySynth(cfg, w, w', ts);
      if w.ring[0].ev.Data? {
        DeliveredPieces(cfg, w, w', ts);
      } else {
        SentSurvives(cfg, w, w');
      }
    }
  }

  lemma DeliveryOffsets(cfg: SynthConfig, w: World, w': World, ts: int)
    requires OffsetsTrue(w) && w' == AfterDelivery(cfg, w, ts)
    ensures OffsetsTrue(w') && Grows(w, w')
  {
    assert forall st :: PlainOf(w', st) == PlainOf(w, st);
  }

  lemma {:induction false} InvHolds(cfg: SynthConfig, steps: seq<Step>)
    ensures Inv(cfg, Run(cfg, steps))
  {
    if steps != [] {
      var w, last := Run(cfg, steps[..|steps| - 1]), steps[|steps| - 1];
      InvHolds(cfg, steps[..|steps| - 1]);
      match last {
        case Call(call, refused) => CallStep(cfg, w, Next(cfg, w, last), call, refused);
        case Deliver(ts) => DeliveryStep(cfg, w, Next(cfg, w, last), ts);
      }
    }
  }
}
