/**
 Per-connection frame synthesis (server/h-capture/src/synth.rs): placeholder tuples, and the synthesizer that opens
 connections, cuts plaintext chunks into TCP segments and closes with FINs.
 */
module FlowSynth {
  import opened Bytes
  import opened Packets
  import opened Frames

  const DEFAULT_SEGMENT_SIZE := 16 * 1024
  const SYNTH_ISN := 1

  datatype StreamDir = ClientToServer | ServerToClient
  datatype ConnTuple = ConnTuple(client: SocketAddr, server: SocketAddr)
  datatype SynthConfig = SynthConfig(sourceId: string, segmentSize: nat, emitHandshake: bool)

  /** The configured size where a frame can carry it, 16 KiB for an unset one, and never over the limit. */
  function EffectiveSegment(cfg: SynthConfig): (seg: nat)
    ensures 1 <= seg <= MAX_SEGMENT_PAYLOAD
    ensures 1 <= cfg.segmentSize <= 60_000 ==> seg == cfg.segmentSize
    ensures cfg.segmentSize > 60_000 ==> seg == 60_000
    ensures cfg.segmentSize == 0 ==> seg == 16_384
  {
    if cfg.segmentSize == 0 then DEFAULT_SEGMENT_SIZE
    else if cfg.segmentSize < MAX_SEGMENT_PAYLOAD then cfg.segmentSize
    else MAX_SEGMENT_PAYLOAD
  }

  // ---- placeholder tuples ----

  /** The client port before the clamp; both additions and the product wrap at 16 bits. */
  function RawPort(connId: nat, generation: u32): u16 {
    (1024 + connId % TWO32 / TWO16 + generation % TWO16 * 40503 % TWO16) % TWO16
  }

  function ClientPort(connId: nat, generation: u32): (p: u16)
    ensures 1024 <= p
  {
    if RawPort(connId, generation) < 1024 then 1024 else RawPort(connId, generation)
  }

  function SyntheticTuple(connId: nat, generation: u32): ConnTuple {
    var lo := connId % TWO32;
    var hi := connId / TWO32;
    ConnTuple(SocketAddr(V4([127, 64, lo / 0x100 % 0x100, lo % 0x100]), ClientPort(connId, generation)),
              SocketAddr(V4([192, 0, 2, hi % 0x100]), 443))
  }

  lemma MultiplierSpreads(d: nat)
    requires 1 <= d < 34
    ensures 1024 < d * 40503 % TWO16 < TWO16 - 1024
  {
    var q := d * 40503 / TWO16;
    NoNearMultiple(d, q);
  }

  lemma NoNearMultiple(d: nat, q: int)
    requires 1 <= d < 34 && 0 <= d * 40503 - q * TWO16 < TWO16
    ensures 1024 < d * 40503 - q * TWO16 < TWO16 - 1024
  {
    assert 0 <= q <= 20;
  }

  lemma AddWraps(k: int, r: int)
    ensures (k * TWO16 + r) % TWO16 == r % TWO16
  {
  }

  /**
   Two generations of one connection id share a client port exactly when they agree modulo 2^16
   or both raw ports fall at or below the clamp.
   */
  lemma PortsCollideExactly(connId: nat, g1: u32, g2: u32)
    ensures ClientPort(connId, g1) == ClientPort(connId, g2) <==>
            g1 % TWO16 == g2 % TWO16 || (RawPort(connId, g1) <= 1024 && RawPort(connId, g2) <= 1024)
  {
    if RawPort(connId, g1) == RawPort(connId, g2) {
      OddMultiplierInjective(g1 % TWO16, g2 % TWO16);
    }
  }

  /** 40503 is odd: its inverse modulo 2^16 is 30599, so the wrapping product determines the generation. */
  lemma OddMultiplierInjective(a: nat, b: nat)
    requires a < TWO16 && b < TWO16 && a * 40503 % TWO16 == b * 40503 % TWO16
    ensures a == b
  {
    UndoMultiplier(a);
    UndoMultiplier(b);
  }

  const INVERSE := 30599

  lemma UndoMultiplier(a: nat)
    requires a < TWO16
    ensures a * 40503 % TWO16 * INVERSE % TWO16 == a
  {
    var q := a * 40503 / TWO16;
    var r := a * 40503 % TWO16;
    assert 40503 * INVERSE == 18911 * TWO16 + 1;
    assert r * INVERSE == a * (40503 * INVERSE) - q * TWO16 * INVERSE;
    assert r * INVERSE == (a * 18911 - q * INVERSE) * TWO16 + a;
    AddWraps(a * 18911 - q * INVERSE, a);
  }

  /** Reusing a connection id fewer than 34 closes later always changes the client port. */
  lemma NearbyGenerationsDiffer(connId: nat, g1: nat, g2: nat)
    requires g1 < g2 < g1 + 34
    ensures ClientPort(connId, g1 % TWO32) != ClientPort(connId, g2 % TWO32)
  {
    var d := g2 - g1;
    MultiplierSpreads(d);
    GenerationStep(connId, g1, d);
  }

  lemma GenerationStep(connId: nat, g: nat, d: nat)
    ensures RawPort(connId, (g + d) % TWO32) == (RawPort(connId, g % TWO32) + d * 40503 % TWO16) % TWO16
  {
    WrappedProduct(g);
    WrappedProduct(g + d);
    ModStep(1024 + connId % TWO32 / TWO16, g * 40503, d * 40503);
  }

  lemma ModStep(c: nat, x: nat, y: nat)
    ensures (c + (x + y) % TWO16) % TWO16 == ((c + x % TWO16) % TWO16 + y % TWO16) % TWO16
  {
    ModAdd(c, x + y);
    ModAdd(c, x);
    ModAdd(y, c + x % TWO16);
    ModAdd(y + c, x);
    ModAdd((c + x % TWO16) % TWO16, y);
  }

  lemma ModAdd(a: nat, b: nat)
    ensures (a + b % TWO16) % TWO16 == (a + b) % TWO16
  {
    AddWraps(b / TWO16, a + b % TWO16);
  }

  lemma WrappedProduct(g: nat)
    ensures g % TWO32 % TWO16 * 40503 % TWO16 == g * 40503 % TWO16
  {
    Low16(g);
    LowProduct(g);
  }

  lemma Low16(g: nat)
    ensures g % TWO32 % TWO16 == g % TWO16
  {
    AddWraps(g / TWO32 * TWO16, g % TWO32);
  }

  lemma LowProduct(g: nat)
    ensures g % TWO16 * 40503 % TWO16 == g * 40503 % TWO16
  {
    var q, r := g / TWO16, g % TWO16;
    AddWraps(q * 40503, r * 40503);
  }

  /** The bound is tight: 34 generations apart, both raw ports can be clamped to 1024. */
  lemma ThirtyFourGenerationsCollide()
    ensures var connId := 64512 * TWO16;
            SyntheticTuple(connId, 0) == SyntheticTuple(connId, 34)
  {
  }

  // ---- segments ----

  function SeqNo(off: nat): u32 {
    (SYNTH_ISN + off) % TWO32
  }

  /** Two wrapping 32-bit additions land on the sequence number of the absolute offset. */
  method SequenceAt(base: nat, offset: nat) returns (seqNo: u32)
    ensures seqNo == SeqNo(base + offset)
  {
    var seq0 := (SYNTH_ISN + base % TWO32) % TWO32;
    seqNo := (seq0 + offset % TWO32) % TWO32;
  }

  /** One segment's share of a stream: payload[0] is the byte at absolute offset `off`. */
  datatype Piece = Piece(off: nat, payload: seq<byte>)

  function Cut(text: seq<byte>, off: nat, seg: nat): seq<Piece>
    requires 1 <= seg
    decreases |text|
  {
    if text == [] then []
    else if |text| <= seg then [Piece(off, text)]
    else [Piece(off, text[..seg])] + Cut(text[seg..], off + seg, seg)
  }

  function Joined(ps: seq<Piece>): seq<byte> {
    if ps == [] then [] else ps[0].payload + Joined(ps[1..])
  }

  /** Every piece is the stretch of `text` that its offset says, never empty and never over the segment size. */
  predicate PieceOf(p: Piece, text: seq<byte>, off: nat, seg: nat) {
    && off <= p.off
    && 1 <= |p.payload| <= seg
    && p.off - off + |p.payload| <= |text|
    && p.payload == text[p.off - off..p.off - off + |p.payload|]
  }

  /**
   Cutting loses nothing, adds nothing and moves nothing: the pieces join to the text, each is the stretch its offset
   says, and each sits right behind the ones before it.
   */
  lemma {:induction false} CutIsExact(text: seq<byte>, off: nat, seg: nat)
    requires 1 <= seg
    ensures var ps := Cut(text, off, seg);
            && Joined(ps) == text
            && (forall i :: 0 <= i < |ps| ==> PieceOf(ps[i], text, off, seg))
            && (forall i :: 0 <= i < |ps| ==> ps[i].off == off + |Joined(ps[..i])|)
    decreases |text|
  {
    var ps := Cut(text, off, seg);
    if |text| > seg {
      var rest := Cut(text[seg..], off + seg, seg);
      CutIsExact(text[seg..], off + seg, seg);
      assert ps[1..] == rest && text == text[..seg] + text[seg..];
      forall i | 0 < i < |ps|
        ensures PieceOf(ps[i], text, off, seg) && ps[i].off == off + |Joined(ps[..i])|
      {
        PieceShift(rest[i - 1], text, off, seg);
        JoinedCons(ps[0], rest, i, ps);
      }
    } else if text != [] {
      assert ps[..0] == [] && ps[1..] == [];
      assert Joined(ps) == text + Joined([]);
    }
  }

  lemma CutStep(text: seq<byte>, from: nat, to: nat, base: nat, seg: nat, ps: seq<Piece>)
    requires 1 <= seg && from < |text| && to == (if from + seg < |text| then from + seg else |text|)
    requires ps == Cut(text[from..], base + from, seg)
    ensures ps != [] && ps[0] == Piece(base + from, text[from..to]) && ps[1..] == Cut(text[to..], base + to, seg)
  {
    assert text[from..][to - from..] == text[to..];
  }

  lemma JoinedCons(p: Piece, rest: seq<Piece>, i: nat, ps: seq<Piece>)
    requires ps == [p] + rest && 0 < i <= |ps|
    ensures Joined(ps[..i]) == p.payload + Joined(rest[..i - 1])
  {
    assert ps[..i][1..] == rest[..i - 1];
  }

  lemma PieceShift(p: Piece, text: seq<byte>, off: nat, seg: nat)
    requires 1 <= seg <= |text| && PieceOf(p, text[seg..], off + seg, seg)
    ensures PieceOf(p, text, off, seg)
  {
  }

  // ---- connection state ----

  datatype ConnState = ConnState(tuple: ConnTuple, hiC2s: nat, hiS2c: nat) {
    function HiOff(dir: StreamDir): nat {
      match dir case ClientToServer => hiC2s case ServerToClient => hiS2c
    }

    /** Raises the direction's high-water mark to at least `end`. */
    function Observe(dir: StreamDir, end: nat): (c: ConnState)
      ensures c.tuple == tuple
      ensures c.HiOff(dir) >= end && c.HiOff(dir) >= HiOff(dir) && (c.HiOff(dir) == end || c.HiOff(dir) == HiOff(dir))
      ensures forall d :: d != dir ==> c.HiOff(d) == HiOff(d)
    {
      match dir
      case ClientToServer => if end > hiC2s then this.(hiC2s := end) else this
      case ServerToClient => if end > hiS2c then this.(hiS2c := end) else this
    }
  }

  function NewConn(tuple: ConnTuple): ConnState {
    ConnState(tuple, 0, 0)
  }

  function Src(t: ConnTuple, dir: StreamDir): SocketAddr {
    if dir.ClientToServer? then t.client else t.server
  }

  function Dst(t: ConnTuple, dir: StreamDir): SocketAddr {
    if dir.ClientToServer? then t.server else t.client
  }

  /** The synthesizer's maps as a value. */
  datatype SynthState = SynthState(conns: map<nat, ConnState>, generations: map<nat, u32>)

  const FRESH := SynthState(map[], map[])

  function Generation(s: SynthState, connId: nat): u32 {
    if connId in s.generations then s.generations[connId] else 0
  }

  /** The connection as `data` finds it: opened lazily for the current generation when unknown. */
  function Entry(s: SynthState, connId: nat): ConnState {
    if connId in s.conns then s.conns[connId] else NewConn(SyntheticTuple(connId, Generation(s, connId)))
  }

  function OpenNext(s: SynthState, connId: nat, tuple: ConnTuple): SynthState {
    s.(conns := s.conns[connId := NewConn(tuple)])
  }

  function DataNext(s: SynthState, connId: nat, dir: StreamDir, bytes: seq<byte>, seqOff: nat): SynthState {
    if bytes == [] then s
    else s.(conns := s.conns[connId := Entry(s, connId).Observe(dir, seqOff + |bytes|)])
  }

  function CloseNext(s: SynthState, connId: nat): SynthState {
    SynthState(s.conns - {connId}, s.generations[connId := (Generation(s, connId) + 1) % TWO32])
  }

  function ControlPacket(cfg: SynthConfig, t: ConnTuple, dir: StreamDir, seqNo: u32, ack: u32, flags: byte, ts: int)
    : RawPacket
  {
    FramePacket(cfg.sourceId, Src(t, dir), Dst(t, dir), seqNo, ack, flags, [], ts)
  }

  function OpenFrames(cfg: SynthConfig, t: ConnTuple, ts: int): seq<RawPacket> {
    if cfg.emitHandshake then
      [ControlPacket(cfg, t, ClientToServer, 0, 0, TCP_SYN, ts),
       ControlPacket(cfg, t, ServerToClient, 0, 1, TCP_SYN + TCP_ACK, ts)]
    else []
  }

  function DataPacket(cfg: SynthConfig, t: ConnTuple, dir: StreamDir, p: Piece, ts: int): RawPacket {
    FramePacket(cfg.sourceId, Src(t, dir), Dst(t, dir), SeqNo(p.off), 1, TCP_PSH + TCP_ACK, p.payload, ts)
  }

  function DataPackets(cfg: SynthConfig, t: ConnTuple, dir: StreamDir, ps: seq<Piece>, ts: int): seq<RawPacket> {
    seq(|ps|, i requires 0 <= i < |ps| => DataPacket(cfg, t, dir, ps[i], ts))
  }

  function DataFrames(cfg: SynthConfig, s: SynthState, connId: nat, dir: StreamDir, bytes: seq<byte>, seqOff: nat,
                      ts: int): seq<RawPacket>
  {
    DataPackets(cfg, Entry(s, connId).tuple, dir, Cut(bytes, seqOff, EffectiveSegment(cfg)), ts)
  }

  function CloseFrames(cfg: SynthConfig, s: SynthState, connId: nat, ts: int): seq<RawPacket> {
    if connId !in s.conns then []
    else
      var c := s.conns[connId];
      [ControlPacket(cfg, c.tuple, ClientToServer, SeqNo(c.hiC2s), 1, TCP_FIN + TCP_ACK, ts),
       ControlPacket(cfg, c.tuple, ServerToClient, SeqNo(c.hiS2c), 1, TCP_FIN + TCP_ACK, ts)]
  }

  class FlowSynthesizer {
    const cfg: SynthConfig
    var conns: map<nat, ConnState>
    var generations: map<nat, u32>

    constructor (cfg: SynthConfig)
      ensures this.cfg == cfg && State() == FRESH
    {
      this.cfg := cfg;
      conns := map[];
      generations := map[];
    }

    ghost function State(): SynthState
      reads this
    {
      SynthState(conns, generations)
    }

    method Open(connId: nat, tuple: ConnTuple, ts: int) returns (out: seq<RawPacket>)
      modifies this
      ensures State() == OpenNext(old(State()), connId, tuple)
      ensures out == OpenFrames(cfg, tuple, ts)
    {
      out := [];
      if cfg.emitHandshake {
        var syn := Frame(cfg.sourceId, tuple.client, tuple.server, 0, 0, TCP_SYN, [], ts);
        var synAck := Frame(cfg.sourceId, tuple.server, tuple.client, 0, 1, TCP_SYN + TCP_ACK, [], ts);
        out := [syn, synAck];
      }
      conns := conns[connId := NewConn(tuple)];
    }

    method Data(connId: nat, dir: StreamDir, bytes: seq<byte>, seqOff: nat, ts: int) returns (out: seq<RawPacket>)
      modifies this
      ensures State() == DataNext(old(State()), connId, dir, bytes, seqOff)
      ensures out == DataFrames(cfg, old(State()), connId, dir, bytes, seqOff, ts)
    {
      out := [];
      if bytes == [] {
        return;
      }
      var gen := if connId in generations then generations[connId] else 0;
      if connId !in conns {
        conns := conns[connId := NewConn(SyntheticTuple(connId, gen))];
      }
      out := Segments(conns[connId].tuple, dir, bytes, seqOff, ts);
      conns := conns[connId := conns[connId].Observe(dir, seqOff + |bytes|)];
    }

    method OneSegment(tuple: ConnTuple, dir: StreamDir, chunk: seq<byte>, seqOff: nat, offset: nat, ts: int)
      returns (pkt: RawPacket)
      ensures pkt == DataPacket(cfg, tuple, dir, Piece(seqOff + offset, chunk), ts)
    {
      var seqNo := SequenceAt(seqOff, offset);
      pkt := Frame(cfg.sourceId, Src(tuple, dir), Dst(tuple, dir), seqNo, 1, TCP_PSH + TCP_ACK, chunk, ts);
    }

    /** The slicing loop of `data`. */
    method Segments(tuple: ConnTuple, dir: StreamDir, bytes: seq<byte>, seqOff: nat, ts: int)
      returns (out: seq<RawPacket>)
      ensures out == DataPackets(cfg, tuple, dir, Cut(bytes, seqOff, EffectiveSegment(cfg)), ts)
    {
      var seg := EffectiveSegment(cfg);
      ghost var pieces := Cut(bytes, seqOff, seg);
      out := [];
      var offset := 0;
      assert bytes[0..] == bytes;
      while offset < |bytes|
        invariant offset <= |bytes| && |out| <= |pieces|
        invariant pieces[|out|..] == Cut(bytes[offset..], seqOff + offset, seg)
        invariant forall i :: 0 <= i < |out| ==> out[i] == DataPacket(cfg, tuple, dir, pieces[i], ts)
      {
        var end := if offset + seg < |bytes| then offset + seg else |bytes|;
        CutStep(bytes, offset, end, seqOff, seg, pieces[|out|..]);
        assert pieces[|out| + 1..] == pieces[|out|..][1..];
        var pkt := OneSegment(tuple, dir, bytes[offset..end], seqOff, offset, ts);
        out := out + [pkt];
        offset := end;
      }
    }

    method Close(connId: nat, ts: int) returns (out: seq<RawPacket>)
      modifies this
      ensures State() == CloseNext(old(State()), connId)
      ensures out == CloseFrames(cfg, old(State()), connId, ts)
    {
      var gen := if connId in generations then generations[connId] else 0;
      generations := generations[connId := (gen + 1) % TWO32];
      if connId !in conns {
        assert conns - {connId} == conns;
        return [];
      }
      var state := conns[connId];
      conns := conns - {connId};
      var cSeq := SequenceAt(state.hiC2s, 0);
      var sSeq := SequenceAt(state.hiS2c, 0);
      var cFin := Frame(cfg.sourceId, state.tuple.client, state.tuple.server, cSeq, 1, TCP_FIN + TCP_ACK, [], ts);
      var sFin := Frame(cfg.sourceId, state.tuple.server, state.tuple.client, sSeq, 1, TCP_FIN + TCP_ACK, [], ts);
      out := [cFin, sFin];
    }
  }
}
