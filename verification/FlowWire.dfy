/**
 What synthesized packets show on the wire besides their payload: time, source, and the placeholder endpoints of a
 connection's generation.
 */
module FlowWire {
  import opened Bytes
  import opened Packets
  import opened Frames
  import opened FlowSynth

  // ---- what a frame says of itself ----

  /** The packet carries the time and source it was made with, on an Ethernet link. */
  predicate Stamped(p: RawPacket, cfg: SynthConfig, ts: int) {
    p.timestampUs == ts && p.sourceId == cfg.sourceId && p.linkType == 1
  }

  /** Every packet of an open, a data and a close call is stamped with the call's time and the configured source. */
  lemma FramesAreStamped(cfg: SynthConfig, s: SynthState, c: nat, t: ConnTuple, dir: StreamDir, bytes: seq<byte>,
                         seqOff: nat, ts: int)
    ensures forall p :: p in OpenFrames(cfg, t, ts) ==> Stamped(p, cfg, ts)
    ensures forall p :: p in DataFrames(cfg, s, c, dir, bytes, seqOff, ts) ==> Stamped(p, cfg, ts)
    ensures forall p :: p in CloseFrames(cfg, s, c, ts) ==> Stamped(p, cfg, ts)
  {
  }

  // ---- the placeholder endpoints on the wire ----

  /** The client's end of a decoded segment that travels in `dir`. */
  function ClientEnd(d: Segment, dir: StreamDir): SocketAddr {
    match dir case ClientToServer => d.src case ServerToClient => d.dst
  }

  function ServerEnd(d: Segment, dir: StreamDir): SocketAddr {
    match dir case ClientToServer => d.dst case ServerToClient => d.src
  }

  /** The client is at 127.64.x.y with the low 16 bits of the id, the server at 192.0.2.z:443 with bits 32 to 39. */
  predicate PlaceholderEnds(c: nat, client: SocketAddr, server: SocketAddr) {
    && client.ip == V4([127, 64, c / 0x100 % 0x100, c % 0x100]) && client.port >= 1024
    && server == SocketAddr(V4([192, 0, 2, c / 0x1_0000_0000 % 0x100]), 443)
  }

  lemma LowBits(c: nat)
    ensures c % TWO32 / 0x100 % 0x100 == c / 0x100 % 0x100 && c % TWO32 % 0x100 == c % 0x100
  {
    var q, x, y := c / TWO32, c % TWO32 / 0x100, c % TWO32 % 0x100;
    LastByte(c, q * 0x100_0000 + x, y);
    LastByte(c / 0x100, q * 0x1_0000 + x / 0x100, x % 0x100);
  }

  lemma LastByte(n: nat, q: nat, r: nat)
    requires r < 0x100 && n == q * 0x100 + r
    ensures n / 0x100 == q && n % 0x100 == r
  {
  }

  /** `p` decodes to a frame on the placeholder endpoints of (c, g). */
  predicate OnPlaceholder(p: RawPacket, c: nat, g: u32, dir: StreamDir) {
    var d := DecodeFrame(p.data);
    && d.Some? && PlaceholderEnds(c, ClientEnd(d.value, dir), ServerEnd(d.value, dir))
    && ClientEnd(d.value, dir).port == ClientPort(c, g)
  }

  lemma PlaceholderFrame(cfg: SynthConfig, c: nat, g: u32, dir: StreamDir, piece: Piece, ts: int)
    requires |piece.payload| <= MAX_SEGMENT_PAYLOAD
    ensures OnPlaceholder(DataPacket(cfg, SyntheticTuple(c, g), dir, piece, ts), c, g, dir)
  {
    var t := SyntheticTuple(c, g);
    LowBits(c);
    SynthesizedFrameDecodes(Src(t, dir), Dst(t, dir), SeqNo(piece.off), 1, TCP_PSH + TCP_ACK, piece.payload);
  }

  lemma PlaceholderFrames(cfg: SynthConfig, c: nat, g: u32, dir: StreamDir, bytes: seq<byte>, off: nat, ts: int,
                          p: RawPacket)
    requires p in DataPackets(cfg, SyntheticTuple(c, g), dir, Cut(bytes, off, EffectiveSegment(cfg)), ts)
    ensures OnPlaceholder(p, c, g, dir)
  {
    var seg := EffectiveSegment(cfg);
    var ps := Cut(bytes, off, seg);
    var k :| 0 <= k < |ps| && DataPacket(cfg, SyntheticTuple(c, g), dir, ps[k], ts) == p;
    CutIsExact(bytes, off, seg);
    assert PieceOf(ps[k], bytes, off, seg);
    PlaceholderFrame(cfg, c, g, dir, ps[k], ts);
  }

  /** Frames of placeholder generations fewer than 34 apart differ in the client port; of equal ones, in nothing. */
  lemma PlaceholdersDiffer(c: nat, g: nat, h: nat, p: RawPacket, dp: StreamDir, q: RawPacket, dq: StreamDir)
    requires OnPlaceholder(p, c, g % TWO32, dp) && OnPlaceholder(q, c, h % TWO32, dq)
    ensures var d, e := DecodeFrame(p.data).value, DecodeFrame(q.data).value;
            && (g < h < g + 34 ==> ClientEnd(d, dp).port != ClientEnd(e, dq).port)
            && (g == h ==> ClientEnd(d, dp) == ClientEnd(e, dq) && ServerEnd(d, dp) == ServerEnd(e, dq))
  {
    if g < h < g + 34 {
      NearbyGenerationsDiffer(c, g, h);
    }
  }

  /** The ports of a small connection id: its first life on 1024, its second on 41527. */
  lemma FirstPorts(c: nat)
    requires c < 0x1_0000
    ensures SyntheticTuple(c, 0).client.port == 1024 && SyntheticTuple(c, 1).client.port == 41_527
  {
    assert c % TWO32 / TWO16 == 0;
  }
}
