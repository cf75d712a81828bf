/**
 Ethernet + IPv4/IPv6 + TCP frames around a payload (`frame`, `push_ipv4`, `push_ipv6`, `push_tcp` of
 server/h-capture/src/synth.rs), and a decoder written from the protocol standards: section 3.1 of RFC 791,
 section 3 of RFC 8200 and section 3.1 of RFC 9293.
 */
module Frames {
  import opened Bytes
  import opened Wrappers
  import opened Packets

  const ETHERTYPE_IPV4: u16 := 0x0800
  const ETHERTYPE_IPV6: u16 := 0x86DD
  const IP_PROTO_TCP: byte := 6
  const ETH_HDR_LEN := 14
  const IPV4_HDR_LEN := 20
  const IPV6_HDR_LEN := 40
  const TCP_HDR_LEN := 20
  const TCP_FIN: byte := 0x01
  const TCP_SYN: byte := 0x02
  const TCP_PSH: byte := 0x08
  const TCP_ACK: byte := 0x10
  const MAX_SEGMENT_PAYLOAD := 60_000

  type Octets4 = s: seq<byte> | |s| == 4 witness [0, 0, 0, 0]
  type Octets16 = s: seq<byte> | |s| == 16 witness Zeros(16)

  datatype IpAddr = V4(a: Octets4) | V6(b: Octets16)
  datatype SocketAddr = SocketAddr(ip: IpAddr, port: u16)

  // ---- what is put on the wire ----

  /** An IPv4 address inside IPv6 is written in the v4-mapped form of section 2.5.5.2 of RFC 4291. */
  function ToIpv6(ip: IpAddr): Octets16 {
    match ip
    case V6(b) => b
    case V4(a) => Zeros(10) + [0xFF, 0xFF] + a
  }

  function Ipv4Header(src: Octets4, dst: Octets4, l4Len: nat): (h: seq<byte>)
    ensures |h| == IPV4_HDR_LEN
  {
    [0x45, 0] + U16Be((IPV4_HDR_LEN + l4Len) % TWO16) + Zeros(4) + [64, IP_PROTO_TCP] + Zeros(2) + src + dst
  }

  function Ipv6Header(src: Octets16, dst: Octets16, l4Len: nat): (h: seq<byte>)
    ensures |h| == IPV6_HDR_LEN
  {
    [0x60] + Zeros(3) + U16Be(l4Len % TWO16) + [IP_PROTO_TCP, 64] + src + dst
  }

  function TcpHeader(srcPort: u16, dstPort: u16, seqNo: u32, ack: u32, flags: byte): (h: seq<byte>)
    ensures |h| == TCP_HDR_LEN
  {
    U16Be(srcPort) + U16Be(dstPort) + U32Be(seqNo) + U32Be(ack) + [0x50, flags] + U16Be(0xFFFF) + Zeros(4)
  }

  function IpPart(src: IpAddr, dst: IpAddr, l4Len: nat): seq<byte> {
    if src.V4? && dst.V4? then
      U16Be(ETHERTYPE_IPV4) + Ipv4Header(src.a, dst.a, l4Len)
    else
      U16Be(ETHERTYPE_IPV6) + Ipv6Header(ToIpv6(src), ToIpv6(dst), l4Len)
  }

  function FrameBytes(src: SocketAddr, dst: SocketAddr, seqNo: u32, ack: u32, flags: byte, payload: seq<byte>)
    : seq<byte>
  {
    Zeros(12) + IpPart(src.ip, dst.ip, TCP_HDR_LEN + |payload|)
      + TcpHeader(src.port, dst.port, seqNo, ack, flags) + payload
  }

  function FramePacket(sourceId: string, src: SocketAddr, dst: SocketAddr, seqNo: u32, ack: u32, flags: byte,
                       payload: seq<byte>, ts: int): RawPacket
  {
    var data := FrameBytes(src, dst, seqNo, ack, flags, payload);
    RawPacket(ts, |data| % TWO32, |data| % TWO32, LINKTYPE_ETHERNET, data, sourceId)
  }

  // ---- how the source builds it ----

  lemma Regroup(a: seq<byte>, b: seq<byte>, c: seq<byte>)
    ensures (a + b) + c == a + (b + c)
  {
  }

  /** The growing `Vec<u8>` that the `push_*` functions append to. */
  class FrameBuffer {
    var data: seq<byte>

    constructor ()
      ensures data == []
    {
      data := [];
    }

    method Push(bytes: seq<byte>)
      modifies this
      ensures data == old(data) + bytes
    {
      data := data + bytes;
    }

    method PushIpv4(src: Octets4, dst: Octets4, l4Len: nat)
      modifies this
      ensures data == old(data) + Ipv4Header(src, dst, l4Len)
    {
      var totalLength := U16Be((IPV4_HDR_LEN + l4Len) % TWO16);
      var h := new byte[IPV4_HDR_LEN](i => 0);
      h[0] := 0x45;
      forall i | 0 <= i < 2 { h[2 + i] := totalLength[i]; }
      h[8] := 64;
      h[9] := IP_PROTO_TCP;
      forall i | 0 <= i < 4 { h[12 + i] := src[i]; }
      forall i | 0 <= i < 4 { h[16 + i] := dst[i]; }
      assert h[..] == Ipv4Header(src, dst, l4Len);
      data := data + h[..];
    }

    method PushIpv6(src: Octets16, dst: Octets16, l4Len: nat)
      modifies this
      ensures data == old(data) + Ipv6Header(src, dst, l4Len)
    {
      var payloadLength := U16Be(l4Len % TWO16);
      var h := new byte[IPV6_HDR_LEN](i => 0);
      h[0] := 0x60;
      forall i | 0 <= i < 2 { h[4 + i] := payloadLength[i]; }
      h[6] := IP_PROTO_TCP;
      h[7] := 64;
      forall i | 0 <= i < 16 { h[8 + i] := src[i]; }
      forall i | 0 <= i < 16 { h[24 + i] := dst[i]; }
      assert h[..] == Ipv6Header(src, dst, l4Len);
      data := data + h[..];
    }

    /** The ethertype and IP header of `frame`'s match on the address families. */
    method PushIp(src: IpAddr, dst: IpAddr, l4Len: nat)
      modifies this
      ensures data == old(data) + IpPart(src, dst, l4Len)
    {
      ghost var before := data;
      if src.V4? && dst.V4? {
        Push(U16Be(ETHERTYPE_IPV4));
        PushIpv4(src.a, dst.a, l4Len);
        Regroup(before, U16Be(ETHERTYPE_IPV4), Ipv4Header(src.a, dst.a, l4Len));
      } else {
        Push(U16Be(ETHERTYPE_IPV6));
        PushIpv6(ToIpv6(src), ToIpv6(dst), l4Len);
        Regroup(before, U16Be(ETHERTYPE_IPV6), Ipv6Header(ToIpv6(src), ToIpv6(dst), l4Len));
      }
    }

    method PushTcp(srcPort: u16, dstPort: u16, seqNo: u32, ack: u32, flags: byte)
      modifies this
      ensures data == old(data) + TcpHeader(srcPort, dstPort, seqNo, ack, flags)
    {
      var sp, dp, sn, an, win := U16Be(srcPort), U16Be(dstPort), U32Be(seqNo), U32Be(ack), U16Be(0xFFFF);
      var h := new byte[TCP_HDR_LEN](i => 0);
      forall i | 0 <= i < 2 { h[i] := sp[i]; }
      forall i | 0 <= i < 2 { h[2 + i] := dp[i]; }
      forall i | 0 <= i < 4 { h[4 + i] := sn[i]; }
      forall i | 0 <= i < 4 { h[8 + i] := an[i]; }
      h[12] := 0x50;
      h[13] := flags;
      forall i | 0 <= i < 2 { h[14 + i] := win[i]; }
      assert h[..] == TcpHeader(srcPort, dstPort, seqNo, ack, flags);
      data := data + h[..];
    }
  }

  method Frame(sourceId: string, src: SocketAddr, dst: SocketAddr, seqNo: u32, ack: u32, flags: byte,
               payload: seq<byte>, ts: int) returns (pkt: RawPacket)
    ensures pkt == FramePacket(sourceId, src, dst, seqNo, ack, flags, payload, ts)
  {
    var buf := new FrameBuffer();
    buf.Push(Zeros(12));
    assert buf.data == Zeros(12);
    buf.PushIp(src.ip, dst.ip, TCP_HDR_LEN + |payload|);
    buf.PushTcp(src.port, dst.port, seqNo, ack, flags);
    buf.Push(payload);
    pkt := RawPacket(ts, |buf.data| % TWO32, |buf.data| % TWO32, LINKTYPE_ETHERNET, buf.data, sourceId);
  }

  // ---- what a standard decoder reads back ----

  datatype Segment = Segment(src: SocketAddr, dst: SocketAddr, seqNo: u32, ack: u32, flags: byte, payload: seq<byte>)

  function DecodeTcp(src: IpAddr, dst: IpAddr, t: seq<byte>): Option<Segment> {
    if |t| < 20 then None
    else
      var dataOffset := t[12] / 16 * 4;
      if dataOffset < 20 || |t| < dataOffset then None
      else Some(Segment(SocketAddr(src, ReadU16Be(t, 0)), SocketAddr(dst, ReadU16Be(t, 2)),
                        ReadU32Be(t, 4), ReadU32Be(t, 8), t[13], t[dataOffset..]))
  }

  /** RFC 791: version, header length in words, total length, no fragmentation, protocol TCP. */
  function DecodeIpv4(p: seq<byte>): Option<Segment> {
    if |p| < 20 || p[0] / 16 != 4 then None
    else
      var headerLen := p[0] % 16 * 4;
      var totalLen := ReadU16Be(p, 2);
      if headerLen < 20 || totalLen < headerLen || |p| < totalLen then None
      else if ReadU16Be(p, 6) % 0x4000 != 0 || p[9] != 6 then None
      else DecodeTcp(V4(p[12..16]), V4(p[16..20]), p[headerLen..totalLen])
  }

  /** RFC 8200: version, payload length, next header TCP without extension headers. */
  function DecodeIpv6(p: seq<byte>): Option<Segment> {
    if |p| < 40 || p[0] / 16 != 6 then None
    else
      var payloadLen := ReadU16Be(p, 4);
      if |p| < 40 + payloadLen || p[6] != 6 then None
      else DecodeTcp(V6(p[8..24]), V6(p[24..40]), p[40..40 + payloadLen])
  }

  function DecodeFrame(f: seq<byte>): Option<Segment> {
    if |f| < 14 then None
    else if ReadU16Be(f, 12) == 0x0800 then DecodeIpv4(f[14..])
    else if ReadU16Be(f, 12) == 0x86DD then DecodeIpv6(f[14..])
    else None
  }

  /** The address of `x` as its peer in `y`'s company sees it: mixed families travel as IPv6. */
  function OnWire(x: SocketAddr, y: SocketAddr): SocketAddr {
    if x.ip.V4? && y.ip.V4? then x else SocketAddr(V6(ToIpv6(x.ip)), x.port)
  }

  /** The payload is short enough for the 16-bit length field of the frame's IP version. */
  predicate Fits(src: SocketAddr, dst: SocketAddr, payload: seq<byte>) {
    (if src.ip.V4? && dst.ip.V4? then IPV4_HDR_LEN else 0) + TCP_HDR_LEN + |payload| < TWO16
  }

  lemma TcpRoundTrip(src: IpAddr, dst: IpAddr, sp: u16, dp: u16, seqNo: u32, ack: u32, flags: byte, payload: seq<byte>)
    ensures DecodeTcp(src, dst, TcpHeader(sp, dp, seqNo, ack, flags) + payload)
         == Some(Segment(SocketAddr(src, sp), SocketAddr(dst, dp), seqNo, ack, flags, payload))
  {
    var h := TcpHeader(sp, dp, seqNo, ack, flags);
    var t := h + payload;
    assert U32Be(seqNo) == h[4..8];
    assert U32Be(ack) == h[8..12];
    assert t[12] == 0x50 && t[20..] == payload;
  }

  lemma Ipv4RoundTrip(src: Octets4, dst: Octets4, t: seq<byte>)
    requires TCP_HDR_LEN <= |t| && |t| + IPV4_HDR_LEN < TWO16
    ensures DecodeIpv4(Ipv4Header(src, dst, |t|) + t) == DecodeTcp(V4(src), V4(dst), t)
  {
    Ipv4Reads(Ipv4Header(src, dst, |t|) + t, src, dst, t);
  }

  lemma Ipv4Reads(p: seq<byte>, src: Octets4, dst: Octets4, t: seq<byte>)
    requires |t| + IPV4_HDR_LEN < TWO16 && p == Ipv4Header(src, dst, |t|) + t
    ensures |p| == IPV4_HDR_LEN + |t| && ReadU16Be(p, 2) == |p| && ReadU16Be(p, 6) == 0
    ensures p[0] == 0x45 && p[9] == IP_PROTO_TCP
    ensures p[12..16] == src && p[16..20] == dst && p[20..|p|] == t
  {
    assert p[2..4] == U16Be(IPV4_HDR_LEN + |t|);
  }

  lemma Ipv6RoundTrip(src: Octets16, dst: Octets16, t: seq<byte>)
    requires |t| < TWO16
    ensures DecodeIpv6(Ipv6Header(src, dst, |t|) + t) == DecodeTcp(V6(src), V6(dst), t)
  {
    var p := Ipv6Header(src, dst, |t|) + t;
    Ipv6Parts(src, dst, t, p);
    U16Back(p, 4, |t|);
    assert p[40..40 + |t|] == t;
  }

  lemma Ipv6Parts(src: Octets16, dst: Octets16, t: seq<byte>, p: seq<byte>)
    requires |t| < TWO16 && p == Ipv6Header(src, dst, |t|) + t
    ensures p[0] == 0x60 && p[4..6] == U16Be(|t|) && p[6] == 6
    ensures p[8..24] == src && p[24..40] == dst && p[40..] == t
  {
  }

  lemma U16Back(p: seq<byte>, i: nat, n: u16)
    requires i + 2 <= |p| && p[i..i + 2] == U16Be(n)
    ensures ReadU16Be(p, i) == n
  {
    assert p[i] == p[i..i + 2][0] && p[i + 1] == p[i..i + 2][1];
  }

  /** A decoder reads no more than 65535 bytes of IP packet, so a longer payload cannot come back. */
  lemma DecodedPayloadBound(f: seq<byte>)
    ensures DecodeFrame(f).Some? ==>
      |DecodeFrame(f).value.payload| + TCP_HDR_LEN + (if ReadU16Be(f, 12) == ETHERTYPE_IPV4 then IPV4_HDR_LEN else 0)
        < TWO16
  {
  }

  lemma LinkLayout(macs: seq<byte>, etherType: seq<byte>, header: seq<byte>, l4: seq<byte>, payload: seq<byte>)
    requires |macs| == 12 && |etherType| == 2
    ensures var f := macs + (etherType + header) + l4 + payload;
            f[12] == etherType[0] && f[13] == etherType[1] && f[14..] == header + (l4 + payload)
  {
    assert (macs + (etherType + header) + l4 + payload)[14..] == header + (l4 + payload);
  }

  lemma FrameLayout(src: SocketAddr, dst: SocketAddr, seqNo: u32, ack: u32, flags: byte, payload: seq<byte>)
    ensures var f := FrameBytes(src, dst, seqNo, ack, flags, payload);
            var l4 := TCP_HDR_LEN + |payload|;
            var t := TcpHeader(src.port, dst.port, seqNo, ack, flags) + payload;
            && |f| == ETH_HDR_LEN + (if src.ip.V4? && dst.ip.V4? then IPV4_HDR_LEN else IPV6_HDR_LEN) + l4
            && (src.ip.V4? && dst.ip.V4? ==>
                  ReadU16Be(f, 12) == ETHERTYPE_IPV4 && f[14..] == Ipv4Header(src.ip.a, dst.ip.a, l4) + t)
            && (!(src.ip.V4? && dst.ip.V4?) ==>
                  ReadU16Be(f, 12) == ETHERTYPE_IPV6 && f[14..] == Ipv6Header(ToIpv6(src.ip), ToIpv6(dst.ip), l4) + t)
  {
    var l4 := TCP_HDR_LEN + |payload|;
    var tcp := TcpHeader(src.port, dst.port, seqNo, ack, flags);
    if src.ip.V4? && dst.ip.V4? {
      LinkLayout(Zeros(12), U16Be(ETHERTYPE_IPV4), Ipv4Header(src.ip.a, dst.ip.a, l4), tcp, payload);
    } else {
      LinkLayout(Zeros(12), U16Be(ETHERTYPE_IPV6), Ipv6Header(ToIpv6(src.ip), ToIpv6(dst.ip), l4), tcp, payload);
    }
  }

  /**
   A standard decoder reads back exactly what was framed, if and only if the 16-bit length field holds it.
   */
  lemma FrameRoundTrip(src: SocketAddr, dst: SocketAddr, seqNo: u32, ack: u32, flags: byte, payload: seq<byte>)
    ensures Fits(src, dst, payload) <==>
            DecodeFrame(FrameBytes(src, dst, seqNo, ack, flags, payload))
              == Some(Segment(OnWire(src, dst), OnWire(dst, src), seqNo, ack, flags, payload))
  {
    var f := FrameBytes(src, dst, seqNo, ack, flags, payload);
    var t := TcpHeader(src.port, dst.port, seqNo, ack, flags) + payload;
    FrameLayout(src, dst, seqNo, ack, flags, payload);
    DecodedPayloadBound(f);
    if Fits(src, dst, payload) {
      if src.ip.V4? && dst.ip.V4? {
        Ipv4RoundTrip(src.ip.a, dst.ip.a, t);
        TcpRoundTrip(src.ip, dst.ip, src.port, dst.port, seqNo, ack, flags, payload);
      } else {
        Ipv6RoundTrip(ToIpv6(src.ip), ToIpv6(dst.ip), t);
        TcpRoundTrip(V6(ToIpv6(src.ip)), V6(ToIpv6(dst.ip)), src.port, dst.port, seqNo, ack, flags, payload);
      }
    }
  }

  /** Every payload the source may frame fits. */
  lemma SynthesizedFrameDecodes(src: SocketAddr, dst: SocketAddr, seqNo: u32, ack: u32, flags: byte, payload: seq<byte>)
    requires |payload| <= 60_000
    ensures DecodeFrame(FrameBytes(src, dst, seqNo, ack, flags, payload))
         == Some(Segment(OnWire(src, dst), OnWire(dst, src), seqNo, ack, flags, payload))
  {
    FrameRoundTrip(src, dst, seqNo, ack, flags, payload);
  }

  /** No synthesized frame is a heartbeat, and its length counters are exact. */
  lemma SynthesizedFrameIsTraffic(sourceId: string, src: SocketAddr, dst: SocketAddr, seqNo: u32, ack: u32, flags: byte,
                                  payload: seq<byte>, ts: int)
    requires |payload| <= MAX_SEGMENT_PAYLOAD
    ensures var p := FramePacket(sourceId, src, dst, seqNo, ack, flags, payload, ts);
            p.caplen == p.wirelen == |p.data| && !IsHeartbeat(p)
  {
    FrameLayout(src, dst, seqNo, ack, flags, payload);
  }

  // ---- mixed families ----

  /** An IPv6 address in the v4-mapped form. */
  predicate IsMapped(ip: IpAddr) {
    ip.V6? && ip.b[..12] == Zeros(10) + [0xFF, 0xFF]
  }

  /** The address as a reader shows it, v4-mapped addresses as IPv4. */
  function Unmapped(x: SocketAddr): SocketAddr {
    if IsMapped(x.ip) then SocketAddr(V4(x.ip.b[12..]), x.port) else x
  }

  lemma UnmappedOnWire(x: SocketAddr, y: SocketAddr)
    ensures Unmapped(OnWire(x, y)) == Unmapped(x)
  {
    match x.ip {
      case V4(a) =>
        var b := ToIpv6(x.ip);
        assert b[..12] == Zeros(10) + [0xFF, 0xFF] && b[12..] == a;
      case V6(_) =>
    }
  }

  /**
   Whatever the families, decoding a synthesized frame and unmapping returns an original endpoint exactly when that
   endpoint was not a v4-mapped address itself, so a mixed frame loses no address.
   */
  lemma EndpointsRecovered(src: SocketAddr, dst: SocketAddr, seqNo: u32, ack: u32, flags: byte, payload: seq<byte>)
    requires |payload| <= MAX_SEGMENT_PAYLOAD
    ensures var d := DecodeFrame(FrameBytes(src, dst, seqNo, ack, flags, payload));
            && d.Some?
            && (Unmapped(d.value.src) == src <==> !IsMapped(src.ip))
            && (Unmapped(d.value.dst) == dst <==> !IsMapped(dst.ip))
  {
    SynthesizedFrameDecodes(src, dst, seqNo, ack, flags, payload);
    UnmappedOnWire(src, dst);
    UnmappedOnWire(dst, src);
  }
}
