/**
 Raw captured packets and the heartbeat sentinel (server/h-capture/src/packet.rs).
 */
module Packets {
  import opened Bytes

  const HEARTBEAT_ETHER_TYPE: u16 := 0xFFFF
  const HEARTBEAT_PACKET_LEN := 14
  const LINKTYPE_ETHERNET: u32 := 1

  /** The process attribution of the source's record is not part of this model. */
  datatype RawPacket = RawPacket(
    timestampUs: int,
    caplen: u32,
    wirelen: u32,
    linkType: u32,
    data: seq<byte>,
    sourceId: string)

  predicate IsHeartbeat(p: RawPacket) {
    && p.linkType == LINKTYPE_ETHERNET
    && HEARTBEAT_PACKET_LEN <= |p.data|
    && (forall i :: 0 <= i < 12 ==> p.data[i] == 0)
    && ReadU16Be(p.data, 12) == HEARTBEAT_ETHER_TYPE
  }

  /** A heartbeat starts, on an Ethernet link, with twelve zero bytes and the ether type FF FF; nothing else is one. */
  lemma HeartbeatExactly(p: RawPacket)
    ensures IsHeartbeat(p) <==> p.linkType == 1 && |p.data| >= 14 && p.data[..14] == Zeros(12) + [0xFF, 0xFF]
  {
    if |p.data| >= 14 {
      assert p.data[..14][12] == p.data[12] && p.data[..14][13] == p.data[13];
      if p.data[..14] == Zeros(12) + [0xFF, 0xFF] {
        assert forall i :: 0 <= i < 12 ==> p.data[i] == p.data[..14][i] == 0;
      }
      if IsHeartbeat(p) {
        assert p.data[12] == 0xFF && p.data[13] == 0xFF;
      }
    }
  }

  /** The sentinel as a value; `Heartbeat` below builds it. */
  function HeartbeatPacket(timestampUs: int, sourceId: string): (p: RawPacket)
    ensures IsHeartbeat(p) && p.timestampUs == timestampUs && p.sourceId == sourceId
  {
    RawPacket(timestampUs, HEARTBEAT_PACKET_LEN, HEARTBEAT_PACKET_LEN, LINKTYPE_ETHERNET,
              Zeros(12) + [0xFF, 0xFF], sourceId)
  }

  method Heartbeat(timestampUs: int, sourceId: string) returns (p: RawPacket)
    ensures p == HeartbeatPacket(timestampUs, sourceId)
  {
    var buf := new byte[HEARTBEAT_PACKET_LEN](i => 0);
    buf[12] := 0xFF;
    buf[13] := 0xFF;
    assert buf[..] == Zeros(12) + [0xFF, 0xFF];
    p := RawPacket(timestampUs, HEARTBEAT_PACKET_LEN, HEARTBEAT_PACKET_LEN, LINKTYPE_ETHERNET, buf[..], sourceId);
  }
}
