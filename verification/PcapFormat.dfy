/**
 Classic pcap bytes (`write_pcap_global_header`, `write_pcap_record` of server/h-capture/src/pcap_dump.rs) and a reader.
 */
module PcapFormat {
  import opened Bytes
  import opened Wrappers
  import opened Packets
  import opened Calendar

  const PCAP_MAGIC: u32 := 0xa1b2_c3d4
  const PCAP_SNAPLEN: u32 := 262_144
  const GLOBAL_HEADER_LEN := 24
  const RECORD_HEADER_LEN := 16

  function GlobalHeader(linkType: u32): (h: seq<byte>)
    ensures |h| == GLOBAL_HEADER_LEN
  {
    U32Le(PCAP_MAGIC) + U16Le(2) + U16Le(4) + U32Le(0) + U32Le(0) + U32Le(PCAP_SNAPLEN) + U32Le(linkType)
  }

  /** Its bytes: the little-endian microsecond magic, version 2.4, two zero words, a 256 KiB snap length, the link type. */
  lemma GlobalHeaderBytes(linkType: u32)
    ensures GlobalHeader(linkType)
         == [0xD4, 0xC3, 0xB2, 0xA1, 2, 0, 4, 0, 0, 0, 0, 0, 0, 0, 0, 0, 0, 0, 4, 0] + U32Le(linkType)
  {
    assert U32Le(PCAP_MAGIC) == [0xD4, 0xC3, 0xB2, 0xA1] && U32Le(PCAP_SNAPLEN) == [0, 0, 4, 0];
    assert U16Le(2) == [2, 0] && U16Le(4) == [4, 0] && U32Le(0) == [0, 0, 0, 0];
  }

  /** `(ts / 1_000_000) as u32`: division truncates, the cast wraps. */
  function TsSec(ts: int): u32 {
    TruncDiv(ts, 1_000_000) % TWO32
  }

  function TsUsec(ts: int): u32 {
    (ts - TruncDiv(ts, 1_000_000) * 1_000_000) % TWO32
  }

  function RecordBytes(p: RawPacket): seq<byte> {
    U32Le(TsSec(p.timestampUs)) + U32Le(TsUsec(p.timestampUs)) + U32Le(p.caplen) + U32Le(p.wirelen) + p.data
  }

  function RecordsBytes(ps: seq<RawPacket>): seq<byte> {
    if ps == [] then [] else RecordsBytes(ps[..|ps| - 1]) + RecordBytes(ps[|ps| - 1])
  }

  function FileBytes(linkType: u32, ps: seq<RawPacket>): seq<byte> {
    GlobalHeader(linkType) + RecordsBytes(ps)
  }

  // ---- reader ----

  datatype Record = Record(timestampUs: int, caplen: u32, wirelen: u32, data: seq<byte>)
  datatype Capture = Capture(linkType: u32, records: seq<Record>)

  function ReadRecords(b: seq<byte>): Option<seq<Record>> {
    if b == [] then Some([])
    else if |b| < 16 then None
    else
      var caplen := ReadU32Le(b, 8);
      if |b| < 16 + caplen then None
      else
        var r := Record(ReadU32Le(b, 0) * 1_000_000 + ReadU32Le(b, 4), caplen, ReadU32Le(b, 12),
                        b[16..16 + caplen]);
        match ReadRecords(b[16 + caplen..])
        case None => None
        case Some(rs) => Some([r] + rs)
  }

  function ReadCapture(b: seq<byte>): Option<Capture> {
    if |b| < 24 || ReadU32Le(b, 0) != 0xA1B2_C3D4 || ReadU16Le(b, 4) != 2 || ReadU16Le(b, 6) != 4 then None
    else
      match ReadRecords(b[24..])
      case None => None
      case Some(rs) => Some(Capture(ReadU32Le(b, 20), rs))
  }

  /** The 32-bit seconds field reaches the packet's time, and the capture length counts the data. */
  predicate Representable(p: RawPacket) {
    0 <= p.timestampUs < TWO32 * 1_000_000 && p.caplen == |p.data|
  }

  function Stripped(p: RawPacket): Record {
    Record(p.timestampUs, p.caplen, p.wirelen, p.data)
  }

  function AllStripped(ps: seq<RawPacket>): (rs: seq<Record>)
    ensures |rs| == |ps| && forall i :: 0 <= i < |ps| ==> rs[i] == Stripped(ps[i])
  {
    seq(|ps|, i requires 0 <= i < |ps| => Stripped(ps[i]))
  }

  /** The two time fields stand for the packet's timestamp exactly when it lies in the 32-bit range of seconds. */
  lemma TimestampSurvives(ts: int)
    ensures TsSec(ts) * 1_000_000 + TsUsec(ts) == ts <==> 0 <= ts < TWO32 * 1_000_000
  {
    if 0 <= ts < TWO32 * 1_000_000 {
      var q := ts / 1_000_000;
      assert 0 <= q < TWO32 && ts - q * 1_000_000 < 1_000_000;
    } else if ts >= 0 {
      var q := ts / 1_000_000;
      assert TsUsec(ts) < 1_000_000;
    }
  }

  lemma RecordFields(p: RawPacket, rest: seq<byte>)
    ensures var b := RecordBytes(p) + rest;
            && |b| >= RECORD_HEADER_LEN + |p.data|
            && ReadU32Le(b, 0) == TsSec(p.timestampUs) && ReadU32Le(b, 4) == TsUsec(p.timestampUs)
            && ReadU32Le(b, 8) == p.caplen && ReadU32Le(b, 12) == p.wirelen
            && b[16..16 + |p.data|] == p.data && b[16 + |p.data|..] == rest
  {
    HeaderOf(U32Le(TsSec(p.timestampUs)), U32Le(TsUsec(p.timestampUs)), U32Le(p.caplen), U32Le(p.wirelen), p.data, rest);
  }

  lemma HeaderOf(a: seq<byte>, b: seq<byte>, c: seq<byte>, d: seq<byte>, data: seq<byte>, rest: seq<byte>)
    requires |a| == |b| == |c| == |d| == 4
    ensures var s := a + b + c + d + data + rest;
            && ReadU32Le(s, 0) == ReadU32Le(a, 0) && ReadU32Le(s, 4) == ReadU32Le(b, 0)
            && ReadU32Le(s, 8) == ReadU32Le(c, 0) && ReadU32Le(s, 12) == ReadU32Le(d, 0)
            && s[16..16 + |data|] == data && s[16 + |data|..] == rest
  {
    var s := a + b + c + d + data + rest;
    assert s[16..16 + |data|] == data;
  }

  lemma ReadsFirst(b: seq<byte>, r: Record, rest: seq<byte>)
    requires b != [] && |b| >= RECORD_HEADER_LEN + |r.data| && r.caplen == |r.data|
    requires ReadU32Le(b, 0) * 1_000_000 + ReadU32Le(b, 4) == r.timestampUs
    requires ReadU32Le(b, 8) == r.caplen && ReadU32Le(b, 12) == r.wirelen
    requires b[16..16 + |r.data|] == r.data && b[16 + |r.data|..] == rest && ReadRecords(rest).Some?
    ensures ReadRecords(b) == Some([r] + ReadRecords(rest).value)
  {
    var caplen := ReadU32Le(b, 8);
    assert Record(ReadU32Le(b, 0) * 1_000_000 + ReadU32Le(b, 4), caplen, ReadU32Le(b, 12), b[16..16 + caplen]) == r;
  }

  lemma FirstRecord(p: RawPacket, b: seq<byte>, rest: seq<byte>)
    requires Representable(p) && ReadRecords(rest).Some? && b == RecordBytes(p) + rest
    ensures ReadRecords(b) == Some([Stripped(p)] + ReadRecords(rest).value)
  {
    RecordFields(p, rest);
    TimestampSurvives(p.timestampUs);
    ReadsFirst(b, Stripped(p), rest);
  }

  lemma {:induction false} RecordsFromTheFront(ps: seq<RawPacket>)
    requires ps != []
    ensures RecordsBytes(ps) == RecordBytes(ps[0]) + RecordsBytes(ps[1..])
    decreases |ps|
  {
    if |ps| > 1 {
      var init, last := ps[..|ps| - 1], ps[|ps| - 1];
      RecordsFromTheFront(init);
      assert init[1..] == ps[1..][..|ps[1..]| - 1];
      assert RecordsBytes(ps[1..]) == RecordsBytes(init[1..]) + RecordBytes(last);
    } else {
      assert ps[..0] == [] && ps[1..] == [];
    }
  }

  lemma StrippedFront(ps: seq<RawPacket>, tail: seq<RawPacket>)
    requires ps != [] && tail == ps[1..]
    ensures AllStripped(ps) == [Stripped(ps[0])] + AllStripped(tail)
  {
  }

  lemma {:induction false} RecordsRoundTrip(ps: seq<RawPacket>, b: seq<byte>)
    requires (forall p <- ps :: Representable(p)) && b == RecordsBytes(ps)
    ensures ReadRecords(b) == Some(AllStripped(ps))
    decreases |ps|
  {
    if ps != [] {
      var tail := ps[1..];
      var rest := RecordsBytes(tail);
      RecordsRoundTrip(tail, rest);
      RecordsFromTheFront(ps);
      FirstRecord(ps[0], b, rest);
      StrippedFront(ps, tail);
    }
  }

  lemma HeaderFields(linkType: u32, rest: seq<byte>)
    ensures var b := GlobalHeader(linkType) + rest;
            && |b| >= GLOBAL_HEADER_LEN
            && ReadU32Le(b, 0) == PCAP_MAGIC && ReadU16Le(b, 4) == 2 && ReadU16Le(b, 6) == 4
            && ReadU32Le(b, 20) == linkType && b[GLOBAL_HEADER_LEN..] == rest
  {
    GlobalHeaderOf(U32Le(PCAP_MAGIC), U16Le(2), U16Le(4), U32Le(0), U32Le(0), U32Le(PCAP_SNAPLEN), U32Le(linkType), rest);
  }

  lemma GlobalHeaderOf(a: seq<byte>, b: seq<byte>, c: seq<byte>, d: seq<byte>, e: seq<byte>, f: seq<byte>, g: seq<byte>,
                       rest: seq<byte>)
    requires |a| == |d| == |e| == |f| == |g| == 4 && |b| == |c| == 2
    ensures var s := a + b + c + d + e + f + g + rest;
            && ReadU32Le(s, 0) == ReadU32Le(a, 0) && ReadU16Le(s, 4) == ReadU16Le(b, 0)
            && ReadU16Le(s, 6) == ReadU16Le(c, 0) && ReadU32Le(s, 20) == ReadU32Le(g, 0) && s[24..] == rest
  {
  }

  /** A header and any records of representable packets read back as exactly those packets, in order. */
  lemma FileRoundTrip(linkType: u32, ps: seq<RawPacket>)
    requires forall p <- ps :: Representable(p)
    ensures ReadCapture(FileBytes(linkType, ps)) == Some(Capture(linkType, AllStripped(ps)))
  {
    HeaderFields(linkType, RecordsBytes(ps));
    RecordsRoundTrip(ps, RecordsBytes(ps));
  }
}
