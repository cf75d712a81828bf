/**
 The batches a cloud probe sends (`parse_batch`, `format_uuid` of server/h-capture/src/cloud_probe.rs) and their
 encoding on the wire.
 */
module CloudBatch {
  import opened Bytes
  import opened Wrappers
  import opened Packets
  import PacketDump
  import PcapFormat

  const BATCH_HDR_LEN := 24
  const PKT_HDR_LEN := 16
  const PKT_DATA_LEN_FIELD := 2
  const RECORD_HDR_LEN := PKT_DATA_LEN_FIELD + PKT_HDR_LEN

  /** `Truncated { needed, have, offset }`, the only BatchError. */
  datatype Truncated = Truncated(needed: nat, have: nat, offset: nat)

  datatype Parsed = Parsed(uuid: string, packets: seq<RawPacket>)

  // ---- the wire form ----

  datatype WireRecord = WireRecord(tvSec: u32, tvUsec: u32, caplen: u32, wirelen: u32, data: seq<byte>)

  /** The data length field is 16 bits wide. */
  predicate RecordFits(r: WireRecord) {
    |r.data| < TWO16
  }

  datatype Batch = Batch(version: u16, keybit: u32, uuid: seq<byte>, records: seq<WireRecord>)

  predicate AllFit(rs: seq<WireRecord>) {
    forall i :: 0 <= i < |rs| ==> RecordFits(rs[i])
  }

  predicate BatchFits(b: Batch) {
    |b.uuid| == 16 && |b.records| < TWO16 && AllFit(b.records)
  }

  function RecordHeader(r: WireRecord): (h: seq<byte>)
    requires RecordFits(r)
    ensures |h| == RECORD_HDR_LEN
  {
    U16Be(|r.data|) + U32Be(r.tvSec) + U32Be(r.tvUsec) + U32Be(r.caplen) + U32Be(r.wirelen)
  }

  ghost function EncodeRecords(rs: seq<WireRecord>): seq<byte>
    requires AllFit(rs)
  {
    if rs == [] then [] else RecordHeader(rs[0]) + rs[0].data + EncodeRecords(rs[1..])
  }

  ghost function EncodeBatch(b: Batch): seq<byte>
    requires BatchFits(b)
  {
    U16Be(b.version) + U16Be(|b.records|) + U32Be(b.keybit) + b.uuid + EncodeRecords(b.records)
  }

  /** The packet a record stands for; the source id is filled in later. */
  function PacketOf(r: WireRecord): RawPacket {
    RawPacket(r.tvSec as int * 1_000_000 + r.tvUsec, r.caplen, r.wirelen, LINKTYPE_ETHERNET, r.data, "")
  }

  function PacketsOf(rs: seq<WireRecord>): seq<RawPacket> {
    if rs == [] then [] else [PacketOf(rs[0])] + PacketsOf(rs[1..])
  }

  // ---- uuid text ----

  function HexDigit(n: nat): char
    requires n < 16
  {
    "0123456789abcdef"[n]
  }

  function Hex(bs: seq<byte>): (s: string)
    ensures |s| == 2 * |bs|
    ensures forall c :: c in s ==> c in "0123456789abcdef"
  {
    if bs == [] then [] else [HexDigit(bs[0] / 16), HexDigit(bs[0] % 16)] + Hex(bs[1..])
  }

  function FormatUuid(u: seq<byte>): string
    requires |u| == 16
  {
    Hex(u[0..4]) + "-" + Hex(u[4..6]) + "-" + Hex(u[6..8]) + "-" + Hex(u[8..10]) + "-" + Hex(u[10..16])
  }

  lemma HexDigitInjective(a: nat, b: nat)
    requires a < 16 && b < 16 && HexDigit(a) == HexDigit(b)
    ensures a == b
  {
    var hex := "0123456789abcdef";
    assert forall i :: 0 <= i < 10 ==> hex[i] as int == '0' as int + i;
    assert forall i :: 10 <= i < 16 ==> hex[i] as int == 'a' as int + i - 10;
  }

  lemma {:induction false} HexInjective(a: seq<byte>, b: seq<byte>)
    requires Hex(a) == Hex(b)
    ensures a == b
  {
    assert |a| == |b|;
    if a != [] {
      assert Hex(a)[0] == Hex(b)[0] && Hex(a)[1] == Hex(b)[1];
      assert Hex(a)[2..] == Hex(a[1..]) && Hex(b)[2..] == Hex(b[1..]);
      HexDigitInjective(a[0] / 16, b[0] / 16);
      HexDigitInjective(a[0] % 16, b[0] % 16);
      HexInjective(a[1..], b[1..]);
      assert a == [a[0]] + a[1..] && b == [b[0]] + b[1..];
    }
  }

  lemma UuidParts(u: seq<byte>)
    requires |u| == 16
    ensures var s := FormatUuid(u);
            && |s| == 36
            && s[0..8] == Hex(u[0..4]) && s[9..13] == Hex(u[4..6]) && s[14..18] == Hex(u[6..8])
            && s[19..23] == Hex(u[8..10]) && s[24..36] == Hex(u[10..16])
  {
    DashedParts(Hex(u[0..4]), Hex(u[4..6]), Hex(u[6..8]), Hex(u[8..10]), Hex(u[10..16]));
  }

  lemma DashedParts(a: string, b: string, c: string, d: string, e: string)
    requires |a| == 8 && |b| == |c| == |d| == 4 && |e| == 12
    ensures var s := a + "-" + b + "-" + c + "-" + d + "-" + e;
            |s| == 36 && s[0..8] == a && s[9..13] == b && s[14..18] == c && s[19..23] == d && s[24..36] == e
  {
  }

  lemma WholeUuid(u: seq<byte>)
    requires |u| == 16
    ensures u == u[0..4] + u[4..6] + u[6..8] + u[8..10] + u[10..16]
  {
  }

  /** Two probes never share a source id. */
  lemma UuidsDiffer(u: seq<byte>, v: seq<byte>)
    requires |u| == 16 && |v| == 16
    ensures FormatUuid(u) == FormatUuid(v) <==> u == v
  {
    if FormatUuid(u) == FormatUuid(v) {
      UuidParts(u);
      UuidParts(v);
      HexInjective(u[0..4], v[0..4]);
      HexInjective(u[4..6], v[4..6]);
      HexInjective(u[6..8], v[6..8]);
      HexInjective(u[8..10], v[8..10]);
      HexInjective(u[10..16], v[10..16]);
      WholeUuid(u);
      WholeUuid(v);
    }
  }

  // ---- parsing, as a function ----

  function RecordsOf(b: seq<byte>, offset: nat, n: nat): Result<seq<RawPacket>, Truncated>
    requires offset <= |b|
    decreases n
  {
    if n == 0 then Ok([])
    else if |b| - offset < RECORD_HDR_LEN then Err(Truncated(RECORD_HDR_LEN - (|b| - offset), |b| - offset, offset))
    else
      var len := ReadU16Be(b, offset);
      var at := offset + RECORD_HDR_LEN;
      if |b| - at < len then Err(Truncated(len - (|b| - at), |b| - at, at))
      else
        match RecordsOf(b, at + len, n - 1)
        case Err(e) => Err(e)
        case Ok(ps) => Ok([PacketAt(b, offset)] + ps)
  }

  function PacketAt(b: seq<byte>, offset: nat): RawPacket
    requires WholeRecord(b, offset)
  {
    RawPacket(ReadU32Be(b, offset + 2) as int * 1_000_000 + ReadU32Be(b, offset + 6),
              ReadU32Be(b, offset + 10), ReadU32Be(b, offset + 14), LINKTYPE_ETHERNET,
              b[offset + RECORD_HDR_LEN..offset + RECORD_HDR_LEN + ReadU16Be(b, offset)], "")
  }

  function BatchOf(b: seq<byte>): Result<Parsed, Truncated> {
    if |b| < BATCH_HDR_LEN then Err(Truncated(BATCH_HDR_LEN - |b|, |b|, 0))
    else
      match RecordsOf(b, BATCH_HDR_LEN, ReadU16Be(b, 2))
      case Err(e) => Err(e)
      case Ok(ps) => Ok(Parsed(FormatUuid(b[8..24]), ps))
  }

  // ---- parsing, as the source does it ----

  /** `rest` with `out` in front, where it is not an error. */
  function After(out: seq<RawPacket>, rest: Result<seq<RawPacket>, Truncated>): Result<seq<RawPacket>, Truncated> {
    match rest
    case Err(e) => Err(e)
    case Ok(ps) => Ok(out + ps)
  }

  lemma AfterNone(rest: Result<seq<RawPacket>, Truncated>)
    ensures After([], rest) == rest
  {
    if rest.Ok? {
      assert [] + rest.value == rest.value;
    }
  }

  predicate WholeRecord(b: seq<byte>, offset: nat) {
    offset + RECORD_HDR_LEN <= |b| && offset + RECORD_HDR_LEN + ReadU16Be(b, offset) <= |b|
  }

  /** The error for a record that is not whole. */
  predicate ShortOf(b: seq<byte>, offset: nat, e: Truncated)
    requires offset <= |b| && !WholeRecord(b, offset)
  {
    var at := offset + RECORD_HDR_LEN;
    if at > |b| then e == Truncated(at - |b|, |b| - offset, offset)
    else e == Truncated(at + ReadU16Be(b, offset) - |b|, |b| - at, at)
  }

  /** Parsing `n0` records from `offset0` comes to `out` followed by parsing `n` records from `offset`. */
  ghost predicate Resumes(b: seq<byte>, offset0: nat, n0: nat, offset: nat, n: nat, out: seq<RawPacket>) {
    offset0 <= |b| && offset <= |b| && RecordsOf(b, offset0, n0) == After(out, RecordsOf(b, offset, n))
  }

  lemma StepsTo(b: seq<byte>, offset0: nat, n0: nat, offset: nat, n: nat, out: seq<RawPacket>)
    requires n > 0 && Resumes(b, offset0, n0, offset, n, out) && WholeRecord(b, offset)
    ensures Resumes(b, offset0, n0, offset + RECORD_HDR_LEN + ReadU16Be(b, offset), n - 1, out + [PacketAt(b, offset)])
  {
    var rest := RecordsOf(b, offset + RECORD_HDR_LEN + ReadU16Be(b, offset), n - 1);
    if rest.Ok? {
      assert out + ([PacketAt(b, offset)] + rest.value) == out + [PacketAt(b, offset)] + rest.value;
    }
  }

  lemma StopsAt(b: seq<byte>, offset0: nat, n0: nat, offset: nat, n: nat, out: seq<RawPacket>, e: Truncated)
    requires n > 0 && Resumes(b, offset0, n0, offset, n, out) && !WholeRecord(b, offset) && ShortOf(b, offset, e)
    ensures RecordsOf(b, offset0, n0) == Err(e)
  {
  }

  lemma Completes(b: seq<byte>, offset0: nat, n0: nat, offset: nat, out: seq<RawPacket>)
    requires Resumes(b, offset0, n0, offset, 0, out)
    ensures RecordsOf(b, offset0, n0) == Ok(out)
  {
    assert out + [] == out;
  }

  method ParseBatch(bytes: seq<byte>) returns (r: Result<Parsed, Truncated>)
    ensures r == BatchOf(bytes)
  {
    var total := |bytes|;
    var offset := 0;
    if total < BATCH_HDR_LEN {
      return Err(Truncated(BATCH_HDR_LEN - total, total, offset));
    }
    var uuid := FormatUuid(bytes[8..24]);
    var pktsNum := ReadU16Be(bytes, 2);
    offset := offset + BATCH_HDR_LEN;
    var out := ParseRecords(bytes, offset, pktsNum);
    match out {
      case Err(e) => r := Err(e);
      case Ok(ps) => r := Ok(Parsed(uuid, ps));
    }
  }

  /** The record loop of `parse_batch`. */
  method ParseRecords(bytes: seq<byte>, offset0: nat, pktsNum: nat) returns (r: Result<seq<RawPacket>, Truncated>)
    requires offset0 <= |bytes|
    ensures r == RecordsOf(bytes, offset0, pktsNum)
  {
    var offset: nat := offset0;
    var out: seq<RawPacket> := [];
    AfterNone(RecordsOf(bytes, offset, pktsNum));
    for i := 0 to pktsNum
      invariant offset <= |bytes|
      invariant Resumes(bytes, offset0, pktsNum, offset, pktsNum - i, out)
    {
      var step := ReadRecord(bytes, offset);
      match step {
        case Err(e) =>
          StopsAt(bytes, offset0, pktsNum, offset, pktsNum - i, out, e);
          return Err(e);
        case Ok((p, next)) =>
          StepsTo(bytes, offset0, pktsNum, offset, pktsNum - i, out);
          out := out + [p];
          offset := next;
      }
    }
    Completes(bytes, offset0, pktsNum, offset, out);
    r := Ok(out);
  }

  /** The body of that loop: the record at an offset and the offset after it. */
  method ReadRecord(bytes: seq<byte>, start: nat) returns (r: Result<(RawPacket, nat), Truncated>)
    requires start <= |bytes|
    ensures r.Ok? <==> WholeRecord(bytes, start)
    ensures r.Ok? ==> r.value == (PacketAt(bytes, start), start + RECORD_HDR_LEN + ReadU16Be(bytes, start))
    ensures r.Err? ==> ShortOf(bytes, start, r.error)
  {
    var total, offset := |bytes|, start;
    if total - offset < RECORD_HDR_LEN {
      return Err(Truncated(RECORD_HDR_LEN - (total - offset), total - offset, offset));
    }
    var pktDataLen := ReadU16Be(bytes, offset);
    offset := offset + PKT_DATA_LEN_FIELD;
    var tvSec := ReadU32Be(bytes, offset);
    var tvUsec := ReadU32Be(bytes, offset + 4);
    var caplen := ReadU32Be(bytes, offset + 8);
    var wirelen := ReadU32Be(bytes, offset + 12);
    offset := offset + PKT_HDR_LEN;
    if total - offset < pktDataLen {
      return Err(Truncated(pktDataLen - (total - offset), total - offset, offset));
    }
    var data := bytes[offset..offset + pktDataLen];
    offset := offset + pktDataLen;
    r := Ok((RawPacket(tvSec as int * 1_000_000 + tvUsec, caplen, wirelen, LINKTYPE_ETHERNET, data, ""), offset));
  }

  // ---- encoding then parsing ----

  lemma HeaderReads(r: WireRecord)
    requires RecordFits(r)
    ensures var h := RecordHeader(r);
            && ReadU16Be(h, 0) == |r.data| && ReadU32Be(h, 2) == r.tvSec && ReadU32Be(h, 6) == r.tvUsec
            && ReadU32Be(h, 10) == r.caplen && ReadU32Be(h, 14) == r.wirelen
  {
    var h := RecordHeader(r);
    assert h[0..2] == U16Be(|r.data|) && h[2..6] == U32Be(r.tvSec) && h[6..10] == U32Be(r.tvUsec)
        && h[10..14] == U32Be(r.caplen) && h[14..18] == U32Be(r.wirelen);
  }

  /** A record header found at `offset` reads as its fields there. */
  lemma ReadsAt(b: seq<byte>, offset: nat, h: seq<byte>)
    requires |h| == RECORD_HDR_LEN && offset + RECORD_HDR_LEN <= |b| && b[offset..offset + RECORD_HDR_LEN] == h
    ensures ReadU16Be(b, offset) == ReadU16Be(h, 0) && ReadU32Be(b, offset + 2) == ReadU32Be(h, 2)
    ensures ReadU32Be(b, offset + 6) == ReadU32Be(h, 6) && ReadU32Be(b, offset + 10) == ReadU32Be(h, 10)
    ensures ReadU32Be(b, offset + 14) == ReadU32Be(h, 14)
  {
    assert forall i :: 0 <= i < RECORD_HDR_LEN ==> h[i] == b[offset + i];
  }

  lemma RecordAt(b: seq<byte>, offset: nat, r: WireRecord)
    requires RecordFits(r) && offset + RECORD_HDR_LEN + |r.data| <= |b|
    requires b[offset..offset + RECORD_HDR_LEN] == RecordHeader(r)
    requires b[offset + RECORD_HDR_LEN..offset + RECORD_HDR_LEN + |r.data|] == r.data
    ensures ReadU16Be(b, offset) == |r.data| && RecordFrom(b, offset) == r
  {
    HeaderReads(r);
    ReadsAt(b, offset, RecordHeader(r));
  }

  /** `part` stands in `b` at `offset`. */
  predicate Holds(b: seq<byte>, offset: nat, part: seq<byte>) {
    offset + |part| <= |b| && b[offset..offset + |part|] == part
  }

  lemma HoldsParts(b: seq<byte>, offset: nat, x: seq<byte>, y: seq<byte>)
    ensures Holds(b, offset, x + y) <==> Holds(b, offset, x) && Holds(b, offset + |x|, y)
  {
    var n, m := |x|, |y|;
    if offset + n + m <= |b| {
      assert b[offset..offset + n + m] == b[offset..offset + n] + b[offset + n..offset + n + m];
      assert (x + y)[..n] == x && (x + y)[n..] == y;
      assert b[offset..offset + n + m][..n] == b[offset..offset + n];
      assert b[offset..offset + n + m][n..] == b[offset + n..offset + n + m];
    }
  }

  lemma FirstRecord(b: seq<byte>, offset: nat, r: WireRecord, rest: seq<byte>, e: seq<byte>)
    requires RecordFits(r) && e == RecordHeader(r) + r.data + rest && Holds(b, offset, e)
    ensures var next := offset + RECORD_HDR_LEN + |r.data|;
            && next <= |b| && WholeRecord(b, offset) && RecordFrom(b, offset) == r && Holds(b, next, rest)
  {
    HoldsParts(b, offset, RecordHeader(r) + r.data, rest);
    HoldsParts(b, offset, RecordHeader(r), r.data);
    RecordAt(b, offset, r);
  }

  function RecordFrom(b: seq<byte>, offset: nat): WireRecord
    requires WholeRecord(b, offset)
  {
    WireRecord(ReadU32Be(b, offset + 2), ReadU32Be(b, offset + 6), ReadU32Be(b, offset + 10),
               ReadU32Be(b, offset + 14),
               b[offset + RECORD_HDR_LEN..offset + RECORD_HDR_LEN + ReadU16Be(b, offset)])
  }

  /** The records `rs` lie in `b` one after the other from `offset`. */
  ghost predicate LaidOut(b: seq<byte>, offset: nat, rs: seq<WireRecord>)
    decreases |rs|
  {
    if rs == [] then offset <= |b|
    else
      && WholeRecord(b, offset) && RecordFrom(b, offset) == rs[0]
      && LaidOut(b, offset + RECORD_HDR_LEN + |rs[0].data|, rs[1..])
  }

  /** An encoded list starts with its first record, and the rest is encoded behind it. */
  lemma EncodingStarts(b: seq<byte>, offset: nat, rs: seq<WireRecord>, tail: seq<WireRecord>, next: nat)
    requires AllFit(rs) && rs != [] && Holds(b, offset, EncodeRecords(rs))
    requires tail == rs[1..] && next == offset + RECORD_HDR_LEN + |rs[0].data|
    ensures AllFit(tail) && next <= |b| && WholeRecord(b, offset) && RecordFrom(b, offset) == rs[0]
    ensures Holds(b, next, EncodeRecords(tail))
  {
    EncodingUnfolds(rs, tail);
    FirstRecord(b, offset, rs[0], EncodeRecords(tail), EncodeRecords(rs));
  }

  lemma EncodingUnfolds(rs: seq<WireRecord>, tail: seq<WireRecord>)
    requires AllFit(rs) && rs != [] && tail == rs[1..]
    ensures AllFit(tail) && EncodeRecords(rs) == RecordHeader(rs[0]) + rs[0].data + EncodeRecords(tail)
  {
  }

  lemma {:induction false} EncodingIsLaidOut(b: seq<byte>, offset: nat, rs: seq<WireRecord>)
    requires AllFit(rs) && offset <= |b| && Holds(b, offset, EncodeRecords(rs))
    ensures LaidOut(b, offset, rs)
    decreases |rs|
  {
    if rs != [] {
      var tail, next := rs[1..], offset + RECORD_HDR_LEN + |rs[0].data|;
      EncodingStarts(b, offset, rs, tail, next);
      EncodingIsLaidOut(b, next, tail);
      LaidOutCons(b, offset, rs, tail, next);
    }
  }

  lemma LaidOutCons(b: seq<byte>, offset: nat, rs: seq<WireRecord>, tail: seq<WireRecord>, next: nat)
    requires rs != [] && tail == rs[1..] && WholeRecord(b, offset) && RecordFrom(b, offset) == rs[0]
    requires next == offset + RECORD_HDR_LEN + |rs[0].data| && LaidOut(b, next, tail)
    ensures LaidOut(b, offset, rs)
  {
  }

  lemma {:induction false} LaidOutRecordsParse(b: seq<byte>, offset: nat, rs: seq<WireRecord>)
    requires LaidOut(b, offset, rs) && offset <= |b|
    ensures RecordsOf(b, offset, |rs|) == Ok(PacketsOf(rs))
    decreases |rs|
  {
    if rs != [] {
      LaidOutRecordsParse(b, offset + RECORD_HDR_LEN + |rs[0].data|, rs[1..]);
    }
  }

  lemma BatchHeaderReads(batch: Batch, rest: seq<byte>, b: seq<byte>)
    requires BatchFits(batch)
    requires b == U16Be(batch.version) + U16Be(|batch.records|) + U32Be(batch.keybit) + batch.uuid + rest
    ensures |b| == BATCH_HDR_LEN + |rest| && b[24..] == rest
    ensures ReadU16Be(b, 2) == |batch.records| && b[8..24] == batch.uuid
  {
    assert b[2..4] == U16Be(|batch.records|);
  }

  /** A well-formed batch, followed by anything, parses to its uuid and packets. */
  lemma EncodedBatchParses(batch: Batch, trailing: seq<byte>)
    requires BatchFits(batch)
    ensures BatchOf(EncodeBatch(batch) + trailing) == Ok(Parsed(FormatUuid(batch.uuid), PacketsOf(batch.records)))
  {
    var records := EncodeRecords(batch.records);
    var b := EncodeBatch(batch) + trailing;
    assert b == U16Be(batch.version) + U16Be(|batch.records|) + U32Be(batch.keybit) + batch.uuid + (records + trailing);
    BatchHeaderReads(batch, records + trailing, b);
    assert b[24..24 + |records|] == records;
    EncodingIsLaidOut(b, BATCH_HDR_LEN, batch.records);
    LaidOutRecordsParse(b, BATCH_HDR_LEN, batch.records);
  }

  // ---- parsing then encoding ----

  lemma U16Back(s: seq<byte>, i: nat)
    requires i + 2 <= |s|
    ensures U16Be(ReadU16Be(s, i)) == s[i..i + 2]
  {
  }

  lemma U32Back(s: seq<byte>, i: nat)
    requires i + 4 <= |s|
    ensures U32Be(ReadU32Be(s, i)) == s[i..i + 4]
  {
    var a, b, c, d := s[i] as int, s[i + 1] as int, s[i + 2] as int, s[i + 3] as int;
    var x := ReadU32Be(s, i);
    assert x / 0x100 == a * 0x1_0000 + b * 0x100 + c;
    assert x / 0x1_0000 == a * 0x100 + b;
  }

  lemma HeaderFrom(b: seq<byte>, offset: nat)
    requires WholeRecord(b, offset)
    ensures RecordHeader(RecordFrom(b, offset)) == b[offset..offset + RECORD_HDR_LEN]
  {
    U16Back(b, offset);
    U32Back(b, offset + 2);
    U32Back(b, offset + 6);
    U32Back(b, offset + 10);
    U32Back(b, offset + 14);
    assert b[offset..offset + RECORD_HDR_LEN]
        == b[offset..offset + 2] + b[offset + 2..offset + 6] + b[offset + 6..offset + 10]
           + b[offset + 10..offset + 14] + b[offset + 14..offset + 18];
  }

  lemma {:induction false} ParsedRecordsWereEncoded(b: seq<byte>, offset: nat, n: nat) returns (rs: seq<WireRecord>)
    requires offset <= |b| && RecordsOf(b, offset, n).Ok?
    ensures |rs| == n && AllFit(rs)
    ensures Holds(b, offset, EncodeRecords(rs))
    decreases n
  {
    rs := [];
    if n > 0 {
      var len := ReadU16Be(b, offset);
      var r := RecordFrom(b, offset);
      var tail := ParsedRecordsWereEncoded(b, offset + RECORD_HDR_LEN + len, n - 1);
      HeaderFrom(b, offset);
      HoldsParts(b, offset, RecordHeader(r), r.data);
      HoldsParts(b, offset, RecordHeader(r) + r.data, EncodeRecords(tail));
      rs := [r] + tail;
      assert rs[1..] == tail;
    }
  }

  ghost predicate StartsWithBatch(b: seq<byte>, batch: Batch) {
    BatchFits(batch) && Holds(b, 0, EncodeBatch(batch))
  }

  lemma ParsedBatchWasEncoded(b: seq<byte>) returns (batch: Batch)
    requires BatchOf(b).Ok?
    ensures StartsWithBatch(b, batch)
  {
    var rs := ParsedRecordsWereEncoded(b, BATCH_HDR_LEN, ReadU16Be(b, 2));
    batch := Batch(ReadU16Be(b, 0), ReadU32Be(b, 4), b[8..24], rs);
    U16Back(b, 0);
    U16Back(b, 2);
    U32Back(b, 4);
    var header := U16Be(batch.version) + U16Be(|rs|) + U32Be(batch.keybit) + batch.uuid;
    assert b[0..24] == b[0..2] + b[2..4] + b[4..8] + b[8..24];
    assert header == b[0..24];
    HoldsParts(b, 0, header, EncodeRecords(rs));
  }

  lemma PrefixParses(b: seq<byte>, batch: Batch, e: seq<byte>)
    requires BatchFits(batch) && e == EncodeBatch(batch) && Holds(b, 0, e)
    ensures BatchOf(b) == Ok(Parsed(FormatUuid(batch.uuid), PacketsOf(batch.records)))
  {
    EncodedBatchParses(batch, b[|e|..]);
    assert b == b[0..|e|] + b[|e|..];
  }

  /** The parser accepts exactly the messages that start with a well-formed batch, and yields that batch's packets. */
  lemma AcceptedAreBatches(b: seq<byte>)
    ensures BatchOf(b).Ok? <==> exists batch :: StartsWithBatch(b, batch)
    ensures forall batch :: StartsWithBatch(b, batch) ==>
              BatchOf(b) == Ok(Parsed(FormatUuid(batch.uuid), PacketsOf(batch.records)))
  {
    if BatchOf(b).Ok? {
      var batch := ParsedBatchWasEncoded(b);
    }
    forall batch | StartsWithBatch(b, batch)
      ensures BatchOf(b) == Ok(Parsed(FormatUuid(batch.uuid), PacketsOf(batch.records)))
    {
      PrefixParses(b, batch, EncodeBatch(batch));
    }
  }

  // ---- truncation ----

  lemma SameReads(b: seq<byte>, more: seq<byte>, offset: nat)
    requires offset + RECORD_HDR_LEN <= |b|
    ensures ReadU16Be(b + more, offset) == ReadU16Be(b, offset)
    ensures offset + RECORD_HDR_LEN + ReadU16Be(b, offset) <= |b| ==> PacketAt(b + more, offset) == PacketAt(b, offset)
  {
    var n := ReadU16Be(b, offset);
    if offset + RECORD_HDR_LEN + n <= |b| {
      assert (b + more)[offset + RECORD_HDR_LEN..offset + RECORD_HDR_LEN + n]
          == b[offset + RECORD_HDR_LEN..offset + RECORD_HDR_LEN + n];
    }
  }

  /** The error `e` shrinks by what was appended, while that is not enough. */
  predicate StillShort(e: Truncated, more: seq<byte>, r: Truncated) {
    && |more| < e.needed
    && r == Truncated(e.needed - |more|, e.have + |more|, e.offset)
  }

  /** How an error `e` for `b` changes when `more` is appended and parsing gives `r`. */
  predicate Extends(b: seq<byte>, more: seq<byte>, e: Truncated, r: Result<seq<RawPacket>, Truncated>) {
    && e.needed > 0 && e.offset <= |b| && e.have == |b| - e.offset
    && (|more| < e.needed ==> r.Err? && StillShort(e, more, r.error))
    && (|more| >= e.needed ==> r.Ok? || r.error.offset > e.offset)
  }

  lemma {:induction false} MissingRecordBytes(b: seq<byte>, offset: nat, n: nat, more: seq<byte>)
    requires offset <= |b| && RecordsOf(b, offset, n).Err?
    ensures offset <= RecordsOf(b, offset, n).error.offset
    ensures Extends(b, more, RecordsOf(b, offset, n).error, RecordsOf(b + more, offset, n))
    decreases n
  {
    if WholeRecord(b, offset) {
      SameReads(b, more, offset);
      MissingRecordBytes(b, offset + RECORD_HDR_LEN + ReadU16Be(b, offset), n - 1, more);
    } else if offset + RECORD_HDR_LEN <= |b| {
      SameReads(b, more, offset);
      MissingData(b, offset, n, more);
    } else {
      MissingHeader(b, offset, n, more);
    }
  }

  lemma MissingData(b: seq<byte>, offset: nat, n: nat, more: seq<byte>)
    requires n > 0 && offset + RECORD_HDR_LEN <= |b| && !WholeRecord(b, offset)
    requires ReadU16Be(b + more, offset) == ReadU16Be(b, offset)
    ensures RecordsOf(b, offset, n).Err? && offset <= RecordsOf(b, offset, n).error.offset
    ensures Extends(b, more, RecordsOf(b, offset, n).error, RecordsOf(b + more, offset, n))
  {
    if WholeRecord(b + more, offset) {
      ErrorsComeLater(b + more, offset + RECORD_HDR_LEN + ReadU16Be(b, offset), n - 1);
    }
  }

  lemma MissingHeader(b: seq<byte>, offset: nat, n: nat, more: seq<byte>)
    requires n > 0 && offset <= |b| < offset + RECORD_HDR_LEN
    ensures RecordsOf(b, offset, n).Err? && offset <= RecordsOf(b, offset, n).error.offset
    ensures Extends(b, more, RecordsOf(b, offset, n).error, RecordsOf(b + more, offset, n))
  {
    if WholeRecord(b + more, offset) {
      ErrorsComeLater(b + more, offset + RECORD_HDR_LEN + ReadU16Be(b + more, offset), n - 1);
    }
  }

  lemma {:induction false} ErrorsComeLater(b: seq<byte>, offset: nat, n: nat)
    requires offset <= |b|
    ensures RecordsOf(b, offset, n).Err? ==> RecordsOf(b, offset, n).error.offset >= offset
    decreases n
  {
    if n > 0 && |b| - offset >= RECORD_HDR_LEN && offset + RECORD_HDR_LEN + ReadU16Be(b, offset) <= |b| {
      ErrorsComeLater(b, offset + RECORD_HDR_LEN + ReadU16Be(b, offset), n - 1);
    }
  }

  /**
   `needed` is exact: with fewer bytes appended the same field is still short by the difference, and with that many
   the parser gets past it.
   */
  lemma NeededIsExact(b: seq<byte>, more: seq<byte>)
    requires BatchOf(b).Err?
    ensures var e := BatchOf(b).error;
            var r := BatchOf(b + more);
            && e.needed > 0 && e.offset <= |b| && e.have == |b| - e.offset
            && (|more| < e.needed ==> r.Err? && StillShort(e, more, r.error))
            && (|more| >= e.needed ==> r.Ok? || r.error.offset > e.offset)
  {
    if |b| >= BATCH_HDR_LEN {
      assert ReadU16Be(b + more, 2) == ReadU16Be(b, 2);
      MissingRecordBytes(b, BATCH_HDR_LEN, ReadU16Be(b, 2), more);
    } else if |b + more| >= BATCH_HDR_LEN {
      ErrorsComeLater(b + more, BATCH_HDR_LEN, ReadU16Be(b + more, 2));
    }
  }

  // ---- reading a uuid back ----

  /** The value of a hexadecimal digit. */
  function HexValue(c: char): int {
    if '0' <= c <= '9' then c as int - '0' as int else c as int - 'a' as int + 10
  }

  /** The digits without the dashes. */
  function UuidDigits(s: string): string
    requires |s| == 36
  {
    s[0..8] + s[9..13] + s[14..18] + s[19..23] + s[24..36]
  }

  lemma HexDigitValue(n: nat)
    requires n < 16
    ensures HexValue(HexDigit(n)) == n
  {
    var hex := "0123456789abcdef";
    assert forall i :: 0 <= i < 10 ==> hex[i] as int == '0' as int + i;
    assert forall i :: 10 <= i < 16 ==> hex[i] as int == 'a' as int + i - 10;
  }

  lemma {:induction false} HexReadsBack(bs: seq<byte>, i: nat)
    requires i < |bs|
    ensures HexValue(Hex(bs)[2 * i]) * 16 + HexValue(Hex(bs)[2 * i + 1]) == bs[i]
    decreases |bs|
  {
    if i == 0 {
      HexDigitValue(bs[0] / 16);
      HexDigitValue(bs[0] % 16);
    } else {
      HexReadsBack(bs[1..], i - 1);
      assert Hex(bs)[2..] == Hex(bs[1..]);
    }
  }

  lemma {:induction false} HexConcat(a: seq<byte>, b: seq<byte>)
    ensures Hex(a + b) == Hex(a) + Hex(b)
    decreases |a|
  {
    if a == [] {
      assert a + b == b;
    } else {
      HexConcat(a[1..], b);
      assert (a + b)[1..] == a[1..] + b;
    }
  }

  lemma DigitsAreHex(u: seq<byte>)
    requires |u| == 16
    ensures |FormatUuid(u)| == 36 && UuidDigits(FormatUuid(u)) == Hex(u)
  {
    UuidParts(u);
    WholeUuid(u);
    HexConcat(u[0..4], u[4..6]);
    HexConcat(u[0..4] + u[4..6], u[6..8]);
    HexConcat(u[0..4] + u[4..6] + u[6..8], u[8..10]);
    HexConcat(u[0..4] + u[4..6] + u[6..8] + u[8..10], u[10..16]);
  }

  /** The 32 digits of a source id, read in pairs as hexadecimal numbers, are the 16 bytes of the uuid, in order. */
  lemma UuidReadsBack(u: seq<byte>, i: nat)
    requires |u| == 16 && i < 16
    ensures |FormatUuid(u)| == 36 && |UuidDigits(FormatUuid(u))| == 32
    ensures var d := UuidDigits(FormatUuid(u));
            HexValue(d[2 * i]) * 16 + HexValue(d[2 * i + 1]) == u[i]
    ensures forall j :: j in {8, 13, 18, 23} ==> FormatUuid(u)[j] == '-'
  {
    DigitsAreHex(u);
    HexReadsBack(u, i);
    UuidDashes(Hex(u[0..4]), Hex(u[4..6]), Hex(u[6..8]), Hex(u[8..10]), Hex(u[10..16]));
  }

  lemma UuidDashes(a: string, b: string, c: string, d: string, e: string)
    requires |a| == 8 && |b| == |c| == |d| == 4 && |e| == 12
    ensures var s := a + "-" + b + "-" + c + "-" + d + "-" + e;
            s[8] == '-' && s[13] == '-' && s[18] == '-' && s[23] == '-'
  {
  }

  // ---- times ----

  /** A parsed packet carries the record's lengths and data, and its dump shows the record's seconds and microseconds. */
  lemma ParsedRecordDumps(r: WireRecord)
    ensures var p := PacketOf(r);
            p.caplen == r.caplen && p.wirelen == r.wirelen && p.data == r.data && p.linkType == 1
    ensures r.tvUsec < 1_000_000 ==>
              PcapFormat.TsSec(PacketOf(r).timestampUs) == r.tvSec && PcapFormat.TsUsec(PacketOf(r).timestampUs) == r.tvUsec
  {
    var ts := PacketOf(r).timestampUs;
    assert ts - r.tvSec * 1_000_000 == r.tvUsec;
    if r.tvUsec < 1_000_000 {
      assert ts / 1_000_000 == r.tvSec;
    }
  }

  // ---- dump directories ----

  lemma UuidIsSafe(s: string, a: string, b: string, c: string, d: string, e: string)
    requires s == a + "-" + b + "-" + c + "-" + d + "-" + e
    requires forall x :: x in a || x in b || x in c || x in d || x in e ==> x in "0123456789abcdef"
    ensures forall x :: x in s ==> PacketDump.SafeChar(x)
  {
    assert forall x :: x in "0123456789abcdef" ==> PacketDump.SafeChar(x);
    assert forall x :: x in s ==> x == '-' || x in a || x in b || x in c || x in d || x in e;
  }

  /** A uuid is a safe path component as it is, so the dumps of different probes never share a directory. */
  lemma UuidsDumpApart(u: seq<byte>)
    requires |u| == 16
    ensures PacketDump.Sanitize(FormatUuid(u)) == Some(FormatUuid(u))
  {
    UuidParts(u);
    UuidIsSafe(FormatUuid(u), Hex(u[0..4]), Hex(u[4..6]), Hex(u[6..8]), Hex(u[8..10]), Hex(u[10..16]));
    assert PacketDump.Scrub(FormatUuid(u)) == FormatUuid(u);
  }
}
