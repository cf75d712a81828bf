/**
 The cloud-probe source: per-source virtual time (server/h-capture/src/heartbeat.rs), routing to dispatcher channels
 (server/h-capture/src/routing.rs) and the receive loop that joins them (server/h-capture/src/cloud_probe.rs).
 */
module CloudProbe {
  import opened Bytes
  import opened Wrappers
  import opened Packets
  import opened CloudBatch

  const HEARTBEAT_INTERVAL_US := 1_000_000

  // ---- virtual time of one source, as functions ----

  /** `last_hb_ts`, with the 0 that an absent entry starts from. */
  function SlotOf(slots: map<string, int>, sourceId: string): int {
    if sourceId in slots then slots[sourceId] else 0
  }

  predicate Synthesizes(slot: int, p: RawPacket) {
    !IsHeartbeat(p) && slot != 0 && p.timestampUs - slot >= HEARTBEAT_INTERVAL_US
  }

  function NextSlot(slot: int, p: RawPacket): int {
    if IsHeartbeat(p) then (if p.timestampUs > slot then p.timestampUs else slot)
    else if slot == 0 || Synthesizes(slot, p) then p.timestampUs
    else slot
  }

  class HeartbeatTracker {
    var lastHbTs: map<string, int>

    constructor ()
      ensures lastHbTs == map[]
    {
      lastHbTs := map[];
    }

    method OnPacket(pkt: RawPacket) returns (hb: Option<RawPacket>)
      modifies this
      ensures var slot := SlotOf(old(lastHbTs), pkt.sourceId);
              && lastHbTs == old(lastHbTs)[pkt.sourceId := NextSlot(slot, pkt)]
              && hb == if Synthesizes(slot, pkt) then Some(HeartbeatPacket(pkt.timestampUs, pkt.sourceId)) else None
    {
      if pkt.sourceId !in lastHbTs {
        lastHbTs := lastHbTs[pkt.sourceId := 0];
      }
      var slot := lastHbTs[pkt.sourceId];
      if IsHeartbeat(pkt) {
        if pkt.timestampUs > slot {
          lastHbTs := lastHbTs[pkt.sourceId := pkt.timestampUs];
        }
        return None;
      }
      if slot == 0 {
        lastHbTs := lastHbTs[pkt.sourceId := pkt.timestampUs];
        return None;
      }
      if pkt.timestampUs - slot < HEARTBEAT_INTERVAL_US {
        return None;
      }
      lastHbTs := lastHbTs[pkt.sourceId := pkt.timestampUs];
      var p := Heartbeat(pkt.timestampUs, pkt.sourceId);
      hb := Some(p);
    }
  }

  // ---- routing ----

  class RoutingSender {
    /** What each downstream channel has been sent, in order. */
    var channels: seq<seq<RawPacket>>
    /** `DefaultHasher` on the source id, as a number. */
    const hash: string -> nat

    constructor (n: nat, hash: string -> nat)
      requires n > 0
      ensures channels == seq(n, i => []) && this.hash == hash
    {
      channels := seq(n, i => []);
      this.hash := hash;
    }

    method Send(pkt: RawPacket)
      requires channels != []
      modifies this`channels
      ensures var i := ChannelIndex(hash, |old(channels)|, pkt.sourceId);
              channels == old(channels)[i := old(channels)[i] + [pkt]]
    {
      var i := Index(hash, |channels|, pkt.sourceId);
      channels := channels[i := channels[i] + [pkt]];
    }
  }

  function ChannelIndex(hash: string -> nat, n: nat, sourceId: string): (i: nat)
    requires n > 0
    ensures i < n
  {
    hash(sourceId) % n
  }

  /** Two sources share a channel exactly when their hashes agree modulo the number of channels. */
  lemma ChannelsByHash(hash: string -> nat, n: nat, a: string, b: string)
    requires n > 0
    ensures ChannelIndex(hash, n, a) == ChannelIndex(hash, n, b) <==> hash(a) % n == hash(b) % n
  {
  }

  /** The single-channel case skips the hash; the choice is the same. */
  method Index(hash: string -> nat, n: nat, sourceId: string) returns (i: nat)
    requires n > 0
    ensures i == ChannelIndex(hash, n, sourceId)
  {
    if n == 1 {
      return 0;
    }
    i := hash(sourceId) % n;
  }

  // ---- a run, as functions of the packets received ----

  /** One packet sent downstream; `synthesized` marks the heartbeats made here. */
  datatype Sending = Sending(packet: RawPacket, synthesized: bool)

  function Slots(ps: seq<RawPacket>): map<string, int> {
    if ps == [] then map[]
    else
      var before := Slots(ps[..|ps| - 1]);
      var p := ps[|ps| - 1];
      before[p.sourceId := NextSlot(SlotOf(before, p.sourceId), p)]
  }

  /** What one packet makes the loop send: a heartbeat first when one is due, then the packet. */
  function Emitted(slot: int, p: RawPacket): seq<Sending> {
    if Synthesizes(slot, p) then [Sending(HeartbeatPacket(p.timestampUs, p.sourceId), true), Sending(p, false)]
    else [Sending(p, false)]
  }

  function Sent(ps: seq<RawPacket>): seq<Sending> {
    if ps == [] then []
    else
      var p := ps[|ps| - 1];
      Sent(ps[..|ps| - 1]) + Emitted(SlotOf(Slots(ps[..|ps| - 1]), p.sourceId), p)
  }

  function FromSource(ps: seq<RawPacket>, s: string): seq<RawPacket> {
    if ps == [] then []
    else FromSource(ps[..|ps| - 1], s) + if ps[|ps| - 1].sourceId == s then [ps[|ps| - 1]] else []
  }

  function SentFor(xs: seq<Sending>, s: string): seq<Sending> {
    if xs == [] then []
    else SentFor(xs[..|xs| - 1], s) + if xs[|xs| - 1].packet.sourceId == s then [xs[|xs| - 1]] else []
  }

  /** The packets routed to channel `i`, in order. */
  function Channel(xs: seq<Sending>, hash: string -> nat, n: nat, i: nat): seq<RawPacket>
    requires n > 0
  {
    if xs == [] then []
    else
      Channel(xs[..|xs| - 1], hash, n, i)
        + if ChannelIndex(hash, n, xs[|xs| - 1].packet.sourceId) == i then [xs[|xs| - 1].packet] else []
  }

  function Channels(xs: seq<Sending>, hash: string -> nat, n: nat): seq<seq<RawPacket>>
    requires n > 0
  {
    seq(n, i requires 0 <= i < n => Channel(xs, hash, n, i))
  }

  lemma ChannelSnoc(xs: seq<Sending>, x: Sending, hash: string -> nat, n: nat, i: nat)
    requires n > 0
    ensures Channel(xs + [x], hash, n, i)
         == if ChannelIndex(hash, n, x.packet.sourceId) == i then Channel(xs, hash, n, i) + [x.packet]
            else Channel(xs, hash, n, i)
  {
    assert (xs + [x])[..|xs|] == xs;
  }

  lemma ChannelsStep(xs: seq<Sending>, x: Sending, hash: string -> nat, n: nat)
    requires n > 0
    ensures var c := Channels(xs, hash, n);
            var i := ChannelIndex(hash, n, x.packet.sourceId);
            Channels(xs + [x], hash, n) == c[i := c[i] + [x.packet]]
  {
    forall k | 0 <= k < n
      ensures Channel(xs + [x], hash, n, k)
           == if ChannelIndex(hash, n, x.packet.sourceId) == k then Channel(xs, hash, n, k) + [x.packet]
              else Channel(xs, hash, n, k)
    {
      ChannelSnoc(xs, x, hash, n, k);
    }
  }

  lemma RunStep(ps: seq<RawPacket>, p: RawPacket)
    ensures var slot := SlotOf(Slots(ps), p.sourceId);
            && Slots(ps + [p]) == Slots(ps)[p.sourceId := NextSlot(slot, p)]
            && Sent(ps + [p]) == Sent(ps) + Emitted(slot, p)
  {
    assert (ps + [p])[..|ps|] == ps;
  }

  /** The packets of a parsed batch, with the batch's uuid as their source. */
  function Named(ps: seq<RawPacket>, uuid: string): (r: seq<RawPacket>)
    ensures |r| == |ps| && forall i :: 0 <= i < |ps| ==> r[i] == ps[i].(sourceId := uuid)
  {
    seq(|ps|, i requires 0 <= i < |ps| => ps[i].(sourceId := uuid))
  }

  /** The packets received in a list of messages; a malformed message is dropped whole. */
  function Received(message: seq<byte>): seq<RawPacket> {
    match BatchOf(message)
    case Err(_) => []
    case Ok(batch) => Named(batch.packets, batch.uuid)
  }

  /** The i-th packet received for the i-th record of a batch. */
  predicate IsRecordOf(p: RawPacket, r: WireRecord, uuid: seq<byte>)
    requires |uuid| == 16
  {
    && p.sourceId == FormatUuid(uuid) && p.linkType == 1 && p.timestampUs == r.tvSec * 1_000_000 + r.tvUsec
    && p.caplen == r.caplen && p.wirelen == r.wirelen && p.data == r.data
  }

  lemma {:induction false} PacketsAre(rs: seq<WireRecord>)
    ensures |PacketsOf(rs)| == |rs| && forall i :: 0 <= i < |rs| ==> PacketsOf(rs)[i] == PacketOf(rs[i])
  {
    if rs != [] {
      PacketsAre(rs[1..]);
    }
  }

  /** A message that starts with a batch is received as one packet per record, under the batch's uuid; no other is. */
  lemma ReceivedExactly(message: seq<byte>)
    ensures forall batch :: StartsWithBatch(message, batch) ==>
              |Received(message)| == |batch.records|
              && forall i :: 0 <= i < |batch.records| ==> IsRecordOf(Received(message)[i], batch.records[i], batch.uuid)
    ensures (forall batch :: !StartsWithBatch(message, batch)) ==> Received(message) == []
  {
    AcceptedAreBatches(message);
    forall batch | StartsWithBatch(message, batch)
      ensures |Received(message)| == |batch.records|
              && forall i :: 0 <= i < |batch.records| ==> IsRecordOf(Received(message)[i], batch.records[i], batch.uuid)
    {
      RecordsNamed(batch.records, batch.uuid);
    }
  }

  lemma RecordsNamed(rs: seq<WireRecord>, uuid: seq<byte>)
    requires |uuid| == 16
    ensures var ps := Named(PacketsOf(rs), FormatUuid(uuid));
            |ps| == |rs| && forall i :: 0 <= i < |rs| ==> IsRecordOf(ps[i], rs[i], uuid)
  {
    PacketsAre(rs);
  }

  // ---- the receive loop ----

  ghost function Extended(before: seq<RawPacket>, ps: seq<RawPacket>, i: nat): seq<RawPacket>
    requires i <= |ps|
  {
    before + ps[..i]
  }

  lemma ExtendedStep(before: seq<RawPacket>, ps: seq<RawPacket>, i: nat)
    requires i < |ps|
    ensures Extended(before, ps, i + 1) == Extended(before, ps, i) + [ps[i]]
  {
  }

  class CloudProbeSource {
    const tracker: HeartbeatTracker
    const tx: RoutingSender
    /** Every packet taken from a batch so far. */
    ghost var history: seq<RawPacket>

    ghost predicate Valid()
      reads this, tracker, tx
    {
      && tracker.lastHbTs == Slots(history)
      && tx.channels != []
      && tx.channels == Channels(Sent(history), tx.hash, |tx.channels|)
    }

    constructor (n: nat, hash: string -> nat)
      requires n > 0
      ensures Valid() && fresh(tracker) && fresh(tx)
      ensures history == [] && |tx.channels| == n && tx.hash == hash
    {
      tracker := new HeartbeatTracker();
      tx := new RoutingSender(n, hash);
      history := [];
    }

    /** One message from the socket. */
    method OnMessage(bytes: seq<byte>)
      requires Valid()
      modifies this`history, tracker, tx`channels
      ensures Valid() && |tx.channels| == |old(tx.channels)|
      ensures history == old(history) + Received(bytes)
    {
      var batch := ParseBatch(bytes);
      match batch {
        case Err(_) =>
          assert history + [] == history;
        case Ok(Parsed(uuid, pkts)) =>
          OnBatch(uuid, pkts);
      }
    }

    method OnBatch(uuid: string, pkts: seq<RawPacket>)
      requires Valid()
      modifies this`history, tracker, tx`channels
      ensures Valid() && |tx.channels| == |old(tx.channels)|
      ensures history == old(history) + Named(pkts, uuid)
    {
      ghost var before, named := history, Named(pkts, uuid);
      for i := 0 to |pkts|
        invariant Valid() && |tx.channels| == |old(tx.channels)|
        invariant history == Extended(before, named, i)
      {
        ExtendedStep(before, named, i);
        OnPacket(pkts[i].(sourceId := uuid));
      }
      assert named[..|pkts|] == named;
    }

    /** The body of the loop over a batch: heartbeat first, then the packet. */
    method OnPacket(pkt: RawPacket)
      requires Valid()
      modifies this`history, tracker, tx`channels
      ensures Valid() && |tx.channels| == |old(tx.channels)|
      ensures history == old(history) + [pkt]
    {
      ghost var n := |tx.channels|;
      ghost var slot := SlotOf(Slots(history), pkt.sourceId);
      ghost var sent := Sent(history);
      RunStep(history, pkt);
      var hb := tracker.OnPacket(pkt);
      if hb.Some? {
        tx.Send(hb.value);
        ChannelsStep(sent, Sending(hb.value, true), tx.hash, n);
        sent := sent + [Sending(hb.value, true)];
      }
      tx.Send(pkt);
      ChannelsStep(sent, Sending(pkt, false), tx.hash, n);
      assert sent + [Sending(pkt, false)] == Sent(history + [pkt]);
      history := history + [pkt];
    }
  }

  // ---- one source at a time ----

  lemma {:induction false} SentForConcat(xs: seq<Sending>, ys: seq<Sending>, s: string)
    ensures SentFor(xs + ys, s) == SentFor(xs, s) + SentFor(ys, s)
    decreases |ys|
  {
    if ys == [] {
      assert xs + ys == xs;
    } else {
      assert (xs + ys)[..|xs + ys| - 1] == xs + ys[..|ys| - 1];
      SentForConcat(xs, ys[..|ys| - 1], s);
    }
  }

  lemma EmittedFor(slot: int, p: RawPacket, s: string)
    ensures SentFor(Emitted(slot, p), s) == if p.sourceId == s then Emitted(slot, p) else []
  {
    var last := Sending(p, false);
    assert SentFor([last], s) == if p.sourceId == s then [last] else [] by {
      assert [last][..0] == [];
    }
    if Synthesizes(slot, p) {
      var hb := Sending(HeartbeatPacket(p.timestampUs, p.sourceId), true);
      assert [hb][..0] == [];
      assert [hb, last][..1] == [hb];
    }
  }

  /** Other sources change nothing: a source's sendings and clock are those of its own packets alone. */
  lemma {:induction false} SourcesAreIndependent(ps: seq<RawPacket>, s: string)
    ensures SentFor(Sent(ps), s) == Sent(FromSource(ps, s))
    ensures SlotOf(Slots(ps), s) == SlotOf(Slots(FromSource(ps, s)), s)
    decreases |ps|
  {
    if ps != [] {
      var init, p := ps[..|ps| - 1], ps[|ps| - 1];
      SourcesAreIndependent(init, s);
      assert ps == init + [p];
      IndependentStep(init, p, s, FromSource(init, s));
      FromSourceSnoc(init, p, s);
    }
  }

  lemma FromSourceSnoc(ps: seq<RawPacket>, p: RawPacket, s: string)
    ensures FromSource(ps + [p], s) == if p.sourceId == s then FromSource(ps, s) + [p] else FromSource(ps, s)
  {
    assert (ps + [p])[..|ps|] == ps;
  }

  lemma SentForSnoc(xs: seq<Sending>, x: Sending, s: string)
    ensures SentFor(xs + [x], s) == if x.packet.sourceId == s then SentFor(xs, s) + [x] else SentFor(xs, s)
  {
    assert (xs + [x])[..|xs|] == xs;
  }

  lemma IndependentStep(ps: seq<RawPacket>, p: RawPacket, s: string, own: seq<RawPacket>)
    requires SentFor(Sent(ps), s) == Sent(own) && SlotOf(Slots(ps), s) == SlotOf(Slots(own), s)
    ensures var now := if p.sourceId == s then own + [p] else own;
            SentFor(Sent(ps + [p]), s) == Sent(now) && SlotOf(Slots(ps + [p]), s) == SlotOf(Slots(now), s)
  {
    var slot := SlotOf(Slots(ps), p.sourceId);
    RunStep(ps, p);
    RunStep(own, p);
    SentForConcat(Sent(ps), Emitted(slot, p), s);
    EmittedFor(slot, p, s);
  }

  // ---- order ----

  function Forwarded(xs: seq<Sending>): seq<RawPacket> {
    if xs == [] then []
    else Forwarded(xs[..|xs| - 1]) + if xs[|xs| - 1].synthesized then [] else [xs[|xs| - 1].packet]
  }

  /** Nothing received is lost, duplicated or reordered. */
  lemma {:induction false} EverythingIsForwarded(ps: seq<RawPacket>)
    ensures Forwarded(Sent(ps)) == ps
    decreases |ps|
  {
    if ps != [] {
      var init, p := ps[..|ps| - 1], ps[|ps| - 1];
      EverythingIsForwarded(init);
      var slot := SlotOf(Slots(init), p.sourceId);
      var sent := Sent(init);
      var all := Sent(ps);
      if Synthesizes(slot, p) {
        var hb := Sending(HeartbeatPacket(p.timestampUs, p.sourceId), true);
        assert all[..|all| - 1] == sent + [hb];
        assert (sent + [hb])[..|sent|] == sent;
      } else {
        assert all[..|all| - 1] == sent;
      }
      assert ps == init + [p];
    }
  }


  function Bare(xs: seq<Sending>): (ps: seq<RawPacket>)
    ensures |ps| == |xs| && forall i :: 0 <= i < |xs| ==> ps[i] == xs[i].packet
  {
    seq(|xs|, i requires 0 <= i < |xs| => xs[i].packet)
  }

  /** A source's packets all reach its own channel, in the order they were sent, and no other channel. */
  lemma {:induction false} RoutedInOrder(xs: seq<Sending>, hash: string -> nat, n: nat, i: nat, s: string)
    requires n > 0 && i < n
    ensures FromSource(Channel(xs, hash, n, i), s)
         == if i == ChannelIndex(hash, n, s) then Bare(SentFor(xs, s)) else []
    decreases |xs|
  {
    if xs != [] {
      var init, last := xs[..|xs| - 1], xs[|xs| - 1];
      RoutedInOrder(init, hash, n, i, s);
      assert xs == init + [last];
      ChannelSnoc(init, last, hash, n, i);
      FromSourceSnoc(Channel(init, hash, n, i), last.packet, s);
      SentForSnoc(init, last, s);
      assert Bare(SentFor(init, s) + [last]) == Bare(SentFor(init, s)) + [last.packet];
    }
  }

  // ---- virtual time keeps up ----

  /** A packet that sets the source's clock: any heartbeat, and a real packet before any nonzero timestamp. */
  ghost predicate Mark(q: seq<Sending>, i: nat)
    requires i < |q|
  {
    IsHeartbeat(q[i].packet) || forall j :: 0 <= j < i ==> q[j].packet.timestampUs == 0
  }

  /** `slot` is the latest mark of `q`. */
  ghost predicate Reached(q: seq<Sending>, slot: int) {
    && (forall i :: 0 <= i < |q| && Mark(q, i) ==> q[i].packet.timestampUs <= slot)
    && (q != [] ==> exists i :: 0 <= i < |q| && Mark(q, i) && q[i].packet.timestampUs == slot)
    && slot >= 0
    && (slot == 0 <==> forall i :: 0 <= i < |q| ==> q[i].packet.timestampUs == 0)
  }

  /** Sending `i` is less than an interval past some mark already sent. */
  ghost predicate InTime(q: seq<Sending>, i: nat)
    requires i < |q|
  {
    exists j :: 0 <= j <= i && Mark(q, j) && q[i].packet.timestampUs - q[j].packet.timestampUs < 1_000_000
  }

  /** Sending `i` is a heartbeat at least an interval after every earlier mark, directly before its packet. */
  ghost predicate Due(q: seq<Sending>, i: nat)
    requires i < |q|
  {
    && IsHeartbeat(q[i].packet)
    && (forall j :: 0 <= j < i && Mark(q, j) ==>
          q[i].packet.timestampUs - q[j].packet.timestampUs >= 1_000_000)
    && i + 1 < |q| && !q[i + 1].synthesized && !IsHeartbeat(q[i + 1].packet)
    && q[i + 1].packet.timestampUs == q[i].packet.timestampUs
  }

  ghost predicate Paced(q: seq<Sending>) {
    forall i :: 0 <= i < |q| ==>
      if q[i].synthesized then Due(q, i) else IsHeartbeat(q[i].packet) || InTime(q, i)
  }

  ghost predicate OneSource(ps: seq<RawPacket>, s: string) {
    forall p :: p in ps ==> p.sourceId == s && p.timestampUs >= 0
  }

  lemma SamePrefix(q: seq<Sending>, more: seq<Sending>)
    requires Paced(q)
    ensures forall i :: 0 <= i < |q| ==> (Mark(q + more, i) <==> Mark(q, i))
    ensures forall i :: 0 <= i < |q| ==>
              if q[i].synthesized then Due(q + more, i) else IsHeartbeat(q[i].packet) || InTime(q + more, i)
  {
    var all := q + more;
    assert forall i :: 0 <= i < |q| ==> all[i] == q[i];
    forall i | 0 <= i < |q| ensures Mark(all, i) <==> Mark(q, i) {
    }
    forall i | 0 <= i < |q| && !q[i].synthesized && !IsHeartbeat(q[i].packet) ensures InTime(all, i) {
      var j :| 0 <= j <= i && Mark(q, j) && q[i].packet.timestampUs - q[j].packet.timestampUs < HEARTBEAT_INTERVAL_US;
      assert Mark(all, j);
    }
  }

  lemma ForwardStep(q: seq<Sending>, slot: int, p: RawPacket)
    requires Paced(q) && Reached(q, slot) && p.timestampUs >= 0 && !Synthesizes(slot, p)
    ensures Paced(q + [Sending(p, false)]) && Reached(q + [Sending(p, false)], NextSlot(slot, p))
  {
    var all := q + [Sending(p, false)];
    var n := |q|;
    SamePrefix(q, [Sending(p, false)]);
    assert forall i :: 0 <= i < n ==> all[i] == q[i];
    assert all[n] == Sending(p, false);
    if slot == 0 {
      assert Mark(all, n);
    } else {
      var j :| 0 <= j < n && Mark(q, j) && q[j].packet.timestampUs == slot;
      assert Mark(all, j);
    }
    if IsHeartbeat(p) {
      assert Mark(all, n);
    }
  }

  lemma SynthesizeStep(q: seq<Sending>, slot: int, p: RawPacket, hb: Sending, all: seq<Sending>)
    requires Paced(q) && Reached(q, slot) && Synthesizes(slot, p)
    requires hb == Sending(HeartbeatPacket(p.timestampUs, p.sourceId), true) && all == q + [hb, Sending(p, false)]
    ensures Paced(all) && Reached(all, p.timestampUs)
  {
    var n := |q|;
    SamePrefix(q, [hb, Sending(p, false)]);
    assert all[n] == hb && all[n + 1] == Sending(p, false);
    assert forall i :: 0 <= i < n ==> all[i] == q[i];
    assert Mark(all, n);
    assert Due(all, n);
    InTimeAt(all, n + 1, n);
    SynthesizedReached(q, slot, p.timestampUs, all);
  }

  lemma InTimeAt(q: seq<Sending>, i: nat, j: nat)
    requires j <= i < |q| && Mark(q, j) && q[i].packet.timestampUs - q[j].packet.timestampUs < HEARTBEAT_INTERVAL_US
    ensures InTime(q, i)
  {
  }

  lemma SynthesizedReached(q: seq<Sending>, slot: int, t: int, all: seq<Sending>)
    requires Reached(q, slot) && slot < t && |all| == |q| + 2
    requires forall i :: 0 <= i < |q| ==> all[i] == q[i] && (Mark(all, i) <==> Mark(q, i))
    requires Mark(all, |q|) && all[|q|].packet.timestampUs == t && all[|q| + 1].packet.timestampUs == t
    ensures Reached(all, t)
  {
  }

  lemma PacedStep(q: seq<Sending>, slot: int, p: RawPacket)
    requires Paced(q) && Reached(q, slot) && p.timestampUs >= 0
    ensures Paced(q + Emitted(slot, p)) && Reached(q + Emitted(slot, p), NextSlot(slot, p))
  {
    if Synthesizes(slot, p) {
      SynthesizeStep(q, slot, p, Sending(HeartbeatPacket(p.timestampUs, p.sourceId), true), q + Emitted(slot, p));
    } else {
      ForwardStep(q, slot, p);
    }
  }

  lemma {:induction false} PacedRun(ps: seq<RawPacket>, s: string)
    requires OneSource(ps, s)
    ensures Paced(Sent(ps)) && Reached(Sent(ps), SlotOf(Slots(ps), s))
    decreases |ps|
  {
    if ps != [] {
      var init, p := ps[..|ps| - 1], ps[|ps| - 1];
      assert ps == init + [p];
      PacedRun(init, s);
      RunStep(init, p);
      PacedStep(Sent(init), SlotOf(Slots(init), s), p);
    }
  }

  lemma {:induction false} FromSourceIs(ps: seq<RawPacket>, s: string)
    ensures forall p :: p in FromSource(ps, s) <==> p in ps && p.sourceId == s
  {
    if ps != [] {
      FromSourceIs(ps[..|ps| - 1], s);
      assert ps == ps[..|ps| - 1] + [ps[|ps| - 1]];
    }
  }

  /**
   Virtual time keeps up with every source of any interleaving: each forwarded packet is less than one interval past
   a mark of its source sent before it, and each synthesized heartbeat comes at least one interval after all earlier
   ones and directly before the packet that made it due. The tracker's slot is the latest mark.
   */
  lemma VirtualTimeKeepsUp(ps: seq<RawPacket>, s: string)
    requires forall p :: p in ps ==> p.timestampUs >= 0
    ensures Paced(SentFor(Sent(ps), s))
    ensures Reached(SentFor(Sent(ps), s), SlotOf(Slots(ps), s))
  {
    FromSourceIs(ps, s);
    SourcesAreIndependent(ps, s);
    PacedRun(FromSource(ps, s), s);
  }

  lemma {:induction false} ParsedTimesAreNonNegative(b: seq<byte>, offset: nat, n: nat)
    requires offset <= |b| && RecordsOf(b, offset, n).Ok?
    ensures forall p :: p in RecordsOf(b, offset, n).value ==> p.timestampUs >= 0
    decreases n
  {
    if n > 0 {
      ParsedTimesAreNonNegative(b, offset + RECORD_HDR_LEN + ReadU16Be(b, offset), n - 1);
    }
  }

  function AllReceived(messages: seq<seq<byte>>): seq<RawPacket> {
    if messages == [] then [] else AllReceived(messages[..|messages| - 1]) + Received(messages[|messages| - 1])
  }

  lemma {:induction false} ReceivedTimes(messages: seq<seq<byte>>)
    ensures forall p :: p in AllReceived(messages) ==> p.timestampUs >= 0
    decreases |messages|
  {
    if messages != [] {
      ReceivedTimes(messages[..|messages| - 1]);
      var b := messages[|messages| - 1];
      if BatchOf(b).Ok? {
        ParsedTimesAreNonNegative(b, BATCH_HDR_LEN, ReadU16Be(b, 2));
      }
    }
  }

  /** Whatever messages arrive, each source's channel is paced and carries exactly its packets in order. */
  lemma EveryMessageSequenceIsPaced(messages: seq<seq<byte>>, hash: string -> nat, n: nat, s: string)
    requires n > 0
    ensures var xs := Sent(AllReceived(messages));
            var own := SentFor(xs, s);
            && Paced(own)
            && FromSource(Channel(xs, hash, n, ChannelIndex(hash, n, s)), s) == Bare(own)
            && Forwarded(own) == FromSource(AllReceived(messages), s)
  {
    var ps := AllReceived(messages);
    ReceivedTimes(messages);
    VirtualTimeKeepsUp(ps, s);
    RoutedInOrder(Sent(ps), hash, n, ChannelIndex(hash, n, s), s);
    SourcesAreIndependent(ps, s);
    EverythingIsForwarded(FromSource(ps, s));
  }
}
