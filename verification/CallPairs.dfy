/**
 Folding the captured legs of one logical call (console/src/lib/call-pair.ts): calls are bucketed by content, each
 bucket is clustered greedily in time order, and each cluster shows its canonical leg only.
 */
module CallPairs {
  import opened Wrappers
  import opened Text
  import opened Sorting

  /** The fields of an AgentTurnCallItem that grouping reads. Times are milliseconds. */
  datatype Call = Call(
    id: string,
    sequence: int,
    requestTime: real,
    responseTime: Option<real>,
    completeTime: Option<real>,
    statusCode: Option<nat>,
    isStream: bool,
    inputTokens: Option<nat>,
    outputTokens: Option<nat>,
    clientIp: string,
    clientPort: nat,
    serverIp: string,
    serverPort: nat)

  const MAX_REQ_TIME_GAP_MS: real := 100.0

  // ---- keys ----

  function OrNull(n: Option<nat>): string {
    match n
    case None => "null"
    case Some(v) => Decimal(v)
  }

  const UNIT_SEPARATOR: char := 0x1F as char

  function ContentKey(c: Call): string {
    (if c.isStream then "S" else "N") + [UNIT_SEPARATOR]
      + (OrNull(c.statusCode) + [UNIT_SEPARATOR]
           + (OrNull(c.inputTokens) + [UNIT_SEPARATOR] + OrNull(c.outputTokens)))
  }

  function NetView(c: Call): string {
    c.clientIp + ":" + Decimal(c.clientPort) + "->" + c.serverIp + ":" + Decimal(c.serverPort)
  }

  function SpanMs(c: Call): real {
    var end := match c.completeTime
               case Some(t) => t
               case None => match c.responseTime
                            case Some(t) => t
                            case None => c.requestTime;
    end - c.requestTime
  }

  lemma NullIsNoNumeral(n: nat)
    ensures Decimal(n) != "null"
  {
    assert IsDigit(Decimal(n)[0]);
  }

  lemma OrNullInjective(a: Option<nat>, b: Option<nat>)
    ensures OrNull(a) == OrNull(b) <==> a == b
    ensures UNIT_SEPARATOR !in OrNull(a)
  {
    if OrNull(a) == OrNull(b) {
      match (a, b) {
        case (Some(x), Some(y)) => DecimalInjective(x, y);
        case (None, Some(y)) => NullIsNoNumeral(y);
        case (Some(x), None) => NullIsNoNumeral(x);
        case (None, None) =>
      }
    }
  }

  /** The joined key distinguishes exactly stream flag, status and token counts. */
  lemma ContentKeyIsTheFingerprint(a: Call, b: Call)
    ensures ContentKey(a) == ContentKey(b) <==>
            a.isStream == b.isStream && a.statusCode == b.statusCode
            && a.inputTokens == b.inputTokens && a.outputTokens == b.outputTokens
  {
    OrNullInjective(a.statusCode, b.statusCode);
    OrNullInjective(a.inputTokens, b.inputTokens);
    OrNullInjective(a.outputTokens, b.outputTokens);
    OrNullInjective(b.statusCode, a.statusCode);
    OrNullInjective(b.inputTokens, a.inputTokens);
    if ContentKey(a) == ContentKey(b) {
      var m := UNIT_SEPARATOR;
      var ra := OrNull(a.inputTokens) + [m] + OrNull(a.outputTokens);
      var rb := OrNull(b.inputTokens) + [m] + OrNull(b.outputTokens);
      FirstMark(if a.isStream then "S" else "N", OrNull(a.statusCode) + [m] + ra,
                if b.isStream then "S" else "N", OrNull(b.statusCode) + [m] + rb, m);
      FirstMark(OrNull(a.statusCode), ra, OrNull(b.statusCode), rb, m);
      FirstMark(OrNull(a.inputTokens), OrNull(a.outputTokens), OrNull(b.inputTokens), OrNull(b.outputTokens), m);
      assert (if a.isStream then "S" else "N")[0] == (if b.isStream then "S" else "N")[0];
    }
  }

  lemma DecimalHas(n: nat, c: char)
    requires !IsDigit(c)
    ensures c !in Decimal(n)
  {
  }

  lemma HalfView(ip1: string, p1: nat, ip2: string, p2: nat)
    requires ip1 + ":" + Decimal(p1) == ip2 + ":" + Decimal(p2)
    ensures ip1 == ip2 && p1 == p2
  {
    DecimalHas(p1, ':');
    DecimalHas(p2, ':');
    LastMark(ip1, Decimal(p1), ip2, Decimal(p2), ':');
    DecimalInjective(p1, p2);
  }

  /** For addresses without '>', equal views are equal 4-tuples. */
  lemma NetViewIsTheTuple(a: Call, b: Call)
    requires '>' !in a.clientIp && '>' !in b.clientIp
    ensures NetView(a) == NetView(b) <==>
            a.clientIp == b.clientIp && a.clientPort == b.clientPort
            && a.serverIp == b.serverIp && a.serverPort == b.serverPort
  {
    if NetView(a) == NetView(b) {
      var la, lb := a.clientIp + ":" + Decimal(a.clientPort), b.clientIp + ":" + Decimal(b.clientPort);
      var ra, rb := a.serverIp + ":" + Decimal(a.serverPort), b.serverIp + ":" + Decimal(b.serverPort);
      DecimalHas(a.clientPort, '>');
      DecimalHas(b.clientPort, '>');
      assert NetView(a) == (la + "-") + ">" + ra && NetView(b) == (lb + "-") + ">" + rb;
      FirstMark(la + "-", ra, lb + "-", rb, '>');
      SuffixSplit(la, "-", lb, "-");
      HalfView(a.clientIp, a.clientPort, b.clientIp, b.clientPort);
      HalfView(a.serverIp, a.serverPort, b.serverIp, b.serverPort);
    }
  }

  // ---- clustering, as functions ----

  function Bucket(calls: seq<Call>, key: string): seq<Call> {
    if calls == [] then []
    else
      Bucket(calls[..|calls| - 1], key)
        + (if ContentKey(calls[|calls| - 1]) == key then [calls[|calls| - 1]] else [])
  }

  function KeysOf(calls: seq<Call>): (ks: seq<string>)
    ensures |ks| == |calls| && forall i :: 0 <= i < |calls| ==> ks[i] == ContentKey(calls[i])
  {
    seq(|calls|, i requires 0 <= i < |calls| => ContentKey(calls[i]))
  }

  function ByTime(calls: seq<Call>): seq<Call> {
    SortBy((a: Call, b: Call) => a.requestTime <= b.requestTime, calls)
  }

  function Ids(calls: seq<Call>): (r: set<string>)
    ensures forall c :: c in calls ==> c.id in r
    ensures forall x :: x in r ==> exists c :: c in calls && c.id == x
  {
    set c | c in calls :: c.id
  }

  /** The unclaimed calls after `a` within the window, one per view not seen yet. */
  function Peers(a: Call, rest: seq<Call>, claimed: set<string>, seen: set<string>): seq<Call> {
    if rest == [] then []
    else
      var b := rest[0];
      if b.id in claimed then Peers(a, rest[1..], claimed, seen)
      else if b.requestTime - a.requestTime > MAX_REQ_TIME_GAP_MS then []
      else if NetView(b) in seen then Peers(a, rest[1..], claimed, seen)
      else [b] + Peers(a, rest[1..], claimed, seen + {NetView(b)})
  }

  /** Whether `c` displaces `best` as the canonical leg: longer span, or equal span and smaller id. */
  predicate Beats(c: Call, best: Call) {
    SpanMs(c) > SpanMs(best) || (SpanMs(c) == SpanMs(best) && LexLess(c.id, best.id))
  }

  function Canonical(cluster: seq<Call>): (c: Call)
    requires cluster != []
    ensures c in cluster
  {
    if |cluster| == 1 then cluster[0]
    else
      var best := Canonical(cluster[..|cluster| - 1]);
      var last := cluster[|cluster| - 1];
      if Beats(last, best) then last else best
  }

  function Others(cluster: seq<Call>, id: string): seq<Call> {
    if cluster == [] then []
    else Others(cluster[..|cluster| - 1], id) + (if cluster[|cluster| - 1].id != id then [cluster[|cluster| - 1]] else [])
  }

  datatype Group = Group(cluster: seq<Call>, canonical: Call, hops: seq<Call>)

  function GroupOf(cluster: seq<Call>): Group
    requires cluster != []
  {
    var canon := Canonical(cluster);
    Group(cluster, canon, ByTime(Others(cluster, canon.id)))
  }

  /** The groups of a time-sorted bucket. */
  function Groups(sorted: seq<Call>, claimed: set<string>): seq<Group> {
    if sorted == [] then []
    else
      var a := sorted[0];
      var peers := Peers(a, sorted[1..], claimed, {NetView(a)});
      if a.id in claimed || peers == [] then Groups(sorted[1..], claimed)
      else [GroupOf([a] + peers)] + Groups(sorted[1..], claimed + Ids([a] + peers))
  }

  function GroupIds(gs: seq<Group>): set<string> {
    if gs == [] then {} else GroupIds(gs[..|gs| - 1]) + Ids(gs[|gs| - 1].cluster)
  }

  /** The groups of all buckets, keys in order of first appearance. */
  function AllGroups(calls: seq<Call>, keys: seq<string>): seq<Group> {
    if keys == [] then []
    else
      var before := AllGroups(calls, keys[..|keys| - 1]);
      var bucket := Bucket(calls, keys[|keys| - 1]);
      if |bucket| < 2 then before else before + Groups(ByTime(bucket), GroupIds(before))
  }

  function GroupsOf(calls: seq<Call>): seq<Group> {
    AllGroups(calls, Distinct(KeysOf(calls)))
  }

  function HopMap(gs: seq<Group>): map<string, seq<Call>> {
    if gs == [] then map[] else HopMap(gs[..|gs| - 1])[gs[|gs| - 1].canonical.id := gs[|gs| - 1].hops]
  }

  function Sequences(calls: seq<Call>): (r: set<int>)
    ensures forall x :: x in r <==> exists c :: c in calls && c.sequence == x
  {
    set c | c in calls :: c.sequence
  }

  function HopSequences(gs: seq<Group>): set<int> {
    if gs == [] then {} else HopSequences(gs[..|gs| - 1]) + Sequences(gs[|gs| - 1].hops)
  }

  function Visible(calls: seq<Call>, hidden: set<int>): seq<Call> {
    if calls == [] then []
    else
      Visible(calls[..|calls| - 1], hidden)
        + (if calls[|calls| - 1].sequence in hidden then [] else [calls[|calls| - 1]])
  }

  // ---- clustering, as the source does it ----

  datatype Grouping = Grouping(
    visible: seq<Call>,
    hopsByCanonical: map<string, seq<Call>>,
    hopSequences: set<int>,
    hopCount: nat)

  /** The source's three accumulators after the groups `gs`. */
  ghost predicate Folded(gs: seq<Group>, claimed: set<string>, hops: map<string, seq<Call>>, seqs: set<int>) {
    claimed == GroupIds(gs) && hops == HopMap(gs) && seqs == HopSequences(gs)
  }

  lemma FoldOne(gs: seq<Group>, g: Group)
    ensures GroupIds(gs + [g]) == GroupIds(gs) + Ids(g.cluster)
    ensures HopMap(gs + [g]) == HopMap(gs)[g.canonical.id := g.hops]
    ensures HopSequences(gs + [g]) == HopSequences(gs) + Sequences(g.hops)
  {
    assert (gs + [g])[..|gs + [g]| - 1] == gs;
  }

  lemma OneMoreBucket(calls: seq<Call>, order: seq<string>, k: nat, before: seq<Group>, bucket: seq<Call>)
    requires k < |order| && before == AllGroups(calls, order[..k]) && bucket == Bucket(calls, order[k])
    ensures AllGroups(calls, order[..k + 1])
         == if |bucket| < 2 then before else before + Groups(ByTime(bucket), GroupIds(before))
  {
    assert order[..k + 1][..k] == order[..k];
  }

  /** What `GroupCalls` returns, in terms of the groups. */
  function GroupingOf(calls: seq<Call>): Grouping {
    var gs := GroupsOf(calls);
    Grouping(Visible(calls, HopSequences(gs)), HopMap(gs), HopSequences(gs), |HopSequences(gs)|)
  }

  method GroupCalls(calls: seq<Call>) returns (r: Grouping)
    ensures r == GroupingOf(calls)
  {
    var claimed, hopsByCanonical, hopSequences := ClusterBuckets(calls);
    var visible := KeepVisible(calls, hopSequences);
    r := Grouping(visible, hopsByCanonical, hopSequences, |hopSequences|);
  }

  /** The loop over the buckets. */
  method ClusterBuckets(calls: seq<Call>)
    returns (claimed: set<string>, hops: map<string, seq<Call>>, seqs: set<int>)
    ensures Folded(GroupsOf(calls), claimed, hops, seqs)
  {
    var order, buckets := FillBuckets(calls);
    claimed, hops, seqs := {}, map[], {};
    ghost var gs: seq<Group> := [];
    for k := 0 to |order|
      invariant gs == AllGroups(calls, order[..k])
      invariant Folded(gs, claimed, hops, seqs)
    {
      var bucket := buckets[order[k]];
      OneMoreBucket(calls, order, k, gs, bucket);
      if |bucket| >= 2 {
        ghost var groups := Groups(ByTime(bucket), claimed);
        claimed, hops, seqs := ClusterBucket(ByTime(bucket), claimed, hops, seqs, gs);
        gs := gs + groups;
      }
    }
    assert order[..|order|] == order;
  }

  lemma BucketStep(calls: seq<Call>, i: nat, key: string)
    requires i < |calls|
    ensures Bucket(calls[..i + 1], key)
         == if ContentKey(calls[i]) == key then Bucket(calls[..i], key) + [calls[i]] else Bucket(calls[..i], key)
  {
    assert calls[..i + 1][..i] == calls[..i];
  }

  lemma KeysSnoc(calls: seq<Call>, i: nat)
    requires i < |calls|
    ensures KeysOf(calls[..i + 1]) == KeysOf(calls[..i]) + [ContentKey(calls[i])]
  {
  }

  lemma KeyStep(calls: seq<Call>, i: nat, key: string, order: seq<string>)
    requires i < |calls| && key == ContentKey(calls[i]) && order == Distinct(KeysOf(calls[..i]))
    ensures Distinct(KeysOf(calls[..i + 1])) == if key in order then order else order + [key]
  {
    KeysSnoc(calls, i);
    DistinctSnoc(KeysOf(calls[..i]), key);
  }

  /** `buckets` holds every nonempty bucket under its key. */
  ghost predicate Bucketed(calls: seq<Call>, buckets: map<string, seq<Call>>) {
    forall k :: Bucket(calls, k) == if k in buckets then buckets[k] else []
  }

  lemma BucketGrows(calls: seq<Call>, i: nat, m0: map<string, seq<Call>>, m: map<string, seq<Call>>, key: string)
    requires i < |calls| && key == ContentKey(calls[i]) && Bucketed(calls[..i], m0)
    requires m == m0[key := if key in m0 then m0[key] + [calls[i]] else [calls[i]]]
    ensures Bucketed(calls[..i + 1], m)
  {
    forall k ensures Bucket(calls[..i + 1], k) == if k in m then m[k] else [] {
      BucketStep(calls, i, k);
    }
  }

  /** One turn of the bucketing loop: `order` is the insertion order of the source's Map. */
  method AddToBucket(order0: seq<string>, buckets0: map<string, seq<Call>>, k: string, c: Call)
    returns (order: seq<string>, buckets: map<string, seq<Call>>)
    requires forall x :: x in order0 <==> x in buckets0
    ensures forall x :: x in order <==> x in buckets
    ensures order == if k in order0 then order0 else order0 + [k]
    ensures buckets == buckets0[k := if k in buckets0 then buckets0[k] + [c] else [c]]
  {
    order, buckets := order0, buckets0;
    if k in buckets {
      buckets := buckets[k := buckets[k] + [c]];
    } else {
      order := order + [k];
      buckets := buckets[k := [c]];
    }
  }

  method FillBuckets(calls: seq<Call>) returns (order: seq<string>, buckets: map<string, seq<Call>>)
    ensures order == Distinct(KeysOf(calls))
    ensures forall k :: k in order <==> k in buckets
    ensures Bucketed(calls, buckets)
  {
    order, buckets := [], map[];
    assert KeysOf(calls[..0]) == [];
    for i := 0 to |calls|
      invariant order == Distinct(KeysOf(calls[..i]))
      invariant forall k :: k in order <==> k in buckets
      invariant Bucketed(calls[..i], buckets)
    {
      var k := ContentKey(calls[i]);
      KeyStep(calls, i, k, order);
      ghost var was := buckets;
      order, buckets := AddToBucket(order, buckets, k, calls[i]);
      BucketGrows(calls, i, was, buckets, k);
    }
    assert calls[..|calls|] == calls;
  }

  lemma GroupsStep(sorted: seq<Call>, i: nat, claimed: set<string>, peers: seq<Call>)
    requires i < |sorted| && peers == Peers(sorted[i], sorted[i + 1..], claimed, {NetView(sorted[i])})
    ensures Groups(sorted[i..], claimed)
         == if sorted[i].id in claimed || peers == [] then Groups(sorted[i + 1..], claimed)
            else [GroupOf([sorted[i]] + peers)] + Groups(sorted[i + 1..], claimed + Ids([sorted[i]] + peers))
  {
    assert sorted[i..][1..] == sorted[i + 1..];
  }

  lemma Reassociate(all: seq<Group>, g: Group, rest: seq<Group>)
    ensures all + ([g] + rest) == (all + [g]) + rest
  {
  }

  /** The outer loop over one sorted bucket; `before` are the groups of the buckets before it. */
  method ClusterBucket(sorted: seq<Call>, claimed0: set<string>, hops0: map<string, seq<Call>>, seqs0: set<int>,
                       ghost before: seq<Group>)
    returns (claimed: set<string>, hops: map<string, seq<Call>>, seqs: set<int>)
    requires Folded(before, claimed0, hops0, seqs0)
    ensures Folded(before + Groups(sorted, claimed0), claimed, hops, seqs)
  {
    claimed, hops, seqs := claimed0, hops0, seqs0;
    ghost var all := before;
    assert sorted[0..] == sorted;
    for i := 0 to |sorted|
      invariant all + Groups(sorted[i..], claimed) == before + Groups(sorted, claimed0)
      invariant Folded(all, claimed, hops, seqs)
    {
      var a := sorted[i];
      var peers := CollectPeers(a, sorted, i + 1, claimed);
      GroupsStep(sorted, i, claimed, peers);
      if a.id in claimed || peers == [] {
        continue;
      }
      Reassociate(all, GroupOf([a] + peers), Groups(sorted[i + 1..], claimed + Ids([a] + peers)));
      claimed, hops, seqs := FoldCluster([a] + peers, claimed, hops, seqs, all);
      all := all + [GroupOf([a] + peers)];
    }
    assert sorted[|sorted|..] == [] && all + [] == all;
  }

  lemma HopsFold(cluster: seq<Call>, canon: Call, others: seq<Call>, hops: seq<Call>, all: seq<Group>)
    requires cluster != [] && canon == Canonical(cluster)
    requires others == Others(cluster, canon.id) && hops == ByTime(others)
    ensures GroupIds(all + [GroupOf(cluster)]) == GroupIds(all) + Ids(cluster)
    ensures HopMap(all + [GroupOf(cluster)]) == HopMap(all)[canon.id := hops]
    ensures HopSequences(all + [GroupOf(cluster)]) == HopSequences(all) + Sequences(hops)
    ensures Ids(hops) + {canon.id} == Ids(cluster)
  {
    FoldOne(all, GroupOf(cluster));
    ClusterIds(cluster, canon);
    SortMembers((a: Call, b: Call) => a.requestTime <= b.requestTime, others);
    SameIds(hops, others);
  }

  lemma SameIds(a: seq<Call>, b: seq<Call>)
    requires forall c :: c in a <==> c in b
    ensures Ids(a) == Ids(b)
  {
  }

  method FoldCluster(cluster: seq<Call>, claimed0: set<string>, hops0: map<string, seq<Call>>, seqs0: set<int>,
                     ghost all: seq<Group>)
    returns (claimed: set<string>, hops: map<string, seq<Call>>, seqs: set<int>)
    requires cluster != [] && Folded(all, claimed0, hops0, seqs0)
    ensures Folded(all + [GroupOf(cluster)], claimed, hops, seqs)
    ensures claimed == claimed0 + Ids(cluster)
  {
    var canon := PickCanonical(cluster);
    var others := KeepOthers(cluster, canon.id);
    var sortedHops := ByTime(others);
    HopsFold(cluster, canon, others, sortedHops, all);
    hops := hops0[canon.id := sortedHops];
    claimed := claimed0 + Ids(sortedHops) + {canon.id};
    seqs := seqs0 + Sequences(sortedHops);
  }

  lemma {:induction false} OthersAre(cluster: seq<Call>, id: string)
    ensures forall c :: c in Others(cluster, id) <==> c in cluster && c.id != id
  {
    if cluster != [] {
      OthersAre(cluster[..|cluster| - 1], id);
      assert cluster == cluster[..|cluster| - 1] + [cluster[|cluster| - 1]];
    }
  }

  lemma ClusterIds(cluster: seq<Call>, canon: Call)
    requires canon in cluster
    ensures Ids(Others(cluster, canon.id)) + {canon.id} == Ids(cluster)
  {
    OthersAre(cluster, canon.id);
    forall x | x in Ids(cluster) ensures x in Ids(Others(cluster, canon.id)) + {canon.id} {
      var c :| c in cluster && c.id == x;
      if x != canon.id {
        assert c in Others(cluster, canon.id);
      }
    }
  }

  /** The inner loop, with its early exit once the window is left. */
  method CollectPeers(a: Call, sorted: seq<Call>, from: nat, claimed: set<string>) returns (peers: seq<Call>)
    requires from <= |sorted|
    ensures peers == Peers(a, sorted[from..], claimed, {NetView(a)})
  {
    peers := [];
    var seenViews := {NetView(a)};
    var j := from;
    while j < |sorted|
      invariant from <= j <= |sorted|
      invariant peers + Peers(a, sorted[j..], claimed, seenViews) == Peers(a, sorted[from..], claimed, {NetView(a)})
    {
      var b := sorted[j];
      assert sorted[j..][0] == b && sorted[j..][1..] == sorted[j + 1..];
      if b.id in claimed {
        j := j + 1;
        continue;
      }
      if b.requestTime - a.requestTime > MAX_REQ_TIME_GAP_MS {
        assert Peers(a, sorted[j..], claimed, seenViews) == [];
        return;
      }
      var bView := NetView(b);
      if bView in seenViews {
        j := j + 1;
        continue;
      }
      peers := peers + [b];
      seenViews := seenViews + {bView};
      j := j + 1;
    }
    assert sorted[j..] == [];
  }

  method PickCanonical(cluster: seq<Call>) returns (canon: Call)
    requires cluster != []
    ensures canon == Canonical(cluster)
  {
    canon := cluster[0];
    var canonSpan := SpanMs(cluster[0]);
    assert cluster[..1] == [cluster[0]];
    for i := 1 to |cluster|
      invariant canon == Canonical(cluster[..i]) && canonSpan == SpanMs(canon)
    {
      var c := cluster[i];
      var s := SpanMs(c);
      assert cluster[..i + 1][..i] == cluster[..i];
      if s > canonSpan || (s == canonSpan && LexLess(c.id, canon.id)) {
        canon := c;
        canonSpan := s;
      }
    }
    assert cluster[..|cluster|] == cluster;
  }

  method KeepOthers(cluster: seq<Call>, id: string) returns (others: seq<Call>)
    ensures others == Others(cluster, id)
  {
    others := [];
    for i := 0 to |cluster|
      invariant others == Others(cluster[..i], id)
    {
      assert cluster[..i + 1][..i] == cluster[..i];
      if cluster[i].id != id {
        others := others + [cluster[i]];
      }
    }
    assert cluster[..|cluster|] == cluster;
  }

  method KeepVisible(calls: seq<Call>, hidden: set<int>) returns (visible: seq<Call>)
    ensures visible == Visible(calls, hidden)
  {
    visible := [];
    for i := 0 to |calls|
      invariant visible == Visible(calls[..i], hidden)
    {
      assert calls[..i + 1][..i] == calls[..i];
      if calls[i].sequence !in hidden {
        visible := visible + [calls[i]];
      }
    }
    assert calls[..|calls|] == calls;
  }
}
