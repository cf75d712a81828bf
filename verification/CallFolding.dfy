/**
 What the clustering of CallPairs guarantees: every group is genuine, the groups partition the calls, and no two calls
 that should have been folded together are left apart.
 */
module CallFolding {
  import opened Wrappers
  import opened Text
  import opened Sorting
  import opened CallPairs

  // ---- uniqueness ----

  ghost predicate UniqueIds(s: seq<Call>) {
    forall i, j :: 0 <= i < j < |s| ==> s[i].id != s[j].id
  }

  ghost predicate UniqueSequences(s: seq<Call>) {
    forall i, j :: 0 <= i < j < |s| ==> s[i].sequence != s[j].sequence
  }

  lemma SameIdSameCall(s: seq<Call>, a: Call, b: Call)
    requires UniqueIds(s) && a in s && b in s && a.id == b.id
    ensures a == b
  {
    var i :| 0 <= i < |s| && s[i] == a;
    var j :| 0 <= j < |s| && s[j] == b;
    assert !(i < j) && !(j < i);
  }

  lemma LastIdIsNew(s: seq<Call>)
    requires s != [] && UniqueIds(s)
    ensures forall c :: c in s[..|s| - 1] ==> c.id != s[|s| - 1].id
  {
  }

  lemma {:induction false} NoCallTwice(s: seq<Call>, c: Call)
    requires UniqueIds(s)
    ensures multiset(s)[c] <= 1
  {
    if s != [] {
      var init, last := s[..|s| - 1], s[|s| - 1];
      NoCallTwice(init, c);
      assert s == init + [last];
      LastIdIsNew(s);
      assert c == last ==> multiset(init)[c] == 0;
    }
  }

  lemma TwiceIsTwo(t: seq<Call>, i: nat, j: nat)
    requires i < j < |t| && t[i] == t[j]
    ensures multiset(t)[t[i]] >= 2
  {
    assert t == t[..j] + t[j..];
    assert t[..j][i] == t[i] && t[j..][0] == t[i];
  }

  lemma UniqueAfterSorting(s: seq<Call>, t: seq<Call>)
    requires UniqueIds(s) && multiset(t) == multiset(s)
    ensures UniqueIds(t)
  {
    forall i, j | 0 <= i < j < |t| ensures t[i].id != t[j].id {
      if t[i].id == t[j].id {
        assert t[i] in multiset(t) && t[j] in multiset(t);
        SameIdSameCall(s, t[i], t[j]);
        TwiceIsTwo(t, i, j);
        NoCallTwice(s, t[i]);
      }
    }
  }

  // ---- one bucket ----

  lemma {:induction false} BucketMembers(calls: seq<Call>, key: string)
    ensures forall c :: c in Bucket(calls, key) <==> c in calls && ContentKey(c) == key
  {
    if calls != [] {
      BucketMembers(calls[..|calls| - 1], key);
      assert calls == calls[..|calls| - 1] + [calls[|calls| - 1]];
    }
  }

  lemma {:induction false} BucketUnique(calls: seq<Call>, key: string)
    requires UniqueIds(calls)
    ensures UniqueIds(Bucket(calls, key))
  {
    if calls != [] {
      var init, last := calls[..|calls| - 1], calls[|calls| - 1];
      BucketUnique(init, key);
      BucketMembers(init, key);
      LastIdIsNew(calls);
    }
  }

  /** What clustering needs of a bucket: one content key, request times ascending, no id twice. */
  ghost predicate Ready(sorted: seq<Call>) {
    && UniqueIds(sorted)
    && (forall i, j :: 0 <= i < j < |sorted| ==> sorted[i].requestTime <= sorted[j].requestTime)
    && (forall a, b :: a in sorted && b in sorted ==> ContentKey(a) == ContentKey(b))
  }

  lemma SortedBucket(calls: seq<Call>, key: string)
    requires UniqueIds(calls)
    ensures Ready(ByTime(Bucket(calls, key)))
    ensures forall c :: c in ByTime(Bucket(calls, key)) <==> c in calls && ContentKey(c) == key
  {
    var le := (a: Call, b: Call) => a.requestTime <= b.requestTime;
    var bucket := Bucket(calls, key);
    BucketMembers(calls, key);
    BucketUnique(calls, key);
    UniqueAfterSorting(bucket, ByTime(bucket));
    SortAscending(le, bucket);
    SortMembers(le, bucket);
    assert Ascending(le, ByTime(bucket));
    forall i, j | 0 <= i < j < |ByTime(bucket)|
      ensures ByTime(bucket)[i].requestTime <= ByTime(bucket)[j].requestTime
    {
      assert le(ByTime(bucket)[i], ByTime(bucket)[j]);
    }
  }

  // ---- the inner loop ----

  lemma ReadyTail(sorted: seq<Call>)
    requires sorted != [] && Ready(sorted)
    ensures Ready(sorted[1..])
    ensures forall c :: c in sorted[1..] ==> c in sorted && sorted[0].requestTime <= c.requestTime
  {
  }

  ghost predicate DifferentViews(ps: seq<Call>) {
    forall i, j :: 0 <= i < j < |ps| ==> NetView(ps[i]) != NetView(ps[j])
  }

  lemma OneMoreView(b: Call, ps: seq<Call>)
    ensures DifferentViews(ps) && (forall p :: p in ps ==> NetView(p) != NetView(b)) ==> DifferentViews([b] + ps)
  {
  }

  lemma {:induction false} PeersAreGenuine(a: Call, rest: seq<Call>, claimed: set<string>, seen: set<string>)
    ensures forall p :: p in Peers(a, rest, claimed, seen) ==>
              p in rest && p.id !in claimed && p.requestTime - a.requestTime <= MAX_REQ_TIME_GAP_MS && NetView(p) !in seen
    ensures DifferentViews(Peers(a, rest, claimed, seen))
  {
    if rest != [] {
      PeersAreGenuine(a, rest[1..], claimed, seen);
      var v := NetView(rest[0]);
      PeersAreGenuine(a, rest[1..], claimed, seen + {v});
      OneMoreView(rest[0], Peers(a, rest[1..], claimed, seen + {v}));
    }
  }

  /** Nothing within the window is passed over except calls whose view the cluster already has. */
  lemma {:induction false} PeersAreAll(a: Call, rest: seq<Call>, claimed: set<string>, seen: set<string>, b: Call)
    requires forall i, j :: 0 <= i < j < |rest| ==> rest[i].requestTime <= rest[j].requestTime
    requires b in rest && b.id !in claimed && b.requestTime - a.requestTime <= MAX_REQ_TIME_GAP_MS
    ensures NetView(b) in seen || exists p :: p in Peers(a, rest, claimed, seen) && NetView(p) == NetView(b)
  {
    var k :| 0 <= k < |rest| && rest[k] == b;
    var c, tail := rest[0], rest[1..];
    assert c.requestTime <= b.requestTime;
    if k == 0 {
      if NetView(b) !in seen {
        assert b in Peers(a, rest, claimed, seen);
      }
    } else {
      assert tail[k - 1] == b;
      if c.id in claimed || NetView(c) in seen {
        PeersAreAll(a, tail, claimed, seen, b);
      } else if NetView(c) == NetView(b) {
        assert c in Peers(a, rest, claimed, seen);
      } else {
        PeersAreAll(a, tail, claimed, seen + {NetView(c)}, b);
      }
    }
  }

  // ---- one group ----

  /** `k` has the widest span, and the least id among the widest. */
  ghost predicate Widest(cluster: seq<Call>, k: Call) {
    forall c :: c in cluster ==>
      SpanMs(c) <= SpanMs(k) && (SpanMs(c) == SpanMs(k) ==> c.id == k.id || LexLess(k.id, c.id))
  }

  lemma StillWidest(init: seq<Call>, best: Call, last: Call)
    requires Widest(init, best)
    ensures Widest(init + [last], if Beats(last, best) then last else best)
  {
    LexTotal(last.id, best.id);
    forall c | c in init ensures Beats(last, best) && SpanMs(c) == SpanMs(last) ==> c.id == last.id || LexLess(last.id, c.id) {
      if LexLess(last.id, best.id) && LexLess(best.id, c.id) {
        LexTransitive(last.id, best.id, c.id);
      }
    }
  }

  lemma {:induction false} CanonicalIsWidest(cluster: seq<Call>)
    requires cluster != []
    ensures Widest(cluster, Canonical(cluster))
  {
    if |cluster| > 1 {
      var init := cluster[..|cluster| - 1];
      CanonicalIsWidest(init);
      assert cluster == init + [cluster[|cluster| - 1]];
      StillWidest(init, Canonical(init), cluster[|cluster| - 1]);
    } else {
      LexTotal(cluster[0].id, cluster[0].id);
    }
  }

  /** Two captures of one logical call: same content, different views, close in time. */
  ghost predicate Legs(a: Call, b: Call) {
    && ContentKey(a) == ContentKey(b)
    && NetView(a) != NetView(b)
    && -MAX_REQ_TIME_GAP_MS <= a.requestTime - b.requestTime <= MAX_REQ_TIME_GAP_MS
  }

  ghost predicate AllAreLegs(cluster: seq<Call>) {
    forall i, j :: 0 <= i < j < |cluster| ==> Legs(cluster[i], cluster[j])
  }

  ghost predicate Genuine(g: Group) {
    && |g.cluster| >= 2
    && AllAreLegs(g.cluster)
    && g.canonical in g.cluster
    && Widest(g.cluster, g.canonical)
    && (forall c :: c in g.hops <==> c in g.cluster && c != g.canonical)
    && |g.hops| == |g.cluster| - 1
    && (forall i, j :: 0 <= i < j < |g.hops| ==> g.hops[i].requestTime <= g.hops[j].requestTime)
  }

  lemma {:induction false} OthersCount(cluster: seq<Call>, k: Call)
    requires UniqueIds(cluster)
    ensures |Others(cluster, k.id)| == |cluster| - if k.id in Ids(cluster) then 1 else 0
  {
    if cluster != [] {
      var init, last := cluster[..|cluster| - 1], cluster[|cluster| - 1];
      OthersCount(init, k);
      assert cluster == init + [last];
      LastIdIsNew(cluster);
    }
  }

  lemma HopsAreTheRest(cluster: seq<Call>)
    requires cluster != [] && UniqueIds(cluster)
    ensures var g := GroupOf(cluster);
            && (forall c :: c in g.hops <==> c in cluster && c != g.canonical)
            && |g.hops| == |cluster| - 1
            && forall i, j :: 0 <= i < j < |g.hops| ==> g.hops[i].requestTime <= g.hops[j].requestTime
  {
    var le := (a: Call, b: Call) => a.requestTime <= b.requestTime;
    var k := Canonical(cluster);
    var others := Others(cluster, k.id);
    OthersAre(cluster, k.id);
    OthersCount(cluster, k);
    SortMembers(le, others);
    SortAscending(le, others);
    var hops := ByTime(others);
    forall i, j | 0 <= i < j < |hops| ensures hops[i].requestTime <= hops[j].requestTime {
      assert le(hops[i], hops[j]);
    }
    forall c | c in cluster && c.id == k.id ensures c == k {
      SameIdSameCall(cluster, c, k);
    }
  }

  lemma ClusterLegs(sorted: seq<Call>, claimed: set<string>, peers: seq<Call>)
    requires sorted != [] && Ready(sorted)
    requires peers == Peers(sorted[0], sorted[1..], claimed, {NetView(sorted[0])})
    ensures forall c :: c in peers ==> c in sorted && Legs(sorted[0], c) && c.id !in claimed
    ensures forall i, j :: 0 <= i < j < |peers| ==> Legs(peers[i], peers[j])
  {
    var a := sorted[0];
    PeersAreGenuine(a, sorted[1..], claimed, {NetView(a)});
    ReadyTail(sorted);
    assert forall c :: c in peers ==> c in sorted && a.requestTime <= c.requestTime;
    forall i, j | 0 <= i < j < |peers| ensures Legs(peers[i], peers[j]) {
      assert peers[i] in peers && peers[j] in peers;
      assert NetView(peers[i]) != NetView(peers[j]);
    }
  }

  lemma LegsDiffer(sorted: seq<Call>, a: Call, b: Call)
    requires UniqueIds(sorted) && a in sorted && b in sorted && Legs(a, b)
    ensures a.id != b.id
  {
    if a.id == b.id {
      SameIdSameCall(sorted, a, b);
    }
  }

  lemma AllLegs(sorted: seq<Call>, peers: seq<Call>, cluster: seq<Call>)
    requires sorted != [] && UniqueIds(sorted) && cluster == [sorted[0]] + peers
    requires forall c :: c in peers ==> c in sorted && Legs(sorted[0], c)
    requires forall i, j :: 0 <= i < j < |peers| ==> Legs(peers[i], peers[j])
    ensures forall i, j :: 0 <= i < j < |cluster| ==> Legs(cluster[i], cluster[j])
    ensures UniqueIds(cluster)
  {
    forall i, j | 0 <= i < j < |cluster| ensures Legs(cluster[i], cluster[j]) && cluster[i].id != cluster[j].id {
      assert cluster[j] == peers[j - 1];
      assert i > 0 ==> cluster[i] == peers[i - 1];
      LegsDiffer(sorted, cluster[i], cluster[j]);
    }
  }

  lemma ClusterIsGenuine(sorted: seq<Call>, claimed: set<string>, peers: seq<Call>)
    requires sorted != [] && Ready(sorted) && peers != []
    requires peers == Peers(sorted[0], sorted[1..], claimed, {NetView(sorted[0])})
    ensures Genuine(GroupOf([sorted[0]] + peers))
    ensures forall c :: c in [sorted[0]] + peers ==> c in sorted && (c == sorted[0] || c.id !in claimed)
  {
    var cluster := [sorted[0]] + peers;
    ClusterLegs(sorted, claimed, peers);
    AllLegs(sorted, peers, cluster);
    CanonicalIsWidest(cluster);
    HopsAreTheRest(cluster);
  }

  // ---- the groups of a bucket ----

  ghost predicate Apart(g: Group, h: Group) {
    Ids(g.cluster) !! Ids(h.cluster)
  }

  /** A list of groups made from `calls`, sharing no id with each other or with `claimed`. */
  ghost predicate Sound(gs: seq<Group>, calls: seq<Call>, claimed: set<string>) {
    && (forall g :: g in gs ==> Genuine(g) && Ids(g.cluster) !! claimed)
    && (forall g, c :: g in gs && c in g.cluster ==> c in calls)
    && (forall i, j :: 0 <= i < j < |gs| ==> Apart(gs[i], gs[j]))
  }

  lemma SoundCons(g: Group, gs: seq<Group>, calls: seq<Call>, claimed: set<string>)
    requires Sound(gs, calls, claimed + Ids(g.cluster))
    requires Genuine(g) && Ids(g.cluster) !! claimed && forall c :: c in g.cluster ==> c in calls
    ensures Sound([g] + gs, calls, claimed)
  {
    var all := [g] + gs;
    forall i, j | 0 <= i < j < |all| ensures Apart(all[i], all[j]) {
      if i == 0 {
        assert gs[j - 1] in gs;
      }
    }
  }

  lemma {:induction false} GroupsAreSound(sorted: seq<Call>, claimed: set<string>)
    requires Ready(sorted)
    ensures Sound(Groups(sorted, claimed), sorted, claimed)
  {
    if sorted != [] {
      ReadyTail(sorted);
      var a := sorted[0];
      var peers := Peers(a, sorted[1..], claimed, {NetView(a)});
      if a.id in claimed || peers == [] {
        GroupsAreSound(sorted[1..], claimed);
      } else {
        var now := claimed + Ids([a] + peers);
        GroupsAreSound(sorted[1..], now);
        ClusterIsGenuine(sorted, claimed, peers);
        SoundCons(GroupOf([a] + peers), Groups(sorted[1..], now), sorted, claimed);
      }
    }
  }

  ghost predicate Ungrouped(id: string, gs: seq<Group>) {
    forall g :: g in gs ==> id !in Ids(g.cluster)
  }

  ghost predicate Near(b: Call, c: Call) {
    -MAX_REQ_TIME_GAP_MS <= b.requestTime - c.requestTime <= MAX_REQ_TIME_GAP_MS
  }

  /** Where `b` is the earliest call of the bucket and was grouped with nothing. */
  lemma LonelyCall(sorted: seq<Call>, claimed: set<string>, c: Call)
    requires sorted != [] && Ready(sorted) && Peers(sorted[0], sorted[1..], claimed, {NetView(sorted[0])}) == []
    requires c in sorted[1..] && c.id !in claimed && Near(sorted[0], c)
    ensures NetView(c) == NetView(sorted[0])
  {
    PeersAreAll(sorted[0], sorted[1..], claimed, {NetView(sorted[0])}, c);
  }

  lemma {:induction false} BucketIsMaximal(sorted: seq<Call>, claimed: set<string>, b: Call, c: Call)
    requires Ready(sorted) && b in sorted && c in sorted && Near(b, c)
    requires b.id !in claimed && c.id !in claimed
    requires Ungrouped(b.id, Groups(sorted, claimed)) && Ungrouped(c.id, Groups(sorted, claimed))
    ensures NetView(b) == NetView(c)
  {
    ReadyTail(sorted);
    var a, tail := sorted[0], sorted[1..];
    var peers := Peers(a, tail, claimed, {NetView(a)});
    if a.id in claimed || peers == [] {
      if b in tail && c in tail {
        BucketIsMaximal(tail, claimed, b, c);
      } else if b == a && c in tail {
        LonelyCall(sorted, claimed, c);
      } else if c == a && b in tail {
        LonelyCall(sorted, claimed, b);
      }
    } else {
      var g, now := GroupOf([a] + peers), claimed + Ids([a] + peers);
      var rest := Groups(tail, now);
      assert Groups(sorted, claimed) == [g] + rest;
      assert g in [g] + rest && forall h :: h in rest ==> h in [g] + rest;
      BucketIsMaximal(tail, now, b, c);
    }
  }

  // ---- all buckets ----

  lemma {:induction false} GroupIdsAre(gs: seq<Group>, id: string)
    ensures id in GroupIds(gs) <==> !Ungrouped(id, gs)
  {
    if gs != [] {
      GroupIdsAre(gs[..|gs| - 1], id);
      assert gs == gs[..|gs| - 1] + [gs[|gs| - 1]];
    }
  }

  lemma SoundJoin(gs: seq<Group>, hs: seq<Group>, calls: seq<Call>, bucket: seq<Call>)
    requires Sound(gs, calls, {}) && Sound(hs, bucket, GroupIds(gs))
    requires forall c :: c in bucket ==> c in calls
    ensures Sound(gs + hs, calls, {})
  {
    var all := gs + hs;
    forall i, j | 0 <= i < j < |all| ensures Apart(all[i], all[j]) {
      if i < |gs| <= j {
        assert gs[i] in gs && hs[j - |gs|] in hs;
        forall id | id in Ids(gs[i].cluster) ensures id !in Ids(all[j].cluster) {
          GroupIdsAre(gs, id);
        }
      }
    }
  }

  lemma {:induction false} AllGroupsAreSound(calls: seq<Call>, keys: seq<string>)
    requires UniqueIds(calls)
    ensures Sound(AllGroups(calls, keys), calls, {})
  {
    if keys != [] {
      var key := keys[|keys| - 1];
      var before := AllGroups(calls, keys[..|keys| - 1]);
      AllGroupsAreSound(calls, keys[..|keys| - 1]);
      SortedBucket(calls, key);
      var sorted := ByTime(Bucket(calls, key));
      GroupsAreSound(sorted, GroupIds(before));
      SoundJoin(before, Groups(sorted, GroupIds(before)), calls, sorted);
    }
  }

  lemma UngroupedParts(id: string, gs: seq<Group>, hs: seq<Group>)
    requires Ungrouped(id, gs + hs)
    ensures Ungrouped(id, gs) && Ungrouped(id, hs) && id !in GroupIds(gs)
  {
    assert forall g :: g in gs || g in hs ==> g in gs + hs;
    GroupIdsAre(gs, id);
  }

  lemma TwoInBucket(bucket: seq<Call>, b: Call, c: Call)
    requires b in bucket && c in bucket && b != c
    ensures |bucket| >= 2
  {
  }

  lemma {:induction false} AllGroupsAreMaximal(calls: seq<Call>, keys: seq<string>, b: Call, c: Call)
    requires UniqueIds(calls) && b in calls && c in calls && Near(b, c)
    requires ContentKey(b) == ContentKey(c) && ContentKey(b) in keys
    requires Ungrouped(b.id, AllGroups(calls, keys)) && Ungrouped(c.id, AllGroups(calls, keys))
    ensures NetView(b) == NetView(c)
  {
    var init, key := keys[..|keys| - 1], keys[|keys| - 1];
    var before, bucket := AllGroups(calls, init), Bucket(calls, key);
    if |bucket| >= 2 {
      UngroupedParts(b.id, before, Groups(ByTime(bucket), GroupIds(before)));
      UngroupedParts(c.id, before, Groups(ByTime(bucket), GroupIds(before)));
    }
    if ContentKey(b) in init {
      AllGroupsAreMaximal(calls, init, b, c);
    } else if b != c {
      BucketMembers(calls, key);
      TwoInBucket(bucket, b, c);
      SortedBucket(calls, key);
      BucketIsMaximal(ByTime(bucket), GroupIds(before), b, c);
    }
  }

  // ---- the main results ----

  /** Every group is made of distinct captures of one logical call, and no call is in two groups. */
  lemma GroupsAreGenuine(calls: seq<Call>)
    requires UniqueIds(calls)
    ensures var gs := GroupsOf(calls);
            && (forall g :: g in gs ==> Genuine(g))
            && (forall g, c :: g in gs && c in g.cluster ==> c in calls)
            && (forall i, j :: 0 <= i < j < |gs| ==> Apart(gs[i], gs[j]))
  {
    AllGroupsAreSound(calls, Distinct(KeysOf(calls)));
  }

  /** Two calls left ungrouped with the same content and close in time have the same network view. */
  lemma GroupingIsMaximal(calls: seq<Call>, b: Call, c: Call)
    requires UniqueIds(calls) && b in calls && c in calls
    requires Ungrouped(b.id, GroupsOf(calls)) && Ungrouped(c.id, GroupsOf(calls))
    ensures !Legs(b, c)
  {
    if Legs(b, c) {
      var i :| 0 <= i < |calls| && calls[i] == b;
      assert KeysOf(calls)[i] == ContentKey(b);
      AllGroupsAreMaximal(calls, Distinct(KeysOf(calls)), b, c);
    }
  }

  // ---- the folded view ----

  lemma {:induction false} VisibleMembers(calls: seq<Call>, hidden: set<int>)
    ensures forall c :: c in Visible(calls, hidden) <==> c in calls && c.sequence !in hidden
  {
    if calls != [] {
      VisibleMembers(calls[..|calls| - 1], hidden);
      assert calls == calls[..|calls| - 1] + [calls[|calls| - 1]];
    }
  }

  lemma {:induction false} VisibleIgnores(calls: seq<Call>, hidden: set<int>, x: int)
    requires forall c :: c in calls ==> c.sequence != x
    ensures Visible(calls, hidden - {x}) == Visible(calls, hidden)
  {
    if calls != [] {
      VisibleIgnores(calls[..|calls| - 1], hidden, x);
    }
  }

  lemma {:induction false} VisibleCount(calls: seq<Call>, hidden: set<int>)
    requires UniqueSequences(calls) && hidden <= Sequences(calls)
    ensures |Visible(calls, hidden)| + |hidden| == |calls|
  {
    if calls != [] {
      var init, last := calls[..|calls| - 1], calls[|calls| - 1];
      assert calls == init + [last];
      forall c | c in init ensures c.sequence != last.sequence {
        var i :| 0 <= i < |init| && init[i] == c;
        assert calls[i] == c;
      }
      VisibleIgnores(init, hidden, last.sequence);
      VisibleCount(init, hidden - {last.sequence});
      if last.sequence !in hidden {
        assert hidden - {last.sequence} == hidden;
      }
    }
  }

  lemma {:induction false} HopSequencesAre(gs: seq<Group>, x: int)
    ensures x in HopSequences(gs) <==> exists g, c :: g in gs && c in g.hops && c.sequence == x
  {
    if gs != [] {
      var init, last := gs[..|gs| - 1], gs[|gs| - 1];
      HopSequencesAre(init, x);
      assert gs == init + [last];
      if x in Sequences(last.hops) {
        var c :| c in last.hops && c.sequence == x;
        assert last in gs;
      }
    }
  }

  lemma SameSequenceSameCall(s: seq<Call>, a: Call, b: Call)
    requires UniqueSequences(s) && a in s && b in s && a.sequence == b.sequence
    ensures a == b
  {
    var i :| 0 <= i < |s| && s[i] == a;
    var j :| 0 <= j < |s| && s[j] == b;
    assert !(i < j) && !(j < i);
  }

  /** A call is a hop when some group hides it behind its canonical leg. */
  ghost predicate IsHop(c: Call, gs: seq<Group>) {
    exists g :: g in gs && c in g.hops
  }

  lemma SameGroup(gs: seq<Group>, g: Group, h: Group, c: Call)
    requires forall i, j :: 0 <= i < j < |gs| ==> Apart(gs[i], gs[j])
    requires g in gs && h in gs && c in g.cluster && c in h.cluster
    ensures g == h
  {
    var i :| 0 <= i < |gs| && gs[i] == g;
    var j :| 0 <= j < |gs| && gs[j] == h;
    assert c.id in Ids(g.cluster) && c.id in Ids(h.cluster);
    assert !(i < j) && !(j < i);
  }

  lemma CanonicalsAreNoHops(gs: seq<Group>)
    requires forall g :: g in gs ==> Genuine(g)
    requires forall i, j :: 0 <= i < j < |gs| ==> Apart(gs[i], gs[j])
    ensures forall g :: g in gs ==> !IsHop(g.canonical, gs)
  {
    forall g, h | g in gs && h in gs ensures g.canonical !in h.hops {
      if g.canonical in h.hops {
        SameGroup(gs, g, h, g.canonical);
      }
    }
  }

  /** The folded view and the hops partition the calls; every canonical leg stays visible. */
  lemma FoldIsAPartition(calls: seq<Call>)
    requires UniqueIds(calls) && UniqueSequences(calls)
    ensures var gs := GroupsOf(calls);
            var visible := Visible(calls, HopSequences(gs));
            && |visible| + |HopSequences(gs)| == |calls|
            && (forall c :: c in visible <==> c in calls && !IsHop(c, gs))
            && (forall g :: g in gs ==> g.canonical in visible)
  {
    var gs := GroupsOf(calls);
    var hidden := HopSequences(gs);
    GroupsAreGenuine(calls);
    CanonicalsAreNoHops(gs);
    forall x | x in hidden ensures x in Sequences(calls) {
      HopSequencesAre(gs, x);
    }
    VisibleCount(calls, hidden);
    VisibleMembers(calls, hidden);
    forall c | c in calls ensures c.sequence in hidden <==> IsHop(c, gs) {
      HopSequencesAre(gs, c.sequence);
      if c.sequence in hidden {
        var g, h :| g in gs && h in g.hops && h.sequence == c.sequence;
        SameSequenceSameCall(calls, h, c);
      }
    }
  }

  lemma CanonicalIdIsNew(gs: seq<Group>)
    requires gs != [] && GenuineAndApart(gs)
    ensures forall g :: g in gs[..|gs| - 1] ==> g.canonical.id != gs[|gs| - 1].canonical.id
  {
    var last := gs[|gs| - 1];
    forall g | g in gs[..|gs| - 1] ensures g.canonical.id != last.canonical.id {
      var i :| 0 <= i < |gs| - 1 && gs[i] == g;
      assert Apart(gs[i], gs[|gs| - 1]);
      assert Genuine(g) && Genuine(last);
    }
  }

  /** `m` files the hops of each group of `gs` under its canonical id, and nothing else. */
  ghost predicate Files(m: map<string, seq<Call>>, gs: seq<Group>) {
    && (forall k :: k in m <==> exists g :: g in gs && g.canonical.id == k)
    && (forall g :: g in gs ==> m[g.canonical.id] == g.hops)
  }

  lemma FileOne(m: map<string, seq<Call>>, gs: seq<Group>, last: Group)
    requires Files(m, gs) && forall g :: g in gs ==> g.canonical.id != last.canonical.id
    ensures Files(m[last.canonical.id := last.hops], gs + [last])
  {
    var n := m[last.canonical.id := last.hops];
    forall k ensures k in n <==> exists g :: g in gs + [last] && g.canonical.id == k {
      if k == last.canonical.id {
        assert last in gs + [last];
      } else if k in n {
        var g :| g in gs && g.canonical.id == k;
        assert g in gs + [last];
      }
    }
  }

  ghost predicate GenuineAndApart(gs: seq<Group>) {
    && (forall g :: g in gs ==> Genuine(g))
    && (forall i, j :: 0 <= i < j < |gs| ==> Apart(gs[i], gs[j]))
  }

  lemma SubApart(gs: seq<Group>)
    requires gs != [] && GenuineAndApart(gs)
    ensures GenuineAndApart(gs[..|gs| - 1])
  {
  }

  lemma {:induction false} HopMapIs(gs: seq<Group>, m: map<string, seq<Call>>)
    requires GenuineAndApart(gs) && m == HopMap(gs)
    ensures Files(m, gs)
  {
    if gs != [] {
      var init, last := gs[..|gs| - 1], gs[|gs| - 1];
      SubApart(gs);
      HopMapIs(init, HopMap(init));
      CanonicalIdIsNew(gs);
      FileLast(HopMap(init), m, gs);
    }
  }

  lemma FileLast(m0: map<string, seq<Call>>, m: map<string, seq<Call>>, gs: seq<Group>)
    requires gs != [] && Files(m0, gs[..|gs| - 1])
    requires forall g :: g in gs[..|gs| - 1] ==> g.canonical.id != gs[|gs| - 1].canonical.id
    requires m == m0[gs[|gs| - 1].canonical.id := gs[|gs| - 1].hops]
    ensures Files(m, gs)
  {
    FileOne(m0, gs[..|gs| - 1], gs[|gs| - 1]);
    assert gs == gs[..|gs| - 1] + [gs[|gs| - 1]];
  }

  /** The map shown to the user lists, for each canonical leg and no other id, exactly its own group's hops. */
  lemma HopsAreFiledUnderTheirCanonical(calls: seq<Call>)
    requires UniqueIds(calls)
    ensures Files(HopMap(GroupsOf(calls)), GroupsOf(calls))
  {
    GroupsAreGenuine(calls);
    HopMapIs(GroupsOf(calls), HopMap(GroupsOf(calls)));
  }

  // ---- what the caller sees ----

  /** `c` is in a hop list of the result. */
  ghost predicate Hidden(c: Call, r: Grouping) {
    exists k :: k in r.hopsByCanonical && c in r.hopsByCanonical[k]
  }

  /** `c` neither leads a fold of the result nor is hidden by one. */
  ghost predicate LeftAlone(c: Call, r: Grouping) {
    c.id !in r.hopsByCanonical && !Hidden(c, r)
  }

  /** `c` leads the fold with these hops: all are captures of one logical call, `c` the widest, hops in time order. */
  ghost predicate Leads(c: Call, hops: seq<Call>) {
    && hops != [] && c !in hops
    && (forall h :: h in hops ==> Legs(c, h))
    && (forall a, b :: a in hops && b in hops && a != b ==> Legs(a, b))
    && Widest([c] + hops, c)
    && (forall i, j :: 0 <= i < j < |hops| ==> hops[i].requestTime <= hops[j].requestTime)
  }

  lemma LegsOfTheCluster(cluster: seq<Call>, i: nat, j: nat)
    requires AllAreLegs(cluster) && i < |cluster| && j < |cluster| && i != j
    ensures Legs(cluster[i], cluster[j])
  {
    if j < i {
      LegsBothWays(cluster[j], cluster[i]);
    }
  }

  lemma LegsBothWays(a: Call, b: Call)
    ensures Legs(a, b) <==> Legs(b, a)
  {
  }

  lemma MembersAreLegs(cluster: seq<Call>)
    requires AllAreLegs(cluster)
    ensures forall a, b :: a in cluster && b in cluster && a != b ==> Legs(a, b)
  {
    forall a, b | a in cluster && b in cluster && a != b ensures Legs(a, b) {
      var i :| 0 <= i < |cluster| && cluster[i] == a;
      var j :| 0 <= j < |cluster| && cluster[j] == b;
      LegsOfTheCluster(cluster, i, j);
    }
  }

  lemma GenuineLeads(g: Group)
    requires Genuine(g)
    ensures Leads(g.canonical, g.hops)
  {
    MembersAreLegs(g.cluster);
    assert forall c :: c in [g.canonical] + g.hops ==> c in g.cluster;
  }

  lemma HiddenAreHops(c: Call, r: Grouping, gs: seq<Group>)
    requires Files(r.hopsByCanonical, gs)
    ensures Hidden(c, r) <==> IsHop(c, gs)
  {
    if Hidden(c, r) {
      var k :| k in r.hopsByCanonical && c in r.hopsByCanonical[k];
      var g :| g in gs && g.canonical.id == k;
    }
    if IsHop(c, gs) {
      var g :| g in gs && c in g.hops;
      assert g.canonical.id in r.hopsByCanonical;
    }
  }

  lemma LeftAloneIsUngrouped(calls: seq<Call>, c: Call, r: Grouping, gs: seq<Group>)
    requires UniqueIds(calls) && c in calls && Files(r.hopsByCanonical, gs)
    requires forall g :: g in gs ==> Genuine(g) && forall m :: m in g.cluster ==> m in calls
    requires LeftAlone(c, r)
    ensures Ungrouped(c.id, gs)
  {
    HiddenAreHops(c, r, gs);
    forall g, m | g in gs && m in g.cluster ensures m.id != c.id {
      assert g.canonical.id in r.hopsByCanonical && c != g.canonical && c !in g.hops;
      if m.id == c.id {
        SameIdSameCall(calls, m, c);
      }
    }
  }

  lemma FoldsLead(r: Grouping, gs: seq<Group>, k: string)
    requires Files(r.hopsByCanonical, gs) && k in r.hopsByCanonical
    requires forall g :: g in gs ==> Genuine(g) && g.canonical in r.visible
    ensures exists c :: c in r.visible && c.id == k && Leads(c, r.hopsByCanonical[k])
  {
    var g :| g in gs && g.canonical.id == k;
    GenuineLeads(g);
  }

  lemma FoldsAreDisjoint(r: Grouping, gs: seq<Group>, k: string, l: string, c: Call)
    requires Files(r.hopsByCanonical, gs) && k in r.hopsByCanonical && l in r.hopsByCanonical
    requires GenuineAndApart(gs) && c in r.hopsByCanonical[k] && c in r.hopsByCanonical[l]
    ensures k == l
  {
    var g :| g in gs && g.canonical.id == k;
    var h :| h in gs && h.canonical.id == l;
    SameGroup(gs, g, h, c);
  }

  /**
   The result of grouping calls with unique ids and sequences: the visible calls are exactly those in no hop list and
   together with the hops make up the input; every fold is led by a visible call; no call is hidden twice; and no two
   calls left alone are captures of one logical call.
   */
  lemma TheResultIsSound(calls: seq<Call>, r: Grouping)
    requires UniqueIds(calls) && UniqueSequences(calls) && r == GroupingOf(calls)
    ensures |r.visible| + r.hopCount == |calls|
    ensures forall c :: c in r.visible <==> c in calls && !Hidden(c, r)
    ensures forall k :: k in r.hopsByCanonical ==>
              exists c :: c in r.visible && c.id == k && Leads(c, r.hopsByCanonical[k])
    ensures forall k, l, c ::
              k in r.hopsByCanonical && l in r.hopsByCanonical
              && c in r.hopsByCanonical[k] && c in r.hopsByCanonical[l]
              ==> k == l
    ensures forall b, c :: b in calls && c in calls && LeftAlone(b, r) && LeftAlone(c, r) ==> !Legs(b, c)
  {
    var gs := GroupsOf(calls);
    GroupsAreGenuine(calls);
    HopsAreFiledUnderTheirCanonical(calls);
    FoldIsAPartition(calls);
    forall c ensures Hidden(c, r) <==> IsHop(c, gs) {
      HiddenAreHops(c, r, gs);
    }
    forall k | k in r.hopsByCanonical ensures exists c :: c in r.visible && c.id == k && Leads(c, r.hopsByCanonical[k]) {
      FoldsLead(r, gs, k);
    }
    forall k, l, c | k in r.hopsByCanonical && l in r.hopsByCanonical
                     && c in r.hopsByCanonical[k] && c in r.hopsByCanonical[l]
      ensures k == l
    {
      FoldsAreDisjoint(r, gs, k, l, c);
    }
    forall b, c | b in calls && c in calls && LeftAlone(b, r) && LeftAlone(c, r) ensures !Legs(b, c) {
      LeftAloneIsUngrouped(calls, b, r, gs);
      LeftAloneIsUngrouped(calls, c, r, gs);
      GroupingIsMaximal(calls, b, c);
    }
  }

  // ---- the same in the fields of the calls ----

  /** The last time known of a call: completion, else response, else the request itself. */
  predicate EndsAt(c: Call, t: real) {
    || c.completeTime == Some(t)
    || (c.completeTime == None && c.responseTime == Some(t))
    || (c.completeTime == None && c.responseTime == None && c.requestTime == t)
  }

  predicate SameContent(a: Call, b: Call) {
    && a.isStream == b.isStream && a.statusCode == b.statusCode
    && a.inputTokens == b.inputTokens && a.outputTokens == b.outputTokens
  }

  predicate Within100Ms(a: Call, b: Call) {
    -100.0 <= a.requestTime - b.requestTime <= 100.0
  }

  /** `h` was captured on the way of the call that `c` shows: `c` lasts longer, or as long with the lesser id. */
  ghost predicate Behind(h: Call, c: Call) {
    && SameContent(h, c) && Within100Ms(h, c) && NetView(h) != NetView(c)
    && forall t, u :: EndsAt(c, t) && EndsAt(h, u) ==>
         u - h.requestTime < t - c.requestTime
         || (u - h.requestTime == t - c.requestTime && (h.id == c.id || LexLess(c.id, h.id)))
  }

  lemma SpanEnds(c: Call, t: real)
    ensures EndsAt(c, t) <==> SpanMs(c) == t - c.requestTime
  {
  }

  lemma LegsInFields(a: Call, b: Call)
    ensures Legs(a, b) <==> SameContent(a, b) && Within100Ms(a, b) && NetView(a) != NetView(b)
  {
    ContentKeyIsTheFingerprint(a, b);
  }

  lemma LedIsBehind(c: Call, hops: seq<Call>, h: Call)
    requires Leads(c, hops) && h in hops
    ensures Behind(h, c)
  {
    LegsBothWays(c, h);
    LegsInFields(h, c);
    assert h in [c] + hops;
    forall t, u | EndsAt(c, t) && EndsAt(h, u)
      ensures u - h.requestTime < t - c.requestTime
           || (u - h.requestTime == t - c.requestTime && (h.id == c.id || LexLess(c.id, h.id)))
    {
      SpanEnds(c, t);
      SpanEnds(h, u);
    }
  }

  ghost predicate Precedes(t: seq<Call>, x: Call, y: Call) {
    exists a, b :: 0 <= a < b < |t| && t[a] == x && t[b] == y
  }

  /** The members of `s` stand in `t` in the same order. */
  ghost predicate InOrderOf(s: seq<Call>, t: seq<Call>) {
    forall i, j :: 0 <= i < j < |s| ==> Precedes(t, s[i], s[j])
  }

  lemma PrecedesLater(t: seq<Call>, c: Call, x: Call, y: Call)
    ensures Precedes(t, x, y) ==> Precedes(t + [c], x, y)
    ensures x in t ==> Precedes(t + [c], x, c)
  {
    if Precedes(t, x, y) {
      var a, b :| 0 <= a < b < |t| && t[a] == x && t[b] == y;
      assert (t + [c])[a] == x && (t + [c])[b] == y;
    }
    if x in t {
      var a :| 0 <= a < |t| && t[a] == x;
      assert (t + [c])[a] == x && (t + [c])[|t|] == c;
    }
  }

  lemma OrderGrows(s: seq<Call>, t: seq<Call>, c: Call)
    requires InOrderOf(s, t) && forall x :: x in s ==> x in t
    ensures InOrderOf(s, t + [c]) && InOrderOf(s + [c], t + [c])
  {
    forall i, j | 0 <= i < j < |s| ensures Precedes(t + [c], s[i], s[j]) {
      PrecedesLater(t, c, s[i], s[j]);
    }
    forall i | 0 <= i < |s| ensures Precedes(t + [c], s[i], c) {
      PrecedesLater(t, c, s[i], c);
    }
  }

  lemma {:induction false} VisibleKeepsOrder(calls: seq<Call>, hidden: set<int>)
    ensures InOrderOf(Visible(calls, hidden), calls)
  {
    if calls != [] {
      var init, last := calls[..|calls| - 1], calls[|calls| - 1];
      VisibleKeepsOrder(init, hidden);
      VisibleMembers(init, hidden);
      OrderGrows(Visible(init, hidden), init, last);
      assert calls == init + [last];
    }
  }

  /**
   The result of grouping in the fields of the calls: the visible calls keep the input's order, every hidden call is
   behind the visible call it is filed under, and two calls left alone with the same content and within 100 ms have the
   same network view.
   */
  lemma TheResultInFields(calls: seq<Call>, r: Grouping)
    requires UniqueIds(calls) && UniqueSequences(calls) && r == GroupingOf(calls)
    ensures InOrderOf(r.visible, calls)
    ensures forall k, h :: k in r.hopsByCanonical && h in r.hopsByCanonical[k] ==>
              exists c :: c in r.visible && c.id == k && Behind(h, c)
    ensures forall b, c ::
              b in calls && c in calls && LeftAlone(b, r) && LeftAlone(c, r) && SameContent(b, c) && Within100Ms(b, c)
              ==> NetView(b) == NetView(c)
  {
    TheResultIsSound(calls, r);
    VisibleKeepsOrder(calls, HopSequences(GroupsOf(calls)));
    forall k, h | k in r.hopsByCanonical && h in r.hopsByCanonical[k]
      ensures exists c :: c in r.visible && c.id == k && Behind(h, c)
    {
      var c :| c in r.visible && c.id == k && Leads(c, r.hopsByCanonical[k]);
      LedIsBehind(c, r.hopsByCanonical[k], h);
    }
    forall b, c | b in calls && c in calls && LeftAlone(b, r) && LeftAlone(c, r) && SameContent(b, c) && Within100Ms(b, c)
      ensures NetView(b) == NetView(c)
    {
      LegsInFields(b, c);
    }
  }
}
