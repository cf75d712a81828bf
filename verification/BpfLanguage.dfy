/**
 Exactly which filter texts the parser accepts and what it reads from them, stated on the pieces of the text: no scan, no
 state.
 */
module BpfLanguage {
  import opened Wrappers
  import opened Text
  import opened Sorting
  import opened BpfFilter
  import opened BpfRoundTrip

  // ---- clauses ----

  /** The tokens name these ports, one each. */
  ghost predicate NamePorts(tokens: seq<string>, ports: seq<nat>) {
    |tokens| == |ports| && forall i :: 0 <= i < |tokens| ==> PortPattern(tokens[i], ports[i])
  }

  ghost predicate NameHosts(tokens: seq<string>, hosts: seq<string>) {
    |tokens| == |hosts| && forall i :: 0 <= i < |tokens| ==> HostPattern(tokens[i], hosts[i])
  }

  /** The part is a clause of ports: at least one token, all of them port tokens. */
  ghost predicate PortsClause(part: string, ports: seq<nat>) {
    Tokens(part) != [] && NamePorts(Tokens(part), ports)
  }

  ghost predicate HostsClause(part: string, hosts: seq<string>) {
    Tokens(part) != [] && NameHosts(Tokens(part), hosts)
  }

  /** The parts of a filter name these ports and hosts: one clause, or one of each kind in either order. */
  ghost predicate PartsName(parts: seq<string>, ports: seq<nat>, hosts: seq<string>) {
    || (|parts| == 1 && PortsClause(parts[0], ports) && hosts == [])
    || (|parts| == 1 && HostsClause(parts[0], hosts) && ports == [])
    || (|parts| == 2 && PortsClause(parts[0], ports) && HostsClause(parts[1], hosts))
    || (|parts| == 2 && HostsClause(parts[0], hosts) && PortsClause(parts[1], ports))
  }

  /** The text names these ports and hosts, in the order it names them; a missing or blank text names none. */
  ghost predicate Names(raw: Option<string>, ports: seq<nat>, hosts: seq<string>) {
    if raw.None? || Trim(raw.value) == "" then ports == [] && hosts == []
    else PartsName(Split(Trim(raw.value), "and"), ports, hosts)
  }

  /** The result lists exactly these ports, ascending, and these hosts, each once, in order of first mention. */
  ghost predicate Lists(r: Structured, ports: seq<nat>, hosts: seq<string>) {
    && StrictlyAscending(r.ports) && (forall p :: p in r.ports <==> p in ports)
    && r.hosts == Distinct(hosts)
  }

  // ---- a token is of one kind ----

  lemma KindsDiffer(t: string, p: nat, h: string)
    ensures !(PortPattern(t, p) && HostPattern(t, h))
  {
    if PortPattern(t, p) && HostPattern(t, h) {
      var u, d :| (u == t || WordThen(t, "tcp", u)) && WordThen(u, "port", d)
                  && 1 <= |d| <= 5 && AllDigits(d) && Number(d) == p && IsPort(p);
      WordIsInk(t, "host", h);
      if u == t {
        WordIsInk(t, "port", d);
      } else {
        WordIsInk(t, "tcp", u);
      }
    }
  }

  lemma MatchersAre(t: string)
    ensures forall p: nat :: MatchPort(t) == Some(p) <==> PortPattern(t, p)
    ensures forall h :: MatchHost(t) == Some(h) <==> HostPattern(t, h)
  {
    forall p: nat ensures MatchPort(t) == Some(p) <==> PortPattern(t, p) {
      MatchPortIsThePattern(t, p);
    }
    forall h ensures MatchHost(t) == Some(h) <==> HostPattern(t, h) {
      MatchHostIsThePattern(t, h);
    }
  }

  // ---- one clause ----

  lemma {:induction false} PortTokensScanned(tokens: seq<string>, ports: seq<nat>, f: Found)
    requires NamePorts(tokens, ports) && f.kind != Hosts && tokens != []
    ensures ScanTokens(tokens, f) == Some(Found(Ports, f.ports + ports, f.hosts))
    decreases |tokens|
  {
    var tail, next := tokens[1..], Found(Ports, f.ports + ports[..1], f.hosts);
    assert ports[..1] == [ports[0]];
    ScansPort(tokens, tail, ports[0], f, next);
    if tail == [] {
      assert ports[..1] == ports;
    } else {
      PortTokensScanned(tail, ports[1..], next);
      AddedInParts(f.ports, ports);
    }
  }

  lemma AddedInParts(xs: seq<nat>, ys: seq<nat>)
    requires ys != []
    ensures xs + ys[..1] + ys[1..] == xs + ys
  {
  }

  lemma ScansPort(tokens: seq<string>, tail: seq<string>, p: nat, f: Found, next: Found)
    requires tokens != [] && tokens[1..] == tail && PortPattern(tokens[0], p) && f.kind != Hosts
    requires next == Found(Ports, f.ports + [p], f.hosts)
    ensures ScanTokens(tokens, f) == ScanTokens(tail, next)
  {
    MatchPortIsThePattern(tokens[0], p);
  }

  lemma {:induction false} HostTokensScanned(tokens: seq<string>, hosts: seq<string>, f: Found)
    requires NameHosts(tokens, hosts) && f.kind != Ports && tokens != []
    ensures ScanTokens(tokens, f) == Some(Found(Hosts, f.ports, f.hosts + hosts))
    decreases |tokens|
  {
    var t, h := tokens[0], hosts[0];
    MatchersAre(t);
    assert HostPattern(t, h);
    if MatchPort(t).Some? {
      KindsDiffer(t, MatchPort(t).value, h);
    }
    var next := Found(Hosts, f.ports, f.hosts + [h]);
    if |tokens| == 1 {
      assert tokens[1..] == [] && [h] == hosts;
    } else {
      HostTokensScanned(tokens[1..], hosts[1..], next);
      assert f.hosts + [h] + hosts[1..] == f.hosts + hosts;
    }
  }

  /** What a successful scan of tokens has read: ports only or hosts only. */
  ghost predicate ScanRead(tokens: seq<string>, f: Found, g: Found, ports: seq<nat>, hosts: seq<string>) {
    || (g.kind == Ports && f.kind != Hosts && NamePorts(tokens, ports) && hosts == [] && g == Found(Ports, f.ports + ports, f.hosts))
    || (g.kind == Hosts && f.kind != Ports && NameHosts(tokens, hosts) && ports == [] && g == Found(Hosts, f.ports, f.hosts + hosts))
  }

  lemma PortInFront(tokens: seq<string>, f: Found, g: Found, p: nat, ps: seq<nat>)
    requires tokens != [] && PortPattern(tokens[0], p) && f.kind != Hosts
    requires if tokens[1..] == [] then ps == [] && g == Found(Ports, f.ports + [p], f.hosts)
             else NamePorts(tokens[1..], ps) && g == Found(Ports, f.ports + [p] + ps, f.hosts)
    ensures ScanRead(tokens, f, g, [p] + ps, [])
  {
    assert f.ports + [p] + ps == f.ports + ([p] + ps);
    assert forall i :: 1 <= i < |tokens| ==> tokens[i] == tokens[1..][i - 1] && ([p] + ps)[i] == ps[i - 1];
  }

  lemma HostInFront(tokens: seq<string>, f: Found, g: Found, h: string, hs: seq<string>)
    requires tokens != [] && HostPattern(tokens[0], h) && f.kind != Ports
    requires if tokens[1..] == [] then hs == [] && g == Found(Hosts, f.ports, f.hosts + [h])
             else NameHosts(tokens[1..], hs) && g == Found(Hosts, f.ports, f.hosts + [h] + hs)
    ensures ScanRead(tokens, f, g, [], [h] + hs)
  {
    assert f.hosts + [h] + hs == f.hosts + ([h] + hs);
    assert forall i :: 1 <= i < |tokens| ==> tokens[i] == tokens[1..][i - 1] && ([h] + hs)[i] == hs[i - 1];
  }

  lemma {:induction false} ScanReads(tokens: seq<string>, f: Found) returns (ports: seq<nat>, hosts: seq<string>)
    requires tokens != [] && ScanTokens(tokens, f).Some?
    ensures ScanRead(tokens, f, ScanTokens(tokens, f).value, ports, hosts)
    decreases |tokens|
  {
    var t, tail, g := tokens[0], tokens[1..], ScanTokens(tokens, f).value;
    ports, hosts := [], [];
    if MatchPort(t).Some? {
      var p := MatchPort(t).value;
      MatchPortIsThePattern(t, p);
      if tail != [] {
        ports, hosts := ScanReads(tail, Found(Ports, f.ports + [p], f.hosts));
      }
      PortInFront(tokens, f, g, p, ports);
      ports := [p] + ports;
    } else {
      var h := MatchHost(t).value;
      MatchHostIsThePattern(t, h);
      if tail != [] {
        ports, hosts := ScanReads(tail, Found(Hosts, f.ports, f.hosts + [h]));
      }
      HostInFront(tokens, f, g, h, hosts);
      hosts := [h] + hosts;
    }
  }

  // ---- the parts ----

  /** What has been seen before the last parts are scanned. */
  lemma OnePart(part: string, sawPorts: bool, sawHosts: bool, ports: seq<nat>, hosts: seq<string>)
    returns (ps: seq<nat>, hs: seq<string>)
    ensures ScanParts([part], sawPorts, sawHosts, ports, hosts).Some? ==>
              && ScanParts([part], sawPorts, sawHosts, ports, hosts) == Some(Structured(ports + ps, hosts + hs))
              && ((PortsClause(part, ps) && hs == [] && !sawPorts) || (HostsClause(part, hs) && ps == [] && !sawHosts))
  {
    ps, hs := [], [];
    assert [part][1..] == [];
    var f := Found(Unknown, ports, hosts);
    if Tokens(part) != [] && ScanTokens(Tokens(part), f).Some? {
      ps, hs := ScanReads(Tokens(part), f);
      assert ports + [] == ports && hosts + [] == hosts;
    }
  }

  lemma OnePartScanned(part: string, sawPorts: bool, sawHosts: bool, ports: seq<nat>, hosts: seq<string>, ps: seq<nat>,
                       hs: seq<string>)
    requires (PortsClause(part, ps) && hs == [] && !sawPorts) || (HostsClause(part, hs) && ps == [] && !sawHosts)
    ensures ScanParts([part], sawPorts, sawHosts, ports, hosts) == Some(Structured(ports + ps, hosts + hs))
  {
    assert [part][1..] == [] && ports + [] == ports && hosts + [] == hosts;
    var f := Found(Unknown, ports, hosts);
    if PortsClause(part, ps) && hs == [] && !sawPorts {
      PortTokensScanned(Tokens(part), ps, f);
    } else {
      HostTokensScanned(Tokens(part), hs, f);
    }
  }

  lemma TwoParts(a: string, b: string, f: Found)
    requires Tokens(a) != [] && ScanTokens(Tokens(a), Found(Unknown, [], [])) == Some(f)
    ensures ScanParts([a, b], false, false, [], [])
         == ScanParts([b], f.kind == Ports, f.kind == Hosts, f.ports, f.hosts)
  {
    assert [a, b][1..] == [b];
  }

  lemma PartsRead(parts: seq<string>) returns (ports: seq<nat>, hosts: seq<string>)
    requires 1 <= |parts| <= 2
    ensures ScanParts(parts, false, false, [], []).Some? ==>
              ScanParts(parts, false, false, [], []) == Some(Structured(ports, hosts)) && PartsName(parts, ports, hosts)
  {
    ports, hosts := [], [];
    if |parts| == 1 {
      assert parts == [parts[0]];
      ports, hosts := OnePart(parts[0], false, false, [], []);
      assert [] + ports == ports && [] + hosts == hosts;
    } else {
      assert parts == [parts[0], parts[1]];
      var a, b := parts[0], parts[1];
      var start := Found(Unknown, [], []);
      if Tokens(a) != [] && ScanTokens(Tokens(a), start).Some? {
        var f := ScanTokens(Tokens(a), start).value;
        var ps, hs := ScanReads(Tokens(a), start);
        assert [] + ps == ps && [] + hs == hs;
        TwoParts(a, b, f);
        var ps2, hs2 := OnePart(b, f.kind == Ports, f.kind == Hosts, f.ports, f.hosts);
        ports, hosts := f.ports + ps2, f.hosts + hs2;
        assert [] + ps2 == ps2 && [] + hs2 == hs2 && ps + [] == ps && hs + [] == hs;
      }
    }
  }

  lemma PartsScanned(parts: seq<string>, ports: seq<nat>, hosts: seq<string>)
    requires PartsName(parts, ports, hosts)
    ensures ScanParts(parts, false, false, [], []) == Some(Structured(ports, hosts))
  {
    assert [] + ports == ports && [] + hosts == hosts && ports + [] == ports && hosts + [] == hosts;
    if |parts| == 1 {
      assert parts == [parts[0]];
      OnePartScanned(parts[0], false, false, [], [], ports, hosts);
    } else {
      assert parts == [parts[0], parts[1]];
      var start := Found(Unknown, [], []);
      if PortsClause(parts[0], ports) && HostsClause(parts[1], hosts) {
        PortTokensScanned(Tokens(parts[0]), ports, start);
        TwoParts(parts[0], parts[1], Found(Ports, ports, []));
        OnePartScanned(parts[1], true, false, ports, [], [], hosts);
      } else {
        HostTokensScanned(Tokens(parts[0]), hosts, start);
        TwoParts(parts[0], parts[1], Found(Hosts, [], hosts));
        OnePartScanned(parts[1], false, true, [], hosts, ports, []);
      }
    }
  }

  // ---- the language ----

  lemma NormalLists(ports: seq<nat>, hosts: seq<string>)
    ensures Lists(Normal(Structured(ports, hosts)), ports, hosts)
  {
    NormalForm(Structured(ports, hosts));
  }

  lemma EmptyOrInhabited(b: seq<nat>)
    ensures b == [] || exists p :: p in b
  {
    if b != [] {
      assert b[0] in b;
    }
  }

  lemma AscendingDetermined(a: seq<nat>, b: seq<nat>)
    requires StrictlyAscending(a) && StrictlyAscending(b) && forall p :: p in a <==> p in b
    ensures a == b
    decreases |a|
  {
    if a != [] {
      assert a[0] in b && b != [];
      assert b[0] in a;
      assert a[0] == b[0];
      forall p ensures p in a[1..] <==> p in b[1..] {
        assert p in a <==> p == a[0] || p in a[1..];
        assert p in b <==> p == b[0] || p in b[1..];
        if p in a[1..] { assert p in a && p > a[0]; }
        if p in b[1..] { assert p in b && p > b[0]; }
      }
      AscendingDetermined(a[1..], b[1..]);
      assert a == [a[0]] + a[1..] && b == [b[0]] + b[1..];
    } else {
      EmptyOrInhabited(b);
    }
  }

  /**
   The accepted language: a text is read as `r` if and only if it names some ports and hosts - it is missing or blank,
   or its one or two "and" parts are a clause of ports, a clause of hosts, or one of each - and `r` lists exactly those.
   */
  lemma ParsesExactly(raw: Option<string>, r: Structured)
    ensures Parse(raw) == Some(r) <==> exists ports, hosts :: Names(raw, ports, hosts) && Lists(r, ports, hosts)
  {
    if Parse(raw) == Some(r) {
      if raw.None? || Trim(raw.value) == "" {
        assert Names(raw, [], []) && Lists(r, [], []);
      } else {
        var ports, hosts := PartsRead(Split(Trim(raw.value), "and"));
        NormalLists(ports, hosts);
        assert Names(raw, ports, hosts) && Lists(r, ports, hosts);
      }
    }
    if ports, hosts :| Names(raw, ports, hosts) && Lists(r, ports, hosts) {
      NormalLists(ports, hosts);
      var n := Normal(Structured(ports, hosts));
      AscendingDetermined(r.ports, n.ports);
      if raw.Some? && Trim(raw.value) != "" {
        PartsScanned(Split(Trim(raw.value), "and"), ports, hosts);
      }
    }
  }
}
