/**
 The structured filter editor's printer and parser (console/src/lib/bpf.ts).
 */
module BpfFilter {
  import opened Wrappers
  import opened Text
  import opened Sorting

  datatype Structured = Structured(ports: seq<nat>, hosts: seq<string>)

  // ---- characters ----

  /** JavaScript white space: what `\s` matches and `trim` removes. */
  predicate IsSpace(c: char) {
    var n := c as int;
    || 0x09 <= n <= 0x0D || n == 0x20 || n == 0xA0 || n == 0x1680 || 0x2000 <= n <= 0x200A
    || n == 0x2028 || n == 0x2029 || n == 0x202F || n == 0x205F || n == 0x3000 || n == 0xFEFF
  }

  function LowerChar(c: char): char {
    if 'A' <= c <= 'Z' then c - 'A' + 'a' else c
  }

  function Lower(s: string): (r: string)
    ensures |r| == |s| && forall i :: 0 <= i < |s| ==> r[i] == LowerChar(s[i])
  {
    seq(|s|, i requires 0 <= i < |s| => LowerChar(s[i]))
  }

  function TrimStart(s: string): (r: string)
    ensures |r| <= |s|
    ensures r != "" ==> !IsSpace(r[0])
  {
    if s != "" && IsSpace(s[0]) then TrimStart(s[1..]) else s
  }

  function TrimEnd(s: string): (r: string)
    ensures |r| <= |s|
    ensures r != "" ==> !IsSpace(r[|r| - 1])
  {
    if s != "" && IsSpace(s[|s| - 1]) then TrimEnd(s[..|s| - 1]) else s
  }

  function Trim(s: string): string {
    TrimEnd(TrimStart(s))
  }

  /** Trimming leaves a string alone exactly when neither end is white space. */
  predicate Trimmed(s: string) {
    s != "" ==> !IsSpace(s[0]) && !IsSpace(s[|s| - 1])
  }

  lemma TrimOfTrimmed(s: string)
    requires Trimmed(s)
    ensures Trim(s) == s
  {
  }

  // ---- printer ----

  function PortToken(p: nat): string {
    "tcp port " + Decimal(p)
  }

  function HostToken(h: string): string {
    "host " + h
  }

  function PortTokens(ports: seq<nat>): (ts: seq<string>)
    ensures |ts| == |ports| && forall i :: 0 <= i < |ports| ==> ts[i] == PortToken(ports[i])
  {
    seq(|ports|, i requires 0 <= i < |ports| => PortToken(ports[i]))
  }

  function HostTokens(hosts: seq<string>): (ts: seq<string>)
    ensures |ts| == |hosts| && forall i :: 0 <= i < |hosts| ==> ts[i] == HostToken(hosts[i])
  {
    seq(|hosts|, i requires 0 <= i < |hosts| => HostToken(hosts[i]))
  }

  function JoinOr(ts: seq<string>): string {
    if ts == [] then "" else if |ts| == 1 then ts[0] else ts[0] + " or " + JoinOr(ts[1..])
  }

  function Parenthesised(s: string): string {
    "(" + s + ")"
  }

  function SynthBpf(s: Structured): string {
    var portsPart := JoinOr(PortTokens(s.ports));
    var hostsPart := JoinOr(HostTokens(s.hosts));
    if portsPart != "" && hostsPart != "" then
      (if |s.ports| > 1 then Parenthesised(portsPart) else portsPart)
        + " and "
        + (if |s.hosts| > 1 then Parenthesised(hostsPart) else hostsPart)
    else if portsPart != "" then portsPart
    else hostsPart
  }

  // ---- splitting ----

  /** White space, the word `sep` in any case, white space. */
  predicate IsWindow(rest: string, sep: string) {
    && |sep| + 2 <= |rest|
    && IsSpace(rest[0])
    && Lower(rest[1..|sep| + 1]) == sep
    && IsSpace(rest[|sep| + 1])
  }

  /** The pieces of `acc + rest` cut at separators outside parentheses; `acc` has been scanned, `depth` is where it ended. */
  function Pieces(acc: string, rest: string, sep: string, depth: int): seq<string>
    decreases |rest|
  {
    if rest == "" then [acc]
    else if rest[0] == '(' then Pieces(acc + rest[..1], rest[1..], sep, depth + 1)
    else if rest[0] == ')' then Pieces(acc + rest[..1], rest[1..], sep, depth - 1)
    else if depth == 0 && IsWindow(rest, sep) then [acc] + Pieces("", rest[|sep| + 2..], sep, depth)
    else Pieces(acc + rest[..1], rest[1..], sep, depth)
  }

  /** `.map(trim).filter(Boolean)` */
  function TrimmedNonEmpty(ps: seq<string>): seq<string> {
    if ps == [] then []
    else (if Trim(ps[0]) == "" then [] else [Trim(ps[0])]) + TrimmedNonEmpty(ps[1..])
  }

  function Split(s: string, sep: string): seq<string> {
    TrimmedNonEmpty(Pieces("", s, sep, 0))
  }

  /** The pieces of `s` are `out` and those still to be cut from `start`, scanned up to `i`. */
  ghost predicate Cutting(s: string, sep: string, out: seq<string>, start: nat, i: nat, depth: int) {
    start <= i <= |s| && out + Pieces(s[start..i], s[i..], sep, depth) == Pieces("", s, sep, 0)
  }

  /** The separator stands at `i`, in any case, with white space on both sides. */
  predicate WindowAt(s: string, sep: string, i: nat) {
    && i + |sep| + 2 <= |s|
    && IsSpace(s[i])
    && Lower(s[i + 1..i + |sep| + 1]) == sep
    && IsSpace(s[i + |sep| + 1])
  }

  lemma CutsOrCarries(s: string, sep: string, out: seq<string>, start: nat, i: nat, depth: int)
    requires i < |s| && Cutting(s, sep, out, start, i, depth)
    ensures s[i] == '(' ==> Cutting(s, sep, out, start, i + 1, depth + 1)
    ensures s[i] == ')' ==> Cutting(s, sep, out, start, i + 1, depth - 1)
    ensures s[i] != '(' && s[i] != ')' && depth == 0 && WindowAt(s, sep, i) ==>
              Cutting(s, sep, out + [s[start..i]], i + |sep| + 2, i + |sep| + 2, 0)
    ensures s[i] != '(' && s[i] != ')' && !(depth == 0 && WindowAt(s, sep, i)) ==>
              Cutting(s, sep, out, start, i + 1, depth)
  {
    var acc, rest := s[start..i], s[i..];
    assert acc + rest[..1] == s[start..i + 1] && rest[1..] == s[i + 1..];
    if i + |sep| + 2 <= |s| {
      assert rest[1..|sep| + 1] == s[i + 1..i + |sep| + 1];
      var j := i + |sep| + 2;
      assert rest[|sep| + 2..] == s[j..] && s[j..j] == "";
      assert out + ([acc] + Pieces("", s[j..], sep, depth)) == (out + [acc]) + Pieces("", s[j..], sep, depth);
    }
  }

  lemma CutsDone(s: string, sep: string, out: seq<string>, start: nat, i: nat, depth: int)
    requires i >= |s| && Cutting(s, sep, out, start, i, depth)
    ensures out + [s[start..]] == Pieces("", s, sep, 0)
  {
    assert s[i..] == "" && s[start..] == s[start..i];
  }

  method SplitTopLevel(s: string, sep: string) returns (r: seq<string>)
    ensures r == Split(s, sep)
  {
    var out: seq<string> := [];
    var depth, start, i := 0, 0, 0;
    assert s[0..0] == "" && s[0..] == s;
    while i < |s|
      invariant 0 <= start <= i && Cutting(s, sep, out, start, i, depth)
      decreases |s| - i
    {
      var c := s[i];
      CutsOrCarries(s, sep, out, start, i, depth);
      if c == '(' {
        depth := depth + 1;
      } else if c == ')' {
        depth := depth - 1;
      } else if depth == 0 && WindowAt(s, sep, i) {
        out := out + [s[start..i]];
        i := i + |sep| + 2;
        start := i;
        continue;
      }
      i := i + 1;
    }
    CutsDone(s, sep, out, start, i, depth);
    out := out + [s[start..]];
    r := KeepNonEmpty(out);
  }

  lemma NextPiece(ps: seq<string>, i: nat, r: seq<string>)
    requires i < |ps|
    ensures r + TrimmedNonEmpty(ps[i..])
         == (if Trim(ps[i]) == "" then r else r + [Trim(ps[i])]) + TrimmedNonEmpty(ps[i + 1..])
  {
    assert ps[i..][1..] == ps[i + 1..];
  }

  method KeepNonEmpty(ps: seq<string>) returns (r: seq<string>)
    ensures r == TrimmedNonEmpty(ps)
  {
    r := [];
    for i := 0 to |ps|
      invariant r + TrimmedNonEmpty(ps[i..]) == TrimmedNonEmpty(ps)
    {
      NextPiece(ps, i, r);
      var t := Trim(ps[i]);
      if t != "" {
        r := r + [t];
      }
    }
    assert ps[|ps|..] == [];
  }

  // ---- outer parentheses ----

  /** Nesting depth after the first n characters. */
  function DepthAfter(s: string, n: nat): int
    requires n <= |s|
  {
    if n == 0 then 0
    else DepthAfter(s, n - 1) + (if s[n - 1] == '(' then 1 else if s[n - 1] == ')' then -1 else 0)
  }

  /** Some parenthesis before the last character closes the outermost level. */
  predicate ClosesEarly(s: string) {
    exists i :: 0 <= i < |s| - 1 && s[i] == ')' && DepthAfter(s, i + 1) == 0
  }

  function Strip(s: string): string {
    if |s| < 2 || s[0] != '(' || s[|s| - 1] != ')' then s
    else if ClosesEarly(s) then s
    else Trim(s[1..|s| - 1])
  }

  method StripOuterParens(s: string) returns (r: string)
    ensures r == Strip(s)
  {
    if |s| < 2 || s[0] != '(' || s[|s| - 1] != ')' {
      return s;
    }
    var depth := 0;
    for i := 0 to |s|
      invariant depth == DepthAfter(s, i)
      invariant forall k :: 0 <= k < i && k < |s| - 1 && s[k] == ')' ==> DepthAfter(s, k + 1) != 0
    {
      if s[i] == '(' {
        depth := depth + 1;
      } else if s[i] == ')' {
        depth := depth - 1;
        if depth == 0 && i != |s| - 1 {
          return s;
        }
      }
    }
    r := Trim(s[1..|s| - 1]);
  }

  // ---- tokens ----

  predicate StartsWithWord(s: string, word: string) {
    |word| < |s| && Lower(s[..|word|]) == word && IsSpace(s[|word|])
  }

  predicate HostChar(c: char) {
    'a' <= c <= 'z' || 'A' <= c <= 'Z' || IsDigit(c) || c == '.' || c == '_' || c == ':' || c == '/' || c == '-'
  }

  /** The HOST_TOKEN pattern; every match of the IPV4 pattern also matches it. */
  predicate IsHost(h: string) {
    h != "" && forall i :: 0 <= i < |h| ==> HostChar(h[i])
  }

  predicate IsPort(p: nat) {
    1 <= p <= 65535
  }

  function MatchPort(t: string): (r: Option<nat>)
    ensures r.Some? ==> IsPort(r.value)
  {
    var u := if StartsWithWord(t, "tcp") then TrimStart(t[3..]) else t;
    if !StartsWithWord(u, "port") then None
    else
      var d := TrimStart(u[4..]);
      if 1 <= |d| <= 5 && AllDigits(d) && IsPort(Number(d)) then Some(Number(d)) else None
  }

  function MatchHost(t: string): (r: Option<string>)
    ensures r.Some? ==> IsHost(r.value)
  {
    if !StartsWithWord(t, "host") then None
    else
      var v := TrimStart(t[4..]);
      if IsHost(v) then Some(v) else None
  }

  // ---- the token patterns ----

  predicate Blank(s: string) {
    s != "" && forall i :: 0 <= i < |s| ==> IsSpace(s[i])
  }

  /** `t` reads as the word (in any case), one or more white-space characters, and `rest`. */
  ghost predicate WordThen(t: string, word: string, rest: string) {
    exists w, gap :: Lower(w) == word && Blank(gap) && t == w + gap + rest
  }

  /** `(?:tcp\s+)?port\s+(\d{1,5})`, with the number in range. */
  ghost predicate PortPattern(t: string, p: nat) {
    exists u, d ::
      && (u == t || WordThen(t, "tcp", u)) && WordThen(u, "port", d)
      && 1 <= |d| <= 5 && AllDigits(d) && Number(d) == p && IsPort(p)
  }

  /** `host\s+(\S+)`, with a plausible host. */
  ghost predicate HostPattern(t: string, h: string) {
    WordThen(t, "host", h) && IsHost(h)
  }

  lemma {:induction false} TrimSplits(s: string) returns (gap: string)
    ensures s == gap + TrimStart(s) && forall i :: 0 <= i < |gap| ==> IsSpace(gap[i])
  {
    gap := "";
    if s != "" && IsSpace(s[0]) {
      var tail := TrimSplits(s[1..]);
      gap := s[..1] + tail;
      assert s == s[..1] + s[1..];
    }
  }

  lemma {:induction false} TrimPastBlank(gap: string, rest: string)
    requires forall i :: 0 <= i < |gap| ==> IsSpace(gap[i])
    requires rest != "" && !IsSpace(rest[0])
    ensures TrimStart(gap + rest) == rest
    decreases |gap|
  {
    if gap == "" {
      assert gap + rest == rest;
    } else {
      assert (gap + rest)[1..] == gap[1..] + rest;
      TrimPastBlank(gap[1..], rest);
    }
  }

  lemma WordThenIs(t: string, word: string, rest: string)
    requires rest != "" && !IsSpace(rest[0])
    ensures WordThen(t, word, rest) <==> StartsWithWord(t, word) && TrimStart(t[|word|..]) == rest
  {
    if WordThen(t, word, rest) {
      var w, gap :| Lower(w) == word && Blank(gap) && t == w + gap + rest;
      assert |w| == |word| && t[..|word|] == w && t[|word|] == gap[0] && t[|word|..] == gap + rest;
      TrimPastBlank(gap, rest);
    }
    if StartsWithWord(t, word) && TrimStart(t[|word|..]) == rest {
      var gap := TrimSplits(t[|word|..]);
      assert t == t[..|word|] + gap + rest;
      assert gap != "" by {
        assert t[|word|..][0] == t[|word|];
      }
      assert Blank(gap) && Lower(t[..|word|]) == word;
    }
  }

  lemma WordIsInk(u: string, word: string, d: string)
    requires WordThen(u, word, d) && word != "" && !IsSpace(word[0])
    ensures u != "" && !IsSpace(u[0]) && LowerChar(u[0]) == word[0]
  {
    var w, gap :| Lower(w) == word && Blank(gap) && u == w + gap + d;
    assert u[0] == w[0] && Lower(w)[0] == LowerChar(w[0]);
  }

  lemma DigitsAreInk(d: string)
    requires d != "" && AllDigits(d)
    ensures !IsSpace(d[0])
  {
    assert IsDigit(d[0]);
  }

  /** The text after an optional leading "tcp" is determined, since "port" must follow. */
  lemma AfterTcp(t: string, u: string, d: string)
    requires WordThen(u, "port", d)
    ensures u == t || WordThen(t, "tcp", u) <==> u == if StartsWithWord(t, "tcp") then TrimStart(t[3..]) else t
  {
    WordIsInk(u, "port", d);
    WordThenIs(t, "tcp", u);
    if StartsWithWord(t, "tcp") {
      assert Lower(t[..3])[0] == LowerChar(t[0]) == 't';
    }
  }

  /** The port matcher accepts exactly the port pattern. */
  lemma MatchPortIsThePattern(t: string, p: nat)
    ensures MatchPort(t) == Some(p) <==> PortPattern(t, p)
  {
    if PortPattern(t, p) {
      var u, d :| (u == t || WordThen(t, "tcp", u)) && WordThen(u, "port", d)
                  && 1 <= |d| <= 5 && AllDigits(d) && Number(d) == p && IsPort(p);
      DigitsAreInk(d);
      WordThenIs(u, "port", d);
      AfterTcp(t, u, d);
    }
    if MatchPort(t) == Some(p) {
      var u := if StartsWithWord(t, "tcp") then TrimStart(t[3..]) else t;
      var d := TrimStart(u[4..]);
      DigitsAreInk(d);
      WordThenIs(u, "port", d);
      AfterTcp(t, u, d);
    }
  }

  /** The host matcher accepts exactly the host pattern. */
  lemma MatchHostIsThePattern(t: string, h: string)
    ensures MatchHost(t) == Some(h) <==> HostPattern(t, h)
  {
    if IsHost(h) {
      assert HostChar(h[0]);
      WordThenIs(t, "host", h);
    }
  }

  // ---- parser ----

  datatype Kind = Unknown | Ports | Hosts
  datatype Found = Found(kind: Kind, ports: seq<nat>, hosts: seq<string>)

  /** One `or` clause: all tokens of one kind. */
  function ScanTokens(tokens: seq<string>, f: Found): Option<Found> {
    if tokens == [] then Some(f)
    else
      match MatchPort(tokens[0])
      case Some(p) =>
        if f.kind == Hosts then None else ScanTokens(tokens[1..], Found(Ports, f.ports + [p], f.hosts))
      case None =>
        match MatchHost(tokens[0])
        case Some(h) =>
          if f.kind == Ports then None else ScanTokens(tokens[1..], Found(Hosts, f.ports, f.hosts + [h]))
        case None => None
  }

  function Tokens(part: string): seq<string> {
    Split(Strip(Trim(part)), "or")
  }

  /** The `and` clauses: at most one of each kind. */
  function ScanParts(parts: seq<string>, sawPorts: bool, sawHosts: bool, ports: seq<nat>, hosts: seq<string>)
    : Option<Structured>
  {
    if parts == [] then Some(Structured(ports, hosts))
    else if Tokens(parts[0]) == [] then None
    else
      match ScanTokens(Tokens(parts[0]), Found(Unknown, ports, hosts))
      case None => None
      case Some(f) =>
        if (f.kind == Ports && sawPorts) || (f.kind == Hosts && sawHosts) then None
        else ScanParts(parts[1..], sawPorts || f.kind == Ports, sawHosts || f.kind == Hosts, f.ports, f.hosts)
  }

  function Ascend(xs: seq<nat>): seq<nat> {
    SortBy((a: nat, b: nat) => a <= b, xs)
  }

  function Normal(s: Structured): Structured {
    Structured(Ascend(Distinct(s.ports)), Distinct(s.hosts))
  }

  function Parse(raw: Option<string>): Option<Structured> {
    if raw.None? || Trim(raw.value) == "" then Some(Structured([], []))
    else
      var parts := Split(Trim(raw.value), "and");
      if parts == [] || |parts| > 2 then None
      else
        match ScanParts(parts, false, false, [], [])
        case None => None
        case Some(s) => Some(Normal(s))
  }

  method ParseBpf(raw: Option<string>) returns (r: Option<Structured>)
    ensures r == Parse(raw)
  {
    if raw.None? {
      return Some(Structured([], []));
    }
    var trimmed := Trim(raw.value);
    if trimmed == "" {
      return Some(Structured([], []));
    }
    var parts := SplitTopLevel(trimmed, "and");
    if |parts| == 0 || |parts| > 2 {
      return None;
    }
    var ports: seq<nat>, hosts: seq<string> := [], [];
    var sawPorts, sawHosts := false, false;
    ghost var answer := ScanParts(parts, false, false, [], []);
    for i := 0 to |parts|
      invariant ScanParts(parts[i..], sawPorts, sawHosts, ports, hosts) == answer
    {
      assert parts[i..][1..] == parts[i + 1..];
      var part := StripOuterParens(Trim(parts[i]));
      var tokens := SplitTopLevel(part, "or");
      if |tokens| == 0 {
        return None;
      }
      var found := Clause(tokens, ports, hosts);
      match found {
        case None => return None;
        case Some(f) =>
          ports, hosts := f.ports, f.hosts;
          if f.kind == Ports {
            if sawPorts { return None; }
            sawPorts := true;
          } else if f.kind == Hosts {
            if sawHosts { return None; }
            sawHosts := true;
          }
      }
    }
    assert parts[|parts|..] == [];
    r := Some(Normal(Structured(ports, hosts)));
  }

  /** The inner loop of `parseBpf`. */
  method Clause(tokens: seq<string>, ports0: seq<nat>, hosts0: seq<string>) returns (r: Option<Found>)
    ensures r == ScanTokens(tokens, Found(Unknown, ports0, hosts0))
  {
    var f := Found(Unknown, ports0, hosts0);
    for i := 0 to |tokens|
      invariant ScanTokens(tokens[i..], f) == ScanTokens(tokens, Found(Unknown, ports0, hosts0))
    {
      assert tokens[i..][1..] == tokens[i + 1..];
      var p, h := MatchPort(tokens[i]), MatchHost(tokens[i]);
      if p.Some? {
        if f.kind == Hosts { return None; }
        f := Found(Ports, f.ports + [p.value], f.hosts);
      } else if h.Some? {
        if f.kind == Ports { return None; }
        f := Found(Hosts, f.ports, f.hosts + [h.value]);
      } else {
        return None;
      }
    }
    assert tokens[|tokens|..] == [];
    r := Some(f);
  }
}
