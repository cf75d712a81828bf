/**
 The filter parser undoes the filter printer, except for hosts that the splitter takes for its separators.
 Printed filters are lines of words; the splitter is followed word by word.
 */
module BpfRoundTrip {
  import opened Wrappers
  import opened Text
  import opened Sorting
  import opened BpfFilter

  // ---- the splitter on words ----

  predicate Plain(w: string) {
    w != "" && forall i :: 0 <= i < |w| ==> !IsSpace(w[i]) && w[i] != '(' && w[i] != ')'
  }

  /** A separator word: lower-case letters only. */
  predicate IsSep(sep: string) {
    sep == "and" || sep == "or"
  }

  /** What may follow a word: nothing, or white space. */
  predicate Ends(rest: string) {
    rest == "" || IsSpace(rest[0])
  }

  lemma {:induction false} SkipWord(acc: string, w: string, rest: string, sep: string)
    requires forall i :: 0 <= i < |w| ==> !IsSpace(w[i]) && w[i] != '(' && w[i] != ')'
    ensures Pieces(acc, w + rest, sep, 0) == Pieces(acc + w, rest, sep, 0)
    decreases |w|
  {
    if w == "" {
      assert w + rest == rest && acc + w == acc;
    } else {
      var s := w + rest;
      assert s[1..] == w[1..] + rest && s[..1] == w[..1] && !IsWindow(s, sep);
      SkipWord(acc + w[..1], w[1..], rest, sep);
      assert acc + w[..1] + w[1..] == acc + w;
    }
  }

  lemma WindowIsTheWord(w: string, rest: string, sep: string)
    requires Plain(w) && Ends(rest) && IsSep(sep)
    ensures IsWindow(" " + w + rest, sep) <==> Lower(w) == sep && rest != ""
  {
    var s := " " + w + rest;
    if |w| < |sep| {
      ShortWordIsNoWindow(w, rest, sep, s);
    } else if |w| > |sep| {
      assert s[|sep| + 1] == w[|sep|];
    } else {
      assert s[1..|sep| + 1] == w;
    }
  }

  lemma ShortWordIsNoWindow(w: string, rest: string, sep: string, s: string)
    requires Ends(rest) && IsSep(sep) && s == " " + w + rest && |w| < |sep|
    ensures !IsWindow(s, sep)
  {
    if |sep| + 2 <= |s| {
      assert s[1..|sep| + 1][|w|] == rest[0];
      SeparatorsAreLetters(s[1..|sep| + 1], |w|, sep);
    }
  }

  lemma SeparatorsAreLetters(t: string, i: nat, sep: string)
    requires IsSep(sep) && i < |t| && IsSpace(t[i])
    ensures Lower(t) != sep
  {
    if |t| == |sep| {
      assert Lower(t)[i] == LowerChar(t[i]) == t[i] != sep[i];
    }
  }

  lemma CutAtWord(acc: string, w: string, rest: string, sep: string, s: string)
    requires Plain(w) && Ends(rest) && IsSep(sep) && s == " " + w + rest && Lower(w) == sep && rest != ""
    ensures Pieces(acc, s, sep, 0) == [acc] + Pieces("", rest[1..], sep, 0)
  {
    WindowIsTheWord(w, rest, sep);
    assert s[|sep| + 2..] == rest[1..];
  }

  lemma CarryWord(acc: string, w: string, rest: string, sep: string, s: string)
    requires Plain(w) && Ends(rest) && IsSep(sep) && s == " " + w + rest && !(Lower(w) == sep && rest != "")
    ensures Pieces(acc, s, sep, 0) == Pieces(acc + " " + w, rest, sep, 0)
  {
    WindowIsTheWord(w, rest, sep);
    assert s[1..] == w + rest && s[..1] == " ";
    SkipWord(acc + " ", w, rest, sep);
  }

  /** Words, each preceded by one space. */
  function Tail(ws: seq<string>): string {
    if ws == [] then "" else " " + ws[0] + Tail(ws[1..])
  }

  predicate AllPlain(ws: seq<string>) {
    forall i :: 0 <= i < |ws| ==> Plain(ws[i])
  }

  lemma TailEnds(ws: seq<string>, rest: string)
    requires Ends(rest)
    ensures Ends(Tail(ws) + rest)
  {
    if ws != [] {
      assert (Tail(ws) + rest)[0] == ' ';
    }
  }

  /** The pieces of a line of words: a separator word cuts unless it comes first in its piece or last in the line. */
  function Groups(acc: string, ws: seq<string>, sep: string): (r: seq<string>)
    ensures r != []
    decreases |ws|
  {
    if ws == [] then [acc]
    else if Lower(ws[0]) == sep && |ws| > 1 then [acc] + Groups(ws[1], ws[2..], sep)
    else Groups(acc + " " + ws[0], ws[1..], sep)
  }

  lemma WordAfterCut(w: string, ws: seq<string>, sep: string, rest: string)
    requires AllPlain([w] + ws) && IsSep(sep) && rest == " " + w + Tail(ws)
    ensures Pieces("", rest[1..], sep, 0) == Pieces(w, Tail(ws), sep, 0)
  {
    assert w in [w] + ws;
    assert rest[1..] == w + Tail(ws);
    SkipWord("", w, Tail(ws), sep);
    assert "" + w == w;
  }

  lemma {:induction false} PiecesAreGroups(acc: string, ws: seq<string>, sep: string)
    requires AllPlain(ws) && IsSep(sep)
    ensures Pieces(acc, Tail(ws), sep, 0) == Groups(acc, ws, sep)
    decreases |ws|
  {
    if ws != [] {
      TailEnds(ws[1..], "");
      assert Tail(ws[1..]) + "" == Tail(ws[1..]);
      if Lower(ws[0]) == sep && |ws| > 1 {
        CutAtWord(acc, ws[0], Tail(ws[1..]), sep, Tail(ws));
        WordAfterCut(ws[1], ws[2..], sep, Tail(ws[1..]));
        PiecesAreGroups(ws[1], ws[2..], sep);
      } else {
        CarryWord(acc, ws[0], Tail(ws[1..]), sep, Tail(ws));
        PiecesAreGroups(acc + " " + ws[0], ws[1..], sep);
      }
    }
  }

  /** A line without separator words goes through in one piece, whatever white space follows. */
  lemma {:induction false} PassWords(acc: string, ws: seq<string>, rest: string, sep: string, s: string, passed: string)
    requires AllPlain(ws) && IsSep(sep) && Ends(rest) && forall i :: 0 <= i < |ws| ==> Lower(ws[i]) != sep
    requires s == Tail(ws) + rest && passed == acc + Tail(ws)
    ensures Pieces(acc, s, sep, 0) == Pieces(passed, rest, sep, 0)
    decreases |ws|
  {
    if ws == [] {
      assert s == rest && passed == acc;
    } else {
      var s' := Tail(ws[1..]) + rest;
      TailEnds(ws[1..], rest);
      WordThenTail(acc, ws[0], Tail(ws[1..]), rest);
      CarryWord(acc, ws[0], s', sep, s);
      PassWords(acc + " " + ws[0], ws[1..], rest, sep, s', passed);
    }
  }

  lemma WordThenTail(acc: string, w: string, tail: string, rest: string)
    ensures " " + w + tail + rest == " " + w + (tail + rest)
    ensures acc + " " + w + tail == acc + (" " + w + tail)
  {
  }

  predicate NoParens(s: string) {
    forall i :: 0 <= i < |s| ==> s[i] != '(' && s[i] != ')'
  }

  lemma {:induction false} SkipInside(acc: string, body: string, rest: string, sep: string)
    requires NoParens(body)
    ensures Pieces(acc, body + rest, sep, 1) == Pieces(acc + body, rest, sep, 1)
    decreases |body|
  {
    if body == "" {
      assert body + rest == rest && acc + body == acc;
    } else {
      var s := body + rest;
      assert s[1..] == body[1..] + rest && s[..1] == body[..1];
      SkipInside(acc + body[..1], body[1..], rest, sep);
      assert acc + body[..1] + body[1..] == acc + body;
    }
  }

  /** A parenthesised text is never cut inside. */
  lemma SkipParenthesised(body: string, rest: string, sep: string)
    requires NoParens(body)
    ensures Pieces("", Parenthesised(body) + rest, sep, 0) == Pieces(Parenthesised(body), rest, sep, 0)
  {
    var s := Parenthesised(body) + rest;
    assert s[..1] == "(" && s[1..] == body + (")" + rest) && "" + "(" == "(";
    SkipInside("(", body, ")" + rest, sep);
    assert (")" + rest)[..1] == ")" && (")" + rest)[1..] == rest;
    assert "(" + body + ")" == Parenthesised(body);
  }

  // ---- the printed parts as lines of words ----

  predicate ValidPorts(ports: seq<nat>) {
    forall i :: 0 <= i < |ports| ==> IsPort(ports[i])
  }

  predicate ValidHosts(hosts: seq<string>) {
    forall i :: 0 <= i < |hosts| ==> IsHost(hosts[i])
  }

  predicate Valid(s: Structured) {
    ValidPorts(s.ports) && ValidHosts(s.hosts)
  }

  /** The words of the ports part after its first word "tcp". */
  function PortWords(ports: seq<nat>): seq<string>
    requires ports != []
  {
    if |ports| == 1 then ["port", Decimal(ports[0])]
    else ["port", Decimal(ports[0]), "or", "tcp"] + PortWords(ports[1..])
  }

  /** The words of the hosts part after its first word "host". */
  function HostWords(hosts: seq<string>): seq<string>
    requires hosts != []
  {
    if |hosts| == 1 then [hosts[0]] else [hosts[0], "or", "host"] + HostWords(hosts[1..])
  }

  lemma TailConcat(a: seq<string>, b: seq<string>)
    ensures Tail(a + b) == Tail(a) + Tail(b)
    decreases |a|
  {
    if a == [] {
      assert a + b == b;
    } else {
      TailConcat(a[1..], b);
      assert (a + b)[1..] == a[1..] + b;
    }
  }

  lemma TailOne(a: string)
    ensures Tail([a]) == " " + a
  {
    assert [a][1..] == [];
  }

  lemma TailTwo(a: string, b: string)
    ensures Tail([a, b]) == " " + a + " " + b
  {
    TailOne(b);
    assert [a, b][1..] == [b];
  }

  lemma TailFour(a: string, b: string, c: string, d: string)
    ensures Tail([a, b, c, d]) == " " + a + " " + b + " " + c + " " + d
  {
    TailTwo(a, b);
    TailTwo(c, d);
    TailConcat([a, b], [c, d]);
    assert [a, b, c, d] == [a, b] + [c, d];
  }

  lemma {:induction false} PortsLine(ports: seq<nat>)
    requires ports != []
    ensures JoinOr(PortTokens(ports)) == "tcp" + Tail(PortWords(ports))
    decreases |ports|
  {
    var d := Decimal(ports[0]);
    var ts := PortTokens(ports);
    if |ports| > 1 {
      PortsLine(ports[1..]);
      assert ts[1..] == PortTokens(ports[1..]);
      TailFour("port", d, "or", "tcp");
      TailConcat(["port", d, "or", "tcp"], PortWords(ports[1..]));
      PortJoin(d, Tail(PortWords(ports[1..])));
    } else {
      TailTwo("port", d);
    }
  }

  lemma PortJoin(d: string, rest: string)
    ensures "tcp port " + d + " or " + ("tcp" + rest) == "tcp" + (" " + "port" + " " + d + " " + "or" + " " + "tcp" + rest)
  {
  }

  lemma {:induction false} PortWordsArePlain(ports: seq<nat>)
    requires ports != []
    ensures forall w <- PortWords(ports) :: Plain(w) && Lower(w) != "and"
    decreases |ports|
  {
    DigitsArePlain(Decimal(ports[0]));
    FixedWords();
    if |ports| > 1 {
      PortWordsArePlain(ports[1..]);
    }
  }

  lemma FixedWords()
    ensures forall w <- ["port", "or", "tcp", "host"] :: Plain(w) && Lower(w) != "and"
    ensures Lower("port") != "or" && Lower("tcp") != "or" && Lower("host") != "or" && Lower("or") == "or"
  {
    assert Lower("port")[0] == 'p' && Lower("or")[0] == 'o' && Lower("tcp")[0] == 't' && Lower("host")[0] == 'h';
  }

  lemma DigitsArePlain(d: string)
    requires d != "" && AllDigits(d)
    ensures Plain(d) && Lower(d) != "and" && Lower(d) != "or"
  {
    assert Lower(d)[0] == d[0];
  }

  lemma {:induction false} HostsLine(hosts: seq<string>)
    requires hosts != []
    ensures JoinOr(HostTokens(hosts)) == "host" + Tail(HostWords(hosts))
    decreases |hosts|
  {
    TailOne(hosts[0]);
    var ts := HostTokens(hosts);
    assert ts[0] == "host" + Tail([hosts[0]]);
    if |hosts| > 1 {
      HostsLine(hosts[1..]);
      assert ts[1..] == HostTokens(hosts[1..]);
      TailTwo("or", "host");
      TailConcat([hosts[0]], ["or", "host"]);
      TailConcat([hosts[0], "or", "host"], HostWords(hosts[1..]));
      assert [hosts[0], "or", "host"] == [hosts[0]] + ["or", "host"];
    }
  }

  lemma {:induction false} HostWordsArePlain(hosts: seq<string>)
    requires hosts != [] && ValidHosts(hosts)
    ensures AllPlain(HostWords(hosts))
    decreases |hosts|
  {
    FixedWords();
    if |hosts| > 1 {
      HostWordsArePlain(hosts[1..]);
    }
  }

  // ---- how the lines split ----

  /** `Groups` starting with a given first word, over the words after it. */
  lemma {:induction false} PortGroups(ports: seq<nat>)
    requires ports != []
    ensures Groups("tcp", PortWords(ports), "or") == PortTokens(ports)
    decreases |ports|
  {
    var d := Decimal(ports[0]);
    var ws := PortWords(ports);
    FixedWords();
    DigitsArePlain(d);
    assert ws[0] == "port" && ws[1..][0] == d;
    assert "tcp" + " " + "port" + " " + d == PortToken(ports[0]);
    if |ports| > 1 {
      var more := ws[2..];
      assert ws[1..][1..] == more && more[0] == "or" && more[1] == "tcp" && more[2..] == PortWords(ports[1..]);
      assert Groups("tcp", ws, "or") == Groups(PortToken(ports[0]), more, "or");
      PortGroups(ports[1..]);
      assert PortTokens(ports) == [PortToken(ports[0])] + PortTokens(ports[1..]);
    } else {
      assert ws[1..][1..] == [];
    }
  }

  /** Some host before the last is the word `sep`, in any case. */
  predicate Mistaken(hosts: seq<string>, sep: string) {
    exists i :: 0 <= i < |hosts| - 1 && Lower(hosts[i]) == sep
  }

  lemma MistakenTail(hosts: seq<string>, sep: string)
    requires |hosts| > 1
    ensures Mistaken(hosts, sep) <==> Lower(hosts[0]) == sep || Mistaken(hosts[1..], sep)
  {
    if Mistaken(hosts[1..], sep) {
      var i :| 0 <= i < |hosts[1..]| - 1 && Lower(hosts[1..][i]) == sep;
      assert Lower(hosts[i + 1]) == sep;
    }
    if Mistaken(hosts, sep) && Lower(hosts[0]) != sep {
      var i :| 0 <= i < |hosts| - 1 && Lower(hosts[i]) == sep;
      assert hosts[1..][i - 1] == hosts[i];
    }
  }

  lemma {:induction false} HostGroups(hosts: seq<string>)
    requires hosts != []
    ensures !Mistaken(hosts, "or") ==> Groups("host", HostWords(hosts), "or") == HostTokens(hosts)
    ensures Mistaken(hosts, "or") ==> "host" in Groups("host", HostWords(hosts), "or")
    decreases |hosts|
  {
    var ws := HostWords(hosts);
    FixedWords();
    assert "host" + " " + hosts[0] == HostToken(hosts[0]);
    if |hosts| > 1 {
      MistakenTail(hosts, "or");
      if Lower(hosts[0]) != "or" {
        var more := ws[1..];
        assert more[0] == "or" && more[1] == "host" && more[2..] == HostWords(hosts[1..]);
        assert Groups("host", ws, "or") == [HostToken(hosts[0])] + Groups("host", HostWords(hosts[1..]), "or");
        HostGroups(hosts[1..]);
        assert HostTokens(hosts) == [HostToken(hosts[0])] + HostTokens(hosts[1..]);
      }
    } else {
      assert ws[1..] == [];
    }
  }

  /** The words after the first "host" when the line breaks off before a host. */
  function OpenWords(hosts: seq<string>): seq<string> {
    if hosts == [] then [] else [hosts[0], "or", "host"] + OpenWords(hosts[1..])
  }

  lemma {:induction false} OpenLineHasABareHost(hosts: seq<string>)
    ensures "host" in Groups("host", OpenWords(hosts), "or")
    decreases |hosts|
  {
    FixedWords();
    if hosts != [] && Lower(hosts[0]) != "or" {
      var ws := OpenWords(hosts);
      var more := ws[1..];
      assert more[0] == "or" && more[1] == "host" && more[2..] == OpenWords(hosts[1..]);
      OpenLineHasABareHost(hosts[1..]);
    }
  }

  /** Words that are no separators are carried along. */
  lemma {:induction false} CarryWords(acc: string, a: seq<string>, ws: seq<string>, sep: string)
    requires forall i :: 0 <= i < |a| ==> Lower(a[i]) != sep
    ensures Groups(acc, a + ws, sep) == Groups(acc + Tail(a), ws, sep)
    decreases |a|
  {
    if a == [] {
      assert a + ws == ws && acc + Tail(a) == acc;
    } else {
      assert (a + ws)[0] == a[0] && (a + ws)[1..] == a[1..] + ws;
      CarryWords(acc + " " + a[0], a[1..], ws, sep);
      assert acc + " " + a[0] + Tail(a[1..]) == acc + Tail(a);
    }
  }

  lemma TailJoin(acc: string, a: seq<string>, b: seq<string>)
    ensures acc + Tail(a) + Tail(b) == acc + Tail(a + b)
  {
    TailConcat(a, b);
  }

  lemma OpenPrefix(acc: string, hosts: seq<string>, k: nat)
    requires 1 <= k <= |hosts|
    ensures acc + Tail([hosts[0], "or", "host"]) + Tail(OpenWords(hosts[1..][..k - 1])) == acc + Tail(OpenWords(hosts[..k]))
  {
    assert hosts[..k][1..] == hosts[1..][..k - 1];
    TailJoin(acc, [hosts[0], "or", "host"], OpenWords(hosts[1..][..k - 1]));
  }

  /** Without a mistaken "and" the hosts line stays whole; with one, its first part breaks off before a host. */
  lemma {:induction false} AndSplitsHosts(acc: string, hosts: seq<string>) returns (k: nat)
    requires hosts != []
    ensures !Mistaken(hosts, "and") ==> Groups(acc, HostWords(hosts), "and") == [acc + Tail(HostWords(hosts))]
    ensures Mistaken(hosts, "and") ==>
              k < |hosts| && Groups(acc, HostWords(hosts), "and")[0] == acc + Tail(OpenWords(hosts[..k]))
    decreases |hosts|
  {
    k := 0;
    var ws := HostWords(hosts);
    FixedWords();
    if |hosts| > 1 {
      MistakenTail(hosts, "and");
      if Lower(hosts[0]) == "and" {
        assert Tail(OpenWords(hosts[..0])) == "";
      } else {
        var head := [hosts[0], "or", "host"];
        assert ws == head + HostWords(hosts[1..]);
        CarryWords(acc, head, HostWords(hosts[1..]), "and");
        var k' := AndSplitsHosts(acc + Tail(head), hosts[1..]);
        if Mistaken(hosts, "and") {
          k := k' + 1;
          OpenPrefix(acc, hosts, k);
        } else {
          TailJoin(acc, head, HostWords(hosts[1..]));
        }
      }
    } else {
      assert ws[1..] == [];
      TailOne(hosts[0]);
      assert acc + " " + hosts[0] == acc + (" " + hosts[0]);
    }
  }

  // ---- tokens ----

  lemma DigitsStart(d: string)
    requires d != "" && AllDigits(d)
    ensures TrimStart(" " + d) == d
  {
    assert (" " + d)[1..] == d;
  }

  /** A printed port token reads back as its port. */
  lemma PortTokenReads(p: nat)
    requires IsPort(p)
    ensures MatchPort(PortToken(p)) == Some(p)
  {
    var d := Decimal(p);
    var t := PortToken(p);
    var u := "port " + d;
    assert t[..3] == "tcp" && Lower(t[..3]) == "tcp" && t[3..] == " " + u;
    assert (" " + u)[1..] == u && TrimStart(t[3..]) == u;
    assert u[..4] == "port" && Lower(u[..4]) == "port" && u[4..] == " " + d;
    DigitsStart(d);
    assert Pow10(5) == 1000 * Pow10(2);
    DecimalFits(p, 5);
    NumberOfDecimal(p);
  }

  /** A printed host token is no port token, and reads back as its host. */
  lemma HostTokenReads(h: string)
    requires IsHost(h)
    ensures MatchPort(HostToken(h)) == None && MatchHost(HostToken(h)) == Some(h)
  {
    var t := HostToken(h);
    assert t[..4] == "host" && Lower(t[..4]) == "host" && t[4..] == " " + h;
    assert (" " + h)[1..] == h && TrimStart(t[4..]) == h;
    assert Lower(t[..3])[0] == 'h' && Lower(t[..4])[0] == 'h';
  }

  lemma BareHostReadsAsNothing()
    ensures MatchPort("host") == None && MatchHost("host") == None
  {
  }

  lemma {:induction false} PortTokensScan(ports: seq<nat>, f: Found)
    requires ValidPorts(ports) && f.kind != Hosts
    ensures ScanTokens(PortTokens(ports), f)
         == Some(Found(if ports == [] then f.kind else Ports, f.ports + ports, f.hosts))
    decreases |ports|
  {
    if ports != [] {
      var ts := PortTokens(ports);
      PortTokenReads(ports[0]);
      assert ts[1..] == PortTokens(ports[1..]);
      PortTokensScan(ports[1..], Found(Ports, f.ports + [ports[0]], f.hosts));
      assert f.ports + [ports[0]] + ports[1..] == f.ports + ports;
    } else {
      assert f.ports + ports == f.ports;
    }
  }

  lemma {:induction false} HostTokensScan(hosts: seq<string>, f: Found)
    requires ValidHosts(hosts) && f.kind != Ports
    ensures ScanTokens(HostTokens(hosts), f)
         == Some(Found(if hosts == [] then f.kind else Hosts, f.ports, f.hosts + hosts))
    decreases |hosts|
  {
    if hosts != [] {
      var ts := HostTokens(hosts);
      HostTokenReads(hosts[0]);
      assert ts[1..] == HostTokens(hosts[1..]);
      HostTokensScan(hosts[1..], Found(Hosts, f.ports, f.hosts + [hosts[0]]));
      assert f.hosts + [hosts[0]] + hosts[1..] == f.hosts + hosts;
    } else {
      assert f.hosts + hosts == f.hosts;
    }
  }

  lemma {:induction false} BareHostFails(tokens: seq<string>, f: Found)
    requires "host" in tokens
    ensures ScanTokens(tokens, f) == None
    decreases |tokens|
  {
    if tokens[0] == "host" {
      BareHostReadsAsNothing();
    } else {
      assert "host" in tokens[1..];
      match MatchPort(tokens[0]) {
        case Some(p) => BareHostFails(tokens[1..], Found(Ports, f.ports + [p], f.hosts));
        case None =>
          match MatchHost(tokens[0]) {
            case Some(h) => BareHostFails(tokens[1..], Found(Hosts, f.ports, f.hosts + [h]));
            case None =>
          }
      }
    }
  }

  // ---- trimming of lines ----

  predicate Solid(t: string) {
    t != "" && Trimmed(t)
  }

  lemma {:induction false} SolidSurvive(ps: seq<string>)
    requires forall i :: 0 <= i < |ps| ==> Solid(ps[i])
    ensures TrimmedNonEmpty(ps) == ps
    decreases |ps|
  {
    if ps != [] {
      TrimOfTrimmed(ps[0]);
      SolidSurvive(ps[1..]);
      assert ps == [ps[0]] + ps[1..];
    }
  }

  lemma {:induction false} SolidMemberSurvives(ps: seq<string>, t: string)
    requires t in ps && Solid(t)
    ensures t in TrimmedNonEmpty(ps)
    ensures ps[0] == t ==> TrimmedNonEmpty(ps)[0] == t
    decreases |ps|
  {
    TrimOfTrimmed(t);
    if ps[0] != t {
      assert t in ps[1..];
      SolidMemberSurvives(ps[1..], t);
    }
  }

  lemma {:induction false} LineIsSolid(w: string, ws: seq<string>)
    requires Plain(w) && AllPlain(ws)
    ensures Solid(w + Tail(ws)) && NoParens(w + Tail(ws)) && (w + Tail(ws))[0] == w[0]
    ensures !IsSpace((w + Tail(ws))[|w + Tail(ws)| - 1])
    decreases |ws|
  {
    if ws == [] {
      assert w + Tail(ws) == w;
    } else {
      LineIsSolid(ws[0], ws[1..]);
      assert w + Tail(ws) == w + " " + (ws[0] + Tail(ws[1..]));
    }
  }

  lemma ParenthesisedIsSolid(t: string)
    ensures Solid(Parenthesised(t))
  {
  }

  /** The outer parentheses come off a parenthesised line, and nothing comes off a bare one. */
  lemma StripLine(t: string)
    requires Solid(t) && NoParens(t)
    ensures Strip(t) == t && Strip(Parenthesised(t)) == t
    ensures Trim(t) == t && Trim(Parenthesised(t)) == Parenthesised(t)
  {
    var s := Parenthesised(t);
    ParenthesisedIsSolid(t);
    TrimOfTrimmed(t);
    TrimOfTrimmed(s);
    assert s[1..|s| - 1] == t;
    forall i | 0 <= i < |s| - 1 ensures s[i] != ')' {
      assert i == 0 || s[i] == t[i - 1];
    }
  }

  // ---- clauses ----

  predicate IsFormOf(part: string, line: string) {
    part == line || part == Parenthesised(line)
  }

  lemma ClauseTokens(part: string, w: string, ws: seq<string>)
    requires Plain(w) && AllPlain(ws) && IsFormOf(part, w + Tail(ws))
    ensures Tokens(part) == TrimmedNonEmpty(Groups(w, ws, "or"))
  {
    var line := w + Tail(ws);
    LineIsSolid(w, ws);
    StripLine(line);
    assert Strip(Trim(part)) == line;
    SkipWord("", w, Tail(ws), "or");
    assert "" + w == w;
    PiecesAreGroups(w, ws, "or");
  }

  /** The ports part, with or without parentheses, splits into its port tokens. */
  lemma PortClause(ports: seq<nat>, part: string)
    requires ports != [] && IsFormOf(part, JoinOr(PortTokens(ports)))
    ensures Tokens(part) == PortTokens(ports)
  {
    var ws := PortWords(ports);
    PortsLine(ports);
    PortWordsArePlain(ports);
    FixedWords();
    assert AllPlain(ws);
    ClauseTokens(part, "tcp", ws);
    PortGroups(ports);
    PortTokensAreSolid(ports);
    SolidSurvive(PortTokens(ports));
  }

  lemma PortTokensAreSolid(ports: seq<nat>)
    ensures forall i :: 0 <= i < |ports| ==> Solid(PortTokens(ports)[i])
  {
    forall i | 0 <= i < |ports| ensures Solid(PortTokens(ports)[i]) {
      var t := PortToken(ports[i]);
      assert t[|t| - 1] == Decimal(ports[i])[|Decimal(ports[i])| - 1];
    }
  }

  /** The hosts part splits into its host tokens, unless a host before the last is the word "or". */
  lemma HostClause(hosts: seq<string>, part: string)
    requires hosts != [] && ValidHosts(hosts) && IsFormOf(part, JoinOr(HostTokens(hosts)))
    ensures !Mistaken(hosts, "or") ==> Tokens(part) == HostTokens(hosts)
    ensures Mistaken(hosts, "or") ==> "host" in Tokens(part)
  {
    var ws := HostWords(hosts);
    HostsLine(hosts);
    HostWordsArePlain(hosts);
    FixedWords();
    ClauseTokens(part, "host", ws);
    HostGroups(hosts);
    if Mistaken(hosts, "or") {
      SolidMemberSurvives(Groups("host", ws, "or"), "host");
    } else {
      forall i | 0 <= i < |hosts| ensures Solid(HostTokens(hosts)[i]) {
        var t := HostToken(hosts[i]);
        assert t[|t| - 1] == hosts[i][|hosts[i]| - 1];
      }
      SolidSurvive(HostTokens(hosts));
    }
  }

  /** A hosts line that breaks off before a host has a bare "host" among its tokens. */
  lemma OpenClause(hosts: seq<string>)
    requires ValidHosts(hosts)
    ensures "host" in Tokens("host" + Tail(OpenWords(hosts)))
  {
    OpenWordsArePlain(hosts);
    FixedWords();
    ClauseTokens("host" + Tail(OpenWords(hosts)), "host", OpenWords(hosts));
    OpenLineHasABareHost(hosts);
    SolidMemberSurvives(Groups("host", OpenWords(hosts), "or"), "host");
  }

  lemma {:induction false} OpenWordsArePlain(hosts: seq<string>)
    requires ValidHosts(hosts)
    ensures AllPlain(OpenWords(hosts))
    decreases |hosts|
  {
    FixedWords();
    if hosts != [] {
      OpenWordsArePlain(hosts[1..]);
    }
  }

  // ---- the "and" level ----

  lemma PortsPass(ports: seq<nat>, rest: string, line: string)
    requires ports != [] && Ends(rest) && line == JoinOr(PortTokens(ports))
    ensures Pieces("", line + rest, "and", 0) == Pieces(line, rest, "and", 0)
  {
    var ws := PortWords(ports);
    PortsLine(ports);
    PortWordsArePlain(ports);
    LinePasses("tcp", ws, rest);
  }

  lemma LinePasses(w: string, ws: seq<string>, rest: string)
    requires Plain(w) && AllPlain(ws) && Ends(rest) && forall i :: 0 <= i < |ws| ==> Lower(ws[i]) != "and"
    ensures Pieces("", w + Tail(ws) + rest, "and", 0) == Pieces(w + Tail(ws), rest, "and", 0)
  {
    FirstWordFirst(w, Tail(ws), rest);
    SkipFirstWord(w, Tail(ws) + rest, w + (Tail(ws) + rest));
    PassWords(w, ws, rest, "and", Tail(ws) + rest, w + Tail(ws));
  }

  lemma FirstWordFirst(w: string, t: string, rest: string)
    ensures w + t + rest == w + (t + rest)
  {
  }

  lemma SkipFirstWord(w: string, rest: string, s: string)
    requires Plain(w) && s == w + rest
    ensures Pieces("", s, "and", 0) == Pieces(w, rest, "and", 0)
  {
    SkipWord("", w, rest, "and");
    assert "" + w == w;
  }

  lemma PortsAreSolid(ports: seq<nat>)
    requires ports != []
    ensures var line := JoinOr(PortTokens(ports));
            Solid(line) && NoParens(line)
  {
    PortsLine(ports);
    PortWordsArePlain(ports);
    FixedWords();
    LineIsSolid("tcp", PortWords(ports));
  }

  lemma HostsAreSolid(hosts: seq<string>)
    requires hosts != [] && ValidHosts(hosts)
    ensures var line := JoinOr(HostTokens(hosts));
            Solid(line) && NoParens(line)
  {
    HostsLine(hosts);
    HostWordsArePlain(hosts);
    FixedWords();
    LineIsSolid("host", HostWords(hosts));
  }

  /** A filter of ports alone is one part. */
  lemma PortsAlone(ports: seq<nat>)
    requires ports != []
    ensures var line := JoinOr(PortTokens(ports));
            Trim(line) == line && Split(line, "and") == [line]
  {
    var line := JoinOr(PortTokens(ports));
    PortsAreSolid(ports);
    TrimOfTrimmed(line);
    PortsPass(ports, "", line);
    assert line + "" == line;
    SolidSurvive([line]);
  }

  lemma HostPieces(hosts: seq<string>)
    requires hosts != [] && ValidHosts(hosts)
    ensures Pieces("", JoinOr(HostTokens(hosts)), "and", 0) == Groups("host", HostWords(hosts), "and")
  {
    HostsLine(hosts);
    HostWordsArePlain(hosts);
    FixedWords();
    SkipWord("", "host", Tail(HostWords(hosts)), "and");
    assert "" + "host" == "host";
    PiecesAreGroups("host", HostWords(hosts), "and");
  }

  /** A filter of hosts alone is one part, unless a host before the last is the word "and": then the first part is open. */
  lemma HostsAlone(hosts: seq<string>)
    requires hosts != [] && ValidHosts(hosts)
    ensures var line := JoinOr(HostTokens(hosts));
            && Trim(line) == line
            && (!Mistaken(hosts, "and") ==> Split(line, "and") == [line])
            && (Mistaken(hosts, "and") ==> Split(line, "and") != [] && "host" in Tokens(Split(line, "and")[0]))
  {
    var line := JoinOr(HostTokens(hosts));
    HostsAreSolid(hosts);
    TrimOfTrimmed(line);
    HostPieces(hosts);
    HostsLine(hosts);
    var k := AndSplitsHosts("host", hosts);
    if Mistaken(hosts, "and") {
      var first := "host" + Tail(OpenWords(hosts[..k]));
      OpenWordsArePlain(hosts[..k]);
      FixedWords();
      LineIsSolid("host", OpenWords(hosts[..k]));
      SolidMemberSurvives(Groups("host", HostWords(hosts), "and"), first);
      OpenClause(hosts[..k]);
    } else {
      SolidSurvive([line]);
    }
  }

  function PortPart(ports: seq<nat>): string {
    var line := JoinOr(PortTokens(ports));
    if |ports| > 1 then Parenthesised(line) else line
  }

  function HostPart(hosts: seq<string>): string {
    var line := JoinOr(HostTokens(hosts));
    if |hosts| > 1 then Parenthesised(line) else line
  }

  lemma PortPartPasses(ports: seq<nat>, rest: string)
    requires ports != [] && Ends(rest)
    ensures Pieces("", PortPart(ports) + rest, "and", 0) == Pieces(PortPart(ports), rest, "and", 0)
    ensures Solid(PortPart(ports))
  {
    PortsAreSolid(ports);
    if |ports| > 1 {
      SkipParenthesised(JoinOr(PortTokens(ports)), rest, "and");
    } else {
      PortsPass(ports, rest, PortPart(ports));
    }
  }

  lemma HostPartIsOnePiece(hosts: seq<string>)
    requires hosts != [] && ValidHosts(hosts)
    ensures Pieces("", HostPart(hosts), "and", 0) == [HostPart(hosts)]
    ensures Solid(HostPart(hosts))
  {
    HostsAreSolid(hosts);
    var line := JoinOr(HostTokens(hosts));
    if |hosts| > 1 {
      SkipParenthesised(line, "", "and");
      assert Parenthesised(line) + "" == Parenthesised(line);
    } else {
      HostPieces(hosts);
      HostsLine(hosts);
      var k := AndSplitsHosts("host", hosts);
    }
  }

  lemma CutAtAnd(lp: string, lh: string, s: string)
    requires s == lp + " and " + lh
    ensures s == lp + (" and " + lh)
    ensures Pieces(lp, " and " + lh, "and", 0) == [lp] + Pieces("", lh, "and", 0)
  {
    AndIsPlain();
    assert " and " + lh == " " + "and" + (" " + lh);
    CutBeforeSpace(lp, "and", lh, " and " + lh);
  }

  lemma AndIsPlain()
    ensures Lower("and") == "and" && Plain("and")
  {
  }

  lemma CutBeforeSpace(acc: string, w: string, rest: string, s: string)
    requires Plain(w) && IsSep(w) && Lower(w) == w && s == " " + w + (" " + rest)
    ensures Pieces(acc, s, w, 0) == [acc] + Pieces("", rest, w, 0)
  {
    CutAtWord(acc, w, " " + rest, w, s);
    assert (" " + rest)[1..] == rest;
  }

  /** A filter of ports and hosts is the two parts. */
  lemma PortsAndHosts(ports: seq<nat>, hosts: seq<string>)
    requires ports != [] && hosts != [] && ValidHosts(hosts)
    ensures var s := PortPart(ports) + " and " + HostPart(hosts);
            Trim(s) == s && s != "" && Split(s, "and") == [PortPart(ports), HostPart(hosts)]
  {
    var lp, lh := PortPart(ports), HostPart(hosts);
    var s := lp + " and " + lh;
    PortPartPasses(ports, " and " + lh);
    HostPartIsOnePiece(hosts);
    CutAtAnd(lp, lh, s);
    SolidSurvive([lp, lh]);
    assert s[0] == lp[0] && s[|s| - 1] == lh[|lh| - 1];
    TrimOfTrimmed(s);
  }

  // ---- the theorem ----

  /**
   The printed filter can be read back: no host before the last is the word "or", nor, when no ports part puts the hosts
   into parentheses, the word "and" (in any case).
   */
  predicate Readable(s: Structured) {
    !Mistaken(s.hosts, "or") && (s.ports == [] ==> !Mistaken(s.hosts, "and"))
  }

  lemma ParseIsScan(s: string, parts: seq<string>)
    requires Trim(s) == s != "" && Split(s, "and") == parts && 1 <= |parts| <= 2
    ensures Parse(Some(s)) == match ScanParts(parts, false, false, [], [])
                              case None => None
                              case Some(r) => Some(Normal(r))
  {
  }

  lemma ScanLast(part: string, tokens: seq<string>, sawPorts: bool, ports: seq<nat>, hosts: seq<string>)
    requires Tokens(part) == tokens != []
    ensures ScanParts([part], sawPorts, false, ports, hosts)
         == match ScanTokens(tokens, Found(Unknown, ports, hosts))
            case None => None
            case Some(f) => if f.kind == Ports && sawPorts then None else Some(Structured(f.ports, f.hosts))
  {
    assert [part][1..] == [];
  }

  lemma ScanFirst(p: string, q: string, tokens: seq<string>, f: Found)
    requires Tokens(p) == tokens != []
    requires ScanTokens(tokens, Found(Unknown, [], [])) == Some(f) && f.kind == Ports
    ensures ScanParts([p, q], false, false, [], []) == ScanParts([q], true, false, f.ports, f.hosts)
  {
    assert [p, q][1..] == [q];
  }

  lemma ParseOnePart(s: string, part: string, tokens: seq<string>)
    requires Trim(s) == s != "" && Split(s, "and") == [part] && Tokens(part) == tokens != []
    ensures Parse(Some(s)) == match ScanTokens(tokens, Found(Unknown, [], []))
                              case None => None
                              case Some(f) => Some(Normal(Structured(f.ports, f.hosts)))
  {
    ParseIsScan(s, [part]);
    ScanLast(part, tokens, false, [], []);
  }

  lemma ParseTwoParts(s: string, p: string, q: string, f: Found, tokens: seq<string>)
    requires Trim(s) == s != "" && Split(s, "and") == [p, q] && Tokens(p) != []
    requires ScanTokens(Tokens(p), Found(Unknown, [], [])) == Some(f) && f.kind == Ports
    requires Tokens(q) == tokens != []
    ensures Parse(Some(s)) == match ScanTokens(tokens, Found(Unknown, f.ports, f.hosts))
                              case None => None
                              case Some(g) => if g.kind == Ports then None else Some(Normal(Structured(g.ports, g.hosts)))
  {
    ParseIsScan(s, [p, q]);
    ScanFirst(p, q, Tokens(p), f);
    ScanLast(q, tokens, true, f.ports, f.hosts);
  }

  lemma ParseFails(s: string, parts: seq<string>)
    requires Trim(s) == s != "" && Split(s, "and") == parts != [] && "host" in Tokens(parts[0])
    ensures Parse(Some(s)) == None
  {
    BareHostFails(Tokens(parts[0]), Found(Unknown, [], []));
  }

  lemma ReadPorts(ports: seq<nat>, line: string)
    requires ports != [] && ValidPorts(ports) && line == JoinOr(PortTokens(ports))
    ensures Parse(Some(line)) == Some(Normal(Structured(ports, [])))
  {
    PortsAreSolid(ports);
    PortsAlone(ports);
    PortClause(ports, line);
    ParseOnePart(line, line, PortTokens(ports));
    PortTokensScan(ports, Found(Unknown, [], []));
    assert [] + ports == ports;
  }

  lemma ReadHosts(hosts: seq<string>, line: string)
    requires hosts != [] && ValidHosts(hosts) && line == JoinOr(HostTokens(hosts))
    ensures Parse(Some(line))
         == if Mistaken(hosts, "or") || Mistaken(hosts, "and") then None else Some(Normal(Structured([], hosts)))
  {
    HostsAreSolid(hosts);
    HostsAlone(hosts);
    HostClause(hosts, line);
    if Mistaken(hosts, "and") || Mistaken(hosts, "or") {
      ParseFails(line, Split(line, "and"));
    } else {
      ParseOnePart(line, line, HostTokens(hosts));
      HostTokensScan(hosts, Found(Unknown, [], []));
      assert [] + hosts == hosts;
    }
  }

  lemma ReadBoth(ports: seq<nat>, hosts: seq<string>, lp: string, lh: string)
    requires ports != [] && hosts != [] && ValidPorts(ports) && ValidHosts(hosts)
    requires lp == PortPart(ports) && lh == HostPart(hosts)
    ensures Parse(Some(lp + " and " + lh))
         == if Mistaken(hosts, "or") then None else Some(Normal(Structured(ports, hosts)))
  {
    PortsAndHosts(ports, hosts);
    PortClause(ports, lp);
    HostClause(hosts, lh);
    PortTokensScan(ports, Found(Unknown, [], []));
    ParseTwoParts(lp + " and " + lh, lp, lh, Found(Ports, [] + ports, []), Tokens(lh));
    HostTokensAfterPorts(ports, hosts, Tokens(lh));
  }

  lemma HostTokensAfterPorts(ports: seq<nat>, hosts: seq<string>, tokens: seq<string>)
    requires hosts != [] && ValidHosts(hosts)
    requires if Mistaken(hosts, "or") then "host" in tokens else tokens == HostTokens(hosts)
    ensures ScanTokens(tokens, Found(Unknown, [] + ports, []))
         == if Mistaken(hosts, "or") then None else Some(Found(Hosts, ports, hosts))
  {
    assert [] + ports == ports && [] + hosts == hosts;
    if Mistaken(hosts, "or") {
      BareHostFails(tokens, Found(Unknown, ports, []));
    } else {
      HostTokensScan(hosts, Found(Unknown, ports, []));
    }
  }

  /**
   Reading back what was printed gives the normal form - ports sorted and distinct, hosts distinct in first-occurrence
   order - exactly for the readable filters, and nothing for the others.
   */
  lemma PrintThenParse(s: Structured)
    requires Valid(s)
    ensures Parse(Some(SynthBpf(s))) == if Readable(s) then Some(Normal(s)) else None
  {
    if s.ports == [] && s.hosts == [] {
      assert SynthBpf(s) == "";
    } else if s.hosts == [] {
      PortsAreSolid(s.ports);
      ReadPorts(s.ports, SynthBpf(s));
    } else if s.ports == [] {
      HostsAreSolid(s.hosts);
      ReadHosts(s.hosts, SynthBpf(s));
    } else {
      PortsAreSolid(s.ports);
      HostsAreSolid(s.hosts);
      ReadBoth(s.ports, s.hosts, PortPart(s.ports), HostPart(s.hosts));
    }
  }

  lemma FirstOfTwo(first: string, second: string, sep: string)
    ensures Mistaken([first, second], sep) <==> Lower(first) == sep
  {
    var hosts := [first, second];
    if Lower(first) == sep {
      assert Lower(hosts[0]) == sep;
    }
  }

  /**
   The inputs that break the round trip: a host spelled "or" before another is lost with any ports, a host spelled "and"
   only without ports, which would put the hosts into parentheses.
   */
  lemma SeparatorsAsHosts(ports: seq<nat>, word: string, host: string)
    requires ValidPorts(ports) && IsHost(word) && IsHost(host) && (Lower(word) == "or" || Lower(word) == "and")
    ensures var s := Structured(ports, [word, host]);
            && Valid(s)
            && (Readable(s) <==> Lower(word) == "and" && ports != [])
            && Parse(Some(SynthBpf(s))) == if Lower(word) == "and" && ports != [] then Some(Normal(s)) else None
  {
    var s := Structured(ports, [word, host]);
    FirstOfTwo(word, host, "or");
    FirstOfTwo(word, host, "and");
    PrintThenParse(s);
  }

  /** Both words are host tokens. */
  lemma SeparatorsAreHosts()
    ensures IsHost("or") && Lower("or") == "or" && IsHost("and") && Lower("and") == "and"
  {
  }

  lemma JoinedTwo(x: string, y: string)
    ensures JoinOr([x, y]) == x + " or " + y && JoinOr([x]) == x
  {
    assert [x, y][1..] == [y];
  }

  /** The printed texts of up to two ports and hosts, word for word. */
  lemma PrintedTexts(p: nat, q: nat, a: string, b: string)
    ensures var ports, hosts := "tcp port " + Decimal(p) + " or " + ("tcp port " + Decimal(q)), "host " + a + " or " + ("host " + b);
            && SynthBpf(Structured([p, q], [a, b])) == "(" + ports + ")" + " and " + ("(" + hosts + ")")
            && SynthBpf(Structured([p, q], [])) == ports && SynthBpf(Structured([], [a, b])) == hosts
    ensures SynthBpf(Structured([p], [a])) == "tcp port " + Decimal(p) + " and " + ("host " + a)
    ensures SynthBpf(Structured([], [])) == ""
  {
    assert PortTokens([p, q]) == [PortToken(p), PortToken(q)] && PortTokens([p]) == [PortToken(p)];
    assert HostTokens([a, b]) == [HostToken(a), HostToken(b)] && HostTokens([a]) == [HostToken(a)];
    assert PortTokens([]) == [] && HostTokens([]) == [];
    JoinedTwo(PortToken(p), PortToken(q));
    JoinedTwo(HostToken(a), HostToken(b));
  }

  // ---- accepted filters ----

  lemma {:induction false} ScannedIsValid(tokens: seq<string>, f: Found)
    requires ValidPorts(f.ports) && ValidHosts(f.hosts) && ScanTokens(tokens, f).Some?
    ensures ValidPorts(ScanTokens(tokens, f).value.ports) && ValidHosts(ScanTokens(tokens, f).value.hosts)
    decreases |tokens|
  {
    if tokens != [] {
      match MatchPort(tokens[0]) {
        case Some(p) => ScannedIsValid(tokens[1..], Found(Ports, f.ports + [p], f.hosts));
        case None => ScannedIsValid(tokens[1..], Found(Hosts, f.ports, f.hosts + [MatchHost(tokens[0]).value]));
      }
    }
  }

  lemma {:induction false} PartsAreValid(parts: seq<string>, a: bool, b: bool, ports: seq<nat>, hosts: seq<string>)
    requires ValidPorts(ports) && ValidHosts(hosts) && ScanParts(parts, a, b, ports, hosts).Some?
    ensures Valid(ScanParts(parts, a, b, ports, hosts).value)
    decreases |parts|
  {
    if parts != [] {
      ScannedIsValid(Tokens(parts[0]), Found(Unknown, ports, hosts));
      var f := ScanTokens(Tokens(parts[0]), Found(Unknown, ports, hosts)).value;
      PartsAreValid(parts[1..], a || f.kind == Ports, b || f.kind == Hosts, f.ports, f.hosts);
    }
  }

  predicate StrictlyAscending(xs: seq<nat>) {
    forall i, j :: 0 <= i < j < |xs| ==> xs[i] < xs[j]
  }

  predicate AllDifferent(xs: seq<string>) {
    forall i, j :: 0 <= i < j < |xs| ==> xs[i] != xs[j]
  }

  lemma NatOrder()
    ensures Orders((a: nat, b: nat) => a <= b)
  {
  }

  lemma {:induction false} SortKeepsDistinct(xs: seq<nat>)
    requires forall i, j :: 0 <= i < j < |xs| ==> xs[i] != xs[j]
    ensures StrictlyAscending(Ascend(xs)) && forall x :: x in Ascend(xs) <==> x in xs
  {
    NatOrder();
    var r := Ascend(xs);
    SortAscending((a: nat, b: nat) => a <= b, xs);
    SortMembers((a: nat, b: nat) => a <= b, xs);
    forall i, j | 0 <= i < j < |r| ensures r[i] < r[j] {
      if r[i] == r[j] {
        TwiceInASequence(r, i, j);
        OnceEach(xs, r[i]);
      }
    }
  }

  lemma TwiceInASequence(r: seq<nat>, i: nat, j: nat)
    requires i < j < |r| && r[i] == r[j]
    ensures multiset(r)[r[i]] >= 2
  {
    assert r == r[..j] + [r[j]] + r[j + 1..];
    assert r[i] in r[..j];
  }

  lemma {:induction false} OnceEach(xs: seq<nat>, x: nat)
    requires forall i, j :: 0 <= i < j < |xs| ==> xs[i] != xs[j]
    ensures multiset(xs)[x] <= 1
    decreases |xs|
  {
    if xs != [] {
      var init, last := xs[..|xs| - 1], xs[|xs| - 1];
      assert xs == init + [last];
      OnceEach(init, x);
      if x == last {
        assert forall i :: 0 <= i < |init| ==> init[i] == xs[i] != last;
        assert x !in init;
      }
    }
  }

  /** The normal form is sorted and free of repetitions, keeps the same ports and hosts, and is its own normal form. */
  lemma NormalForm(s: Structured)
    ensures var n := Normal(s);
            && StrictlyAscending(n.ports) && AllDifferent(n.hosts)
            && (forall p :: p in n.ports <==> p in s.ports) && (forall h :: h in n.hosts <==> h in s.hosts)
            && Normal(n) == n
  {
    var n := Normal(s);
    SortKeepsDistinct(Distinct(s.ports));
    DistinctOfDifferent(n.ports);
    DistinctOfDifferent(n.hosts);
    SortOfAscending((a: nat, b: nat) => a <= b, n.ports);
  }

  /** Whatever the parser accepts has valid ports and hosts, in normal form. */
  lemma AcceptedIsNormal(raw: Option<string>)
    requires Parse(raw).Some?
    ensures var r := Parse(raw).value;
            Valid(r) && Normal(r) == r
  {
    if raw.Some? && Trim(raw.value) != "" {
      var parts := Split(Trim(raw.value), "and");
      PartsAreValid(parts, false, false, [], []);
      var s := ScanParts(parts, false, false, [], []).value;
      NormalForm(s);
      var n := Normal(s);
      forall i | 0 <= i < |n.ports| ensures IsPort(n.ports[i]) {
        assert n.ports[i] in s.ports;
      }
      forall i | 0 <= i < |n.hosts| ensures IsHost(n.hosts[i]) {
        assert n.hosts[i] in s.hosts;
      }
    } else {
      NormalForm(Structured([], []));
      assert Normal(Structured([], [])) == Structured([], []);
    }
  }

  lemma AcceptedPortsAreInRange(raw: Option<string>)
    ensures Parse(raw).Some? ==> forall i :: 0 <= i < |Parse(raw).value.ports| ==> 1 <= Parse(raw).value.ports[i] <= 65_535
  {
    if Parse(raw).Some? {
      AcceptedIsNormal(raw);
      var ports := Parse(raw).value.ports;
      assert forall i :: 0 <= i < |ports| ==> IsPort(ports[i]);
    }
  }

  /** Every port from 1 to 65535, and no other number, is printed as a filter that reads back as that port. */
  lemma PortsReadBack(p: nat)
    ensures Parse(Some(SynthBpf(Structured([p], [])))) == Some(Structured([p], [])) <==> 1 <= p <= 65_535
  {
    var s := Structured([p], []);
    AcceptedPortsAreInRange(Some(SynthBpf(s)));
    assert s.ports[0] == p;
    if 1 <= p <= 65_535 {
      PrintThenParse(s);
      DistinctOfDifferent(s.ports);
      DistinctOfDifferent(s.hosts);
      SortOfAscending((x: nat, y: nat) => x <= y, s.ports);
    }
  }

  /** Any accepted raw filter re-reads as itself after printing, exactly when what was read is readable. */
  lemma AcceptedFiltersAreStable(raw: Option<string>)
    requires Parse(raw).Some?
    ensures var r := Parse(raw).value;
            Parse(Some(SynthBpf(r))) == if Readable(r) then Some(r) else None
  {
    AcceptedIsNormal(raw);
    PrintThenParse(Parse(raw).value);
  }
}
