/**
 What trimming, stripping and splitting do to a filter text, stated on the text: blank ends, one enclosing pair of
 parentheses, and the first separators outside parentheses.
 */
module BpfPieces {
  import opened BpfFilter

  predicate AllSpace(s: string) {
    forall i :: 0 <= i < |s| ==> IsSpace(s[i])
  }

  // ---- trim ----

  lemma {:induction false} TrimEndSplits(s: string) returns (gap: string)
    ensures s == TrimEnd(s) + gap && AllSpace(gap)
  {
    gap := "";
    if s != "" && IsSpace(s[|s| - 1]) {
      var init, last := s[..|s| - 1], s[|s| - 1..];
      var before := TrimEndSplits(init);
      gap := before + last;
      assert s == init + last;
    }
  }

  lemma {:induction false} TrimEndKeepsFront(s: string)
    ensures TrimEnd(s) != "" ==> TrimEnd(s)[0] == s[0]
  {
    if s != "" && IsSpace(s[|s| - 1]) {
      TrimEndKeepsFront(s[..|s| - 1]);
    }
  }

  /** Trimming takes white space off both ends and leaves none there. */
  lemma TrimTakesTheEnds(s: string) returns (before: string, after: string)
    ensures s == before + Trim(s) + after && AllSpace(before) && AllSpace(after) && Trimmed(Trim(s))
  {
    before := TrimSplits(s);
    after := TrimEndSplits(TrimStart(s));
    TrimEndKeepsFront(TrimStart(s));
  }

  // ---- parentheses ----

  /** More opening than closing parentheses, counted with multiplicity. */
  function Depth(s: string): int {
    multiset(s)['('] as int - multiset(s)[')'] as int
  }

  lemma DepthSnoc(s: string, n: nat)
    requires n < |s|
    ensures Depth(s[..n + 1]) == Depth(s[..n]) + (if s[n] == '(' then 1 else if s[n] == ')' then -1 else 0)
  {
    assert s[..n + 1] == s[..n] + [s[n]];
  }

  lemma {:induction false} DepthIs(s: string, n: nat)
    requires n <= |s|
    ensures DepthAfter(s, n) == Depth(s[..n])
    decreases n
  {
    if n > 0 {
      DepthIs(s, n - 1);
      DepthSnoc(s, n - 1);
    } else {
      assert s[..0] == "";
    }
  }

  /** No prefix closes more than it opens: a parenthesis before the text would still be open at its end. */
  ghost predicate KeepsOpen(inner: string) {
    forall n :: 0 <= n <= |inner| ==> Depth(inner[..n]) >= 0
  }

  lemma InnerDepth(s: string, inner: string, n: nat)
    requires s == "(" + inner + ")" && n <= |inner|
    ensures DepthAfter(s, n + 1) == 1 + Depth(inner[..n])
  {
    DepthIs(s, n + 1);
    assert s[..n + 1] == "(" + inner[..n];
  }

  lemma {:induction false} FirstFall(inner: string, n: nat) returns (k: nat)
    requires 1 <= n <= |inner| && Depth(inner[..n]) < 0
    ensures k < n && Depth(inner[..k + 1]) == -1 && inner[k] == ')'
    decreases n
  {
    assert inner[..0] == "";
    DepthSnoc(inner, n - 1);
    k := n - 1;
    if Depth(inner[..n - 1]) < 0 {
      k := FirstFall(inner, n - 1);
    }
  }

  lemma ClosesEarlyIs(s: string, inner: string)
    requires s == "(" + inner + ")"
    ensures ClosesEarly(s) <==> !KeepsOpen(inner)
  {
    if ClosesEarly(s) {
      var i :| 0 <= i < |s| - 1 && s[i] == ')' && DepthAfter(s, i + 1) == 0;
      InnerDepth(s, inner, i);
    }
    if !KeepsOpen(inner) {
      var n :| 0 <= n <= |inner| && Depth(inner[..n]) < 0;
      assert inner[..0] == "";
      var k := FirstFall(inner, n);
      InnerDepth(s, inner, k + 1);
      assert s[k + 1] == inner[k];
    }
  }

  /** A text loses a pair of parentheses exactly when the pair encloses the whole text; it is then trimmed. */
  lemma StripsTheEnclosingPair(s: string, inner: string)
    ensures s == "(" + inner + ")" ==> Strip(s) == if KeepsOpen(inner) then Trim(inner) else s
    ensures (forall t :: s != "(" + t + ")") ==> Strip(s) == s
  {
    if s == "(" + inner + ")" {
      ClosesEarlyIs(s, inner);
      assert s[1..|s| - 1] == inner;
    }
    if |s| >= 2 && s[0] == '(' && s[|s| - 1] == ')' {
      assert s == "(" + s[1..|s| - 1] + ")";
    }
  }

  // ---- cuts ----

  /** A separator with white space around it stands at i, outside all parentheses. */
  predicate CutAt(s: string, sep: string, i: nat) {
    WindowAt(s, sep, i) && Depth(s[..i]) == 0
  }

  ghost predicate NoCut(s: string, sep: string, from: nat, to: nat) {
    forall i :: from <= i < to ==> !CutAt(s, sep, i)
  }

  /** The cuts from `start` on: each is the first possible one behind the one before, and none is left out. */
  ghost predicate FirstCuts(s: string, sep: string, start: nat, cuts: seq<nat>)
    decreases |cuts|
  {
    if cuts == [] then NoCut(s, sep, start, |s|)
    else
      && start <= cuts[0] && CutAt(s, sep, cuts[0]) && NoCut(s, sep, start, cuts[0])
      && FirstCuts(s, sep, cuts[0] + |sep| + 2, cuts[1..])
  }

  /** The text between the cuts. */
  function Between(s: string, sep: string, start: nat, cuts: seq<nat>): seq<string>
    decreases |cuts|
  {
    if cuts == [] then [if start <= |s| then s[start..] else ""]
    else
      [if start <= cuts[0] <= |s| then s[start..cuts[0]] else ""]
        + Between(s, sep, cuts[0] + |sep| + 2, cuts[1..])
  }

  lemma WindowHasNoParens(s: string, sep: string, i: nat)
    requires WindowAt(s, sep, i) && (sep == "and" || sep == "or")
    ensures Depth(s[..i + |sep| + 2]) == Depth(s[..i]) && s[i] != '(' && s[i] != ')'
  {
    WindowInk(s, sep, i);
    var n := i;
    while n < i + |sep| + 2
      invariant i <= n <= i + |sep| + 2 && Depth(s[..n]) == Depth(s[..i])
    {
      DepthSnoc(s, n);
      n := n + 1;
    }
  }

  lemma WindowInk(s: string, sep: string, i: nat)
    requires WindowAt(s, sep, i) && (sep == "and" || sep == "or")
    ensures forall n :: i <= n < i + |sep| + 2 ==> s[n] != '(' && s[n] != ')'
  {
    var w := s[i + 1..i + |sep| + 1];
    assert forall k :: 0 <= k < |sep| ==> s[i + 1 + k] == w[k] && LowerChar(w[k]) == Lower(w)[k] == sep[k];
    forall n | i <= n < i + |sep| + 2 ensures s[n] != '(' && s[n] != ')' {
      assert n == i || n == i + |sep| + 1 || s[n] == s[i + 1 + (n - i - 1)];
    }
  }

  lemma WindowIs(s: string, sep: string, i: nat)
    requires i < |s|
    ensures IsWindow(s[i..], sep) <==> WindowAt(s, sep, i)
  {
    if i + |sep| + 2 <= |s| {
      assert s[i..][1..|sep| + 1] == s[i + 1..i + |sep| + 1];
    }
  }

  /** The pieces still to come where the scan stands at i and the current piece began at `start`. */
  ghost function PiecesFrom(s: string, sep: string, start: nat, i: nat): seq<string>
    requires start <= i <= |s|
  {
    Pieces(s[start..i], s[i..], sep, Depth(s[..i]))
  }

  lemma CutPieces(acc: string, rest: string, sep: string, tail: string)
    requires IsWindow(rest, sep) && rest[0] != '(' && rest[0] != ')' && tail == rest[|sep| + 2..]
    ensures Pieces(acc, rest, sep, 0) == [acc] + Pieces("", tail, sep, 0)
  {
  }

  lemma CutHere(s: string, sep: string, start: nat, i: nat, next: nat)
    requires start <= i && CutAt(s, sep, i) && next == i + |sep| + 2 && (sep == "and" || sep == "or")
    ensures PiecesFrom(s, sep, start, i) == [s[start..i]] + PiecesFrom(s, sep, next, next)
  {
    WindowHasNoParens(s, sep, i);
    WindowIs(s, sep, i);
    CutPieces(s[start..i], s[i..], sep, s[next..]);
    assert s[next..next] == "";
  }

  lemma CarryPieces(acc: string, rest: string, sep: string, depth: int, after: int)
    requires rest != "" && !(depth == 0 && IsWindow(rest, sep))
    requires after == depth + (if rest[0] == '(' then 1 else if rest[0] == ')' then -1 else 0)
    ensures Pieces(acc, rest, sep, depth) == Pieces(acc + rest[..1], rest[1..], sep, after)
  {
  }

  lemma CarryOn(s: string, sep: string, start: nat, i: nat)
    requires start <= i < |s| && !CutAt(s, sep, i)
    ensures PiecesFrom(s, sep, start, i) == PiecesFrom(s, sep, start, i + 1)
  {
    WindowIs(s, sep, i);
    DepthSnoc(s, i);
    CarryPieces(s[start..i], s[i..], sep, Depth(s[..i]), Depth(s[..i + 1]));
    assert s[start..i] + s[i..][..1] == s[start..i + 1] && s[i..][1..] == s[i + 1..];
  }

  lemma NoneLeft(s: string, sep: string, start: nat)
    requires start <= |s|
    ensures PiecesFrom(s, sep, start, |s|) == [s[start..]]
  {
    assert s[start..|s|] == s[start..] && s[|s|..] == "";
  }

  lemma ConsCuts(s: string, sep: string, start: nat, cuts: seq<nat>, rest: seq<nat>, next: nat)
    requires cuts != [] && start <= cuts[0] && cuts[1..] == rest && next == cuts[0] + |sep| + 2
    requires CutAt(s, sep, cuts[0]) && NoCut(s, sep, start, cuts[0]) && FirstCuts(s, sep, next, rest)
    ensures FirstCuts(s, sep, start, cuts)
  {
  }

  lemma ConsBetween(s: string, sep: string, start: nat, cuts: seq<nat>, rest: seq<nat>, next: nat, pieces: seq<string>)
    requires cuts != [] && start <= cuts[0] <= |s| && cuts[1..] == rest && next == cuts[0] + |sep| + 2
    requires pieces == Between(s, sep, next, rest)
    ensures Between(s, sep, start, cuts) == [s[start..cuts[0]]] + pieces
  {
  }

  /** What a scan that stands at i, in a piece that began at `start`, has still to find. */
  ghost predicate CutsAre(s: string, sep: string, start: nat, i: nat, cuts: seq<nat>)
    requires start <= i <= |s|
  {
    FirstCuts(s, sep, start, cuts) && PiecesFrom(s, sep, start, i) == Between(s, sep, start, cuts)
  }

  lemma LastPiece(s: string, sep: string, start: nat)
    requires start <= |s| && NoCut(s, sep, start, |s|)
    ensures CutsAre(s, sep, start, |s|, [])
  {
    NoneLeft(s, sep, start);
  }

  lemma CutFound(s: string, sep: string, start: nat, i: nat, next: nat, rest: seq<nat>, cuts: seq<nat>)
    requires start <= i && CutAt(s, sep, i) && next == i + |sep| + 2 && (sep == "and" || sep == "or")
    requires NoCut(s, sep, start, i) && CutsAre(s, sep, next, next, rest)
    requires cuts != [] && cuts[0] == i && cuts[1..] == rest
    ensures CutsAre(s, sep, start, i, cuts)
  {
    CutHere(s, sep, start, i, next);
    ConsCuts(s, sep, start, cuts, rest, next);
    ConsBetween(s, sep, start, cuts, rest, next, Between(s, sep, next, rest));
  }

  lemma NoCutMore(s: string, sep: string, start: nat, i: nat)
    requires NoCut(s, sep, start, i) && !CutAt(s, sep, i)
    ensures NoCut(s, sep, start, i + 1)
  {
  }

  lemma {:induction false} ScanCuts(s: string, sep: string, start: nat, i: nat) returns (cuts: seq<nat>)
    requires start <= i <= |s| && NoCut(s, sep, start, i) && (sep == "and" || sep == "or")
    ensures CutsAre(s, sep, start, i, cuts)
    decreases |s| - i
  {
    if i == |s| {
      cuts := [];
      LastPiece(s, sep, start);
    } else if CutAt(s, sep, i) {
      var next := i + |sep| + 2;
      var rest := ScanCuts(s, sep, next, next);
      cuts := [i] + rest;
      CutFound(s, sep, start, i, next, rest, cuts);
    } else {
      NoCutMore(s, sep, start, i);
      cuts := ScanCuts(s, sep, start, i + 1);
      CarryOn(s, sep, start, i);
    }
  }

  /** The text is cut at the first separators outside parentheses, and there only. */
  lemma CutsAtTheFirstSeparators(s: string, sep: string) returns (cuts: seq<nat>)
    requires sep == "and" || sep == "or"
    ensures FirstCuts(s, sep, 0, cuts) && Split(s, sep) == TrimmedNonEmpty(Between(s, sep, 0, cuts))
  {
    assert s[0..0] == "" && s[0..] == s && s[..0] == "";
    cuts := ScanCuts(s, sep, 0, 0);
  }
}
