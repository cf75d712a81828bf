/**
 A stable sort by a comparison and the removal of repetitions, standing for the source's library sorts and sets.
 */
module Sorting {
  function Insert<T>(le: (T, T) -> bool, x: T, s: seq<T>): (r: seq<T>)
    ensures |r| == |s| + 1 && multiset(r) == multiset(s) + multiset{x}
  {
    if s == [] then [x]
    else if le(x, s[0]) then [x] + s
    else
      assert s == [s[0]] + s[1..];
      [s[0]] + Insert(le, x, s[1..])
  }

  function SortBy<T>(le: (T, T) -> bool, s: seq<T>): (r: seq<T>)
    ensures |r| == |s| && multiset(r) == multiset(s)
  {
    if s == [] then []
    else
      assert s == [s[0]] + s[1..];
      Insert(le, s[0], SortBy(le, s[1..]))
  }

  ghost predicate Orders<T(!new)>(le: (T, T) -> bool) {
    && (forall x, y :: le(x, y) || le(y, x))
    && (forall x, y, z :: le(x, y) && le(y, z) ==> le(x, z))
  }

  ghost predicate Ascending<T>(le: (T, T) -> bool, s: seq<T>) {
    forall i, j :: 0 <= i < j < |s| ==> le(s[i], s[j])
  }

  lemma {:induction false} InsertAscending<T(!new)>(le: (T, T) -> bool, x: T, s: seq<T>)
    requires Orders(le) && Ascending(le, s)
    ensures Ascending(le, Insert(le, x, s))
  {
    if s != [] && !le(x, s[0]) {
      InsertAscending(le, x, s[1..]);
      var r := Insert(le, x, s[1..]);
      forall y | y in r ensures le(s[0], y) {
        assert y in multiset(r);
        if y != x {
          assert y in s[1..];
        }
      }
    }
  }

  lemma {:induction false} SortAscending<T(!new)>(le: (T, T) -> bool, s: seq<T>)
    requires Orders(le)
    ensures Ascending(le, SortBy(le, s))
  {
    if s != [] {
      SortAscending(le, s[1..]);
      InsertAscending(le, s[0], SortBy(le, s[1..]));
    }
  }

  lemma SortMembers<T>(le: (T, T) -> bool, s: seq<T>)
    ensures forall x :: x in SortBy(le, s) <==> x in s
  {
    assert forall x :: x in SortBy(le, s) <==> x in multiset(SortBy(le, s));
    assert forall x :: x in s <==> x in multiset(s);
  }

  /** Sorting a list that is already ascending changes nothing. */
  lemma {:induction false} SortOfAscending<T>(le: (T, T) -> bool, s: seq<T>)
    requires Ascending(le, s)
    ensures SortBy(le, s) == s
  {
    if s != [] {
      SortOfAscending(le, s[1..]);
      assert |s| > 1 ==> le(s[0], s[1]);
      assert s == [s[0]] + s[1..];
    }
  }

  /** The elements of a set, in some order. */
  ghost function Elements<T(!new)>(s: set<T>): (r: seq<T>)
    ensures forall x :: x in r <==> x in s
    ensures forall i, j :: 0 <= i < j < |r| ==> r[i] != r[j]
  {
    if s == {} then []
    else
      var x :| x in s;
      [x] + Elements(s - {x})
  }

  /** First occurrences, in order: a JavaScript Set built from the list. */
  function Distinct<T(==,!new)>(xs: seq<T>): (r: seq<T>)
    ensures forall x :: x in r <==> x in xs
    ensures forall i, j :: 0 <= i < j < |r| ==> r[i] != r[j]
  {
    if xs == [] then []
    else
      var init := Distinct(xs[..|xs| - 1]);
      var last := xs[|xs| - 1];
      assert forall x :: x in xs <==> x in xs[..|xs| - 1] || x == last;
      if last in init then init else init + [last]
  }

  /** The kept occurrences are the first ones: each value is met in `xs` before any value listed after it. */
  lemma {:induction false} DistinctInOrder<T(!new)>(xs: seq<T>)
    ensures var r := Distinct(xs);
            forall i, j, b :: 0 <= i < j < |r| && 0 <= b < |xs| && xs[b] == r[j] ==> exists a :: 0 <= a < b && xs[a] == r[i]
    decreases |xs|
  {
    if xs != [] {
      var n := |xs| - 1;
      var init, last := xs[..n], xs[n];
      DistinctInOrder(init);
      var was, r := Distinct(init), Distinct(xs);
      forall i, j, b | 0 <= i < j < |r| && 0 <= b < |xs| && xs[b] == r[j]
        ensures exists a :: 0 <= a < b && xs[a] == r[i]
      {
        EarlierMention(init, last, was, r, i, j, b);
      }
    }
  }

  lemma EarlierMention<T(!new)>(init: seq<T>, last: T, was: seq<T>, r: seq<T>, i: nat, j: nat, b: nat)
    requires was == Distinct(init) && r == (if last in was then was else was + [last])
    requires forall i, j, b :: 0 <= i < j < |was| && 0 <= b < |init| && init[b] == was[j]
               ==> exists a :: 0 <= a < b && init[a] == was[i]
    requires i < j < |r| && b <= |init| && (init + [last])[b] == r[j]
    ensures exists a :: 0 <= a < b && (init + [last])[a] == r[i]
  {
    assert r[i] == was[i] && was[i] in was;
    if j < |was| && b < |init| {
      assert init[b] == was[j];
      var a :| 0 <= a < b && init[a] == was[i];
      assert (init + [last])[a] == r[i];
    } else {
      var a :| 0 <= a < |init| && init[a] == was[i];
      assert (init + [last])[a] == r[i];
      if b < |init| {
        NotMentioned(init, last, b);
      }
    }
  }

  lemma NotMentioned<T(!new)>(init: seq<T>, last: T, b: nat)
    requires last !in Distinct(init) && b < |init|
    ensures init[b] != last
  {
    assert init[b] in init;
  }

  lemma DistinctSnoc<T(!new)>(xs: seq<T>, x: T)
    ensures Distinct(xs + [x]) == if x in Distinct(xs) then Distinct(xs) else Distinct(xs) + [x]
  {
    assert (xs + [x])[..|xs|] == xs;
  }

  lemma {:induction false} DistinctOfDifferent<T(!new)>(xs: seq<T>)
    requires forall i, j :: 0 <= i < j < |xs| ==> xs[i] != xs[j]
    ensures Distinct(xs) == xs
    decreases |xs|
  {
    if xs != [] {
      var init := xs[..|xs| - 1];
      DistinctOfDifferent(init);
      assert xs == init + [xs[|xs| - 1]];
      assert forall i :: 0 <= i < |init| ==> init[i] == xs[i] != xs[|xs| - 1];
    }
  }
}
