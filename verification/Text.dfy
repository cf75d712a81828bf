/**
 Decimal numerals, zero padding and the character-wise order of strings.
 */
module Text {
  predicate IsDigit(c: char) {
    '0' <= c <= '9'
  }

  predicate AllDigits(s: string) {
    forall i :: 0 <= i < |s| ==> IsDigit(s[i])
  }

  function Digit(n: nat): (c: char)
    requires n < 10
    ensures IsDigit(c) && DigitValue(c) == n
  {
    n as char + '0'
  }

  function DigitValue(c: char): (n: nat)
    requires IsDigit(c)
    ensures n < 10
  {
    c as int - '0' as int
  }

  /** The decimal numeral of n, without leading zeros. */
  function Decimal(n: nat): (s: string)
    ensures s != "" && AllDigits(s)
  {
    if n < 10 then [Digit(n)] else Decimal(n / 10) + [Digit(n % 10)]
  }

  /** The number a string of digits stands for. */
  function Number(s: string): nat
    requires AllDigits(s)
  {
    if s == "" then 0 else Number(s[..|s| - 1]) * 10 + DigitValue(s[|s| - 1])
  }

  lemma {:induction false} NumberOfDecimal(n: nat)
    ensures Number(Decimal(n)) == n
  {
    if n >= 10 {
      NumberOfDecimal(n / 10);
      assert Decimal(n)[..|Decimal(n)| - 1] == Decimal(n / 10);
    } else {
      assert Decimal(n)[..0] == "";
    }
  }

  /** Decimal numerals of different numbers differ. */
  lemma DecimalInjective(a: nat, b: nat)
    requires Decimal(a) == Decimal(b)
    ensures a == b
  {
    NumberOfDecimal(a);
    NumberOfDecimal(b);
  }

  function Repeat(c: char, n: nat): (s: string)
    ensures |s| == n && forall i :: 0 <= i < n ==> s[i] == c
  {
    seq(n, i => c)
  }

  function Fill(s: string, width: nat): string {
    if |s| < width then Repeat('0', width - |s|) + s else s
  }

  /** Rust's `{:0width}`: the sign counts toward the width, longer numbers are not cut. */
  function Padded(n: int, width: nat): string {
    if n >= 0 then Fill(Decimal(n), width)
    else "-" + Fill(Decimal(-n), if width > 0 then width - 1 else 0)
  }

  function Pow10(w: nat): (p: nat)
    ensures p >= 1
  {
    if w == 0 then 1 else 10 * Pow10(w - 1)
  }

  lemma {:induction false} NumberBound(s: string)
    requires AllDigits(s)
    ensures Number(s) < Pow10(|s|)
  {
    if s != "" {
      NumberBound(s[..|s| - 1]);
    }
  }

  lemma {:induction false} DecimalFits(n: nat, w: nat)
    requires 1 <= w
    ensures |Decimal(n)| <= w <==> n < Pow10(w)
    decreases w
  {
    if w == 1 {
      assert Pow10(0) == 1;
    } else if n >= 10 {
      DecimalFits(n / 10, w - 1);
    }
  }

  lemma {:induction false} LeadingZeros(z: string, s: string)
    requires AllDigits(s) && forall i :: 0 <= i < |z| ==> z[i] == '0'
    ensures AllDigits(z + s) && Number(z + s) == Number(s)
    decreases |z| + |s|
  {
    if s != "" {
      LeadingZeros(z, s[..|s| - 1]);
      assert (z + s)[..|z + s| - 1] == z + s[..|s| - 1];
    } else if z != "" {
      LeadingZeros(z[..|z| - 1], s);
      assert (z + s)[..|z + s| - 1] == z[..|z| - 1] + s;
    }
  }

  lemma FillKeepsNumber(s: string, w: nat)
    requires AllDigits(s)
    ensures AllDigits(Fill(s, w)) && Number(Fill(s, w)) == Number(s)
  {
    if |s| < w {
      LeadingZeros(Repeat('0', w - |s|), s);
    }
  }

  /** A number that fits the width is printed in exactly that many digits, which stand for it. */
  lemma PaddedDigits(n: nat, w: nat)
    requires 1 <= w && n < Pow10(w)
    ensures |Padded(n, w)| == w && AllDigits(Padded(n, w)) && Number(Padded(n, w)) == n
  {
    DecimalFits(n, w);
    FillKeepsNumber(Decimal(n), w);
    NumberOfDecimal(n);
  }

  /** A string of digits is the padded numeral of its number. */
  lemma PaddedOfNumber(s: string)
    requires s != "" && AllDigits(s)
    ensures Padded(Number(s), |s|) == s
  {
    NumberBound(s);
    PaddedDigits(Number(s), |s|);
    LexIsNumeric(Padded(Number(s), |s|), s);
  }

  lemma TwoDigits(n: nat)
    requires n < 100
    ensures |Padded(n, 2)| == 2 && AllDigits(Padded(n, 2)) && Number(Padded(n, 2)) == n
  {
    assert Pow10(2) == 100;
    PaddedDigits(n, 2);
  }

  lemma FourDigits(n: nat)
    requires n < 10_000
    ensures |Padded(n, 4)| == 4 && AllDigits(Padded(n, 4)) && Number(Padded(n, 4)) == n
  {
    assert Pow10(4) == 100 * Pow10(2);
    PaddedDigits(n, 4);
  }

  // ---- taking concatenations apart ----

  lemma SuffixSplit(a: string, x: string, b: string, y: string)
    requires a + x == b + y && |x| == |y|
    ensures a == b && x == y
  {
    assert |a| == |b|;
    assert a == (a + x)[..|a|] && b == (b + y)[..|b|];
    assert x == (a + x)[|a|..] && y == (b + y)[|b|..];
  }

  lemma MarkComesLater(a: string, x: string, b: string, y: string, mark: char)
    requires |a| < |b| && mark !in b
    ensures a + [mark] + x != b + [mark] + y
  {
    assert (a + [mark] + x)[|a|] == mark;
    assert (b + [mark] + y)[|a|] == b[|a|];
  }

  /** A string is cut in only one way at the first occurrence of a character. */
  lemma FirstMark(a: string, x: string, b: string, y: string, mark: char)
    requires a + [mark] + x == b + [mark] + y && mark !in a && mark !in b
    ensures a == b && x == y
  {
    if |a| < |b| {
      MarkComesLater(a, x, b, y, mark);
    } else if |b| < |a| {
      MarkComesLater(b, y, a, x, mark);
    } else {
      assert a + ([mark] + x) == a + [mark] + x && b + ([mark] + y) == b + [mark] + y;
      SuffixSplit(a, [mark] + x, b, [mark] + y);
      assert ([mark] + x)[1..] == x && ([mark] + y)[1..] == y;
    }
  }

  lemma MarkComesEarlier(a: string, x: string, b: string, y: string, mark: char)
    requires |x| < |y| && mark !in y
    ensures a + [mark] + x != b + [mark] + y
  {
    var s, t := a + [mark] + x, b + [mark] + y;
    if |s| == |t| {
      assert s[|a|] == mark;
      assert t[|a|] == y[|a| - |b| - 1];
    }
  }

  /** And in only one way at the last occurrence. */
  lemma LastMark(a: string, x: string, b: string, y: string, mark: char)
    requires a + [mark] + x == b + [mark] + y && mark !in x && mark !in y
    ensures a == b && x == y
  {
    if |x| < |y| {
      MarkComesEarlier(a, x, b, y, mark);
    } else if |y| < |x| {
      MarkComesEarlier(b, y, a, x, mark);
    } else {
      SuffixSplit(a + [mark], x, b + [mark], y);
      SuffixSplit(a, [mark], b, [mark]);
    }
  }

  // ---- order ----

  /**
   The character-wise order of strings (`<` on strings in both source languages, for ASCII text). Paths are not
   compared this way: their components are.
   */
  predicate LexLess(a: string, b: string) {
    if b == "" then false
    else if a == "" then true
    else a[0] < b[0] || (a[0] == b[0] && LexLess(a[1..], b[1..]))
  }

  lemma {:induction false} LexTotal(a: string, b: string)
    ensures !(LexLess(a, b) && LexLess(b, a)) && !LexLess(a, a)
    ensures a == b || LexLess(a, b) || LexLess(b, a)
    decreases |a|
  {
    if a != "" {
      LexTotal(a[1..], if b == "" then "" else b[1..]);
      if b != "" && a[0] == b[0] && a[1..] == b[1..] {
        assert a == [a[0]] + a[1..] && b == [b[0]] + b[1..];
      }
    }
  }

  lemma {:induction false} LexTransitive(a: string, b: string, c: string)
    requires LexLess(a, b) && LexLess(b, c)
    ensures LexLess(a, c)
    decreases |a|
  {
    if a != "" && b != "" && c != "" && a[0] == b[0] == c[0] {
      LexTransitive(a[1..], b[1..], c[1..]);
    }
  }

  lemma {:induction false} LexConcat(a: string, b: string, x: string, y: string)
    requires |a| == |b|
    ensures LexLess(a + x, b + y) <==> LexLess(a, b) || (a == b && LexLess(x, y))
  {
    if a == "" {
      assert a + x == x && b + y == y;
    } else {
      LexConcat(a[1..], b[1..], x, y);
      assert (a + x)[1..] == a[1..] + x && (b + y)[1..] == b[1..] + y;
      assert a == [a[0]] + a[1..] && b == [b[0]] + b[1..];
    }
  }

  lemma {:induction false} LexIsNumeric(a: string, b: string)
    requires |a| == |b| && AllDigits(a) && AllDigits(b)
    ensures LexLess(a, b) <==> Number(a) < Number(b)
    ensures a == b <==> Number(a) == Number(b)
  {
    if a != "" {
      var n := |a| - 1;
      LexIsNumeric(a[..n], b[..n]);
      assert a == a[..n] + [a[n]] && b == b[..n] + [b[n]];
      LexConcat(a[..n], b[..n], [a[n]], [b[n]]);
      assert [a[n]][1..] == "" && [b[n]][1..] == "";
    }
  }
}
