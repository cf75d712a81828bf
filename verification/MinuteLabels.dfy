/**
 Minute labels such as 20260501T1530 (`minute_label`, `parse_minute_label` of server/h-capture/src/pcap_dump.rs).
 */
module MinuteLabels {
  import opened Wrappers
  import opened Text
  import opened Calendar

  datatype Civil = Civil(date: Date, h: nat, mi: nat)

  /** The civil minute of a minute key; Dafny's division is the source's `div_euclid`. */
  function CivilOf(key: int): (c: Civil)
    ensures c.h < 24 && c.mi < 60
  {
    var totalSecs := key * 60;
    var days := totalSecs / 86_400;
    var rem := totalSecs % 86_400;
    Civil(DaysToYmd(days), rem / 3600, rem % 3600 / 60)
  }

  function Label(c: Civil): string {
    Padded(c.date.y, 4) + Padded(c.date.m, 2) + Padded(c.date.d, 2) + "T" + Padded(c.h, 2) + Padded(c.mi, 2)
  }

  function MinuteLabel(key: int): string {
    Label(CivilOf(key))
  }

  function ParseMinuteLabel(s: string): Option<int> {
    if |s| != 13 || s[8] != 'T' then None
    else if !AllDigits(s[..8]) || !AllDigits(s[9..]) then None
    else
      assert forall i :: 0 <= i < 8 ==> s[i] == s[..8][i];
      assert forall i :: 9 <= i < 13 ==> s[i] == s[9..][i - 9];
      var y, mo, d := Number(s[0..4]), Number(s[4..6]), Number(s[6..8]);
      var h, mi := Number(s[9..11]), Number(s[11..13]);
      if !(1 <= mo <= 12) || !(1 <= d <= 31) || h > 23 || mi > 59 then None
      else
        var days := YmdToDays(y, mo, d);
        if DaysToYmd(days) != Date(y, mo, d) then None
        else Some(days * 1440 + h * 60 + mi)
  }

  /** Labels have room for four-digit years only. */
  predicate Labelable(key: int) {
    0 <= CivilOf(key).date.y < 10_000
  }

  lemma CivilParts(key: int)
    ensures CivilOf(key) == Civil(DaysToYmd(key / 1440), key % 1440 / 60, key % 60)
    ensures key == key / 1440 * 1440 + CivilOf(key).h * 60 + CivilOf(key).mi
  {
    var days, rem := key / 1440, key % 1440;
    DivMod(key * 60, 86_400, days, rem * 60);
    DivMod(rem * 60, 3600, rem / 60, rem % 60 * 60);
    DivMod(rem % 60 * 60, 60, rem % 60, 0);
    DivMod(key, 60, days * 24 + rem / 60, rem % 60);
  }

  lemma KeyDate(key: int)
    ensures ValidDate(CivilOf(key).date)
  {
    CivilParts(key);
    DaysRoundTrip(key / 1440);
  }

  /** The fields of a label, as the parser slices them. */
  lemma LabelFields(c: Civil)
    requires 0 <= c.date.y < 10_000 && ValidDate(c.date) && c.h < 24 && c.mi < 60
    ensures var s := Label(c);
            && |s| == 13 && s[8] == 'T' && AllDigits(s[..8]) && AllDigits(s[9..])
            && s[0..4] == Padded(c.date.y, 4) && s[4..6] == Padded(c.date.m, 2) && s[6..8] == Padded(c.date.d, 2)
            && s[9..11] == Padded(c.h, 2) && s[11..13] == Padded(c.mi, 2)
  {
    FourDigits(c.date.y);
    TwoDigits(c.date.m);
    TwoDigits(c.date.d);
    TwoDigits(c.h);
    TwoDigits(c.mi);
    var y, m, d, h, mi := Padded(c.date.y, 4), Padded(c.date.m, 2), Padded(c.date.d, 2), Padded(c.h, 2), Padded(c.mi, 2);
    var s := Label(c);
    assert s[..8] == y + m + d && s[9..] == h + mi;
  }

  lemma LongYear(y: nat)
    requires y >= 10_000
    ensures |Padded(y, 4)| >= 5
  {
    assert Pow10(4) == 100 * Pow10(2);
    DecimalFits(y, 4);
  }

  /** A label outside years 0 to 9999 is longer than 13 characters or starts with a sign, so no parser accepts it. */
  lemma UnlabelableIsRejected(key: int)
    requires !Labelable(key)
    ensures ParseMinuteLabel(MinuteLabel(key)) == None
  {
    var c := CivilOf(key);
    var s := MinuteLabel(key);
    KeyDate(key);
    if c.date.y < 0 {
      assert s[0] == '-';
      if |s| == 13 { assert s[..8][0] == '-'; }
    } else {
      LongYear(c.date.y);
      TwoDigits(c.date.m);
      TwoDigits(c.date.d);
      TwoDigits(c.h);
      TwoDigits(c.mi);
    }
  }

  function KeyOf(c: Civil): int {
    YmdToDays(c.date.y, c.date.m, c.date.d) * 1440 + c.h * 60 + c.mi
  }

  /** Keys and civil minutes determine each other. */
  lemma KeyOfCivil(key: int)
    ensures KeyOf(CivilOf(key)) == key
  {
    CivilParts(key);
    DaysRoundTrip(key / 1440);
  }

  lemma CivilOfKey(c: Civil)
    requires ValidDate(c.date) && c.h < 24 && c.mi < 60
    ensures CivilOf(KeyOf(c)) == c
  {
    DateRoundTrip(c.date.y, c.date.m, c.date.d);
    CivilOfParts(YmdToDays(c.date.y, c.date.m, c.date.d), c);
  }

  lemma CivilOfParts(days: int, c: Civil)
    requires DaysToYmd(days) == c.date && c.h < 24 && c.mi < 60
    ensures CivilOf(days * 1440 + c.h * 60 + c.mi) == c
  {
    CivilParts(days * 1440 + c.h * 60 + c.mi);
    KeyParts(days, c.h, c.mi);
  }

  lemma KeyParts(days: int, h: nat, mi: nat)
    requires h < 24 && mi < 60
    ensures var key := days * 1440 + h * 60 + mi;
            key / 1440 == days && key % 1440 / 60 == h && key % 60 == mi
  {
    var key := days * 1440 + h * 60 + mi;
    DivMod(key, 1440, days, h * 60 + mi);
    DivMod(key, 60, days * 24 + h, mi);
    DivMod(h * 60 + mi, 60, h, mi);
  }

  lemma ParsePrinted(c: Civil)
    requires 0 <= c.date.y < 10_000 && ValidDate(c.date) && c.h < 24 && c.mi < 60
    ensures ParseMinuteLabel(Label(c)) == Some(KeyOf(c))
  {
    LabelFields(c);
    FourDigits(c.date.y);
    TwoDigits(c.date.m);
    TwoDigits(c.date.d);
    TwoDigits(c.h);
    TwoDigits(c.mi);
    ParseFields(Label(c), c);
  }

  lemma ParseFields(s: string, c: Civil)
    requires |s| == 13 && s[8] == 'T' && AllDigits(s[..8]) && AllDigits(s[9..])
    requires ValidDate(c.date) && c.h < 24 && c.mi < 60
    requires Number(s[0..4]) == c.date.y && Number(s[4..6]) == c.date.m && Number(s[6..8]) == c.date.d
    requires Number(s[9..11]) == c.h && Number(s[11..13]) == c.mi
    ensures ParseMinuteLabel(s) == Some(KeyOf(c))
  {
    DateRoundTrip(c.date.y, c.date.m, c.date.d);
  }

  /** Parsing a printed label gives back its key exactly for the years a label has room for, and fails for all others. */
  lemma LabelRoundTrip(key: int)
    ensures ParseMinuteLabel(MinuteLabel(key)) == if Labelable(key) then Some(key) else None
  {
    if Labelable(key) {
      KeyDate(key);
      ParsePrinted(CivilOf(key));
      KeyOfCivil(key);
    } else {
      UnlabelableIsRejected(key);
    }
  }

  function FieldsOf(s: string): Civil
    requires |s| == 13 && AllDigits(s[..8]) && AllDigits(s[9..])
  {
    assert forall i :: 0 <= i < 8 ==> s[i] == s[..8][i];
    assert forall i :: 9 <= i < 13 ==> s[i] == s[9..][i - 9];
    Civil(Date(Number(s[0..4]), Number(s[4..6]), Number(s[6..8])), Number(s[9..11]), Number(s[11..13]))
  }

  lemma FieldsMakeTheLabel(s: string)
    requires |s| == 13 && s[8] == 'T' && AllDigits(s[..8]) && AllDigits(s[9..])
    ensures Label(FieldsOf(s)) == s
  {
    PaddedOfNumber(s[0..4]);
    PaddedOfNumber(s[4..6]);
    PaddedOfNumber(s[6..8]);
    PaddedOfNumber(s[9..11]);
    PaddedOfNumber(s[11..13]);
    assert s == s[0..4] + s[4..6] + s[6..8] + [s[8]] + s[9..11] + s[11..13];
  }

  lemma AcceptedFields(s: string)
    requires ParseMinuteLabel(s).Some?
    ensures |s| == 13 && s[8] == 'T' && AllDigits(s[..8]) && AllDigits(s[9..])
    ensures var c := FieldsOf(s);
            ValidDate(c.date) && c.h < 24 && c.mi < 60 && KeyOf(c) == ParseMinuteLabel(s).value
  {
    AcceptedShape(s);
    var c := FieldsOf(s);
    DateRoundTrip(c.date.y, c.date.m, c.date.d);
  }

  lemma AcceptedShape(s: string)
    requires ParseMinuteLabel(s).Some?
    ensures |s| == 13 && s[8] == 'T' && AllDigits(s[..8]) && AllDigits(s[9..])
  {
  }

  /** The parser accepts nothing but printed labels. */
  lemma AcceptedLabelsArePrinted(s: string)
    ensures ParseMinuteLabel(s).Some? ==> MinuteLabel(ParseMinuteLabel(s).value) == s
  {
    if ParseMinuteLabel(s).Some? {
      AcceptedFields(s);
      FieldsMakeTheLabel(s);
      CivilOfKey(FieldsOf(s));
    }
  }

  /** Different keys have different labels, in every year. */
  lemma LabelInjective(a: int, b: int)
    requires MinuteLabel(a) == MinuteLabel(b)
    ensures a == b
  {
    KeyDate(a);
    KeyDate(b);
    LabelDeterminesCivil(CivilOf(a), CivilOf(b));
    KeyOfCivil(a);
    KeyOfCivil(b);
  }

  lemma LabelDeterminesCivil(a: Civil, b: Civil)
    requires ValidDate(a.date) && ValidDate(b.date) && a.h < 24 && a.mi < 60 && b.h < 24 && b.mi < 60
    requires Label(a) == Label(b)
    ensures a == b
  {
    SuffixSplit(Padded(a.date.y, 4), Tail(a), Padded(b.date.y, 4), Tail(b));
    YearInjective(a.date.y, b.date.y);
    TailLength(a);
    TailLength(b);
    assert Tail(a)[..2] == Tail(b)[..2] && Tail(a)[2..4] == Tail(b)[2..4]
        && Tail(a)[5..7] == Tail(b)[5..7] && Tail(a)[7..] == Tail(b)[7..];
  }

  function Tail(c: Civil): (s: string)
    requires ValidDate(c.date) && c.h < 24 && c.mi < 60
    ensures Label(c) == Padded(c.date.y, 4) + s && |s| == 9
  {
    TwoDigits(c.date.m);
    TwoDigits(c.date.d);
    TwoDigits(c.h);
    TwoDigits(c.mi);
    Padded(c.date.m, 2) + Padded(c.date.d, 2) + "T" + Padded(c.h, 2) + Padded(c.mi, 2)
  }

  lemma TailLength(c: Civil)
    requires ValidDate(c.date) && c.h < 24 && c.mi < 60
    ensures var t := Tail(c);
            && AllDigits(t[..2]) && Number(t[..2]) == c.date.m && AllDigits(t[2..4]) && Number(t[2..4]) == c.date.d
            && AllDigits(t[5..7]) && Number(t[5..7]) == c.h && AllDigits(t[7..]) && Number(t[7..]) == c.mi
  {
    TwoDigits(c.date.m);
    TwoDigits(c.date.d);
    TwoDigits(c.h);
    TwoDigits(c.mi);
    assert Tail(c)[..2] == Padded(c.date.m, 2) && Tail(c)[2..4] == Padded(c.date.d, 2);
    assert Tail(c)[5..7] == Padded(c.h, 2) && Tail(c)[7..] == Padded(c.mi, 2);
  }

  lemma YearInjective(a: int, b: int)
    requires Padded(a, 4) == Padded(b, 4)
    ensures a == b
  {
    if a < 0 <= b {
      SignShows(a, b);
    } else if b < 0 <= a {
      SignShows(b, a);
    } else {
      var x, y := if a < 0 then -a else a, if b < 0 then -b else b;
      var w := if a < 0 then 3 else 4;
      if a < 0 {
        assert Padded(a, 4)[1..] == Fill(Decimal(x), 3) && Padded(b, 4)[1..] == Fill(Decimal(y), 3);
      }
      FillKeepsNumber(Decimal(x), w);
      FillKeepsNumber(Decimal(y), w);
      NumberOfDecimal(x);
      NumberOfDecimal(y);
    }
  }

  lemma SignShows(a: int, b: int)
    requires a < 0 <= b
    ensures Padded(a, 4) != Padded(b, 4)
  {
    assert Padded(a, 4)[0] == '-' && IsDigit(Padded(b, 4)[0]);
  }

  /** In the labelable years, the order of the labels as text is the order of the minutes. */
  lemma LabelOrder(a: int, b: int)
    requires Labelable(a) && Labelable(b)
    ensures LexLess(MinuteLabel(a), MinuteLabel(b)) <==> a < b
  {
    LexTotal(MinuteLabel(a), MinuteLabel(b));
    if a < b {
      EarlierSortsFirst(a, b);
    } else if b < a {
      EarlierSortsFirst(b, a);
    }
  }

  predicate CivilBefore(a: Civil, b: Civil) {
    Before(a.date, b.date) || (a.date == b.date && (a.h < b.h || (a.h == b.h && a.mi < b.mi)))
  }

  lemma DayOrder(a: int, b: int)
    requires a < b
    ensures a / 1440 < b / 1440
         || (a / 1440 == b / 1440
             && (a % 1440 / 60 < b % 1440 / 60 || (a % 1440 / 60 == b % 1440 / 60 && a % 60 < b % 60)))
  {
    KeyParts(a / 1440, a % 1440 / 60, a % 1440 % 60);
    KeyParts(b / 1440, b % 1440 / 60, b % 1440 % 60);
  }

  lemma CivilOrder(a: int, b: int)
    requires a < b
    ensures CivilBefore(CivilOf(a), CivilOf(b))
  {
    CivilParts(a);
    CivilParts(b);
    DayOrder(a, b);
    if a / 1440 < b / 1440 {
      DatesIncrease(a / 1440, b / 1440);
    }
  }

  lemma EarlierSortsFirst(a: int, b: int)
    requires Labelable(a) && Labelable(b) && a < b
    ensures LexLess(MinuteLabel(a), MinuteLabel(b))
  {
    CivilOrder(a, b);
    KeyDate(a);
    KeyDate(b);
    EarlierCivilSortsFirst(CivilOf(a), CivilOf(b));
  }

  lemma FieldOrder(x: nat, y: nat, w: nat, s: string, t: string)
    requires (w == 2 && x < 100 && y < 100) || (w == 4 && x < 10_000 && y < 10_000)
    requires x < y || (x == y && LexLess(s, t))
    ensures LexLess(Padded(x, w) + s, Padded(y, w) + t)
  {
    if w == 2 {
      TwoDigits(x);
      TwoDigits(y);
    } else {
      FourDigits(x);
      FourDigits(y);
    }
    LexIsNumeric(Padded(x, w), Padded(y, w));
    LexConcat(Padded(x, w), Padded(y, w), s, t);
  }

  /** The label in right-associated form: each field followed by the text of all finer fields. */
  function DayText(c: Civil): string {
    Padded(c.date.d, 2) + ("T" + ClockText(c))
  }

  function MonthText(c: Civil): string {
    Padded(c.date.m, 2) + DayText(c)
  }

  lemma LabelText(c: Civil)
    ensures Label(c) == Padded(c.date.y, 4) + MonthText(c)
  {
    RightAssociated(Padded(c.date.y, 4), Padded(c.date.m, 2), Padded(c.date.d, 2), "T", Padded(c.h, 2), Padded(c.mi, 2));
  }

  lemma RightAssociated(y: string, m: string, d: string, t: string, h: string, mi: string)
    ensures y + m + d + t + h + mi == y + (m + (d + (t + (h + mi))))
  {
    assert y + m + d + t + h + mi == y + m + d + t + (h + mi);
    assert y + m + d + t + (h + mi) == y + m + d + (t + (h + mi));
    assert y + m + d + (t + (h + mi)) == y + m + (d + (t + (h + mi)));
  }

  lemma DayTextOrder(a: Civil, b: Civil)
    requires a.h < 24 && a.mi < 60 && b.h < 24 && b.mi < 60 && 0 <= a.date.d < 100 && 0 <= b.date.d < 100
    requires a.date.d < b.date.d || (a.date.d == b.date.d && (a.h < b.h || (a.h == b.h && a.mi < b.mi)))
    ensures LexLess(DayText(a), DayText(b))
  {
    ClockOrder(a, b);
    LexConcat("T", "T", ClockText(a), ClockText(b));
    FieldOrder(a.date.d, b.date.d, 2, "T" + ClockText(a), "T" + ClockText(b));
  }

  lemma EarlierCivilSortsFirst(a: Civil, b: Civil)
    requires CivilBefore(a, b) && ValidDate(a.date) && ValidDate(b.date)
    requires 0 <= a.date.y < 10_000 && 0 <= b.date.y < 10_000 && a.h < 24 && a.mi < 60 && b.h < 24 && b.mi < 60
    ensures LexLess(Label(a), Label(b))
  {
    LabelText(a);
    LabelText(b);
    if a.date.y == b.date.y {
      if a.date.m == b.date.m {
        DayTextOrder(a, b);
      }
      FieldOrder(a.date.m, b.date.m, 2, DayText(a), DayText(b));
    }
    FieldOrder(a.date.y, b.date.y, 4, MonthText(a), MonthText(b));
  }

  function ClockText(c: Civil): string {
    Padded(c.h, 2) + (Padded(c.mi, 2) + "")
  }

  lemma ClockOrder(a: Civil, b: Civil)
    requires a.h < 24 && a.mi < 60 && b.h < 24 && b.mi < 60
    ensures a.h < b.h || (a.h == b.h && a.mi < b.mi) ==> LexLess(ClockText(a), ClockText(b))
  {
    if a.h == b.h && a.mi < b.mi {
      FieldOrder(a.mi, b.mi, 2, "", "");
    }
    if a.h < b.h || (a.h == b.h && a.mi < b.mi) {
      FieldOrder(a.h, b.h, 2, Padded(a.mi, 2) + "", Padded(b.mi, 2) + "");
    }
  }
}
