/**
 Timestamps as the database compares them: UTC instants written with `time.RFC3339Nano`, which drops
 trailing zeros of the fraction, and compared as text.  Years are 0000 to 9999.
 */
module TimeText {
  import opened ListFacts
  import opened Text
  import D = Durations

  const SECOND: int := 1_000_000_000

  datatype Instant = Instant(year: nat, month: nat, day: nat, hour: nat, minute: nat, second: nat, nanos: nat)

  /***** The calendar *****/

  predicate IsLeap(y: nat) {
    y % 4 == 0 && (y % 100 != 0 || y % 400 == 0)
  }

  function DaysIn(y: nat, m: nat): nat {
    if m == 2 then (if IsLeap(y) then 29 else 28) else if m == 4 || m == 6 || m == 9 || m == 11 then 30 else 31
  }

  predicate Valid(i: Instant) {
    i.year <= 9999 && 1 <= i.month <= 12 && 1 <= i.day <= DaysIn(i.year, i.month) &&
    i.hour < 24 && i.minute < 60 && i.second < 60 && i.nanos < SECOND
  }

  /** Days from the start of the calendar to the start of a year, and from there to that of a month. */
  function YearStart(y: nat): nat {
    if y == 0 then 0 else YearStart(y - 1) + if IsLeap(y - 1) then 366 else 365
  }

  function MonthStart(y: nat, m: nat): nat {
    if m <= 1 then 0 else MonthStart(y, m - 1) + DaysIn(y, m - 1)
  }

  function Days(i: Instant): nat
    requires Valid(i)
  {
    YearStart(i.year) + MonthStart(i.year, i.month) + i.day - 1
  }

  function OfDay(i: Instant): nat {
    (i.hour * 60 + i.minute) * 60 + i.second
  }

  /** Whole seconds, and nanoseconds, since the start of year 0. */
  function Seconds(i: Instant): nat
    requires Valid(i)
  {
    Days(i) * 86_400 + OfDay(i)
  }

  function Time(i: Instant): nat
    requires Valid(i)
  {
    Seconds(i) * SECOND + i.nanos
  }

  lemma {:induction false} MonthsAdd(y: nat, m: nat, n: nat)
    requires 1 <= m < n
    ensures MonthStart(y, m) + DaysIn(y, m) <= MonthStart(y, n)
  {
    if m + 1 < n {
      MonthsAdd(y, m, n - 1);
    }
  }

  lemma YearLength(y: nat)
    ensures MonthStart(y, 13) == if IsLeap(y) then 366 else 365
  {
    assert MonthStart(y, 2) == 31;
    assert MonthStart(y, 3) == 31 + DaysIn(y, 2);
    assert MonthStart(y, 5) == MonthStart(y, 4) + 30 == MonthStart(y, 3) + 61 == DaysIn(y, 2) + 92;
    assert MonthStart(y, 9) == MonthStart(y, 8) + 31 == MonthStart(y, 7) + 62 ==
           MonthStart(y, 6) + 92 == MonthStart(y, 5) + 123;
    assert MonthStart(y, 13) == MonthStart(y, 12) + 31 == MonthStart(y, 11) + 61 ==
           MonthStart(y, 10) + 92 == MonthStart(y, 9) + 122;
  }

  lemma {:induction false} YearsAdd(y: nat, z: nat)
    requires y < z
    ensures YearStart(y) + MonthStart(y, 13) <= YearStart(z)
  {
    YearLength(y);
    if y + 1 < z {
      YearsAdd(y, z - 1);
    }
  }

  /** The calendar's order, field by field. */
  predicate DateBefore(a: Instant, b: Instant) {
    a.year < b.year || (a.year == b.year && (a.month < b.month || (a.month == b.month && a.day < b.day)))
  }

  predicate SameDate(a: Instant, b: Instant) {
    a.year == b.year && a.month == b.month && a.day == b.day
  }

  predicate ClockBefore(a: Instant, b: Instant) {
    a.hour < b.hour || (a.hour == b.hour && (a.minute < b.minute || (a.minute == b.minute && a.second < b.second)))
  }

  lemma DatesAdd(a: Instant, b: Instant)
    requires Valid(a) && Valid(b) && DateBefore(a, b)
    ensures Days(a) < Days(b)
  {
    hide DaysIn, MonthStart, YearStart;
    if a.year < b.year {
      YearsAdd(a.year, b.year);
      MonthsAdd(a.year, a.month, 13);
    } else if a.month < b.month {
      MonthsAdd(a.year, a.month, b.month);
    }
  }

  lemma ClockAdds(a: Instant, b: Instant)
    requires Valid(a) && Valid(b)
    ensures OfDay(a) < 86_400 && (ClockBefore(a, b) <==> OfDay(a) < OfDay(b))
    ensures OfDay(a) == OfDay(b) ==> a.hour == b.hour && a.minute == b.minute && a.second == b.second
  {
    hide DaysIn;
  }

  predicate StampBefore(a: Instant, b: Instant) {
    DateBefore(a, b) || (SameDate(a, b) && ClockBefore(a, b))
  }

  predicate SameStamp(a: Instant, b: Instant) {
    a.(nanos := b.nanos) == b
  }

  /** The calendar's order down to the second is the order in time. */
  lemma StampOrder(a: Instant, b: Instant)
    requires Valid(a) && Valid(b)
    ensures StampBefore(a, b) <==> Seconds(a) < Seconds(b)
    ensures SameStamp(a, b) <==> Seconds(a) == Seconds(b)
  {
    hide Days, OfDay, DaysIn;
    ClockAdds(a, b);
    ClockAdds(b, a);
    if DateBefore(a, b) {
      DatesAdd(a, b);
    } else if DateBefore(b, a) {
      DatesAdd(b, a);
    } else {
      assert SameDate(a, b);
      assert Days(a) == Days(b) by { DaysOfDate(a, b); }
    }
  }

  lemma DaysOfDate(a: Instant, b: Instant)
    requires Valid(a) && Valid(b) && SameDate(a, b)
    ensures Days(a) == Days(b)
  {
  }

  /***** Text order *****/

  lemma {:induction false} LessDecided(a: string, b: string, x: string, y: string)
    requires |a| == |b|
    ensures a != b ==> (Less(a + x, b + y) <==> Less(a, b))
    ensures a == b ==> (Less(a + x, b + y) <==> Less(x, y))
  {
    if a == "" {
      assert a + x == x && b + y == y;
    } else {
      assert (a + x)[1..] == a[1..] + x && (b + y)[1..] == b[1..] + y;
      assert a == [a[0]] + a[1..] && b == [b[0]] + b[1..];
      LessDecided(a[1..], b[1..], x, y);
    }
  }

  /** Numbers of one width are in text order as in size. */
  lemma {:induction false} PaddedOrder(a: nat, b: nat, width: nat)
    requires a < D.Pow10(width) && b < D.Pow10(width)
    ensures Less(D.Padded(a, width), D.Padded(b, width)) <==> a < b
    ensures D.Padded(a, width) == D.Padded(b, width) <==> a == b
  {
    D.ValueOfPadded(a, width);
    D.ValueOfPadded(b, width);
    if width == 0 {
    } else {
      PaddedOrder(a / 10, b / 10, width - 1);
      LessDecided(D.Padded(a / 10, width - 1), D.Padded(b / 10, width - 1), [Digit(a % 10)], [Digit(b % 10)]);
      OneDigit(a % 10, b % 10);
    }
  }

  lemma OneDigit(a: nat, b: nat)
    requires a < 10 && b < 10
    ensures Less([Digit(a)], [Digit(b)]) <==> a < b
  {
  }

  /***** The text of an instant *****/

  function Two(n: nat): string
    requires n < 100
  {
    assert D.Pow10(2) == 100;
    D.Padded(n, 2)
  }

  function Four(n: nat): string
    requires n < 10_000
  {
    assert D.Pow10(2) == 100;
    assert D.Pow10(4) == 10_000;
    D.Padded(n, 4)
  }

  function DateText(i: Instant): string
    requires Valid(i)
  {
    Four(i.year) + ("-" + (Two(i.month) + ("-" + Two(i.day))))
  }

  function ClockText(i: Instant): string
    requires Valid(i)
  {
    Two(i.hour) + (":" + (Two(i.minute) + (":" + Two(i.second))))
  }

  /** The fraction without its trailing zeros, and the zone. */
  function Tail(nanos: nat): string
    requires nanos < SECOND
  {
    D.Pow10Values();
    if nanos == 0 then "Z" else "." + D.Fraction(nanos, 9) + "Z"
  }

  function Format(i: Instant): string
    requires Valid(i)
  {
    DateText(i) + ("T" + (ClockText(i) + Tail(i.nanos)))
  }

  lemma TwoOrder(a: nat, b: nat)
    requires a < 100 && b < 100
    ensures |Two(a)| == |Two(b)| && (Less(Two(a), Two(b)) <==> a < b) && (Two(a) == Two(b) <==> a == b)
  {
    assert D.Pow10(2) == 100;
    PaddedOrder(a, b, 2);
  }

  /** Two pieces of fixed width with a separator between them. */
  lemma JoinedOrder(a: string, b: string, sep: string, x: string, y: string)
    requires |a| == |b|
    ensures Less(a + (sep + x), b + (sep + y)) <==> Less(a, b) || (a == b && Less(x, y))
    ensures a + (sep + x) == b + (sep + y) <==> a == b && x == y
  {
    hide Less;
    LessDecided(a, b, sep + x, sep + y);
    LessDecided(sep, sep, x, y);
    LessIsTotal(a, b);
    CutAt(a, sep + x);
    CutAt(b, sep + y);
    CutAt(sep, x);
    CutAt(sep, y);
  }

  lemma DateOrder(a: Instant, b: Instant)
    requires Valid(a) && Valid(b)
    ensures |DateText(a)| == |DateText(b)|
    ensures (Less(DateText(a), DateText(b)) <==> DateBefore(a, b)) && (DateText(a) == DateText(b) <==> SameDate(a, b))
  {
    hide D.Padded, Less;
    assert D.Pow10(2) == 100;
    assert D.Pow10(4) == 10_000;
    PaddedOrder(a.year, b.year, 4);
    TwoOrder(a.month, b.month);
    TwoOrder(a.day, b.day);
    JoinedOrder(Two(a.month), Two(b.month), "-", Two(a.day), Two(b.day));
    JoinedOrder(Four(a.year), Four(b.year), "-", Two(a.month) + ("-" + Two(a.day)), Two(b.month) + ("-" + Two(b.day)));
  }

  lemma ClockOrder(a: Instant, b: Instant)
    requires Valid(a) && Valid(b)
    ensures |ClockText(a)| == |ClockText(b)|
    ensures Less(ClockText(a), ClockText(b)) <==> ClockBefore(a, b)
    ensures ClockText(a) == ClockText(b) <==> OfDay(a) == OfDay(b)
  {
    hide D.Padded, Less, DaysIn;
    TwoOrder(a.hour, b.hour);
    TwoOrder(a.minute, b.minute);
    TwoOrder(a.second, b.second);
    JoinedOrder(Two(a.minute), Two(b.minute), ":", Two(a.second), Two(b.second));
    JoinedOrder(Two(a.hour), Two(b.hour), ":", Two(a.minute) + (":" + Two(a.second)),
                Two(b.minute) + (":" + Two(b.second)));
    ClockAdds(a, b);
  }

  /** Text order is the calendar's order to the second and, within one second, that of the tails. */
  lemma FormatOrder(a: Instant, b: Instant)
    requires Valid(a) && Valid(b)
    ensures Less(Format(a), Format(b)) <==>
            Seconds(a) < Seconds(b) || (Seconds(a) == Seconds(b) && Less(Tail(a.nanos), Tail(b.nanos)))
    ensures Format(a) == Format(b) <==> Seconds(a) == Seconds(b) && Tail(a.nanos) == Tail(b.nanos)
  {
    hide DateText, ClockText, Tail, Less, Seconds, DaysIn;
    DateOrder(a, b);
    ClockOrder(a, b);
    ClockAdds(a, b);
    StampOrder(a, b);
    var x, y := ClockText(a) + Tail(a.nanos), ClockText(b) + Tail(b.nanos);
    LessDecided(ClockText(a), ClockText(b), Tail(a.nanos), Tail(b.nanos));
    JoinedOrder(DateText(a), DateText(b), "T", x, y);
    CutAt(ClockText(a), Tail(a.nanos));
    CutAt(ClockText(b), Tail(b.nanos));
    CutAt(DateText(a), "T" + x);
    CutAt(DateText(b), "T" + y);
    CutAt("T", x);
    CutAt("T", y);
  }

  /***** Within one second *****/

  function Zeros(n: nat): (s: string)
    ensures |s| == n && AllDigits(s)
  {
    if n == 0 then "" else "0" + Zeros(n - 1)
  }

  lemma {:induction false} ZerosEnd(n: nat)
    ensures Zeros(n) + "0" == Zeros(n + 1)
  {
    if n > 0 {
      ZerosEnd(n - 1);
      assert Zeros(n) + "0" == "0" + (Zeros(n - 1) + "0");
    }
  }

  /** The dropped zeros put back. */
  lemma {:induction false} PaddedIsFraction(f: nat, width: nat)
    requires f < D.Pow10(width)
    ensures |D.Fraction(f, width)| <= width
    ensures D.Padded(f, width) == D.Fraction(f, width) + Zeros(width - |D.Fraction(f, width)|)
  {
    if width == 0 {
    } else if f % 10 == 0 {
      PaddedIsFraction(f / 10, width - 1);
      var s := D.Fraction(f / 10, width - 1);
      assert D.Fraction(f, width) == s by { ZeroFraction(width - 1); }
      ZerosEnd(width - 1 - |s|);
      assert D.Padded(f, width) == s + (Zeros(width - 1 - |s|) + "0");
    } else {
      assert D.Fraction(f, width) == D.Padded(f, width);
      assert D.Padded(f, width) + Zeros(0) == D.Padded(f, width);
    }
  }

  lemma ZeroFraction(width: nat)
    ensures D.Fraction(0, width) == ""
  {
  }

  /** Digits that do not end in a zero. */
  predicate Cut(s: string) {
    AllDigits(s) && (s != "" ==> s[|s| - 1] != '0')
  }

  lemma {:induction false} NothingBelowZeros(x: string)
    requires AllDigits(x)
    ensures !Less(x, Zeros(|x|))
  {
    if x != "" {
      NothingBelowZeros(x[1..]);
      assert Zeros(|x|)[1..] == Zeros(|x| - 1);
    }
  }

  predicate ProperPrefix(s: string, t: string) {
    |s| < |t| && t[..|s|] == s
  }

  lemma {:induction false} CutOrder(s: string, t: string, width: nat)
    requires Cut(s) && Cut(t) && |s| <= width && |t| <= width
    requires Less(s + Zeros(width - |s|), t + Zeros(width - |t|))
    ensures Less(s + "Z", t + "Z") <==> !ProperPrefix(s, t)
  {
    var x, y := s + Zeros(width - |s|), t + Zeros(width - |t|);
    if t == "" {
      assert y == Zeros(width);
      NothingBelowZeros(x);
    } else if s == "" {
      assert (t + "Z")[0] == t[0] < 'Z' == (s + "Z")[0];
      assert t[..0] == "";
    } else {
      assert x[1..] == s[1..] + Zeros(width - |s|) && y[1..] == t[1..] + Zeros(width - |t|);
      assert (s + "Z")[1..] == s[1..] + "Z" && (t + "Z")[1..] == t[1..] + "Z";
      if s[0] == t[0] {
        CutOrder(s[1..], t[1..], width - 1);
        PrefixOfRest(s, t);
      } else {
        if ProperPrefix(s, t) {
          PrefixStarts(s, t);
        }
      }
    }
  }

  lemma PrefixStarts(s: string, t: string)
    requires s != "" && ProperPrefix(s, t)
    ensures s[0] == t[0]
  {
  }

  lemma PrefixOfRest(s: string, t: string)
    requires s != "" && t != "" && s[0] == t[0]
    ensures ProperPrefix(s, t) <==> ProperPrefix(s[1..], t[1..])
  {
    if |s| < |t| {
      assert t[..|s|][1..] == t[1..][..|s| - 1];
      assert t[..|s|] == [t[0]] + t[1..][..|s| - 1] && s == [s[0]] + s[1..];
    }
  }

  function FractionText(nanos: nat): string
    requires nanos < SECOND
  {
    D.Pow10Values();
    D.Fraction(nanos, 9)
  }

  lemma FractionOrder(m: nat, n: nat)
    requires m < n < SECOND
    ensures Less(FractionText(m) + "Z", FractionText(n) + "Z") <==> !ProperPrefix(FractionText(m), FractionText(n))
    ensures FractionText(m) != FractionText(n)
  {
    hide D.Pow10, D.Fraction, D.Padded;
    D.Pow10Values();
    D.FractionValue(m, 9);
    D.FractionValue(n, 9);
    PaddedIsFraction(m, 9);
    PaddedIsFraction(n, 9);
    PaddedOrder(m, n, 9);
    CutOrder(FractionText(m), FractionText(n), 9);
  }

  /** An empty fraction has no dot: its tail starts with the zone. */
  lemma TailShape(n: nat)
    requires n < SECOND
    ensures n == 0 <==> FractionText(n) == ""
    ensures Tail(n) == if n == 0 then "Z" else "." + (FractionText(n) + "Z")
  {
    hide D.Pow10, D.Fraction;
    D.Pow10Values();
    D.FractionValue(n, 9);
    assert "." + FractionText(n) + "Z" == "." + (FractionText(n) + "Z");
  }

  lemma TailOrder(m: nat, n: nat)
    requires m < n < SECOND
    ensures Less(Tail(m), Tail(n)) <==> !ProperPrefix(FractionText(m), FractionText(n))
    ensures Tail(m) != Tail(n)
  {
    hide FractionText, Tail;
    var s, t := FractionText(m), FractionText(n);
    TailShape(m);
    TailShape(n);
    FractionOrder(m, n);
    if m == 0 {
      assert t[..0] == "";
    } else {
      LessDecided(".", ".", s + "Z", t + "Z");
      SameTails(s, t);
    }
  }

  lemma SameTails(s: string, t: string)
    ensures "." + (s + "Z") == "." + (t + "Z") <==> s == t
  {
    CutAt(".", s + "Z");
    CutAt(".", t + "Z");
    CutAt(s, "Z");
    CutAt(t, "Z");
  }

  /***** What the comparisons in SQL are worth *****/

  /** When the whole seconds differ, the text order is the order in time. */
  lemma WholeSecondsDecide(a: Instant, b: Instant)
    requires Valid(a) && Valid(b) && Seconds(a) != Seconds(b)
    ensures Less(Format(a), Format(b)) <==> Time(a) < Time(b)
  {
    hide Format, Seconds, Less, Tail;
    FormatOrder(a, b);
  }

  /** Equal texts are equal instants. */
  lemma TextIsFaithful(a: Instant, b: Instant)
    requires Valid(a) && Valid(b)
    ensures Format(a) == Format(b) <==> Time(a) == Time(b)
    ensures Format(a) == Format(b) <==> a == b
  {
    hide Format, Seconds, Less, Tail;
    FormatOrder(a, b);
    StampOrder(a, b);
    if a.nanos < b.nanos {
      TailOrder(a.nanos, b.nanos);
    } else if b.nanos < a.nanos {
      TailOrder(b.nanos, a.nanos);
    }
  }

  /**
   Within one second the text order is right exactly when the earlier fraction, as written, is not the
   beginning of the later one; a whole second has the empty fraction and so counts as later than all.
   */
  lemma FractionsDecideExactlyWhen(a: Instant, b: Instant)
    requires Valid(a) && Valid(b) && Seconds(a) == Seconds(b) && Time(a) < Time(b)
    ensures Less(Format(a), Format(b)) <==> !ProperPrefix(FractionText(a.nanos), FractionText(b.nanos))
  {
    hide Format, Seconds, Less, Tail;
    FormatOrder(a, b);
    TailOrder(a.nanos, b.nanos);
  }

  /** A whole second is earlier than every fraction of it, and its text comes after theirs. */
  lemma WholeSecondSortsLast(a: Instant, b: Instant)
    requires Valid(a) && Valid(b) && SameStamp(a, b) && a.nanos == 0 < b.nanos
    ensures Time(a) < Time(b) && Less(Format(b), Format(a))
  {
    hide Format, Less, FractionText, Days;
    DaysOfDate(a, b);
    FractionsDecideExactlyWhen(a, b);
    TailShape(0);
    TailShape(b.nanos);
    assert FractionText(b.nanos)[..0] == "";
    TextIsFaithful(a, b);
    LessIsTotal(Format(a), Format(b));
  }

  const NOON := Instant(2026, 1, 1, 12, 0, 0, 0)

  /** At half a second past noon, something that ended at noon exactly still passes a comparison in SQL. */
  lemma NoonIsStillAhead()
    ensures var now := NOON.(nanos := 500_000_000);
      Valid(NOON) && Valid(now) && Time(NOON) < Time(now) && Less(Format(now), Format(NOON))
  {
    WholeSecondSortsLast(NOON, NOON.(nanos := 500_000_000));
  }

  /** With fractions of one length, as section 5.1 of RFC 3339 asks for, the order is always right. */
  lemma EqualDigitsDecide(a: Instant, b: Instant)
    requires Valid(a) && Valid(b) && |FractionText(a.nanos)| == |FractionText(b.nanos)|
    ensures Less(Format(a), Format(b)) <==> Time(a) < Time(b)
  {
    hide Format, Seconds, Less, FractionText;
    TextIsFaithful(a, b);
    LessIsTotal(Format(a), Format(b));
    if Seconds(a) != Seconds(b) {
      WholeSecondsDecide(a, b);
    } else if Time(a) < Time(b) {
      FractionsDecideExactlyWhen(a, b);
    } else if Time(b) < Time(a) {
      FractionsDecideExactlyWhen(b, a);
    }
  }

  /**
   A comparison in SQL that lets something pass which ends at `end`, at a moment `now` when it has
   ended - or stops it before its end - is wrong by less than a second.
   */
  lemma ComparisonIsOffByLessThanASecond(end: Instant, now: Instant)
    requires Valid(end) && Valid(now)
    ensures Less(Format(now), Format(end)) && Time(end) <= Time(now) ==> Time(now) - Time(end) < SECOND
    ensures !Less(Format(now), Format(end)) && Time(now) < Time(end) ==> Time(end) - Time(now) < SECOND
  {
    hide Format, Seconds, Less;
    if Seconds(end) != Seconds(now) {
      WholeSecondsDecide(now, end);
    }
  }
}
