/**
 Durations as text, the way the settings file stores them: hours, minutes and seconds with a fraction
 that loses its trailing zeros, or one smaller unit below a second.  Durations are nanoseconds.
 */
module Durations {
  import opened Arithmetic
  import opened ListFacts
  import opened Outcomes
  import opened Text

  const MICRO: int := 1_000
  const MILLI: int := 1_000_000
  const SECOND: int := 1_000_000_000
  const MINUTE: int := 60 * SECOND
  const HOUR: int := 60 * MINUTE

  /***** Fractions *****/

  function Pow10(n: nat): (r: nat)
    ensures r > 0
  {
    if n == 0 then 1 else 10 * Pow10(n - 1)
  }

  /** The `width` digits of a fraction, without the zeros at the end. */
  function Fraction(f: nat, width: nat): string
    requires f < Pow10(width)
  {
    if f == 0 then "" else if f % 10 == 0 then Fraction(f / 10, width - 1) else Padded(f, width)
  }

  /** `width` digits, with zeros in front where needed. */
  function Padded(f: nat, width: nat): (s: string)
    requires f < Pow10(width)
    ensures |s| == width && AllDigits(s)
  {
    if width == 0 then "" else Padded(f / 10, width - 1) + [Digit(f % 10)]
  }

  lemma {:induction false} ValueOfPadded(f: nat, width: nat)
    requires f < Pow10(width)
    ensures Value(Padded(f, width)) == f
  {
    if width > 0 {
      ValueOfPadded(f / 10, width - 1);
      var s := Padded(f, width);
      assert s[..width - 1] == Padded(f / 10, width - 1);
    }
  }

  lemma {:induction false} Pow10Adds(m: nat, n: nat)
    ensures Pow10(m + n) == Pow10(m) * Pow10(n)
  {
    if m > 0 {
      Pow10Adds(m - 1, n);
      assert Pow10(m + n) == 10 * Pow10(m - 1 + n);
    }
  }

  /** Dropping zeros does not change the fraction: scaled back up to `width` digits it is `f` again. */
  lemma {:induction false} FractionValue(f: nat, width: nat)
    requires f < Pow10(width)
    ensures var s := Fraction(f, width);
      AllDigits(s) && |s| <= width && Value(s) * Pow10(width - |s|) == f &&
      (s == "" <==> f == 0) && (s != "" ==> s[|s| - 1] != '0')
  {
    if f == 0 {
      assert 0 * Pow10(width) == 0;
    } else if f % 10 == 0 {
      FractionValue(f / 10, width - 1);
      var s := Fraction(f, width);
      assert Pow10(width - |s|) == 10 * Pow10(width - 1 - |s|);
      MulTen(Value(s), Pow10(width - 1 - |s|));
    } else {
      ValueOfPadded(f, width);
      assert Pow10(0) == 1;
    }
  }

  lemma MulTen(a: nat, b: nat)
    ensures a * (10 * b) == 10 * (a * b)
  {
  }

  /***** Printing *****/

  /** A number with a fraction of `width` digits. */
  function Number(whole: nat, f: nat, width: nat): string
    requires f < Pow10(width)
  {
    Decimal(whole) + if f == 0 then "" else "." + Fraction(f, width)
  }

  lemma Pow10Values()
    ensures Pow10(3) == MICRO && Pow10(6) == MILLI && Pow10(9) == SECOND
  {
    Pow10Adds(3, 3);
    Pow10Adds(6, 3);
  }

  const MICRO_SIGN: string := [0xB5 as char, 's']

  function ShowPositive(d: nat): string
    requires d > 0
  {
    Pow10Values();
    if d < MICRO then Decimal(d) + "ns"
    else if d < MILLI then Number(d / MICRO, d % MICRO, 3) + MICRO_SIGN
    else if d < SECOND then Number(d / MILLI, d % MILLI, 6) + "ms"
    else
      var seconds := Number(d / SECOND % 60, d % SECOND, 9) + "s";
      if d < MINUTE then seconds
      else if d < HOUR then Decimal(d / MINUTE) + "m" + seconds
      else Decimal(d / HOUR) + "h" + (Decimal(d / MINUTE % 60) + "m" + seconds)
  }

  function Show(d: int): string {
    if d == 0 then "0s" else if d < 0 then "-" + ShowPositive(-d) else ShowPositive(d)
  }

  /***** Parsing *****/

  function UnitOf(u: string): Option<nat> {
    if u == "ns" then Some(1)
    else if u == "us" || u == MICRO_SIGN || u == [0x3BC as char, 's'] then Some(MICRO)
    else if u == "ms" then Some(MILLI)
    else if u == "s" then Some(SECOND)
    else if u == "m" then Some(MINUTE)
    else if u == "h" then Some(HOUR)
    else None
  }

  /** How many of the first characters are digits. */
  function DigitsAt(s: string): (n: nat)
    ensures n <= |s| && AllDigits(s[..n]) && (n < |s| ==> !IsDigit(s[n]))
  {
    if s == "" || !IsDigit(s[0]) then 0
    else
      var n := DigitsAt(s[1..]);
      assert s[..1 + n] == [s[0]] + s[1..][..n];
      1 + n
  }

  /** How many of the first characters belong to a unit. */
  function UnitAt(s: string): (n: nat)
    ensures n <= |s|
  {
    if s == "" || s[0] == '.' || IsDigit(s[0]) then 0 else 1 + UnitAt(s[1..])
  }

  /** A number with its unit, and what follows. */
  datatype Term = Term(whole: string, fraction: string, unit: string, rest: string)

  function ScanUnit(whole: string, fraction: string, s: string): Term {
    Term(whole, fraction, s[..UnitAt(s)], s[UnitAt(s)..])
  }

  function Scan(s: string): (t: Term)
    ensures AllDigits(t.whole) && AllDigits(t.fraction) && |t.rest| + |t.unit| <= |s|
  {
    var n := DigitsAt(s);
    if n < |s| && s[n] == '.' then
      var after := s[n + 1..];
      ScanUnit(s[..n], after[..DigitsAt(after)], after[DigitsAt(after)..])
    else ScanUnit(s[..n], "", s[n..])
  }

  function Scaled(v: nat, unit: nat, k: nat): nat {
    MulMono(0, v, unit);
    DivGrows(0, v * unit, Pow10(k));
    v * unit / Pow10(k)
  }

  function Amount(whole: string, fraction: string, unit: nat): nat
    requires AllDigits(whole) && AllDigits(fraction)
  {
    Value(whole) * unit + Scaled(Value(fraction), unit, |fraction|)
  }

  /** One or more numbers, each with its unit. */
  function Terms(s: string): Option<nat>
    decreases |s|
  {
    if s == "" then Some(0)
    else
      var t := Scan(s);
      if (t.whole == "" && t.fraction == "") || t.unit == "" || UnitOf(t.unit).None? || Terms(t.rest).None? then None
      else Some(Amount(t.whole, t.fraction, UnitOf(t.unit).value) + Terms(t.rest).value)
  }

  function Parse(s: string): Option<int> {
    var signed := s != "" && (s[0] == '-' || s[0] == '+');
    var text := if signed then s[1..] else s;
    if text == "0" then Some(0)
    else if text == "" then None
    else
      match Terms(text)
      case None => None
      case Some(d) => var n: int := d; Some(if signed && s[0] == '-' then -n else n)
  }

  /***** Parsing what was printed *****/

  lemma {:induction false} DigitsEnd(digits: string, rest: string)
    requires AllDigits(digits) && (rest != "" ==> !IsDigit(rest[0]))
    ensures DigitsAt(digits + rest) == |digits|
  {
    if digits == "" {
      assert digits + rest == rest;
    } else {
      assert (digits + rest)[1..] == digits[1..] + rest;
      DigitsEnd(digits[1..], rest);
    }
  }

  lemma {:induction false} UnitEnds(unit: string, rest: string)
    requires forall i | 0 <= i < |unit| :: unit[i] != '.' && !IsDigit(unit[i])
    requires rest != "" ==> rest[0] == '.' || IsDigit(rest[0])
    ensures UnitAt(unit + rest) == |unit|
  {
    if unit == "" {
      assert unit + rest == rest;
    } else {
      assert (unit + rest)[1..] == unit[1..] + rest;
      UnitEnds(unit[1..], rest);
    }
  }

  predicate IsUnit(unit: string) {
    unit != "" && UnitOf(unit).Some? && forall i | 0 <= i < |unit| :: unit[i] != '.' && !IsDigit(unit[i])
  }

  lemma ScanWhole(d: string, unit: string, rest: string)
    requires AllDigits(d) && IsUnit(unit) && (rest != "" ==> IsDigit(rest[0]))
    ensures Scan(d + unit + rest) == Term(d, "", unit, rest)
  {
    var s := d + unit + rest;
    assert s == d + (unit + rest);
    DigitsEnd(d, unit + rest);
    UnitEnds(unit, rest);
    assert s[..|d|] == d && s[|d|..] == unit + rest;
    assert (unit + rest)[..|unit|] == unit && (unit + rest)[|unit|..] == rest;
  }

  lemma ScanFraction(d: string, fraction: string, unit: string)
    requires AllDigits(d) && AllDigits(fraction) && IsUnit(unit)
    ensures Scan(d + "." + fraction + unit) == Term(d, fraction, unit, "")
  {
    hide DigitsAt, UnitAt, AllDigits;
    var s := d + "." + fraction + unit;
    var after := fraction + unit;
    assert s == d + ("." + after);
    DigitsEnd(d, "." + after);
    CutAt(d, "." + after);
    assert s[|d|] == '.' && s[|d| + 1..] == after;
    DigitsEnd(fraction, unit);
    CutAt(fraction, unit);
    assert unit + "" == unit;
    UnitEnds(unit, "");
    CutAt(unit, "");
  }

  /** A whole number with its unit, before anything that starts with a number. */
  lemma WholeTerm(n: nat, unit: string, rest: string)
    requires IsUnit(unit) && (rest != "" ==> IsDigit(rest[0]))
    ensures Terms(Decimal(n) + unit + rest) ==
            if Terms(rest).None? then None else Some(n * UnitOf(unit).value + Terms(rest).value)
  {
    hide UnitOf, Decimal, Scan;
    ScanWhole(Decimal(n), unit, rest);
    ValueOfDecimal(n);
    NoFraction(UnitOf(unit).value);
  }

  lemma NoFraction(unit: nat)
    ensures Scaled(Value(""), unit, 0) == 0
  {
    assert Pow10(0) == 1 && Value("") == 0;
  }

  /** The last number, which may have a fraction. */
  lemma LastTerm(n: nat, f: nat, width: nat, unit: string)
    requires f < Pow10(width) && IsUnit(unit) && UnitOf(unit).value == Pow10(width)
    ensures Terms(Number(n, f, width) + unit) == Some(n * Pow10(width) + f)
  {
    hide UnitOf, Decimal, Scan, Fraction, Pow10, Scaled;
    TermsOfNothing();
    ValueOfDecimal(n);
    if f == 0 {
      assert Decimal(n) + unit + "" == Number(n, f, width) + unit;
      WholeTerm(n, unit, "");
    } else {
      var fraction := Fraction(f, width);
      FractionValue(f, width);
      assert Decimal(n) + "." + fraction + unit == Number(n, f, width) + unit;
      ScanFraction(Decimal(n), fraction, unit);
      ScaledBack(Value(fraction), |fraction|, width, f);
    }
  }

  lemma ScaledBack(v: nat, k: nat, width: nat, f: nat)
    requires k <= width && v * Pow10(width - k) == f
    ensures Scaled(v, Pow10(width), k) == f
  {
    hide Pow10;
    Pow10Adds(width - k, k);
    MulAssoc(v, Pow10(width - k), Pow10(k));
    DivBack(f, Pow10(k));
  }

  lemma UnitsAreUnits()
    ensures IsUnit("ns") && IsUnit(MICRO_SIGN) && IsUnit("ms") && IsUnit("s") && IsUnit("m") && IsUnit("h")
  {
  }

  lemma ParseSmall(d: nat)
    requires 0 < d < SECOND
    ensures Terms(ShowPositive(d)) == Some(d)
  {
    hide Terms, Decimal, Fraction, IsUnit, Pow10, Number;
    Pow10Values();
    UnitsAreUnits();
    if d < MICRO {
      assert Decimal(d) + "ns" + "" == ShowPositive(d);
      WholeTerm(d, "ns", "");
      TermsOfNothing();
    } else if d < MILLI {
      LastTerm(d / MICRO, d % MICRO, 3, MICRO_SIGN);
    } else {
      LastTerm(d / MILLI, d % MILLI, 6, "ms");
    }
  }

  function Seconds(d: nat): string {
    Pow10Values();
    Number(d / SECOND % 60, d % SECOND, 9) + "s"
  }

  lemma ParseSeconds(d: nat)
    ensures Terms(Seconds(d)) == Some(d % MINUTE) && Seconds(d) != "" && IsDigit(Seconds(d)[0])
  {
    hide Terms, Decimal, Fraction, IsUnit, Pow10;
    Pow10Values();
    UnitsAreUnits();
    LastTerm(d / SECOND % 60, d % SECOND, 9, "s");
  }

  lemma ParseMinutes(n: nat, rest: string)
    requires Terms(rest).Some? && rest != "" && IsDigit(rest[0])
    ensures Terms(Decimal(n) + "m" + rest) == Some(n * MINUTE + Terms(rest).value)
    ensures Terms(Decimal(n) + "h" + rest) == Some(n * HOUR + Terms(rest).value)
  {
    hide Terms, Decimal, IsUnit;
    UnitsAreUnits();
    WholeTerm(n, "m", rest);
    WholeTerm(n, "h", rest);
  }

  lemma ShowLarge(d: nat)
    requires d >= SECOND
    ensures ShowPositive(d) ==
            if d < MINUTE then Seconds(d)
            else if d < HOUR then Decimal(d / MINUTE) + "m" + Seconds(d)
            else Decimal(d / HOUR) + "h" + (Decimal(d / MINUTE % 60) + "m" + Seconds(d))
  {
    hide Decimal, Number, Pow10;
  }

  lemma Parts(d: nat)
    ensures d / MINUTE * MINUTE + d % MINUTE == d
    ensures d / HOUR * HOUR + d / MINUTE % 60 * MINUTE + d % MINUTE == d
  {
    assert d / MINUTE / 60 == d / HOUR;
  }

  lemma ParsePositive(d: nat)
    requires d > 0
    ensures Terms(ShowPositive(d)) == Some(d)
  {
    hide Terms, Decimal, Seconds, ShowPositive;
    Parts(d);
    if d < SECOND {
      ParseSmall(d);
    } else {
      ShowLarge(d);
      ParseSeconds(d);
      if MINUTE <= d < HOUR {
        ParseMinutes(d / MINUTE, Seconds(d));
      } else if HOUR <= d {
        var n := d / MINUTE % 60;
        var minutes := Decimal(n) + "m" + Seconds(d);
        ParseMinutes(n, Seconds(d));
        ParseMinutes(d / HOUR, minutes);
      }
    }
  }

  lemma TermsOfNothing()
    ensures Terms("") == Some(0)
  {
  }

  /** Every duration, of either sign and to the nanosecond, is read back as it was. */
  lemma ParseOfShow(d: int)
    ensures Parse(Show(d)) == Some(d)
  {
    hide Terms, Number, Decimal, Fraction;
    if d == 0 {
      ZeroSeconds();
    } else {
      var n := if d < 0 then -d else d;
      ParsePositive(n);
      ShowShape(n);
      assert ("-" + ShowPositive(n))[1..] == ShowPositive(n);
    }
  }

  lemma ZeroSeconds()
    ensures Terms("0s") == Some(0)
  {
    UnitsAreUnits();
    TermsOfNothing();
    WholeTerm(0, "s", "");
    assert Decimal(0) + "s" + "" == "0s";
  }

  /** It starts with a digit, ends with a unit and is one line. */
  predicate Shaped(s: string) {
    |s| > 1 && IsDigit(s[0]) && s[|s| - 1] in "smh" && '\n' !in s
  }

  lemma NumberShape(n: nat, f: nat, width: nat, unit: string)
    requires f < Pow10(width) && unit != "" && unit[|unit| - 1] in "smh" && '\n' !in unit
    ensures Shaped(Number(n, f, width) + unit)
  {
    hide Decimal, Fraction, Pow10;
    FractionValue(f, width);
    var s := Number(n, f, width) + unit;
    assert s[0] == Decimal(n)[0] && s[|s| - 1] == unit[|unit| - 1];
  }

  lemma WholeShape(n: nat, rest: string)
    requires Shaped(rest)
    ensures Shaped(Decimal(n) + "m" + rest) && Shaped(Decimal(n) + "h" + rest)
  {
    hide Decimal;
    var m, h := Decimal(n) + "m" + rest, Decimal(n) + "h" + rest;
    assert m[|m| - 1] == rest[|rest| - 1] && h[|h| - 1] == rest[|rest| - 1];
  }

  lemma ShowShape(d: nat)
    requires d > 0
    ensures Shaped(ShowPositive(d))
  {
    hide Decimal, Fraction, Pow10, Number, Shaped;
    Pow10Values();
    if d < MICRO {
      assert Number(d, 0, 0) + "ns" == Decimal(d) + "ns" by { WholeNumber(d); }
      NumberShape(d, 0, 0, "ns");
    } else if d < MILLI {
      NumberShape(d / MICRO, d % MICRO, 3, MICRO_SIGN);
    } else if d < SECOND {
      NumberShape(d / MILLI, d % MILLI, 6, "ms");
    } else {
      NumberShape(d / SECOND % 60, d % SECOND, 9, "s");
      ShowLarge(d);
      WholeShape(d / MINUTE % 60, Seconds(d));
      WholeShape(d / MINUTE, Seconds(d));
      WholeShape(d / HOUR, Decimal(d / MINUTE % 60) + "m" + Seconds(d));
    }
  }

  lemma WholeNumber(d: nat)
    ensures 0 < Pow10(0) && Number(d, 0, 0) == Decimal(d)
  {
  }

  /** The text of a duration has no white space, quote or line break in it. */
  lemma ShowIsPlain(d: int)
    ensures var s := Show(d); s != "" && Trimmed(s) && '\n' !in s && s[0] != '"' && s[0] != '\''
  {
    hide ShowPositive;
    if d != 0 {
      ShowShape(if d < 0 then -d else d);
    }
  }
}
