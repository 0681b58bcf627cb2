/**
 * Python's `datetime.date` as far as the model needs it: a date is its
 * proleptic Gregorian ordinal (`date.toordinal()`, 1 January of year 1 is
 * day 1), so comparing two dates is comparing integers and `(a - b).days`
 * is a subtraction. `FromIsoFormat` is `date.fromisoformat` in its strict
 * YYYY-MM-DD form.
 */
module IsoDate {
  import opened Wrappers

  const MINYEAR: int := 1
  const MAXYEAR: int := 9999

  /** A calendar date as year, month and day. */
  datatype Date = Date(year: int, month: int, day: int)

  predicate IsLeap(year: int)
  {
    year % 4 == 0 && (year % 100 != 0 || year % 400 == 0)
  }

  function DaysInYear(year: int): int
  {
    if IsLeap(year) then 366 else 365
  }

  function DaysInMonth(year: int, month: int): int
    requires 1 <= month <= 12
  {
    if month == 2 then (if IsLeap(year) then 29 else 28)
    else if month == 4 || month == 6 || month == 9 || month == 11 then 30
    else 31
  }

  /** The days of `year` before the first of `month`. */
  function DaysBeforeMonth(year: int, month: int): int
    requires 1 <= month <= 12
  {
    [0, 31, 59, 90, 120, 151, 181, 212, 243, 273, 304, 334][month - 1] +
    (if month > 2 && IsLeap(year) then 1 else 0)
  }

  /** The days before 1 January of `year`, counted from 1 January of year 1. */
  function DaysBeforeYear(year: int): int
    requires year >= 1
  {
    var y := year - 1;
    y * 365 + y / 4 - y / 100 + y / 400
  }

  /** What `date(year, month, day)` accepts without raising. */
  predicate ValidDate(d: Date)
  {
    MINYEAR <= d.year <= MAXYEAR && 1 <= d.month <= 12 && 1 <= d.day <= DaysInMonth(d.year, d.month)
  }

  /** `date.toordinal()`. */
  function ToOrdinal(d: Date): int
    requires ValidDate(d)
  {
    DaysBeforeYear(d.year) + DaysBeforeMonth(d.year, d.month) + d.day
  }

  /** Python's ordering of dates: by year, then month, then day. */
  predicate Before(a: Date, b: Date)
  {
    a.year < b.year ||
    (a.year == b.year && (a.month < b.month || (a.month == b.month && a.day < b.day)))
  }

  lemma MonthStep(year: int, month: int)
    requires 1 <= month < 12
    ensures DaysBeforeMonth(year, month) + DaysInMonth(year, month) == DaysBeforeMonth(year, month + 1)
  {
  }

  lemma LastMonth(year: int)
    ensures DaysBeforeMonth(year, 12) + DaysInMonth(year, 12) == DaysInYear(year)
  {
  }

  /** Going from `y` to `y + 1` adds one multiple of `d` exactly when `y + 1` is one. */
  lemma QuotientStep(y: int, d: int)
    requires y >= 0 && d in {4, 100, 400}
    ensures (y + 1) / d == y / d + (if (y + 1) % d == 0 then 1 else 0)
  {
    if d == 4 {
    } else if d == 100 {
    } else {
    }
  }

  /** Every multiple of 400 is one of 100, and every multiple of 100 one of 4. */
  lemma Multiples(n: int)
    ensures n % 400 == 0 ==> n % 100 == 0
    ensures n % 100 == 0 ==> n % 4 == 0
  {
    var q4, r4 := n / 4, n % 4;
    var q100, r100 := n / 100, n % 100;
    var q400, r400 := n / 400, n % 400;
    if r400 == 0 {
      assert n == 100 * (4 * q400) && n == 100 * q100 + r100;
      assert 100 * (4 * q400 - q100) == r100;
    }
    if r100 == 0 {
      assert n == 4 * (25 * q100) && n == 4 * q4 + r4;
      assert 4 * (25 * q100 - q4) == r4;
    }
  }

  lemma YearStep(year: int)
    requires year >= 1
    ensures DaysBeforeYear(year + 1) == DaysBeforeYear(year) + DaysInYear(year)
  {
    var y := year - 1;
    QuotientStep(y, 4);
    QuotientStep(y, 100);
    QuotientStep(y, 400);
    Multiples(year);
    var leapDays := (if year % 4 == 0 then 1 else 0) - (if year % 100 == 0 then 1 else 0) +
                    (if year % 400 == 0 then 1 else 0);
    assert leapDays == if IsLeap(year) then 1 else 0;
    assert DaysBeforeYear(year + 1) == year * 365 + year / 4 - year / 100 + year / 400;
    assert DaysBeforeYear(year) == y * 365 + y / 4 - y / 100 + y / 400;
  }

  /** Months start later the later they are in the year. */
  lemma {:induction false} MonthsIncrease(year: int, m1: int, m2: int)
    requires 1 <= m1 < m2 <= 12
    ensures DaysBeforeMonth(year, m1) + DaysInMonth(year, m1) <= DaysBeforeMonth(year, m2)
    decreases m2 - m1
  {
    MonthStep(year, m1);
    if m1 + 1 < m2 {
      MonthsIncrease(year, m1 + 1, m2);
    }
  }

  /** Every day of `y1` comes before every day of a later year. */
  lemma {:induction false} YearsIncrease(y1: int, y2: int)
    requires 1 <= y1 < y2
    ensures DaysBeforeYear(y1) + DaysInYear(y1) <= DaysBeforeYear(y2)
    decreases y2 - y1
  {
    YearStep(y1);
    if y1 + 1 < y2 {
      YearsIncrease(y1 + 1, y2);
    }
  }

  /** The day of the year of a valid date lies between 1 and the length of its year. */
  lemma DayOfYearBounds(d: Date)
    requires ValidDate(d)
    ensures 1 <= DaysBeforeMonth(d.year, d.month) + d.day <= DaysInYear(d.year)
  {
    if d.month < 12 {
      MonthsIncrease(d.year, d.month, 12);
    }
    LastMonth(d.year);
  }

  /** A date before another has a smaller ordinal. */
  lemma BeforeMeansSmaller(a: Date, b: Date)
    requires ValidDate(a) && ValidDate(b) && Before(a, b)
    ensures ToOrdinal(a) < ToOrdinal(b)
  {
    DayOfYearBounds(a);
    DayOfYearBounds(b);
    if a.year < b.year {
      YearsIncrease(a.year, b.year);
    } else if a.month < b.month {
      MonthsIncrease(a.year, a.month, b.month);
    }
  }

  /**
   * Ordinals order dates as Python does and tell them apart, so the model
   * may compare and subtract day numbers where the source compares and
   * subtracts dates.
   */
  lemma OrdinalOrder(a: Date, b: Date)
    requires ValidDate(a) && ValidDate(b)
    ensures ToOrdinal(a) < ToOrdinal(b) <==> Before(a, b)
    ensures ToOrdinal(a) == ToOrdinal(b) <==> a == b
  {
    if Before(a, b) {
      BeforeMeansSmaller(a, b);
    } else if Before(b, a) {
      BeforeMeansSmaller(b, a);
    }
  }

  predicate IsDigit(c: char)
  {
    '0' <= c <= '9'
  }

  predicate AllDigits(s: string)
  {
    forall i :: 0 <= i < |s| ==> IsDigit(s[i])
  }

  /** The number a string of decimal digits spells. */
  function Number(s: string): nat
    requires AllDigits(s)
  {
    if |s| == 0 then 0 else Number(s[..|s| - 1]) * 10 + (s[|s| - 1] as int - '0' as int)
  }

  /** The fields a YYYY-MM-DD string spells, when its shape is right. */
  predicate IsoShaped(s: string)
  {
    |s| == 10 && s[4] == '-' && s[7] == '-' && AllDigits(s[..4]) && AllDigits(s[5..7]) && AllDigits(s[8..])
  }

  function Spelled(s: string): Date
    requires IsoShaped(s)
  {
    Date(Number(s[..4]), Number(s[5..7]), Number(s[8..]))
  }

  /** `date.fromisoformat(s)` as a day number; None where it raises ValueError. */
  function FromIsoFormat(s: string): (r: Maybe<int>)
    ensures r.Some? ==> |s| == 10
  {
    if IsoShaped(s) && ValidDate(Spelled(s)) then Some(ToOrdinal(Spelled(s))) else None
  }

  function Digit(n: int): char
    requires 0 <= n < 10
  {
    ('0' as int + n) as char
  }

  /** `n` written with exactly `width` digits, zero-padded on the left. */
  function Padded(n: nat, width: nat): (s: string)
    ensures |s| == width && AllDigits(s)
  {
    if width == 0 then [] else Padded(n / 10, width - 1) + [Digit(n % 10)]
  }

  function Pow10(k: nat): nat
  {
    if k == 0 then 1 else 10 * Pow10(k - 1)
  }

  lemma {:induction false} NumberOfPadded(n: nat, width: nat)
    requires n < Pow10(width)
    ensures Number(Padded(n, width)) == n
  {
    if width > 0 {
      var s := Padded(n, width);
      assert s[..|s| - 1] == Padded(n / 10, width - 1);
      NumberOfPadded(n / 10, width - 1);
    }
  }

  /** A string of digits is the zero-padded form of the number it spells. */
  lemma {:induction false} PaddedOfNumber(t: string)
    requires AllDigits(t)
    ensures Number(t) < Pow10(|t|)
    ensures Padded(Number(t), |t|) == t
  {
    if |t| > 0 {
      var front := t[..|t| - 1];
      assert AllDigits(front);
      PaddedOfNumber(front);
      var digit := t[|t| - 1] as int - '0' as int;
      assert Number(t) / 10 == Number(front) && Number(t) % 10 == digit;
      assert Digit(digit) == t[|t| - 1];
      assert t == front + [t[|t| - 1]];
    }
  }

  /** A well-shaped string is the ISO form of the date it spells. */
  lemma IsoFormatOfSpelled(s: string)
    requires IsoShaped(s) && ValidDate(Spelled(s))
    ensures IsoFormat(Spelled(s)) == s
  {
    var d := Spelled(s);
    var ys, ms, ds := s[..4], s[5..7], s[8..];
    PaddedOfNumber(ys);
    PaddedOfNumber(ms);
    PaddedOfNumber(ds);
    assert Padded(d.year, 4) == ys && Padded(d.month, 2) == ms && Padded(d.day, 2) == ds;
    assert IsoFormat(d) == ys + "-" + ms + "-" + ds;
    IsoSplit(s);
  }

  /** A 10-character string with dashes at 4 and 7 is its three fields joined by dashes. */
  lemma IsoSplit(s: string)
    requires |s| == 10 && s[4] == '-' && s[7] == '-'
    ensures s == s[..4] + "-" + s[5..7] + "-" + s[8..]
  {
    var t := s[..4] + "-" + s[5..7] + "-" + s[8..];
    assert |t| == 10;
    forall k | 0 <= k < 10
      ensures t[k] == s[k]
    {
    }
  }

  /** `date.isoformat()`: YYYY-MM-DD. */
  function IsoFormat(d: Date): string
    requires ValidDate(d)
  {
    Padded(d.year, 4) + "-" + Padded(d.month, 2) + "-" + Padded(d.day, 2)
  }

  /** A parse succeeds only on the YYYY-MM-DD form of a valid date, and gives that date. */
  lemma FromIsoFormatSpells(s: string)
    requires FromIsoFormat(s).Some?
    ensures exists d :: ValidDate(d) && s == IsoFormat(d) && FromIsoFormat(s).value == ToOrdinal(d)
  {
    IsoFormatOfSpelled(s);
    assert ValidDate(Spelled(s)) && s == IsoFormat(Spelled(s));
  }

  /** `date.fromisoformat(d.isoformat())` gives back `d`. */
  lemma FromIsoFormatOfIsoFormat(d: Date)
    requires ValidDate(d)
    ensures FromIsoFormat(IsoFormat(d)) == Some(ToOrdinal(d))
  {
    var ys, ms, ds := Padded(d.year, 4), Padded(d.month, 2), Padded(d.day, 2);
    var s := IsoFormat(d);
    assert s == ys + "-" + ms + "-" + ds;
    assert |s| == 10;
    assert s[..4] == ys && s[4] == '-' && s[5..7] == ms && s[7] == '-' && s[8..] == ds;
    assert Pow10(2) == 100 && Pow10(4) == 10000 by {
      assert Pow10(1) == 10;
      assert Pow10(3) == 1000;
    }
    NumberOfPadded(d.year, 4);
    NumberOfPadded(d.month, 2);
    NumberOfPadded(d.day, 2);
  }
}
