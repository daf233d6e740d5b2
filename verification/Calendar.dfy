/**
  Period labels in the mock Knovas API (`mock_knovas_api/app.py`): `_period_label` prints
  an interval of days, `_interval` reads it back. A `ValueError` of Python's `date`, which
  knows the years 1 to 9999, is `Overflow`.
 */
module Calendar {
  import opened Prelude
  import opened Strings

  datatype Date = Date(year: nat, month: nat, day: nat)

  predicate IsLeap(year: nat) { year % 4 == 0 && (year % 100 != 0 || year % 400 == 0) }

  function DaysIn(year: nat, month: nat): nat {
    if month == 2 then if IsLeap(year) then 29 else 28
    else if month == 4 || month == 6 || month == 9 || month == 11 then 30
    else 31
  }

  predicate IsDate(d: Date) { 1 <= d.year <= 9999 && 1 <= d.month <= 12 && 1 <= d.day <= DaysIn(d.year, d.month) }

  /** `d - timedelta(days=1)` */
  function DayBefore(d: Date): Date
    requires IsDate(d) && d != Date(1, 1, 1)
  {
    if d.day > 1 then d.(day := d.day - 1)
    else if d.month > 1 then Date(d.year, d.month - 1, DaysIn(d.year, d.month - 1))
    else Date(d.year - 1, 12, 31)
  }

  /** `_last_day`: the day before the next month begins; there is none after December 9999. */
  function LastDay(year: nat, month: nat): Option<Date>
    requires 1 <= year <= 9999 && 1 <= month <= 12
  {
    var next := Date(if month == 12 then year + 1 else year, month % 12 + 1, 1);
    if next.year > 9999 then None else Some(DayBefore(next))
  }

  lemma LastDayIsLast(year: nat, month: nat)
    requires 1 <= year <= 9999 && 1 <= month <= 12
    ensures LastDay(year, month).None? <==> year == 9999 && month == 12
    ensures LastDay(year, month).Some? ==> LastDay(year, month).value == Date(year, month, DaysIn(year, month))
  {
  }

  // ----- against the proleptic ordinal ------------------------------------------------------

  /** The leap days of the years before `year`, as the calendar of `date.toordinal` counts them. */
  function LeapDays(year: nat): nat
    requires year >= 1
  {
    (year - 1) / 4 - (year - 1) / 100 + (year - 1) / 400
  }

  const DAYS_BEFORE_MONTH: seq<nat> := [0, 31, 59, 90, 120, 151, 181, 212, 243, 273, 304, 334, 365]

  /** `date.toordinal`: the first of January of the year 1 is day 1. */
  function Ordinal(d: Date): nat
    requires d.year >= 1 && 1 <= d.month <= 12
  {
    DaysBefore(d.year, d.month) + d.day
  }

  /** The days before a month begins. */
  function DaysBefore(year: nat, month: nat): nat
    requires year >= 1 && 1 <= month <= 12
  {
    (year - 1) * 365 + LeapDays(year) + DAYS_BEFORE_MONTH[month - 1]
    + if month > 2 && LeapDays(year + 1) > LeapDays(year) then 1 else 0
  }

  lemma EveryFourth(n: nat)
    requires n >= 1
    ensures n / 4 == (n - 1) / 4 + if n % 4 == 0 then 1 else 0
  {
  }

  lemma EveryHundredth(n: nat)
    requires n >= 1
    ensures n / 100 == (n - 1) / 100 + if n % 100 == 0 then 1 else 0
  {
  }

  lemma EveryFourHundredth(n: nat)
    requires n >= 1
    ensures n / 400 == (n - 1) / 400 + if n % 400 == 0 then 1 else 0
  {
  }

  lemma Multiples(n: nat)
    ensures n % 100 == 0 ==> n % 4 == 0
    ensures n % 400 == 0 ==> n % 100 == 0
  {
    if n % 100 == 0 {
      assert n == 4 * (25 * (n / 100));
    }
    if n % 400 == 0 {
      assert n == 100 * (4 * (n / 400));
    }
  }

  lemma LeapExactly(year: nat)
    requires year >= 1
    ensures LeapDays(year + 1) == LeapDays(year) + if IsLeap(year) then 1 else 0
  {
    EveryFourth(year);
    EveryHundredth(year);
    EveryFourHundredth(year);
    Multiples(year);
  }

  /** A month is as long as the next one begins after it. */
  lemma MonthLength(year: nat, month: nat)
    requires year >= 1 && 1 <= month <= 12
    ensures DaysIn(year, month)
         == DAYS_BEFORE_MONTH[month] - DAYS_BEFORE_MONTH[month - 1]
            + if month == 2 && LeapDays(year + 1) > LeapDays(year) then 1 else 0
  {
    LeapExactly(year);
  }

  /** The day before is one day earlier, across months, years and leap days. */
  lemma DayBeforeIsOneLess(d: Date)
    requires IsDate(d) && d != Date(1, 1, 1)
    ensures IsDate(DayBefore(d)) && Ordinal(DayBefore(d)) == Ordinal(d) - 1
  {
    DayBeforeIsDate(d);
    var b := DayBefore(d);
    if d.day > 1 {
      assert b.year == d.year && b.month == d.month && b.day == d.day - 1;
    } else if d.month > 1 {
      EndOfMonth(d.year, d.month - 1);
    } else {
      EndOfYear(d.year - 1);
    }
  }

  lemma DayBeforeIsDate(d: Date)
    requires IsDate(d) && d != Date(1, 1, 1)
    ensures IsDate(DayBefore(d))
  {
  }

  lemma EndOfMonth(year: nat, month: nat)
    requires year >= 1 && 1 <= month <= 11
    ensures DaysBefore(year, month + 1) == DaysBefore(year, month) + DaysIn(year, month)
  {
    MonthLength(year, month);
  }

  lemma EndOfYear(year: nat)
    requires year >= 1
    ensures DaysBefore(year + 1, 1) == DaysBefore(year, 12) + 31
  {
    LeapExactly(year);
  }

  // ----- printing -----------------------------------------------------------------------

  function TwoDigits(n: nat): string
    requires n < 100
  {
    [Digit(n / 10), Digit(n % 10)]
  }

  function FourDigits(n: nat): string
    requires n < 10000
  {
    TwoDigits(n / 100) + TwoDigits(n % 100)
  }

  function IsoFormat(d: Date): string
    requires IsDate(d)
  {
    FourDigits(d.year) + "-" + TwoDigits(d.month) + "-" + TwoDigits(d.day)
  }

  datatype Printed = Label(text: string) | Range(text: string) | LabelOverflow

  /** The forms a label can have, in the order in which `_period_label` tries them. */
  datatype Form = DayForm | YearForm | HalfForm(half: nat) | QuarterForm(quarter: nat) | MonthForm | RangeForm | NoForm

  function FormOf(lo: Date, hi: Date): Form
    requires IsDate(lo) && IsDate(hi)
  {
    var first, same := lo.day == 1, lo.year == hi.year;
    if lo == hi then DayForm
    else if lo == Date(lo.year, 1, 1) && hi == Date(lo.year, 12, 31) then YearForm
    else if first && same && lo.month == 7 && LastDay(lo.year, 12).None? then NoForm
    else if first && same && lo.month in {1, 7} && Some(hi) == LastDay(lo.year, lo.month + 5) then
      HalfForm(if lo.month == 1 then 1 else 2)
    else if first && same && lo.month == 10 && LastDay(lo.year, 12).None? then NoForm
    else if first && same && lo.month in {1, 4, 7, 10} && Some(hi) == LastDay(lo.year, lo.month + 2) then
      QuarterForm((lo.month + 2) / 3)
    else if first && LastDay(lo.year, lo.month).None? then NoForm
    else if first && Some(hi) == LastDay(lo.year, lo.month) then MonthForm
    else RangeForm
  }

  function PeriodLabel(lo: Date, hi: Date): Printed
    requires IsDate(lo) && IsDate(hi)
  {
    match FormOf(lo, hi)
    case DayForm => Label(IsoFormat(lo))
    case YearForm => Label(Decimal(lo.year))
    case HalfForm(n) => Label(Decimal(lo.year) + "-H" + [Digit(n)])
    case QuarterForm(n) => Label(Decimal(lo.year) + "-Q" + [Digit(n)])
    case MonthForm => Label(Decimal(lo.year) + "-" + TwoDigits(lo.month))
    case RangeForm => Range(IsoFormat(lo) + "/" + IsoFormat(hi))
    case NoForm => LabelOverflow
  }

  // ----- reading ---------------------------------------------------------------------------

  datatype Parsed = Interval(lo: Date, hi: Date) | Refused | Overflow

  predicate AllDigits(s: string) { forall i :: 0 <= i < |s| ==> IsDigit(s[i]) }

  function Value(s: string): nat
    requires AllDigits(s)
  {
    if s == "" then 0 else 10 * Value(s[..|s| - 1]) + (s[|s| - 1] - '0') as nat
  }

  function Months(year: nat, first: nat, last: nat): Parsed
    requires year <= 9999 && 1 <= first <= last <= 12
  {
    if year == 0 || LastDay(year, last).None? then Overflow
    else Interval(Date(year, first, 1), LastDay(year, last).value)
  }

  /** The spellings that no label has: with a point, a blank or a dash, or beginning with a letter. */
  predicate OtherSpelling(s: string) {
    s == "" || !IsDigit(s[0]) || '.' in s || ' ' in s || '\U{2013}' in s || '\U{2014}' in s
  }

  /** `_interval` for a period; `other` is what the remaining spellings give. */
  function Parse(s: string, other: string -> Parsed): Parsed {
    if OtherSpelling(s) then other(s)
    else if |s| == 10 && AllDigits(s[..4]) && s[4] == '-' && AllDigits(s[5..7]) && s[7] == '-' && AllDigits(s[8..]) then
      var d := Date(Value(s[..4]), Value(s[5..7]), Value(s[8..]));
      if IsDate(d) then Interval(d, d) else Refused
    else if |s| == 7 && AllDigits(s[..4]) && s[4] == '-' && AllDigits(s[5..]) then
      var year, month := Year(s), Value(s[5..]);
      if 1 <= month <= 12 then Months(year, month, month) else Refused
    else if |s| == 7 && AllDigits(s[..4]) && s[4..6] == "-Q" && '1' <= s[6] <= '4' then
      var n := (s[6] - '0') as nat;
      Months(Year(s), 3 * n - 2, 3 * n)
    else if |s| == 7 && AllDigits(s[..4]) && s[4..6] == "-H" && '1' <= s[6] <= '2' then
      var n := (s[6] - '0') as nat;
      Months(Year(s), 6 * n - 5, 6 * n)
    else if |s| == 4 && AllDigits(s) then
      if Year(s) == 0 then Overflow else Interval(Date(Year(s), 1, 1), Date(Year(s), 12, 31))
    else Refused
  }

  function Year(s: string): (y: nat)
    requires |s| >= 4 && AllDigits(s[..4])
    ensures y <= 9999
  {
    ValueFour(s[..4]);
    Value(s[..4])
  }

  // ----- digits ------------------------------------------------------------------------------

  lemma ValueTwo(s: string)
    requires |s| == 2 && AllDigits(s)
    ensures Value(s) == 10 * (s[0] - '0') as nat + (s[1] - '0') as nat
  {
    var one := s[..1];
    assert one[..0] == "" && one[0] == s[0];
    assert Value(one) == 10 * Value(one[..0]) + (one[0] - '0') as nat;
  }

  lemma ValueFour(s: string)
    requires |s| == 4 && AllDigits(s)
    ensures Value(s) == 100 * Value(s[..2]) + Value(s[2..]) <= 9999
  {
    ValueTwo(s[..2]);
    ValueTwo(s[2..]);
    assert s[..3][..2] == s[..2];
  }

  lemma TwoDigitsRead(n: nat)
    requires n < 100
    ensures AllDigits(TwoDigits(n)) && Value(TwoDigits(n)) == n
  {
    ValueTwo(TwoDigits(n));
  }

  lemma FourDigitsRead(n: nat)
    requires n < 10000
    ensures |FourDigits(n)| == 4 && AllDigits(FourDigits(n)) && Value(FourDigits(n)) == n
  {
    TwoDigitsRead(n / 100);
    TwoDigitsRead(n % 100);
    ValueFour(FourDigits(n));
    assert FourDigits(n)[..2] == TwoDigits(n / 100) && FourDigits(n)[2..] == TwoDigits(n % 100);
  }

  lemma DecimalIsFour(year: nat)
    requires 1000 <= year <= 9999
    ensures Decimal(year) == FourDigits(year)
  {
    var a, b := year / 10, year / 100;
    assert a / 10 == b && b / 10 == year / 1000 && year / 1000 < 10;
    assert Decimal(b) == Decimal(b / 10) + [Digit(b % 10)] == [Digit(b / 10), Digit(b % 10)];
    assert Decimal(a) == Decimal(b) + [Digit(a % 10)];
    assert (year % 100) / 10 == a % 10 && (year % 100) % 10 == year % 10;
    assert Decimal(year) == Decimal(a) + [Digit(year % 10)];
  }

  lemma DecimalIsShort(year: nat)
    requires year < 1000
    ensures 1 <= |Decimal(year)| <= 3 && AllDigits(Decimal(year))
  {
    if year >= 10 {
      assert Decimal(year) == Decimal(year / 10) + [Digit(year % 10)];
      if year >= 100 {
        assert Decimal(year / 10) == Decimal(year / 100) + [Digit(year / 10 % 10)];
      }
    }
  }

  // ----- the round trip -----------------------------------------------------------------------

  /** A text that starts with four digits and goes on without blanks, points and long dashes is read as written here. */
  lemma PlainSpelling(year: nat, rest: string)
    requires year <= 9999
    requires '.' !in rest && ' ' !in rest && '\U{2013}' !in rest && '\U{2014}' !in rest
    ensures !OtherSpelling(FourDigits(year) + rest)
    ensures AllDigits((FourDigits(year) + rest)[..4]) && Value((FourDigits(year) + rest)[..4]) == year
    ensures (FourDigits(year) + rest)[4..] == rest
  {
    var s := FourDigits(year) + rest;
    FourDigitsRead(year);
    assert s[..4] == FourDigits(year);
    forall c | c == '.' || c == ' ' || c == '\U{2013}' || c == '\U{2014}' ensures c !in s {
      assert forall i :: 0 <= i < 4 ==> IsDigit(s[i]);
      assert forall i :: 4 <= i < |s| ==> s[i] == rest[i - 4];
    }
  }

  lemma DayReads(d: Date, other: string -> Parsed)
    requires IsDate(d)
    ensures Parse(IsoFormat(d), other) == Interval(d, d)
  {
    var rest := "-" + TwoDigits(d.month) + "-" + TwoDigits(d.day);
    var s := IsoFormat(d);
    assert s == FourDigits(d.year) + rest;
    TwoDigitsRead(d.month);
    TwoDigitsRead(d.day);
    PlainSpelling(d.year, rest);
    assert s[5..7] == rest[1..3] == TwoDigits(d.month) && s[8..] == rest[4..] == TwoDigits(d.day);
  }

  lemma YearReads(year: nat, other: string -> Parsed)
    requires 1 <= year <= 9999
    ensures Parse(FourDigits(year), other) == Interval(Date(year, 1, 1), Date(year, 12, 31))
  {
    PlainSpelling(year, "");
    FourDigitsRead(year);
    var s := FourDigits(year);
    assert s + "" == s && s[..4] == s;
  }

  lemma MonthReads(year: nat, month: nat, other: string -> Parsed)
    requires 1 <= year <= 9999 && 1 <= month <= 12
    ensures Parse(FourDigits(year) + "-" + TwoDigits(month), other) == Months(year, month, month)
  {
    var rest := "-" + TwoDigits(month);
    var s := FourDigits(year) + "-" + TwoDigits(month);
    assert s == FourDigits(year) + rest;
    TwoDigitsRead(month);
    PlainSpelling(year, rest);
    assert s[5..] == rest[1..] == TwoDigits(month);
  }

  lemma PartReads(year: nat, letter: char, n: nat, other: string -> Parsed)
    requires 1 <= year <= 9999 && ((letter == 'Q' && 1 <= n <= 4) || (letter == 'H' && 1 <= n <= 2))
    ensures Parse(FourDigits(year) + ['-', letter, Digit(n)], other)
         == if letter == 'Q' then Months(year, 3 * n - 2, 3 * n) else Months(year, 6 * n - 5, 6 * n)
  {
    var rest := ['-', letter, Digit(n)];
    var s := FourDigits(year) + rest;
    PlainSpelling(year, rest);
    FourDigitsRead(year);
    assert s[4] == '-' && s[5] == letter && s[6] == Digit(n);
    assert s[4..6] == ['-', letter];
    assert !IsDigit(s[5..][0]);
  }

  /** The interval a form stands for is the one it was chosen for. */
  lemma FormFits(lo: Date, hi: Date)
    requires IsDate(lo) && IsDate(hi)
    ensures match FormOf(lo, hi)
            case YearForm => lo == Date(lo.year, 1, 1) && hi == Date(lo.year, 12, 31)
            case HalfForm(n) => 1 <= n <= 2 && Months(lo.year, 6 * n - 5, 6 * n) == Interval(lo, hi)
            case QuarterForm(n) => 1 <= n <= 4 && Months(lo.year, 3 * n - 2, 3 * n) == Interval(lo, hi)
            case MonthForm => Months(lo.year, lo.month, lo.month) == Interval(lo, hi)
            case _ => true
  {
  }

  /** What a label with a four-digit year reads as. */
  lemma LabelReads(lo: Date, hi: Date, other: string -> Parsed)
    requires IsDate(lo) && IsDate(hi) && lo.year >= 1000 && PeriodLabel(lo, hi).Label?
    ensures Parse(PeriodLabel(lo, hi).text, other) == Interval(lo, hi)
  {
    DecimalIsFour(lo.year);
    FormFits(lo, hi);
    FormReads(lo, FormOf(lo, hi), other);
    if FormOf(lo, hi) == DayForm {
      DayReads(lo, other);
    }
  }

  lemma FormReads(lo: Date, form: Form, other: string -> Parsed)
    requires IsDate(lo) && lo.year >= 1000
    requires form.HalfForm? ==> 1 <= form.half <= 2
    requires form.QuarterForm? ==> 1 <= form.quarter <= 4
    ensures var y := FourDigits(lo.year);
            match form
            case YearForm => Parse(y, other) == Interval(Date(lo.year, 1, 1), Date(lo.year, 12, 31))
            case HalfForm(n) => Parse(y + "-H" + [Digit(n)], other) == Months(lo.year, 6 * n - 5, 6 * n)
            case QuarterForm(n) => Parse(y + "-Q" + [Digit(n)], other) == Months(lo.year, 3 * n - 2, 3 * n)
            case MonthForm => Parse(y + "-" + TwoDigits(lo.month), other) == Months(lo.year, lo.month, lo.month)
            case _ => true
  {
    var y := FourDigits(lo.year);
    match form {
      case YearForm => YearReads(lo.year, other);
      case HalfForm(n) =>
        assert y + "-H" + [Digit(n)] == y + ['-', 'H', Digit(n)];
        PartReads(lo.year, 'H', n, other);
      case QuarterForm(n) =>
        assert y + "-Q" + [Digit(n)] == y + ['-', 'Q', Digit(n)];
        PartReads(lo.year, 'Q', n, other);
      case MonthForm => MonthReads(lo.year, lo.month, other);
      case _ =>
    }
  }

  lemma ShortYearIsRefused(year: nat, rest: string, other: string -> Parsed)
    requires year < 1000 && (rest == "" || (|rest| == 3 && rest[0] == '-'))
    requires '.' !in rest && ' ' !in rest && '\U{2013}' !in rest && '\U{2014}' !in rest
    ensures Parse(Decimal(year) + rest, other) == Refused
  {
    DecimalIsShort(year);
    var y := Decimal(year);
    var s := y + rest;
    forall c | c == '.' || c == ' ' || c == '\U{2013}' || c == '\U{2014}' ensures c !in s {
      assert forall i :: 0 <= i < |y| ==> IsDigit(s[i]);
      assert forall i :: |y| <= i < |s| ==> s[i] == rest[i - |y|];
    }
    assert rest != "" ==> s[|y|] == '-';
  }

  lemma IsoFormatPlain(d: Date)
    requires IsDate(d)
    ensures |IsoFormat(d)| == 10 && IsDigit(IsoFormat(d)[0])
    ensures forall c :: c in IsoFormat(d) ==> IsDigit(c) || c == '-'
  {
    TwoDigitsRead(d.month);
    TwoDigitsRead(d.day);
    FourDigitsRead(d.year);
  }

  lemma RangeIsRefused(lo: Date, hi: Date, other: string -> Parsed)
    requires IsDate(lo) && IsDate(hi)
    ensures Parse(IsoFormat(lo) + "/" + IsoFormat(hi), other) == Refused
  {
    IsoFormatPlain(lo);
    IsoFormatPlain(hi);
  }

  /**
    Every label but a range reads back as exactly the interval it was printed for, from the year 1000 on and
    for single days in any year; no other label does.
   */
  lemma RoundTrip(lo: Date, hi: Date, other: string -> Parsed)
    requires IsDate(lo) && IsDate(hi) && !PeriodLabel(lo, hi).LabelOverflow?
    ensures Parse(PeriodLabel(lo, hi).text, other) == Interval(lo, hi)
       <==> PeriodLabel(lo, hi).Label? && (lo.year >= 1000 || lo == hi)
  {
    if PeriodLabel(lo, hi).Range? {
      RangeIsRefused(lo, hi, other);
    } else if lo.year >= 1000 {
      LabelReads(lo, hi, other);
    } else if lo == hi {
      DayReads(lo, other);
    } else {
      ShortLabelIsRefused(lo, hi, other);
    }
  }

  /** A range is its two ends: the halves of its text read back as the first and as the last day. */
  lemma RangeReads(lo: Date, hi: Date, other: string -> Parsed) returns (first: string, last: string)
    requires IsDate(lo) && IsDate(hi) && PeriodLabel(lo, hi).Range?
    ensures PeriodLabel(lo, hi).text == first + "/" + last && |first| == |last| == 10
    ensures Parse(first, other) == Interval(lo, lo) && Parse(last, other) == Interval(hi, hi)
  {
    first, last := IsoFormat(lo), IsoFormat(hi);
    assert PeriodLabel(lo, hi).text == first + "/" + last;
    BothRead(lo, hi, other);
  }

  lemma BothRead(lo: Date, hi: Date, other: string -> Parsed)
    requires IsDate(lo) && IsDate(hi)
    ensures |IsoFormat(lo)| == |IsoFormat(hi)| == 10
    ensures Parse(IsoFormat(lo), other) == Interval(lo, lo) && Parse(IsoFormat(hi), other) == Interval(hi, hi)
  {
    DayReads(lo, other);
    DayReads(hi, other);
  }

  lemma ShortLabelIsRefused(lo: Date, hi: Date, other: string -> Parsed)
    requires IsDate(lo) && IsDate(hi) && lo != hi && lo.year < 1000 && PeriodLabel(lo, hi).Label?
    ensures Parse(PeriodLabel(lo, hi).text, other) == Refused
  {
    var y := Decimal(lo.year);
    FormFits(lo, hi);
    match FormOf(lo, hi) {
      case YearForm =>
        assert y + "" == y;
        ShortYearIsRefused(lo.year, "", other);
      case HalfForm(n) =>
        assert y + "-H" + [Digit(n)] == y + ['-', 'H', Digit(n)];
        ShortYearIsRefused(lo.year, ['-', 'H', Digit(n)], other);
      case QuarterForm(n) =>
        assert y + "-Q" + [Digit(n)] == y + ['-', 'Q', Digit(n)];
        ShortYearIsRefused(lo.year, ['-', 'Q', Digit(n)], other);
      case MonthForm =>
        assert y + "-" + TwoDigits(lo.month) == y + ("-" + TwoDigits(lo.month));
        ShortYearIsRefused(lo.year, "-" + TwoDigits(lo.month), other);
    }
  }

  /** Printing fails exactly at the end of time: from the first of July, October or December 9999. */
  lemma LabelOverflowsExactly(lo: Date, hi: Date)
    requires IsDate(lo) && IsDate(hi) && lo.year <= hi.year
    ensures PeriodLabel(lo, hi).LabelOverflow? <==> lo != hi && lo.year == 9999 && lo.month in {7, 10, 12} && lo.day == 1
  {
  }

  /** Different intervals have different labels, from the year 1000 on. */
  lemma LabelsAreDistinct(lo: Date, hi: Date, lo': Date, hi': Date)
    requires IsDate(lo) && IsDate(hi) && IsDate(lo') && IsDate(hi') && lo.year >= 1000 && lo'.year >= 1000
    requires PeriodLabel(lo, hi).Label? && PeriodLabel(lo', hi').Label?
    requires PeriodLabel(lo, hi).text == PeriodLabel(lo', hi').text
    ensures lo == lo' && hi == hi'
  {
    var other := (s: string) => Refused;
    LabelReads(lo, hi, other);
    LabelReads(lo', hi', other);
  }

  /** Read and printed again, every month, quarter, half and year comes out in its own form. */
  lemma MonthsPrintBack(year: nat, n: nat)
    requires 1 <= year <= 9998 && 1 <= n <= 12
    ensures var p := Months(year, n, n); p.Interval? && IsDate(p.hi) && FormOf(p.lo, p.hi) == MonthForm
    ensures FormOf(Date(year, 1, 1), Date(year, 12, 31)) == YearForm
  {
    LastDayIsLast(year, n);
  }

  lemma QuartersPrintBack(year: nat, n: nat)
    requires 1 <= year <= 9998 && 1 <= n <= 4
    ensures var p := Months(year, 3 * n - 2, 3 * n); p.Interval? && IsDate(p.hi) && FormOf(p.lo, p.hi) == QuarterForm(n)
    ensures n <= 2 ==>
      var p := Months(year, 6 * n - 5, 6 * n); p.Interval? && IsDate(p.hi) && FormOf(p.lo, p.hi) == HalfForm(n)
  {
    LastDayIsLast(year, 3 * n);
  }
}
