/**
 * Proleptic Gregorian dates as Python's datetime keeps them: parsing with
 * strptime's "%Y-%m-%d", day ordinals (0001-01-01 is day 1), adding days
 * with a timedelta, and strftime's "%a" weekday abbreviation (C locale).
 */
module Calendar {
  import opened Wrappers
  import opened Decimal

  datatype Date = Date(year: int, month: int, day: int)

  const MinYear := 1
  const MaxYear := 9999

  predicate IsLeapYear(y: int) { y % 4 == 0 && (y % 100 != 0 || y % 400 == 0) }

  function DaysInYear(y: int): int { if IsLeapYear(y) then 366 else 365 }

  /** Month lengths of a common year, January first. */
  const MonthLengths: seq<int> := [31, 28, 31, 30, 31, 30, 31, 31, 30, 31, 30, 31]

  /** Days of a common year before the first of each month. */
  const DaysBeforeMonthTable: seq<int> := [0, 31, 59, 90, 120, 151, 181, 212, 243, 273, 304, 334]

  function DaysInMonth(y: int, m: int): int
    requires 1 <= m <= 12
  {
    if m == 2 && IsLeapYear(y) then 29 else MonthLengths[m - 1]
  }

  predicate ValidDate(d: Date)
  {
    MinYear <= d.year <= MaxYear && 1 <= d.month <= 12 && 1 <= d.day <= DaysInMonth(d.year, d.month)
  }

  const MaxDate := Date(MaxYear, 12, 31)

  /** Days before January 1st of year y, counted from 0001-01-01. */
  function DaysBeforeYear(y: int): (n: int)
    requires y >= 1
    ensures n >= 0
    decreases y
  {
    if y == 1 then 0 else DaysBeforeYear(y - 1) + DaysInYear(y - 1)
  }

  function DaysBeforeMonth(y: int, m: int): int
    requires 1 <= m <= 12
  {
    DaysBeforeMonthTable[m - 1] + (if m > 2 && IsLeapYear(y) then 1 else 0)
  }

  /** date.toordinal(): 0001-01-01 is day 1. */
  function Ordinal(d: Date): (o: int)
    requires ValidDate(d)
    ensures o >= 1
  {
    DaysBeforeYear(d.year) + DaysBeforeMonth(d.year, d.month) + d.day
  }

  /** The ordinal of 9999-12-31, the last date datetime can hold. */
  const MaxOrdinal := 3652059

  /** date.weekday(): Monday is 0 and Sunday is 6. */
  function Weekday(d: Date): (w: int)
    requires ValidDate(d)
    ensures 0 <= w < 7
  {
    (Ordinal(d) + 6) % 7
  }

  /** strftime('%a') in the C locale, indexed by weekday(). */
  const WeekdayNames: seq<string> := ["Mon", "Tue", "Wed", "Thu", "Fri", "Sat", "Sun"]

  /** The closed form datetime computes days before a year with: 365 a year plus the leap days. */
  lemma {:induction false} DaysBeforeYearFormula(y: int)
    requires y >= 1
    ensures var p := y - 1; DaysBeforeYear(y) == p * 365 + p / 4 - p / 100 + p / 400
    decreases y
  {
    if y > 1 {
      DaysBeforeYearFormula(y - 1);
      var p := y - 1;
      LeapDayCount(p);
      LeapDivisibility(p);
      if p % 400 == 0 {
        assert IsLeapYear(p);
      } else if p % 100 == 0 {
        assert !IsLeapYear(p);
      } else if p % 4 == 0 {
        assert IsLeapYear(p);
      } else {
        assert !IsLeapYear(p);
      }
    }
  }

  /** Going from year p to year p + 1 adds one leap day exactly when p is a leap year. */
  lemma {:induction false} LeapDayCount(p: int)
    requires p >= 1
    ensures p / 4 == (p - 1) / 4 + (if p % 4 == 0 then 1 else 0)
    ensures p / 100 == (p - 1) / 100 + (if p % 100 == 0 then 1 else 0)
    ensures p / 400 == (p - 1) / 400 + (if p % 400 == 0 then 1 else 0)
  {
  }

  lemma {:induction false} LeapDivisibility(p: int)
    ensures p % 400 == 0 ==> p % 100 == 0
    ensures p % 100 == 0 ==> p % 4 == 0
  {
    if p % 400 == 0 {
      MultipleOf400(p);
    }
    if p % 100 == 0 {
      MultipleOf100(p);
    }
  }

  lemma {:induction false} MultipleOf400(p: int)
    requires p % 400 == 0
    ensures p % 100 == 0
  {
    var k := p / 400;
    assert p == 400 * k;
    var j := 4 * k;
    assert p == 100 * j;
  }

  lemma {:induction false} MultipleOf100(p: int)
    requires p % 100 == 0
    ensures p % 4 == 0
  {
    var j := p / 100;
    assert p == 100 * j;
    var k := 25 * j;
    assert p == 4 * k;
  }

  lemma {:induction false} MonthStep(y: int, m: int)
    requires 1 <= m < 12
    ensures DaysBeforeMonth(y, m + 1) == DaysBeforeMonth(y, m) + DaysInMonth(y, m)
  {
  }

  lemma {:induction false} DaysBeforeYearMonotone(y1: int, y2: int)
    requires 1 <= y1 <= y2
    ensures DaysBeforeYear(y1) + (y2 - y1) * 365 <= DaysBeforeYear(y2)
    decreases y2 - y1
  {
    if y1 < y2 {
      DaysBeforeYearMonotone(y1 + 1, y2);
    }
  }

  /** Every date's ordinal lies in 1..MaxOrdinal, and only 9999-12-31 reaches the top. */
  lemma OrdinalBounds(d: Date)
    requires ValidDate(d)
    ensures 1 <= Ordinal(d) <= MaxOrdinal
    ensures Ordinal(d) == MaxOrdinal <==> d == MaxDate
  {
    var y := d.year;
    DayOfYearBounds(d);
    DaysBeforeYearMonotone(1, y);
    DaysBeforeYearFormula(MaxYear);
    assert DaysBeforeYear(MaxYear) == 3651694;
    assert MaxOrdinal == DaysBeforeYear(MaxYear) + DaysInYear(MaxYear);
    if y < MaxYear {
      assert DaysBeforeYear(y + 1) == DaysBeforeYear(y) + DaysInYear(y);
      DaysBeforeYearMonotone(y + 1, MaxYear);
      assert Ordinal(d) <= DaysBeforeYear(MaxYear);
    }
  }

  /** The day of the year lies in 1..DaysInYear, and only December 31st reaches the top. */
  lemma DayOfYearBounds(d: Date)
    requires ValidDate(d)
    ensures 1 <= DaysBeforeMonth(d.year, d.month) + d.day <= DaysInYear(d.year)
    ensures DaysBeforeMonth(d.year, d.month) + d.day == DaysInYear(d.year) <==> d.month == 12 && d.day == 31
  {
    if d.month < 12 {
      assert DaysBeforeMonth(d.year, d.month) + DaysInMonth(d.year, d.month) < DaysInYear(d.year);
    }
  }

  /** The calendar day after d. */
  function NextDay(d: Date): (r: Date)
    requires ValidDate(d) && d != MaxDate
    ensures ValidDate(r)
  {
    if d.day < DaysInMonth(d.year, d.month) then Date(d.year, d.month, d.day + 1)
    else if d.month < 12 then Date(d.year, d.month + 1, 1)
    else Date(d.year + 1, 1, 1)
  }

  /** The day after d is the next day number. */
  lemma NextDayOrdinal(d: Date)
    requires ValidDate(d) && d != MaxDate
    ensures Ordinal(NextDay(d)) == Ordinal(d) + 1
  {
    if d.day == DaysInMonth(d.year, d.month) && d.month < 12 {
      MonthStep(d.year, d.month);
    }
  }

  /**
   * d + timedelta(days=n), one day at a time: None where Python raises
   * OverflowError, past 9999-12-31.
   */
  function AddDays(d: Date, n: nat): (r: Option<Date>)
    requires ValidDate(d)
    ensures r.Some? ==> ValidDate(r.value)
    decreases n
  {
    if n == 0 then Some(d)
    else if d == MaxDate then None
    else AddDays(NextDay(d), n - 1)
  }

  /** Adding n days succeeds exactly when day number Ordinal(d) + n exists, and lands on it. */
  lemma {:induction false} AddDaysOrdinal(d: Date, n: nat)
    requires ValidDate(d)
    ensures AddDays(d, n).Some? <==> Ordinal(d) + n <= MaxOrdinal
    ensures AddDays(d, n).Some? ==> Ordinal(AddDays(d, n).value) == Ordinal(d) + n
    decreases n
  {
    OrdinalBounds(d);
    if n > 0 && d != MaxDate {
      NextDayOrdinal(d);
      AddDaysOrdinal(NextDay(d), n - 1);
    }
  }

  /** A date i days after another falls i weekdays later, wrapping around. */
  lemma {:induction false} WeekdayAfter(start: Date, i: int, later: Date)
    requires ValidDate(start) && ValidDate(later) && Ordinal(later) == Ordinal(start) + i
    ensures Weekday(later) == (Weekday(start) + i) % 7
  {
    WeekdayOfOrdinals(Ordinal(start), Ordinal(later), i);
  }

  lemma {:induction false} WeekdayOfOrdinals(o: int, o2: int, i: int)
    requires o2 == o + i
    ensures (o2 + 6) % 7 == ((o + 6) % 7 + i) % 7
  {
    ModSevenShift(o + 6, i);
  }

  lemma {:induction false} ModSevenShift(a: int, i: int)
    ensures (a + i) % 7 == (a % 7 + i) % 7
  {
    var q := a / 7;
    assert a == 7 * q + a % 7;
    assert a + i == 7 * q + (a % 7 + i);
  }

  /** strftime('%a') of the date i days after start. */
  function DayName(start: Date, i: nat): string
    requires ValidDate(start) && AddDays(start, i).Some?
  {
    WeekdayNames[Weekday(AddDays(start, i).value)]
  }

  /**
   * The "week" labels: strftime('%a') of the start date and of each of the
   * six days after it, None when one of those days overflows. The labels are
   * read off the weekday table from the start's weekday on;
   * WeekLabelNamesDay proves that this names the dates Python adds up.
   */
  function WeekLabels(start: Date): (r: Option<seq<string>>)
    requires ValidDate(start)
    ensures r.Some? <==> Ordinal(start) + 6 <= MaxOrdinal
    ensures r.Some? ==> |r.value| == 7
  {
    if Ordinal(start) + 6 > MaxOrdinal then None
    else
      var w := Weekday(start);
      Some(seq(7, i requires 0 <= i < 7 => WeekdayNames[(w + i) % 7]))
  }

  /** Week label i is strftime('%a') of the date i days after the start. */
  lemma WeekLabelNamesDay(start: Date, i: nat)
    requires ValidDate(start) && WeekLabels(start).Some? && i < 7
    ensures AddDays(start, i).Some?
    ensures WeekLabels(start).value[i] == DayName(start, i)
  {
    AddDaysOrdinal(start, i);
    var later := AddDays(start, i).value;
    WeekdayAfter(start, i, later);
  }

  /** The seven week labels name seven different days. */
  lemma WeekLabelsDistinct(start: Date)
    requires ValidDate(start) && WeekLabels(start).Some?
    ensures forall i, j :: 0 <= i < j < 7 ==> WeekLabels(start).value[i] != WeekLabels(start).value[j]
  {
    var labels, w := WeekLabels(start).value, Weekday(start);
    RotatedNamesDistinct(labels, w);
  }

  /** The position of each abbreviation in the weekday table. */
  const WeekdayIndex: map<string, int> :=
    map["Mon" := 0, "Tue" := 1, "Wed" := 2, "Thu" := 3, "Fri" := 4, "Sat" := 5, "Sun" := 6]

  lemma {:induction false} WeekdayIndexOf(a: int)
    requires 0 <= a < 7
    ensures WeekdayNames[a] in WeekdayIndex && WeekdayIndex[WeekdayNames[a]] == a
  {
    if a == 0 { assert WeekdayNames[a] == "Mon"; }
    else if a == 1 { assert WeekdayNames[a] == "Tue"; }
    else if a == 2 { assert WeekdayNames[a] == "Wed"; }
    else if a == 3 { assert WeekdayNames[a] == "Thu"; }
    else if a == 4 { assert WeekdayNames[a] == "Fri"; }
    else if a == 5 { assert WeekdayNames[a] == "Sat"; }
    else { assert WeekdayNames[a] == "Sun"; }
  }

  /** Seven names read from the weekday table from position w on, wrapping around, are all different. */
  lemma {:induction false} RotatedNamesDistinct(labels: seq<string>, w: int)
    requires 0 <= w < 7 && |labels| == 7
    requires forall i :: 0 <= i < 7 ==> labels[i] == WeekdayNames[(w + i) % 7]
    ensures forall i, j :: 0 <= i < j < 7 ==> labels[i] != labels[j]
  {
    forall i, j | 0 <= i < j < 7
      ensures labels[i] != labels[j]
    {
      RotationDistinct(w, i, j);
      WeekdayIndexOf((w + i) % 7);
      WeekdayIndexOf((w + j) % 7);
    }
  }

  lemma {:induction false} RotationDistinct(w: int, i: int, j: int)
    requires 0 <= w < 7 && 0 <= i < j < 7
    ensures 0 <= (w + i) % 7 < 7 && 0 <= (w + j) % 7 < 7
    ensures (w + i) % 7 != (w + j) % 7
  {
    assert (w + i) % 7 == if w + i < 7 then w + i else w + i - 7;
    assert (w + j) % 7 == if w + j < 7 then w + j else w + j - 7;
  }

  /** The abbreviation of the day after a day of the given abbreviation. */
  const FollowingWeekday: map<string, string> :=
    map["Mon" := "Tue", "Tue" := "Wed", "Wed" := "Thu", "Thu" := "Fri", "Fri" := "Sat", "Sat" := "Sun", "Sun" := "Mon"]

  /** Successive week labels are successive weekdays: Sun follows Sat, Mon follows Sun. */
  lemma WeekLabelsSuccessive(start: Date)
    requires ValidDate(start) && WeekLabels(start).Some?
    ensures forall i :: 0 <= i < 6 ==> WeekLabels(start).value[i] in FollowingWeekday
    ensures forall i :: 0 <= i < 6 ==> WeekLabels(start).value[i + 1] == FollowingWeekday[WeekLabels(start).value[i]]
  {
    var labels, w := WeekLabels(start).value, Weekday(start);
    RotatedNamesSuccessive(labels, w);
  }

  lemma {:induction false} RotatedNamesSuccessive(labels: seq<string>, w: int)
    requires 0 <= w < 7 && |labels| == 7
    requires forall i :: 0 <= i < 7 ==> labels[i] == WeekdayNames[(w + i) % 7]
    ensures forall i :: 0 <= i < 6 ==> labels[i] in FollowingWeekday && labels[i + 1] == FollowingWeekday[labels[i]]
  {
    forall i | 0 <= i < 6
      ensures labels[i] in FollowingWeekday && labels[i + 1] == FollowingWeekday[labels[i]]
    {
      var a := (w + i) % 7;
      assert (w + i + 1) % 7 == (a + 1) % 7;
      FollowingWeekdayOf(a);
    }
  }

  lemma {:induction false} FollowingWeekdayOf(a: int)
    requires 0 <= a < 7
    ensures WeekdayNames[a] in FollowingWeekday && FollowingWeekday[WeekdayNames[a]] == WeekdayNames[(a + 1) % 7]
  {
    if a == 0 { assert WeekdayNames[a] == "Mon"; }
    else if a == 1 { assert WeekdayNames[a] == "Tue"; }
    else if a == 2 { assert WeekdayNames[a] == "Wed"; }
    else if a == 3 { assert WeekdayNames[a] == "Thu"; }
    else if a == 4 { assert WeekdayNames[a] == "Fri"; }
    else if a == 5 { assert WeekdayNames[a] == "Sat"; }
    else { assert WeekdayNames[a] == "Sun"; }
  }

  // ---- strptime(date, '%Y-%m-%d') ----

  /**
   * strptime's %m pattern "1[0-2]|0[1-9]|[1-9]", which must be followed by the
   * '-' of the format: the month and the number of characters it takes.
   */
  function ReadMonth(t: string): (r: Option<(int, nat)>)
    ensures r.Some? ==> 1 <= r.value.0 <= 12 && 1 <= r.value.1 <= 2
    ensures r.Some? ==> r.value.1 < |t| && t[r.value.1] == '-'
  {
    if |t| >= 3 && t[0] == '1' && '0' <= t[1] <= '2' && t[2] == '-' then Some((10 + DigitValue(t[1]), 2))
    else if |t| >= 3 && t[0] == '0' && '1' <= t[1] <= '9' && t[2] == '-' then Some((DigitValue(t[1]), 2))
    else if |t| >= 2 && '1' <= t[0] <= '9' && t[1] == '-' then Some((DigitValue(t[0]), 1))
    else None
  }

  /**
   * strptime's %d pattern "3[01]|[12]\d|0[1-9]|[1-9]| [1-9]", which must take
   * the whole rest of the string (otherwise "unconverted data remains").
   */
  function ReadDay(t: string): (r: Option<int>)
    ensures r.Some? ==> 1 <= r.value <= 31
    ensures r.Some? ==> 1 <= |t| <= 2
  {
    if |t| == 2 && t[0] == '3' && '0' <= t[1] <= '1' then Some(30 + DigitValue(t[1]))
    else if |t| == 2 && '1' <= t[0] <= '2' && IsDigit(t[1]) then Some(10 * DigitValue(t[0]) + DigitValue(t[1]))
    else if |t| == 2 && t[0] == '0' && '1' <= t[1] <= '9' then Some(DigitValue(t[1]))
    else if |t| == 2 && t[0] == ' ' && '1' <= t[1] <= '9' then Some(DigitValue(t[1]))
    else if |t| == 1 && '1' <= t[0] <= '9' then Some(DigitValue(t[0]))
    else None
  }

  /**
   * datetime.strptime(s, '%Y-%m-%d'): four year digits, '-', the month, '-',
   * the day; None where Python raises ValueError (no match, text left over,
   * year 0, or a day the month does not have).
   */
  function ParseDate(s: string): (r: Option<Date>)
    ensures r.Some? ==> ValidDate(r.value)
  {
    if |s| < 5 || !AllDigits(s[..4]) || s[4] != '-' then None
    else
      var year := 1000 * DigitValue(s[0]) + 100 * DigitValue(s[1]) + 10 * DigitValue(s[2]) + DigitValue(s[3]);
      match ReadMonth(s[5..])
      case None => None
      case Some((month, width)) =>
        match ReadDay(s[5 + width + 1..])
        case None => None
        case Some(day) =>
          if MinYear <= year && day <= DaysInMonth(year, month) then Some(Date(year, month, day)) else None
  }

  /** A number below 100 in two digits, zero-padded, as "%m" and "%d" write it. */
  function Pad2(n: nat): (t: string)
    requires n < 100
    ensures |t| == 2 && AllDigits(t) && DigitsValue(t) == n
  {
    var t := [DigitChar(n / 10), DigitChar(n % 10)];
    assert t[..1] == [t[0]] && [t[0]][..0] == [];
    assert DigitsValue(t[..1]) == n / 10;
    t
  }

  /** A year of datetime's range in four digits, as "%Y" writes it. */
  function YearText(y: int): (t: string)
    requires MinYear <= y <= MaxYear
    ensures |t| == 4 && AllDigits(t) && DigitsValue(t) == y
  {
    YearDigitsBound(y);
    var t := [DigitChar(y / 10 / 10 / 10), DigitChar(y / 10 / 10 % 10), DigitChar(y / 10 % 10), DigitChar(y % 10)];
    FourDigits(t);
    YearDigits(y);
    t
  }

  /** The canonical "%Y-%m-%d" text of a date: every field zero-padded. */
  function FormatDate(d: Date): string
    requires ValidDate(d)
  {
    YearText(d.year) + "-" + Pad2(d.month) + "-" + Pad2(d.day)
  }

  lemma {:induction false} FourDigits(t: string)
    requires |t| == 4 && AllDigits(t)
    ensures DigitsValue(t) == 1000 * DigitValue(t[0]) + 100 * DigitValue(t[1]) + 10 * DigitValue(t[2]) + DigitValue(t[3])
  {
    assert t[..3][..2] == t[..2] && t[..2][..1] == t[..1] && t[..1][..0] == [];
    assert DigitsValue(t[..1]) == DigitValue(t[0]);
    assert DigitsValue(t[..2]) == 10 * DigitValue(t[0]) + DigitValue(t[1]);
    assert DigitsValue(t[..3]) == 100 * DigitValue(t[0]) + 10 * DigitValue(t[1]) + DigitValue(t[2]);
  }

  lemma {:induction false} YearDigitsBound(y: int)
    requires MinYear <= y <= MaxYear
    ensures y / 10 / 10 / 10 < 10
  {
    assert y / 10 <= 999;
    assert y / 10 / 10 <= 99;
  }

  lemma {:induction false} YearDigits(y: int)
    requires MinYear <= y <= MaxYear
    ensures 1000 * (y / 10 / 10 / 10) + 100 * (y / 10 / 10 % 10) + 10 * (y / 10 % 10) + y % 10 == y
  {
    var q1 := y / 10;
    var q2 := q1 / 10;
    assert y == 10 * q1 + y % 10;
    assert q1 == 10 * q2 + q1 % 10;
    assert q2 == 10 * (q2 / 10) + q2 % 10;
  }

  /** The texts "%m" accepts for month m: zero-padded, or one digit. */
  predicate MonthText(t: string, m: int)
  {
    1 <= m <= 12 && (t == Pad2(m) || (m < 10 && t == [DigitChar(m)]))
  }

  /** The texts "%d" accepts for day d: zero-padded, one digit, or one digit after a space. */
  predicate DayText(t: string, d: int)
  {
    1 <= d <= 31 && (t == Pad2(d) || (d < 10 && (t == [DigitChar(d)] || t == [' ', DigitChar(d)])))
  }

  /** The month read is the month written, in w characters before the '-'; nothing else is read as a month. */
  lemma ReadMonthExactly(t: string, m: int, w: nat)
    ensures ReadMonth(t) == Some((m, w)) <==>
      1 <= w <= 2 && w < |t| && t[w] == '-' && MonthText(t[..w], m)
  {
    if 1 <= m <= 12 {
      var p := Pad2(m);
      assert p == [DigitChar(m / 10), DigitChar(m % 10)];
    }
    if 1 <= w <= 2 && w < |t| {
      assert w == 2 ==> t[..w] == [t[0], t[1]];
      assert w == 1 ==> t[..w] == [t[0]];
    }
  }

  /** The day read is the day written; nothing else is read as a day. */
  lemma ReadDayExactly(t: string, d: int)
    ensures ReadDay(t) == Some(d) <==> DayText(t, d)
  {
    if 1 <= d <= 31 {
      var p := Pad2(d);
      assert p == [DigitChar(d / 10), DigitChar(d % 10)];
    }
    if |t| == 2 {
      assert t == [t[0], t[1]];
    } else if |t| == 1 {
      assert t == [t[0]];
    }
  }

  /** Where the month's text ends: a '-' right after one digit, otherwise after two. */
  function MonthWidth(s: string): nat
  {
    if |s| > 6 && s[6] == '-' then 1 else 2
  }

  /**
   * strptime accepts exactly the texts that write a valid date: four year
   * digits, '-', the month in one of its forms, '-', the day in one of its
   * forms, and nothing after.
   */
  lemma ParseDateExactly(s: string, d: Date)
    ensures ParseDate(s) == Some(d) <==>
      var w := MonthWidth(s);
      ValidDate(d) && |s| > 6 + w && AllDigits(s[..4]) && DigitsValue(s[..4]) == d.year && s[4] == '-' &&
      s[5 + w] == '-' && MonthText(s[5..5 + w], d.month) && DayText(s[6 + w..], d.day)
  {
    if |s| >= 5 && AllDigits(s[..4]) {
      FourDigits(s[..4]);
      var t := s[5..];
      var w := MonthWidth(s);
      ReadMonthExactly(t, d.month, w);
      if |s| > 6 + w {
        assert t[w] == s[5 + w] && t[..w] == s[5..5 + w];
        assert s[5 + w + 1..] == s[6 + w..];
        ReadDayExactly(s[6 + w..], d.day);
      }
      match ReadMonth(t)
      case None =>
      case Some((m, w')) =>
        ReadMonthExactly(t, m, w');
        if w' == 2 {
          assert t[..2] == Pad2(m) && IsDigit(t[1]);
        }
        assert w' == w;
    }
  }

  /**
   * Zero-padded text of a year, a month and a day number up to 31 gives that
   * date when the month has the day, and is rejected otherwise.
   */
  lemma ParsePaddedText(y: int, m: int, dd: int)
    requires MinYear <= y <= MaxYear && 1 <= m <= 12 && 1 <= dd <= 31
    ensures ParseDate(YearText(y) + "-" + Pad2(m) + "-" + Pad2(dd)) ==
      (if dd <= DaysInMonth(y, m) then Some(Date(y, m, dd)) else None)
  {
    var s := YearText(y) + "-" + Pad2(m) + "-" + Pad2(dd);
    assert s[..4] == YearText(y) && s[4] == '-' && s[5..7] == Pad2(m) && s[7] == '-' && s[8..] == Pad2(dd);
    assert IsDigit(s[6]);
    assert MonthWidth(s) == 2;
    if dd <= DaysInMonth(y, m) {
      ParseDateExactly(s, Date(y, m, dd));
    } else if ParseDate(s).Some? {
      assert false;
    }
  }

  /** Every valid date parses back from its canonical text. */
  lemma ParseFormatRoundTrip(d: Date)
    requires ValidDate(d)
    ensures ParseDate(FormatDate(d)) == Some(d)
  {
    ParsePaddedText(d.year, d.month, d.day);
  }

  /** strptime also takes months and days without their zero, and a day padded with a space. */
  lemma ParseUnpaddedExample()
    ensures ParseDate("2025-1-5") == Some(Date(2025, 1, 5))
    ensures ParseDate("2024-2- 9") == Some(Date(2024, 2, 9))
  {
  }

  /** Text that fits the pattern still fails on a day the calendar does not have. */
  lemma ParseRejectsExample()
    ensures ParseDate("2025-02-29") == None
    ensures ParseDate("2024-02-29") == Some(Date(2024, 2, 29))
    ensures ParseDate("0000-01-01") == None
  {
  }

  /** Text after the day is not accepted ("unconverted data remains"). */
  lemma ParseLeftoverExample()
    ensures ParseDate("2025-10-05T10:00") == None
    ensures ParseDate("2025-13-01") == None
  {
  }

  /** 2025-10-05 is a Sunday, so a "week" report for it is labelled Sun, Mon, ..., Sat. */
  lemma SundayExample(start: Date)
    requires start == Date(2025, 10, 5)
    ensures Weekday(start) == 6 && WeekdayNames[Weekday(start)] == "Sun"
  {
    DaysBeforeYearFormula(start.year);
    assert Ordinal(start) == 739529;
  }
}
