/**
 * Timestamps as the core reads them through dayjs: already decoded into
 * local calendar fields, plus an instant in seconds for differences. The
 * period keys are built the way dayjs `format` and `padStart` build them.
 */
module Calendar {
  import opened Text

  type Year = y: int | 0 <= y <= 9999
  type Month = m: int | 1 <= m <= 12 witness 1
  type DayOfMonth = d: int | 1 <= d <= 31 witness 1
  type Hour = h: int | 0 <= h <= 23
  /** 0 is Sunday, 6 is Saturday, as `day()` numbers them. */
  type Weekday = d: int | 0 <= d <= 6
  /** The `weekOfYear` plugin's week number. */
  type WeekNumber = w: int | 1 <= w <= 53 witness 1

  /**
   * A decoded timestamp: the local calendar fields and `instant`, the
   * seconds since the epoch.
   */
  datatype Moment = Moment(
    year: Year,
    month: Month,
    day: DayOfMonth,
    hour: Hour,
    weekday: Weekday,
    week: WeekNumber,
    instant: int)

  /** Sunday or Saturday. */
  predicate IsWeekend(t: Moment)
  {
    t.weekday == 0 || t.weekday == 6
  }

  const DAY_NAMES: seq<string> :=
    ["Sunday", "Monday", "Tuesday", "Wednesday", "Thursday", "Friday", "Saturday"]

  /** `format('dddd')`: the English name of the day, a weekend one exactly on a weekend. */
  function DayName(t: Moment): (name: string)
    ensures name in DAY_NAMES
    ensures IsWeekend(t) <==> name == "Sunday" || name == "Saturday"
  {
    DAY_NAMES[t.weekday]
  }

  /** `format('YYYY')`. */
  function YearKey(t: Moment): string
  {
    Padded(t.year, 4)
  }

  /** `format('YYYY-MM')`. */
  function MonthKey(t: Moment): string
  {
    YearKey(t) + "-" + Padded(t.month, 2)
  }

  /** `format('YYYY-MM-DD')`. */
  function DayKey(t: Moment): string
  {
    MonthKey(t) + "-" + Padded(t.day, 2)
  }

  /** `${format('YYYY')}-W${week().toString().padStart(2, '0')}`. */
  function WeekKey(t: Moment): string
  {
    YearKey(t) + "-W" + Padded(t.week, 2)
  }

  /** `format('HH')`. */
  function HourKey(t: Moment): string
  {
    Padded(t.hour, 2)
  }

  /** A year key is four digits that read back as the year. */
  lemma YearKeyFormat(t: Moment)
    ensures |YearKey(t)| == 4 && AllDigits(YearKey(t))
    ensures Value(YearKey(t)) == t.year
  {
    assert Pow10(4) == 10000;
    PaddedValue(t.year, 4);
  }

  /** A number below 100 padded to two places is two digits that read back as it. */
  lemma TwoDigits(n: nat)
    requires n < 100
    ensures |Padded(n, 2)| == 2 && AllDigits(Padded(n, 2))
    ensures Value(Padded(n, 2)) == n
  {
    assert Pow10(2) == 100;
    PaddedValue(n, 2);
  }

  /** The hour key is two digits that read back as the hour. */
  lemma HourKeyFormat(t: Moment)
    ensures |HourKey(t)| == 2 && AllDigits(HourKey(t))
    ensures Value(HourKey(t)) == t.hour
  {
    TwoDigits(t.hour);
  }

  /** A week number of two digits is printed as they are, one of one digit gets a '0'. */
  lemma WeekDigits(w: WeekNumber)
    ensures w >= 10 ==> PadStart(Digits(w), 2, '0') == Digits(w)
    ensures w < 10 ==> PadStart(Digits(w), 2, '0') == "0" + Digits(w)
  {
    if w >= 10 {
      assert Digits(w) == Digits(w / 10) + [DigitChar(w % 10)];
      assert |Digits(w)| >= 2;
    } else {
      assert |Digits(w)| == 1;
      assert Repeat('0', 1) == "0";
    }
  }

  /**
   * The week key is the year, "-W" and the week number in two digits
   * (see `WeekDigits` for how the number is padded).
   */
  lemma WeekKeyFormat(t: Moment)
    ensures |WeekKey(t)| == 8
    ensures WeekKey(t)[..4] == YearKey(t) && WeekKey(t)[4..6] == "-W"
    ensures WeekKey(t)[6..] == Padded(t.week, 2)
    ensures AllDigits(WeekKey(t)[6..]) && Value(WeekKey(t)[6..]) == t.week
  {
    YearKeyFormat(t);
    TwoDigits(t.week);
    Parts(YearKey(t), "-W", Padded(t.week, 2));
  }

  /**
   * The day key is the month key, '-' and the day of the month in two
   * digits; the month key is the year key, '-' and the month in two digits.
   */
  lemma DayKeyFormat(t: Moment)
    ensures |MonthKey(t)| == 7 && |DayKey(t)| == 10
    ensures DayKey(t)[..7] == MonthKey(t) && DayKey(t)[7] == '-'
    ensures MonthKey(t)[..4] == YearKey(t) && MonthKey(t)[4] == '-'
    ensures AllDigits(MonthKey(t)[5..]) && Value(MonthKey(t)[5..]) == t.month
    ensures AllDigits(DayKey(t)[8..]) && Value(DayKey(t)[8..]) == t.day
  {
    YearKeyFormat(t);
    TwoDigits(t.month);
    TwoDigits(t.day);
    Parts(YearKey(t), "-", Padded(t.month, 2));
    Parts(MonthKey(t), "-", Padded(t.day, 2));
  }

  lemma Parts(a: string, b: string, c: string)
    ensures (a + b + c)[..|a|] == a
    ensures (a + b + c)[|a|..|a| + |b|] == b
    ensures (a + b + c)[|a| + |b|..] == c
  {
  }

  /** Comparing keys made of a fixed-width part, a separator and a fixed-width part. */
  lemma {:induction false} KeyOrder(y1: string, m1: string, y2: string, m2: string, sep: string)
    requires |y1| == |y2| && |m1| == |m2|
    ensures LexLe(y1 + sep + m1, y2 + sep + m2) <==> (y1 == y2 && LexLe(m1, m2)) || (y1 != y2 && LexLe(y1, y2))
    ensures y1 + sep + m1 == y2 + sep + m2 <==> y1 == y2 && m1 == m2
  {
    assert y1 + sep + m1 == y1 + (sep + m1);
    assert y2 + sep + m2 == y2 + (sep + m2);
    LexLeConcat(y1, sep + m1, y2, sep + m2);
    LexLeConcat(sep, m1, sep, m2);
    if y1 + sep + m1 == y2 + sep + m2 {
      assert y1 == (y1 + sep + m1)[..|y1|];
      assert y2 == (y2 + sep + m2)[..|y2|];
      assert m1 == (y1 + sep + m1)[|y1| + |sep|..];
      assert m2 == (y2 + sep + m2)[|y2| + |sep|..];
    }
  }

  /**
   * Month keys sort as strings in calendar order, and two timestamps share
   * a month key exactly when they share year and month.
   */
  lemma MonthKeyOrder(a: Moment, b: Moment)
    ensures LexLe(MonthKey(a), MonthKey(b)) <==> a.year < b.year || (a.year == b.year && a.month <= b.month)
    ensures MonthKey(a) == MonthKey(b) <==> a.year == b.year && a.month == b.month
  {
    YearKeyFormat(a);
    YearKeyFormat(b);
    TwoDigits(a.month);
    TwoDigits(b.month);
    assert Pow10(2) == 100 && Pow10(4) == 10000;
    PaddedOrder(a.year, b.year, 4);
    PaddedOrder(a.month, b.month, 2);
    KeyOrder(YearKey(a), Padded(a.month, 2), YearKey(b), Padded(b.month, 2), "-");
  }

  const SECONDS_PER_DAY: int := 86400

  /** Division rounded toward zero, as dayjs rounds a difference. */
  function TruncDiv(a: int, b: int): (q: int)
    requires b > 0
    ensures a >= 0 ==> 0 <= q && q * b <= a < (q + 1) * b
    ensures a < 0 ==> q <= 0 && (q - 1) * b < a <= q * b
  {
    if a >= 0 then
      DivBounds(a, b);
      a / b
    else
      DivBounds(-a, b);
      NegatedBounds((-a) / b, b);
      -((-a) / b)
  }

  /** Euclidean division of a non-negative number brackets it between two multiples. */
  lemma DivBounds(a: nat, b: int)
    requires b > 0
    ensures 0 <= a / b && (a / b) * b <= a < (a / b + 1) * b
  {
    var q, r := a / b, a % b;
    assert a == q * b + r && 0 <= r < b;
    assert (q + 1) * b == q * b + b;
  }

  lemma NegatedBounds(q: int, b: int)
    ensures (-q) * b == -(q * b)
    ensures (-q - 1) * b == -((q + 1) * b)
  {
  }

  /** `dayjs(later).diff(dayjs(earlier), 'day')`: whole days, truncated toward zero. */
  function DayDiff(later: Moment, earlier: Moment): (d: int)
    ensures earlier.instant <= later.instant ==> d >= 0
    ensures later.instant <= earlier.instant ==> d <= 0
  {
    TruncDiv(later.instant - earlier.instant, SECONDS_PER_DAY)
  }
}
