/** The dates of nana: stepping month by month, ordering and the day of the week, against
    counting days one at a time. */
module Calendar {

  predicate Leap(year: nat) {
    (year % 4 == 0 && year % 100 != 0) || year % 400 == 0
  }

  function YearDays(year: nat): nat {
    if Leap(year) then 366 else 365
  }

  function MonthDays(year: nat, month: nat): (days: nat)
    requires 1 <= month <= 12
    ensures 28 <= days <= 31
  {
    if month != 2 then [31, 0, 31, 30, 31, 30, 31, 31, 30, 31, 30, 31][month - 1]
    else if Leap(year) then 29 else 28
  }

  datatype Date = Date(year: nat, month: nat, day: nat)

  predicate Valid(d: Date) {
    1 <= d.month <= 12 && 1 <= d.day <= MonthDays(d.year, d.month)
  }

  /** The constructor: a date outside the supported years, or no date at all, becomes today. */
  function Make(year: int, month: int, day: int, today: Date): (d: Date)
    requires Valid(today)
    ensures Valid(d)
    ensures var asked := Date(if year < 0 then 0 else year, if month < 0 then 0 else month, if day < 0 then 0 else day);
            d == if 1601 <= year < 30827 && Valid(asked) then asked else today
  {
    if 1601 <= year < 30827 && 0 < month < 13 && 0 < day && day <= MonthDays(year, month)
    then Date(year, month, day) else today
  }

  // ---------- Counting days ----------

  /** The next day of the calendar. */
  function Next(d: Date): (r: Date)
    requires Valid(d)
    ensures Valid(r)
  {
    if d.day < MonthDays(d.year, d.month) then d.(day := d.day + 1)
    else if d.month < 12 then Date(d.year, d.month + 1, 1)
    else Date(d.year + 1, 1, 1)
  }

  /** x days on, counted one at a time. */
  function After(d: Date, x: nat): (r: Date)
    requires Valid(d)
    ensures Valid(r)
    decreases x
  {
    if x == 0 then d else After(Next(d), x - 1)
  }

  function DaysBeforeMonth(year: nat, month: nat): nat
    requires 1 <= month <= 12
  {
    if month == 1 then 0 else DaysBeforeMonth(year, month - 1) + MonthDays(year, month - 1)
  }

  function DaysBeforeYear(year: nat): nat {
    if year == 0 then 0 else DaysBeforeYear(year - 1) + YearDays(year - 1)
  }

  function DayNumber(d: Date): nat
    requires Valid(d)
  {
    DaysBeforeYear(d.year) + DaysBeforeMonth(d.year, d.month) + d.day
  }

  /** The days before each month of a common year, outright. */
  function CommonDaysBefore(month: nat): nat
    requires 1 <= month <= 12
  {
    [0, 31, 59, 90, 120, 151, 181, 212, 243, 273, 304, 334][month - 1]
  }

  lemma DaysBeforeMonthIs(year: nat, month: nat)
    requires 1 <= month <= 12
    ensures DaysBeforeMonth(year, month) ==
            CommonDaysBefore(month) + if month > 2 && Leap(year) then 1 else 0
  {
    if month > 1 {
      DaysBeforeMonthIs(year, month - 1);
    }
  }

  lemma YearEnds(year: nat)
    ensures DaysBeforeMonth(year, 12) + MonthDays(year, 12) == YearDays(year)
  {
    DaysBeforeMonthIs(year, 12);
  }

  lemma NextNumber(d: Date)
    requires Valid(d)
    ensures DayNumber(Next(d)) == DayNumber(d) + 1
  {
    YearEnds(d.year);
  }

  lemma {:induction false} AfterNumber(d: Date, x: nat)
    requires Valid(d)
    ensures DayNumber(After(d, x)) == DayNumber(d) + x
    decreases x
  {
    if x > 0 {
      NextNumber(d);
      AfterNumber(Next(d), x - 1);
    }
  }

  // ---------- Ordering ----------

  /** `operator<`. */
  predicate Less(a: Date, b: Date) {
    if a.year < b.year then true
    else if a.year == b.year then
      if a.month < b.month then true
      else if a.month == b.month then a.day < b.day
      else false
    else false
  }

  /** `operator>`. */
  predicate Greater(a: Date, b: Date) {
    if a.year > b.year then true
    else if a.year == b.year then
      if a.month > b.month then true
      else if a.month == b.month then a.day > b.day
      else false
    else false
  }

  lemma {:induction false} YearsGrow(a: nat, b: nat)
    requires a <= b
    ensures DaysBeforeYear(a) + 365 * (b - a) <= DaysBeforeYear(b)
    ensures a < b ==> DaysBeforeYear(a) + YearDays(a) <= DaysBeforeYear(b)
    decreases b - a
  {
    if a < b {
      YearsGrow(a, b - 1);
    }
  }

  lemma LessNumber(a: Date, b: Date)
    requires Valid(a) && Valid(b) && Less(a, b)
    ensures DayNumber(a) < DayNumber(b)
  {
    DaysBeforeMonthIs(a.year, a.month);
    DaysBeforeMonthIs(b.year, b.month);
    if a.year < b.year {
      YearsGrow(a.year, b.year);
    }
  }

  /** The comparison operators order valid dates exactly as their day numbers. */
  lemma OrderIsCounting(a: Date, b: Date)
    requires Valid(a) && Valid(b)
    ensures Less(a, b) <==> DayNumber(a) < DayNumber(b)
    ensures Greater(a, b) <==> DayNumber(a) > DayNumber(b)
    ensures a == b <==> DayNumber(a) == DayNumber(b)
  {
    assert Less(a, b) || Less(b, a) || a == b;
    assert Greater(a, b) <==> Less(b, a);
    if Less(a, b) {
      LessNumber(a, b);
    } else if Less(b, a) {
      LessNumber(b, a);
    }
  }

  // ---------- Adding ----------

  lemma {:induction false} AfterInMonth(d: Date, k: nat)
    requires Valid(d) && d.day + k <= MonthDays(d.year, d.month)
    ensures After(d, k) == d.(day := d.day + k)
    decreases k
  {
    if k > 0 {
      AfterInMonth(Next(d), k - 1);
    }
  }

  lemma {:induction false} AfterCompose(d: Date, a: nat, b: nat)
    requires Valid(d)
    ensures After(After(d, a), b) == After(d, a + b)
    decreases a
  {
    if a > 0 {
      AfterCompose(Next(d), a - 1, b);
    }
  }

  /** Counting on past the end of a month starts again on the first of the next. */
  lemma AfterMonth(d: Date, off: nat, x: nat)
    requires Valid(d) && off == MonthDays(d.year, d.month) - d.day && off < x
    ensures After(d, x) == After(Next(d.(day := d.day + off)), x - off - 1)
  {
    AfterInMonth(d, off);
    AfterCompose(d, off, x - off);
    hide MonthDays, Leap;
  }

  /** `_m_add`: whole months at a time, with the result of counting days one by one. */
  method Add(date: Date, days: nat) returns (d: Date)
    requires Valid(date)
    ensures d == After(date, days)
    ensures Valid(d) && DayNumber(d) == DayNumber(date) + days
  {
    AfterNumber(date, days);
    hide After, DayNumber, MonthDays, Leap;
    d := date;
    var x: nat := days;
    while x != 0
      invariant Valid(d) && After(d, x) == After(date, days)
      decreases x
    {
      var off := MonthDays(d.year, d.month) - d.day;
      if off < x {
        AfterMonth(d, off, x);
        d := d.(day := 1);
        if d.month == 12 {
          d := d.(month := 1, year := d.year + 1);
        } else {
          d := d.(month := d.month + 1);
        }
        x := x - (off + 1);
      } else {
        AfterInMonth(d, x);
        d := d.(day := d.day + x);
        break;
      }
    }
    AfterInMonth(d, 0);
  }

  /** The year grows by at most one for every 365 days and one more, so 32 bits are enough. */
  lemma AddYearBound(d: Date, x: nat)
    requires Valid(d)
    ensures 365 * (After(d, x).year - d.year - 1) <= x
  {
    AfterNumber(d, x);
    var r := After(d, x);
    DaysBeforeMonthIs(d.year, d.month);
    DaysBeforeMonthIs(r.year, r.month);
    if r.year > d.year {
      YearsGrow(d.year + 1, r.year);
      assert DaysBeforeYear(d.year + 1) == DaysBeforeYear(d.year) + YearDays(d.year);
    }
  }

  /** `day_in_year`. */
  method DayInYear(year: nat, month: nat, day: nat) returns (n: nat)
    requires 1 <= month <= 12
    ensures n == DaysBeforeMonth(year, month) + day
    ensures month == 12 && day == 31 ==> n == YearDays(year)
  {
    YearEnds(year);
    var days := 0;
    for i := 1 to month
      invariant days == DaysBeforeMonth(year, i)
    {
      days := days + MonthDays(year, i);
    }
    return days + day;
  }

  // ---------- Subtracting ----------

  /** The outcome of `_m_sub`: a date, an unsigned counter that has gone below zero, or an unsigned
      year that has. In either of the last two cases the source goes on from a huge number. */
  datatype Difference = Landed(date: Date) | Wrapped | YearWrapped

  /** `_m_sub` takes the length of the month it enters off the counter, not the days it has passed. */
  function Subtract(d: Date, x: nat): (r: Difference)
    requires Valid(d)
    ensures r.Landed? ==> Valid(r.date)
    decreases x
  {
    if x == 0 then Landed(d)
    else if d.day <= x then
      if d.month == 1 && d.year == 0 then YearWrapped
      else
        var year := if d.month == 1 then d.year - 1 else d.year;
        var month := if d.month == 1 then 12 else d.month - 1;
        var days := MonthDays(year, month);
        if x < days then Wrapped else Subtract(Date(year, month, days), x - days)
    else Landed(d.(day := d.day - x))
  }

  method Sub(date: Date, days: nat) returns (r: Difference)
    requires Valid(date)
    ensures r == Subtract(date, days)
  {
    var d, x: nat := date, days;
    while x != 0
      invariant Valid(d) && Subtract(d, x) == Subtract(date, days)
      decreases x
    {
      if d.day <= x {
        if d.month == 1 {
          if d.year == 0 {
            return YearWrapped;
          }
          d := d.(month := 12, year := d.year - 1);
        } else {
          d := d.(month := d.month - 1);
        }
        d := d.(day := MonthDays(d.year, d.month));
        if x < d.day {
          return Wrapped;
        }
        x := x - d.day;
      } else {
        d := d.(day := d.day - x);
        break;
      }
    }
    return Landed(d);
  }

  /** How far off the date is on which a subtraction lands: by the difference between the length
      of the month it lands in and the day it started from. */
  lemma {:induction false} SubtractNumber(d: Date, x: nat)
    requires Valid(d) && Subtract(d, x).Landed?
    ensures var r := Subtract(d, x).date;
            DayNumber(r) + x == DayNumber(d) + if x < d.day then 0 else MonthDays(r.year, r.month) - d.day
    decreases x
  {
    if d.day <= x {
      var year := if d.month == 1 then d.year - 1 else d.year;
      var month := if d.month == 1 then 12 else d.month - 1;
      var days := MonthDays(year, month);
      var e := Date(year, month, days);
      YearEnds(year);
      assert DayNumber(e) + d.day == DayNumber(d);
      SubtractNumber(e, x - days);
    }
  }

  function MonthsBefore(d: Date): nat
    requires Valid(d)
  {
    12 * d.year + d.month - 1
  }

  /** The last day of the month before. */
  function LastMonth(d: Date): (r: Date)
    requires Valid(d) && MonthsBefore(d) > 0
    ensures Valid(r) && r.day == MonthDays(r.year, r.month) && MonthsBefore(r) == MonthsBefore(d) - 1
  {
    var year := if d.month == 1 then d.year - 1 else d.year;
    var month := if d.month == 1 then 12 else d.month - 1;
    Date(year, month, MonthDays(year, month))
  }

  /** The last day of the k-th month before. */
  function Back(d: Date, k: nat): (r: Date)
    requires Valid(d) && k <= MonthsBefore(d)
    ensures Valid(r) && (k > 0 ==> r.day == MonthDays(r.year, r.month))
    decreases k
  {
    if k == 0 then d else Back(LastMonth(d), k - 1)
  }

  /** The days of the k months before. */
  function Total(d: Date, k: nat): nat
    requires Valid(d) && k <= MonthsBefore(d)
    decreases k
  {
    if k == 0 then 0 else LastMonth(d).day + Total(LastMonth(d), k - 1)
  }

  /** The counter gets past the months before the k-th, and ends inside that one. */
  predicate StopsAt(d: Date, x: nat, k: nat)
    requires Valid(d)
  {
    && 0 < k <= MonthsBefore(d) && d.day <= x
    && (forall j | 0 < j < k :: Total(d, j) + Back(d, j).day <= x)
    && Total(d, k) <= x < Total(d, k) + Back(d, k).day
  }

  lemma StopsEarlier(d: Date, x: nat, k: nat)
    requires Valid(d) && 1 < k && MonthsBefore(d) > 0
    ensures var e := LastMonth(d);
            StopsAt(d, x, k) <==> d.day <= x && x >= e.day && StopsAt(e, x - e.day, k - 1)
  {
    var e := LastMonth(d);
    if k <= MonthsBefore(d) {
      assert Total(d, 1) == e.day && Back(d, 1) == e;
      forall j | 1 < j < k
        ensures Total(d, j) == e.day + Total(e, j - 1) && Back(d, j) == Back(e, j - 1)
      {
      }
      if x >= e.day && StopsAt(e, x - e.day, k - 1) {
        forall j | 0 < j < k
          ensures Total(d, j) + Back(d, j).day <= x
        {
          if j > 1 {
            assert Total(e, j - 1) + Back(e, j - 1).day <= x - e.day;
          }
        }
      }
      if d.day <= x && x >= e.day && StopsAt(d, x, k) {
        assert Total(d, 1) + Back(d, 1).day <= x;
        forall j | 0 < j < k - 1
          ensures Total(e, j) + Back(e, j).day <= x - e.day
        {
          assert Total(d, j + 1) + Back(d, j + 1).day <= x;
        }
      }
    }
  }

  lemma {:induction false} StopLands(d: Date, x: nat, k: nat)
    requires Valid(d) && StopsAt(d, x, k)
    ensures var r := Subtract(d, x);
            r.Landed? && r.date.year == Back(d, k).year && r.date.month == Back(d, k).month
    decreases k
  {
    var e := LastMonth(d);
    assert Total(d, 1) == e.day && Back(d, 1) == e;
    if k > 1 {
      assert Total(d, 1) + Back(d, 1).day <= x;
      StopsEarlier(d, x, k);
      StopLands(e, x - e.day, k - 1);
    }
  }

  lemma {:induction false} LandedStops(d: Date, x: nat) returns (k: nat)
    requires Valid(d) && d.day <= x && Subtract(d, x).Landed?
    ensures StopsAt(d, x, k)
    decreases x
  {
    var e := LastMonth(d);
    assert Total(d, 1) == e.day && Back(d, 1) == e;
    if x - e.day < e.day {
      k := 1;
    } else {
      var j := LandedStops(e, x - e.day);
      k := j + 1;
      StopsEarlier(d, x, k);
    }
  }

  /** When a subtraction lands on a date at all. */
  lemma LandsExactly(d: Date, x: nat)
    requires Valid(d)
    ensures Subtract(d, x).Landed? <==> x < d.day || exists k: nat :: StopsAt(d, x, k)
  {
    if d.day <= x && Subtract(d, x).Landed? {
      var k := LandedStops(d, x);
    }
    forall k: nat | StopsAt(d, x, k) {
      StopLands(d, x, k);
    }
  }

  lemma LandsInMonth(d: Date, x: nat)
    requires Valid(d) && Subtract(d, x).Landed?
    ensures var r := Subtract(d, x).date;
            After(r, x) == d <==> x < d.day || MonthDays(r.year, r.month) == d.day
  {
    SubtractNumber(d, x);
    var r := Subtract(d, x).date;
    AfterNumber(r, x);
    OrderIsCounting(After(r, x), d);
  }

  /** A subtraction lands, and on the right date, exactly when it stays in its month or the counter
      ends inside a month that is as long as the day it started from. */
  lemma SubtractRightExactly(d: Date, x: nat)
    requires Valid(d)
    ensures var r := Subtract(d, x);
            (r.Landed? && After(r.date, x) == d)
            <==> x < d.day || exists k: nat :: StopsAt(d, x, k) && Back(d, k).day == d.day
  {
    hide After, Subtract, StopsAt;
    LandsExactly(d, x);
    if Subtract(d, x).Landed? {
      LandsInMonth(d, x);
      if x >= d.day {
        var k := LandedStops(d, x);
        StopLength(d, x, k);
        forall j: nat | StopsAt(d, x, j)
          ensures j <= MonthsBefore(d)
          ensures Back(d, j).day == MonthDays(Subtract(d, x).date.year, Subtract(d, x).date.month)
        {
          StopLength(d, x, j);
        }
      }
    }
  }

  lemma StopLength(d: Date, x: nat, k: nat)
    requires Valid(d) && StopsAt(d, x, k)
    ensures k <= MonthsBefore(d) && Subtract(d, x).Landed?
    ensures Back(d, k).day == MonthDays(Subtract(d, x).date.year, Subtract(d, x).date.month)
  {
    StopLands(d, x, k);
  }

  /** 31 days before 31 March 2023 is 28 February; the source says 25 February. */
  lemma SubtractExample()
    ensures After(Date(2023, 2, 28), 31) == Date(2023, 3, 31)
    ensures Subtract(Date(2023, 3, 31), 31) == Landed(Date(2023, 2, 25))
    ensures Subtract(Date(2023, 3, 5), 5) == Wrapped
  {
    assert MonthDays(2023, 2) == 28 && MonthDays(2023, 3) == 31;
    AfterInMonth(Date(2023, 3, 1), 30);
    assert Next(Date(2023, 2, 28)) == Date(2023, 3, 1);
  }

  // ---------- The day of the week ----------

  /** Division as C++ has it, towards zero. */
  function Quotient(a: int, b: nat): int
    requires b > 0
  {
    if a >= 0 then a / b else -(-a / b)
  }

  /** Zeller's sum, with January and February counted to the year before. */
  function ZellerSum(d: Date): int
    requires d.year >= 1
  {
    var month := if d.month < 3 then d.month + 12 else d.month;
    var year := if d.month < 3 then d.year - 1 else d.year;
    var century, y := year / 100, year % 100;
    y + y / 4 + century / 4 - 2 * century + 26 * (month + 1) / 10 + d.day - 1
  }

  /** 2 January of the year zero counts as day 2; the sum makes it a Sunday. */
  const WEEKDAY_OFFSET: nat := 5

  method DayOfWeek(d: Date) returns (r: int)
    requires Valid(d) && d.year >= 1
    ensures 0 <= r <= 7 && (r - DayNumber(d)) % 7 == WEEKDAY_OFFSET
    ensures r == 7 <==> ZellerSum(d) < 0 && ZellerSum(d) % 7 == 0
  {
    ZellerCounts(d);
    var month, year := d.month, d.year;
    if month < 3 {
      month := month + 12;
      year := year - 1;
    }
    var century := year / 100;
    year := year % 100;
    var w: int := year + year / 4 + century / 4 - 2 * century + 26 * (month + 1) / 10 + d.day - 1;
    assert w == ZellerSum(d);
    r := Remainder(w);
    SameRemainder(r, w, DayNumber(d));
  }

  /** What the source returns for a sum: 7 instead of 0 when the sum is negative. */
  function Remainder(w: int): (r: int)
    ensures 0 <= r <= 7 && (r - w) % 7 == 0
    ensures r == 7 <==> w < 0 && w % 7 == 0
  {
    if w >= 0 then w % 7 else (1 - Quotient(w, 7)) * 7 + w
  }

  lemma SameRemainder(r: int, w: int, n: int)
    requires (r - w) % 7 == 0 && (w - n) % 7 == WEEKDAY_OFFSET
    ensures (r - n) % 7 == WEEKDAY_OFFSET
  {
  }

  lemma DivStep4(y: nat)
    requires y >= 1
    ensures y / 4 == (y - 1) / 4 + if y % 4 == 0 then 1 else 0
  {
  }

  lemma DivStep100(y: nat)
    requires y >= 1
    ensures y / 100 == (y - 1) / 100 + if y % 100 == 0 then 1 else 0
  {
  }

  lemma DivStep400(y: nat)
    requires y >= 1
    ensures y / 400 == (y - 1) / 400 + if y % 400 == 0 then 1 else 0
  {
  }

  lemma LeapByThree(y: nat)
    ensures (if Leap(y) then 1 else 0)
            == (if y % 4 == 0 then 1 else 0) - (if y % 100 == 0 then 1 else 0) + if y % 400 == 0 then 1 else 0
  {
    assert y % 400 == 0 ==> y % 100 == 0;
    assert y % 100 == 0 ==> y % 4 == 0;
  }

  /** Leap years up to and including y, the year zero among them. */
  function LeapYears(y: nat): int {
    1 + y / 4 - y / 100 + y / 400
  }

  lemma LeapYearsStep(y: nat)
    requires y >= 1
    ensures LeapYears(y) == LeapYears(y - 1) + if Leap(y) then 1 else 0
  {
    hide Leap;
    DivStep4(y);
    DivStep100(y);
    DivStep400(y);
    LeapByThree(y);
  }

  /** The days before a year, by its leap years. */
  lemma {:induction false} DaysBeforeYearIs(year: nat)
    requires year >= 1
    ensures DaysBeforeYear(year) == 365 * year + LeapYears(year - 1)
  {
    if year > 1 {
      DaysBeforeYearIs(year - 1);
      hide LeapYears, Leap;
      LeapYearsStep(year - 1);
    } else {
      assert DaysBeforeYear(0) == 0;
    }
  }

  /** The days from the start of the year before to a day of March or later, or of January or February. */
  lemma ShiftedNumber(d: Date)
    requires Valid(d) && d.year >= 1
    ensures var year := if d.month < 3 then d.year - 1 else d.year;
            DayNumber(d) == 365 * d.year + LeapYears(year) + d.day + CommonDaysBefore(d.month)
  {
    hide LeapYears, Leap;
    DaysBeforeYearIs(d.year);
    DaysBeforeMonthIs(d.year, d.month);
    LeapYearsStep(d.year);
  }

  /** Zeller's century terms stand for the leap years. */
  lemma CenturyTerms(year: nat)
    ensures var century, y := year / 100, year % 100;
            y + y / 4 + century / 4 - 2 * century == year + LeapYears(year) - 1 - 126 * century
  {
    var century, y := year / 100, year % 100;
    assert year == 100 * century + y;
    assert year / 4 == 25 * century + y / 4;
    assert year / 400 == century / 4;
  }

  /** Zeller's month term stands for the days before the month. */
  lemma MonthTerm(month: nat)
    requires 1 <= month <= 12
    ensures var shifted := if month < 3 then month + 12 else month;
            (26 * (shifted + 1) / 10 - (if month < 3 then 1 else 0) - CommonDaysBefore(month)) % 7 == 0
  {
  }

  /** The sum and the count of days agree modulo seven. */
  lemma ZellerCounts(d: Date)
    requires Valid(d) && d.year >= 1
    ensures (ZellerSum(d) - DayNumber(d)) % 7 == WEEKDAY_OFFSET
  {
    hide LeapYears, DayNumber, Leap, CommonDaysBefore;
    var shift := if d.month < 3 then 1 else 0;
    var month, year := d.month + 12 * shift, d.year - shift;
    var century, term := year / 100, 26 * (month + 1) / 10;
    ShiftedNumber(d);
    CenturyTerms(year);
    MonthTerm(d.month);
    var weeks := (term - shift - CommonDaysBefore(d.month)) / 7;
    assert ZellerSum(d) == year + LeapYears(year) - 1 - 126 * century + term + d.day - 1;
    hide ZellerSum;
    var quotient := weeks - 52 * d.year - 18 * century;
    assert ZellerSum(d) - DayNumber(d) == 7 * quotient - 2;
  }
}
