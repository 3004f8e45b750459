/** Proleptic Gregorian calendar dates and wall-clock date-times at minute
    precision. A date is kept as its (year, month, day) fields, as a browser
    Date or a Python date exposes them; moving by whole days walks the
    calendar one day at a time, so month and year roll-over are explicit. */
module Dates {

  datatype Date = Date(year: int, month: int, day: int)

  /** A wall-clock date-time: a date and the minute of that day (0..1439). */
  datatype DateTime = DateTime(date: Date, minute: int)

  const MinutesPerDay: int := 1440

  predicate IsLeapYear(y: int) {
    y % 4 == 0 && (y % 100 != 0 || y % 400 == 0)
  }

  function DaysInMonth(y: int, m: int): (n: int)
    requires 1 <= m <= 12
    ensures 28 <= n <= 31
    ensures n == 29 <==> (m == 2 && IsLeapYear(y))
  {
    if m == 2 then (if IsLeapYear(y) then 29 else 28)
    else if m == 4 || m == 6 || m == 9 || m == 11 then 30
    else 31
  }

  predicate ValidDate(d: Date) {
    1 <= d.month <= 12 && 1 <= d.day <= DaysInMonth(d.year, d.month)
  }

  predicate ValidDateTime(t: DateTime) {
    ValidDate(t.date) && 0 <= t.minute < MinutesPerDay
  }

  function Hour(t: DateTime): int { t.minute / 60 }
  function MinuteOfHour(t: DateTime): int { t.minute % 60 }

  /** The day after `d`, rolling over month and year ends. */
  function NextDay(d: Date): (r: Date)
    requires ValidDate(d)
    ensures ValidDate(r)
    ensures r != d
  {
    if d.day < DaysInMonth(d.year, d.month) then Date(d.year, d.month, d.day + 1)
    else if d.month < 12 then Date(d.year, d.month + 1, 1)
    else Date(d.year + 1, 1, 1)
  }

  /** The day before `d`, rolling back over month and year starts. */
  function PrevDay(d: Date): (r: Date)
    requires ValidDate(d)
    ensures ValidDate(r)
  {
    if d.day > 1 then Date(d.year, d.month, d.day - 1)
    else if d.month > 1 then Date(d.year, d.month - 1, DaysInMonth(d.year, d.month - 1))
    else Date(d.year - 1, 12, 31)
  }

  lemma PrevNext(d: Date)
    requires ValidDate(d)
    ensures PrevDay(NextDay(d)) == d
  {
  }

  lemma NextPrev(d: Date)
    requires ValidDate(d)
    ensures NextDay(PrevDay(d)) == d
  {
  }

  /** `d` moved by `k` days (negative `k` moves back), the way a browser
      normalises `setDate(getDate() + k)`. */
  function AddDays(d: Date, k: int): (r: Date)
    requires ValidDate(d)
    ensures ValidDate(r)
    decreases if k >= 0 then k else -k
  {
    if k == 0 then d
    else if k > 0 then AddDays(NextDay(d), k - 1)
    else AddDays(PrevDay(d), k + 1)
  }

  lemma AddDaysNext(d: Date, k: int)
    requires ValidDate(d)
    ensures AddDays(NextDay(d), k) == AddDays(d, k + 1)
  {
    if k < 0 {
      PrevNext(d);
    }
  }

  lemma AddDaysPrev(d: Date, k: int)
    requires ValidDate(d)
    ensures AddDays(PrevDay(d), k) == AddDays(d, k - 1)
  {
    if k > 0 {
      NextPrev(d);
    }
  }

  /** Moving by `i` days and then by `j` days is moving by `i + j` days. */
  lemma {:induction false} AddDaysAdd(d: Date, i: int, j: int)
    requires ValidDate(d)
    ensures AddDays(AddDays(d, i), j) == AddDays(d, i + j)
    decreases if i >= 0 then i else -i
  {
    if i > 0 {
      AddDaysAdd(NextDay(d), i - 1, j);
      AddDaysNext(d, i - 1 + j);
    } else if i < 0 {
      AddDaysAdd(PrevDay(d), i + 1, j);
      AddDaysPrev(d, i + 1 + j);
    }
  }

  lemma AddDaysSwap(d: Date, i: int, j: int)
    requires ValidDate(d)
    ensures AddDays(AddDays(d, i), j) == AddDays(AddDays(d, j), i)
  {
    AddDaysAdd(d, i, j);
    AddDaysAdd(d, j, i);
  }

  lemma AddDaysInverse(d: Date, k: int)
    requires ValidDate(d)
    ensures AddDays(AddDays(d, k), -k) == d
  {
    AddDaysAdd(d, k, -k);
  }

  /** Days before the first of month `m` in year `y`. */
  function DaysBeforeMonth(y: int, m: int): int
    requires 1 <= m <= 12
  {
    var leap := if IsLeapYear(y) then 1 else 0;
    if m == 1 then 0 else if m == 2 then 31
    else if m == 3 then 59 + leap else if m == 4 then 90 + leap
    else if m == 5 then 120 + leap else if m == 6 then 151 + leap
    else if m == 7 then 181 + leap else if m == 8 then 212 + leap
    else if m == 9 then 243 + leap else if m == 10 then 273 + leap
    else if m == 11 then 304 + leap else 334 + leap
  }

  /** Days from the proleptic Gregorian 0000-12-31 (so 0001-01-01, a Monday, is 1). */
  function DayNumber(d: Date): int
    requires ValidDate(d)
  {
    var y := d.year - 1;
    365 * y + y / 4 - y / 100 + y / 400 + DaysBeforeMonth(d.year, d.month) + d.day
  }

  lemma {:induction false} MulAtLeast(k: int, d: int)
    requires k > 0 && d >= 1
    ensures k * d >= k
    decreases d
  {
    if d > 1 {
      MulAtLeast(k, d - 1);
      assert k * d == k * (d - 1) + k;
    }
  }

  /** Euclidean division is determined by quotient and remainder bounds. */
  lemma DivUnique(a: int, k: int, q: int, r: int)
    requires k > 0 && a == k * q + r && 0 <= r < k
    ensures a / k == q && a % k == r
  {
    var q', r' := a / k, a % k;
    assert a == k * q' + r';
    assert k * q - k * q' == r' - r;
    assert k * (q - q') == r' - r;
    if q > q' {
      MulAtLeast(k, q - q');
    } else if q < q' {
      MulAtLeast(k, q' - q);
    }
  }

  /** `y / k` steps up by one at and only at multiples of `k`. */
  lemma DivStep(y: int, k: int)
    requires k > 0
    ensures (y - 1) / k == if y % k == 0 then y / k - 1 else y / k
  {
    var q, r := y / k, y % k;
    if r == 0 {
      DivUnique(y - 1, k, q - 1, k - 1);
    } else {
      DivUnique(y - 1, k, q, r - 1);
    }
  }

  lemma LeapFromDivisions(y: int)
    ensures (y / 4 - (y - 1) / 4) - (y / 100 - (y - 1) / 100) + (y / 400 - (y - 1) / 400)
            == if IsLeapYear(y) then 1 else 0
  {
    DivStep(y, 4);
    DivStep(y, 100);
    DivStep(y, 400);
    if y % 400 == 0 {
      DivUnique(y, 100, 4 * (y / 400), 0);
      DivUnique(y, 4, 100 * (y / 400), 0);
    } else if y % 100 == 0 {
      DivUnique(y, 4, 25 * (y / 100), 0);
    }
  }

  lemma DayNumberNext(d: Date)
    requires ValidDate(d)
    ensures DayNumber(NextDay(d)) == DayNumber(d) + 1
  {
    if d.day < DaysInMonth(d.year, d.month) {
    } else if d.month < 12 {
      DaysBeforeNextMonth(d.year, d.month);
    } else {
      var y := d.year;
      assert DayNumber(d) == 365 * (y - 1) + (y - 1) / 4 - (y - 1) / 100 + (y - 1) / 400 + 365 + (if IsLeapYear(y) then 1 else 0);
      assert DayNumber(NextDay(d)) == 365 * y + y / 4 - y / 100 + y / 400 + 1;
      LeapFromDivisions(y);
    }
  }

  lemma DaysBeforeNextMonth(y: int, m: int)
    requires 1 <= m < 12
    ensures DaysBeforeMonth(y, m + 1) == DaysBeforeMonth(y, m) + DaysInMonth(y, m)
  {
  }

  lemma {:induction false} DayNumberAddDays(d: Date, k: int)
    requires ValidDate(d)
    ensures DayNumber(AddDays(d, k)) == DayNumber(d) + k
    decreases if k >= 0 then k else -k
  {
    if k > 0 {
      assert DayNumber(NextDay(d)) == DayNumber(d) + 1 by {
        DayNumberNext(d);
      }
      DayNumberAddDays(NextDay(d), k - 1);
    } else if k < 0 {
      assert DayNumber(PrevDay(d)) == DayNumber(d) - 1 by {
        DayNumberNext(PrevDay(d));
        NextPrev(d);
      }
      DayNumberAddDays(PrevDay(d), k + 1);
    }
  }

  /** Day of the week as a browser's `getDay()` numbers it: 0 is Sunday,
      1 Monday, ..., 6 Saturday. */
  function Weekday(d: Date): (w: int)
    requires ValidDate(d)
    ensures 0 <= w < 7
  {
    DayNumber(d) % 7
  }

  lemma WeekdayAddDays(d: Date, k: int)
    requires ValidDate(d)
    ensures Weekday(AddDays(d, k)) == (Weekday(d) + k) % 7
  {
    DayNumberAddDays(d, k);
    var n := DayNumber(d);
    DivUnique(n + k, 7, n / 7 + (n % 7 + k) / 7, (n % 7 + k) % 7);
  }

  /** Whole weeks keep the day of the week. */
  lemma WeekdayWeeks(d: Date, k: int)
    requires ValidDate(d)
    ensures Weekday(AddDays(d, 7 * k)) == Weekday(d)
  {
    WeekdayAddDays(d, 7 * k);
    DivUnique(Weekday(d) + 7 * k, 7, k, Weekday(d));
  }

  /** Dates `k` days apart for `0 < k < 7` fall on different weekdays, so
      they are different dates. */
  lemma AddDaysDistinct(d: Date, i: int, j: int)
    requires ValidDate(d) && i != j && -7 < i - j < 7
    ensures AddDays(d, i) != AddDays(d, j)
  {
    var a, b := Weekday(d) + i, Weekday(d) + j;
    assert Weekday(AddDays(d, i)) == a % 7 by {
      WeekdayAddDays(d, i);
    }
    assert Weekday(AddDays(d, j)) == b % 7 by {
      WeekdayAddDays(d, j);
    }
    ModSevenDiffers(a, b);
  }

  /** Numbers less than a week apart leave different remainders modulo 7. */
  lemma ModSevenDiffers(a: int, b: int)
    requires a != b && -7 < a - b < 7
    ensures a % 7 != b % 7
  {
    var q, r := a / 7, a % 7;
    var s := r + (b - a);
    if s < 0 {
      DivUnique(b, 7, q - 1, s + 7);
    } else if s < 7 {
      DivUnique(b, 7, q, s);
    } else {
      DivUnique(b, 7, q + 1, s - 7);
    }
  }

  /** `t` moved by `delta` minutes, carrying into whole days. */
  function ShiftMinutes(t: DateTime, delta: int): (r: DateTime)
    requires ValidDateTime(t)
    ensures ValidDateTime(r)
  {
    var total := t.minute + delta;
    DateTime(AddDays(t.date, total / MinutesPerDay), total % MinutesPerDay)
  }

  lemma ShiftZero(t: DateTime)
    requires ValidDateTime(t)
    ensures ShiftMinutes(t, 0) == t
  {
  }

  lemma DivModSplit(m: int, a: int, b: int)
    ensures (m + a) / MinutesPerDay + ((m + a) % MinutesPerDay + b) / MinutesPerDay
            == (m + a + b) / MinutesPerDay
    ensures ((m + a) % MinutesPerDay + b) % MinutesPerDay == (m + a + b) % MinutesPerDay
  {
    var q1, r1 := (m + a) / MinutesPerDay, (m + a) % MinutesPerDay;
    var q2, r2 := (r1 + b) / MinutesPerDay, (r1 + b) % MinutesPerDay;
    assert m + a + b == MinutesPerDay * (q1 + q2) + r2;
  }

  /** Shifting by `a` and then by `b` minutes is shifting by `a + b`. */
  lemma ShiftAdd(t: DateTime, a: int, b: int)
    requires ValidDateTime(t)
    ensures ShiftMinutes(ShiftMinutes(t, a), b) == ShiftMinutes(t, a + b)
  {
    var total := t.minute + a;
    DivModSplit(t.minute, a, b);
    AddDaysAdd(t.date, total / MinutesPerDay, (total % MinutesPerDay + b) / MinutesPerDay);
  }

  lemma ShiftCommute(t: DateTime, a: int, b: int)
    requires ValidDateTime(t)
    ensures ShiftMinutes(ShiftMinutes(t, a), b) == ShiftMinutes(ShiftMinutes(t, b), a)
  {
    ShiftAdd(t, a, b);
    ShiftAdd(t, b, a);
    assert a + b == b + a;
  }

  lemma ShiftInverse(t: DateTime, delta: int)
    requires ValidDateTime(t)
    ensures ShiftMinutes(ShiftMinutes(t, delta), -delta) == t
  {
    ShiftAdd(t, delta, -delta);
  }

  /** Shifting by whole days keeps the minute of the day. */
  lemma ShiftWholeDays(t: DateTime, k: int)
    requires ValidDateTime(t)
    ensures ShiftMinutes(t, k * MinutesPerDay) == DateTime(AddDays(t.date, k), t.minute)
  {
    DivUnique(t.minute + k * MinutesPerDay, MinutesPerDay, k, t.minute);
  }

  /** Walking from the first of a month reaches each of its days. */
  lemma {:induction false} AddDaysWithinMonth(y: int, m: int, j: int)
    requires 1 <= m <= 12 && 1 <= j <= DaysInMonth(y, m)
    ensures AddDays(Date(y, m, 1), j - 1) == Date(y, m, j)
    decreases j
  {
    if j > 1 {
      AddDaysWithinMonth(y, m, j - 1);
      AddDaysAdd(Date(y, m, 1), j - 2, 1);
    }
  }

  /** Minutes since 0000-12-31 00:00: a date-time's place on a single line. */
  function MinuteNumber(t: DateTime): int
    requires ValidDate(t.date)
  {
    DayNumber(t.date) * MinutesPerDay + t.minute
  }

  lemma MinuteNumberShift(t: DateTime, delta: int)
    requires ValidDateTime(t)
    ensures MinuteNumber(ShiftMinutes(t, delta)) == MinuteNumber(t) + delta
  {
    var total := t.minute + delta;
    DayNumberAddDays(t.date, total / MinutesPerDay);
  }

  /** Only a zero shift leaves a date-time where it was. */
  lemma ShiftMoves(t: DateTime, delta: int)
    requires ValidDateTime(t) && delta != 0
    ensures ShiftMinutes(t, delta) != t
  {
    MinuteNumberShift(t, delta);
  }
}
