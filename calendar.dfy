/** Python's naive datetime on the proleptic Gregorian calendar, years 1 to 9999, as integer tuples.
    Day ordinals follow date.toordinal() (0001-01-01 is day 1), so that timedelta arithmetic and
    comparisons become integer arithmetic on ordinals and microseconds. */
module Calendar {

  datatype Date = Date(year: int, month: int, day: int)

  datatype DateTime = DateTime(date: Date, hour: int, minute: int, second: int, micro: int)
  {
    /** Every datetime object satisfies this: Python refuses to construct any other. */
    predicate Valid()
    {
      && ValidDate(date)
      && 0 <= hour < 24 && 0 <= minute < 60 && 0 <= second < 60 && 0 <= micro < 1000000
    }
  }

  const MinYear: int := 1
  const MaxYear: int := 9999
  /** The ordinal of 9999-12-31, the last date Python's date type holds. */
  const MaxOrdinal: int := 3652059
  const MicrosPerDay: int := 86400000000

  predicate IsLeap(y: int)
  {
    y % 4 == 0 && (y % 100 != 0 || y % 400 == 0)
  }

  function DaysInYear(y: int): int
  {
    if IsLeap(y) then 366 else 365
  }

  function DaysInMonth(y: int, m: int): int
    requires 1 <= m <= 12
  {
    if m == 2 then (if IsLeap(y) then 29 else 28)
    else if m == 4 || m == 6 || m == 9 || m == 11 then 30
    else 31
  }

  predicate ValidDate(d: Date)
  {
    MinYear <= d.year <= MaxYear && 1 <= d.month <= 12 && 1 <= d.day <= DaysInMonth(d.year, d.month)
  }

  /** Days in the years before `y`. */
  function DaysBeforeYear(y: int): int
    requires y >= 1
  {
    var p := y - 1;
    365 * p + p / 4 - p / 100 + p / 400
  }

  /** Days in the months of year `y` before month `m`. */
  function DaysBeforeMonth(y: int, m: int): int
    requires 1 <= m <= 12
  {
    (if m > 2 && IsLeap(y) then 1 else 0) +
    (if m == 1 then 0 else if m == 2 then 31 else if m == 3 then 59 else if m == 4 then 90
     else if m == 5 then 120 else if m == 6 then 151 else if m == 7 then 181 else if m == 8 then 212
     else if m == 9 then 243 else if m == 10 then 273 else if m == 11 then 304 else 334)
  }

  lemma DaysBeforeMonthStep(y: int, m: int)
    requires 1 <= m < 12
    ensures DaysBeforeMonth(y, m + 1) == DaysBeforeMonth(y, m) + DaysInMonth(y, m)
  {
  }

  lemma DaysBeforeYearStep(y: int)
    requires y >= 1
    ensures DaysBeforeYear(y + 1) == DaysBeforeYear(y) + DaysInYear(y)
  {
    var p := y - 1;
    assert (p + 1) / 4 == p / 4 + (if y % 4 == 0 then 1 else 0);
    assert (p + 1) / 100 == p / 100 + (if y % 100 == 0 then 1 else 0);
    assert (p + 1) / 400 == p / 400 + (if y % 400 == 0 then 1 else 0);
  }

  lemma {:induction false} DaysBeforeYearMonotone(a: int, b: int)
    requires 1 <= a <= b
    ensures DaysBeforeYear(a) + 365 * (b - a) <= DaysBeforeYear(b)
    decreases b - a
  {
    if a < b {
      DaysBeforeYearMonotone(a, b - 1);
      DaysBeforeYearStep(b - 1);
    }
  }

  /** date.toordinal() */
  function Ordinal(d: Date): int
    requires ValidDate(d)
  {
    DaysBeforeYear(d.year) + DaysBeforeMonth(d.year, d.month) + d.day
  }

  /** The year whose days contain ordinal `n`, searching upwards from `y`. */
  function FindYear(n: int, y: int): (r: int)
    requires 1 <= y && DaysBeforeYear(y) < n
    ensures y <= r && DaysBeforeYear(r) < n <= DaysBeforeYear(r + 1)
    decreases n - DaysBeforeYear(y)
  {
    DaysBeforeYearStep(y);
    if n <= DaysBeforeYear(y + 1) then y else FindYear(n, y + 1)
  }

  /** The month of year `y` containing day `r` of that year, searching downwards from `m`. */
  function FindMonth(y: int, r: int, m: int): (mm: int)
    requires 1 <= m <= 12 && 0 < r <= DaysBeforeMonth(y, m) + DaysInMonth(y, m)
    ensures 1 <= mm <= m && DaysBeforeMonth(y, mm) < r <= DaysBeforeMonth(y, mm) + DaysInMonth(y, mm)
  {
    if DaysBeforeMonth(y, m) < r then m
    else
      DaysBeforeMonthStep(y, m - 1);
      FindMonth(y, r, m - 1)
  }

  /** date.fromordinal(n): the inverse of Ordinal on days 1 to MaxOrdinal. */
  function FromOrdinal(n: int): (d: Date)
    requires 1 <= n <= MaxOrdinal
    ensures ValidDate(d) && Ordinal(d) == n
  {
    var y := FindYear(n, 1);
    if y > MaxYear then
      DaysBeforeYearMonotone(MaxYear + 1, y);
      assert false;
      Date(1, 1, 1)
    else
      DaysBeforeYearStep(y);
      var m := FindMonth(y, n - DaysBeforeYear(y), 12);
      Date(y, m, n - DaysBeforeYear(y) - DaysBeforeMonth(y, m))
  }

  lemma OrdinalInRange(d: Date)
    requires ValidDate(d)
    ensures 1 <= Ordinal(d) <= MaxOrdinal
    ensures DaysBeforeYear(d.year) < Ordinal(d) <= DaysBeforeYear(d.year + 1)
  {
    DaysBeforeYearStep(d.year);
    DaysBeforeYearMonotone(d.year + 1, MaxYear + 1);
  }

  lemma {:induction false} MonthUnique(y: int, r: int, a: int, b: int)
    requires 1 <= a <= 12 && 1 <= b <= 12
    requires DaysBeforeMonth(y, a) < r <= DaysBeforeMonth(y, a) + DaysInMonth(y, a)
    requires DaysBeforeMonth(y, b) < r <= DaysBeforeMonth(y, b) + DaysInMonth(y, b)
    ensures a == b
  {
  }

  /** Ordinal is injective on valid dates: FromOrdinal(Ordinal(d)) gives `d` back. */
  lemma OrdinalRoundTrip(d: Date)
    requires ValidDate(d)
    ensures FromOrdinal(Ordinal(d)) == d
  {
    var n := Ordinal(d);
    OrdinalInRange(d);
    var e := FromOrdinal(n);
    OrdinalInRange(e);
    // the year bracketing an ordinal is unique
    if d.year < e.year { DaysBeforeYearMonotone(d.year + 1, e.year); }
    if e.year < d.year { DaysBeforeYearMonotone(e.year + 1, d.year); }
    MonthUnique(d.year, n - DaysBeforeYear(d.year), d.month, e.month);
  }

  /** The instant as microseconds since 0001-01-01 00:00 minus one day; differences of Micros are
      the exact values of datetime subtraction. */
  function Micros(t: DateTime): int
    requires t.Valid()
  {
    ((((Ordinal(t.date) * 24 + t.hour) * 60 + t.minute) * 60 + t.second) * 1000000) + t.micro
  }

  /** Microseconds since midnight. */
  function TimeOfDay(t: DateTime): (r: int)
    requires t.Valid()
    ensures 0 <= r < MicrosPerDay
  {
    (((t.hour * 60 + t.minute) * 60 + t.second) * 1000000) + t.micro
  }

  /** Micros orders instants by day first, then by the time of day; equal instants are equal
      datetimes, and within one day the difference of instants is the difference of times of day. */
  lemma MicrosOrdered(a: DateTime, b: DateTime)
    requires a.Valid() && b.Valid()
    ensures Micros(a) < Micros(b) <==>
      Ordinal(a.date) < Ordinal(b.date) || (Ordinal(a.date) == Ordinal(b.date) && TimeOfDay(a) < TimeOfDay(b))
    ensures Ordinal(a.date) == Ordinal(b.date) ==> Micros(a) - Micros(b) == TimeOfDay(a) - TimeOfDay(b)
    ensures Micros(a) == Micros(b) ==> a == b
  {
    assert Micros(a) == Ordinal(a.date) * MicrosPerDay + TimeOfDay(a);
    assert Micros(b) == Ordinal(b.date) * MicrosPerDay + TimeOfDay(b);
    if Ordinal(a.date) < Ordinal(b.date) {
      assert Ordinal(a.date) * MicrosPerDay + MicrosPerDay <= Ordinal(b.date) * MicrosPerDay;
    }
    if Ordinal(b.date) < Ordinal(a.date) {
      assert Ordinal(b.date) * MicrosPerDay + MicrosPerDay <= Ordinal(a.date) * MicrosPerDay;
    }
    if Micros(a) == Micros(b) {
      assert Ordinal(a.date) == Ordinal(b.date);
      OrdinalRoundTrip(a.date);
      OrdinalRoundTrip(b.date);
    }
  }
}
