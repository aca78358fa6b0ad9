/**
 * Python `datetime` values: a proleptic Gregorian calendar date, a wall-clock
 * time and an optional UTC offset (`tzinfo`; `None` makes the value naive),
 * with the operations the backend applies to them.
 */
module DateTimes {
  import opened Wrappers

  const MinYear := 1
  const MaxYear := 9999

  predicate IsLeap(year: int) {
    year % 4 == 0 && (year % 100 != 0 || year % 400 == 0)
  }

  function DaysInMonth(year: int, month: int): (n: int)
    requires 1 <= month <= 12
    ensures 28 <= n <= 31
  {
    if month == 2 then (if IsLeap(year) then 29 else 28)
    else if month == 4 || month == 6 || month == 9 || month == 11 then 30
    else 31
  }

  /** A UTC offset is a whole number of seconds east of UTC. */
  datatype RawDateTime = DateTime(
    year: int, month: int, day: int,
    hour: int, minute: int, second: int, microsecond: int,
    utcOffset: Option<int>)

  /** The ranges Python's `datetime` constructor enforces. */
  predicate IsValid(d: RawDateTime) {
    && MinYear <= d.year <= MaxYear
    && 1 <= d.month <= 12
    && 1 <= d.day <= DaysInMonth(d.year, d.month)
    && 0 <= d.hour < 24 && 0 <= d.minute < 60 && 0 <= d.second < 60
    && 0 <= d.microsecond < 1000000
    && (d.utcOffset.Some? ==> -86400 < d.utcOffset.value < 86400)
  }

  type DateTime = d: RawDateTime | IsValid(d) witness DateTime(1, 1, 1, 0, 0, 0, 0, None)

  predicate IsAware(d: DateTime) {
    d.utcOffset.Some?
  }

  /** `datetime.now(timezone.utc)` for a clock whose reading is the UTC wall time. */
  function NowUtc(clock: DateTime): DateTime {
    clock.(utcOffset := Some(0))
  }

  /** `datetime.utcnow()`: the same UTC wall time, but naive. */
  function UtcNowNaive(clock: DateTime): DateTime {
    clock.(utcOffset := None)
  }

  /** `d.replace(tzinfo=timezone.utc)` on a naive value; an aware value is kept as it is. */
  function AttachUtc(d: DateTime): (r: DateTime)
    ensures IsAware(r)
    ensures IsAware(d) ==> r == d
    ensures !IsAware(d) ==> r == d.(utcOffset := Some(0))
    ensures r.(utcOffset := d.utcOffset) == d
  {
    if d.utcOffset.None? then d.(utcOffset := Some(0)) else d
  }

  /** `d.replace(hour=0, minute=0, second=0, microsecond=0)`. */
  function Midnight(d: DateTime): DateTime {
    d.(hour := 0, minute := 0, second := 0, microsecond := 0)
  }

  /** `d.replace(day=day)`, which raises `ValueError` when the day is outside the month. */
  function ReplaceDay(d: DateTime, day: int): (r: Option<DateTime>)
    ensures r.Some? <==> 1 <= day <= DaysInMonth(d.year, d.month)
    ensures r.Some? ==> r.value == d.(day := day)
  {
    if 1 <= day <= DaysInMonth(d.year, d.month) then Some(d.(day := day)) else None
  }

  /** Days in the years before `year`, as in `datetime.toordinal()`. */
  function DaysBeforeYear(year: int): int
    requires year >= 1
  {
    var y := year - 1;
    y * 365 + y / 4 - y / 100 + y / 400
  }

  /** Days in the months of `year` before `month`. */
  function DaysBeforeMonth(year: int, month: int): int
    requires 1 <= month <= 12
  {
    var table := [0, 31, 59, 90, 120, 151, 181, 212, 243, 273, 304, 334];
    table[month - 1] + (if month > 2 && IsLeap(year) then 1 else 0)
  }

  /** `d.toordinal()`: 1 for 0001-01-01, one more for each following day. */
  function DayOrdinal(d: DateTime): int {
    DaysBeforeYear(d.year) + DaysBeforeMonth(d.year, d.month) + d.day
  }

  /** `d + timedelta(days=1)`, which raises `OverflowError` past 9999-12-31. */
  function AddOneDay(d: DateTime): Option<DateTime> {
    if d.day < DaysInMonth(d.year, d.month) then Some(d.(day := d.day + 1))
    else if d.month < 12 then Some(d.(month := d.month + 1, day := 1))
    else if d.year < MaxYear then Some(d.(year := d.year + 1, month := 1, day := 1))
    else None
  }

  /** One more year passes `year / k` one step exactly when `k` divides it. */
  lemma DivStep(year: int, k: int)
    requires year >= 1 && (k == 4 || k == 100 || k == 400)
    ensures year / k == (year - 1) / k + (if year % k == 0 then 1 else 0)
  {
    var q, r := (year - 1) / k, (year - 1) % k;
    assert year - 1 == q * k + r && 0 <= r < k;
    if r + 1 == k {
      assert year == (q + 1) * k;
    } else {
      assert year == q * k + (r + 1);
    }
  }

  /** A multiple of 100 is a multiple of 4, and one of 400 a multiple of 100. */
  lemma DivisorOfDivisor(n: int, k: int, d: int)
    requires (k == 100 && d == 4) || (k == 400 && d == 100)
    requires n % k == 0
    ensures n % d == 0
  {
    var m := n / k;
    assert n == k * m;
    var e := k / d;
    assert k == d * e;
    assert n == d * (e * m);
  }

  lemma DaysBeforeYearStep(year: int)
    requires year >= 1
    ensures DaysBeforeYear(year + 1) == DaysBeforeYear(year) + (if IsLeap(year) then 366 else 365)
  {
    DivStep(year, 4);
    DivStep(year, 100);
    DivStep(year, 400);
    var a := if year % 4 == 0 then 1 else 0;
    var b := if year % 100 == 0 then 1 else 0;
    var c := if year % 400 == 0 then 1 else 0;
    var y := year - 1;
    assert DaysBeforeYear(year) == y * 365 + y / 4 - y / 100 + y / 400;
    assert DaysBeforeYear(year + 1) == year * 365 + year / 4 - year / 100 + year / 400;
    assert year * 365 == y * 365 + 365;
    assert year / 4 == y / 4 + a && year / 100 == y / 100 + b && year / 400 == y / 400 + c;
    if year % 100 == 0 { DivisorOfDivisor(year, 100, 4); }
    if year % 400 == 0 { DivisorOfDivisor(year, 400, 100); }
    assert IsLeap(year) <==> a == 1 && (b == 0 || c == 1);
  }

  /** Adding one day moves to the next calendar day and keeps the time and the offset. */
  lemma AddOneDayIsNextDay(d: DateTime)
    ensures AddOneDay(d).None? <==> d.year == MaxYear && d.month == 12 && d.day == 31
    ensures AddOneDay(d).Some? ==> DayOrdinal(AddOneDay(d).value) == DayOrdinal(d) + 1
    ensures AddOneDay(d).Some? ==> AddOneDay(d).value.(year := d.year, month := d.month, day := d.day) == d
  {
    if d.day == DaysInMonth(d.year, d.month) && d.month == 12 && d.year < MaxYear {
      DaysBeforeYearStep(d.year);
    }
  }
}
