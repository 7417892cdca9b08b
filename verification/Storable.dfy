/** The dates and instants PostgreSQL can store, and the refusal of the others. */
module Storable {
  import opened Wrappers

  // ------------------------------------------------------------------
  // The proleptic Gregorian calendar
  // ------------------------------------------------------------------

  /** Years are astronomical: 4714 BC is year -4713. */
  datatype Date = Date(year: int, month: nat, day: nat)

  predicate IsLeap(year: int) {
    year % 4 == 0 && (year % 100 != 0 || year % 400 == 0)
  }

  function YearLength(year: int): (n: nat) {
    if IsLeap(year) then 366 else 365
  }

  function MonthLength(year: int, month: nat): (n: nat)
    requires 1 <= month <= 12
  {
    if month == 2 then (if IsLeap(year) then 29 else 28)
    else if month == 4 || month == 6 || month == 9 || month == 11 then 30
    else 31
  }

  predicate IsDate(d: Date) {
    1 <= d.month <= 12 && 1 <= d.day <= MonthLength(d.year, d.month)
  }

  predicate Before(a: Date, b: Date) {
    || a.year < b.year
    || (a.year == b.year && (a.month < b.month || (a.month == b.month && a.day < b.day)))
  }

  function NextDay(d: Date): (n: Date)
    requires IsDate(d)
    ensures IsDate(n) && Before(d, n)
  {
    if d.day < MonthLength(d.year, d.month) then d.(day := d.day + 1)
    else if d.month < 12 then Date(d.year, d.month + 1, 1)
    else Date(d.year + 1, 1, 1)
  }

  /** Leap years up to and without `year`, counted from year 1. */
  function LeapsBefore(year: int): (n: int) {
    (year - 1) / 4 - (year - 1) / 100 + (year - 1) / 400
  }

  function DaysBeforeYear(year: int): (n: int) {
    365 * (year - 1970) + LeapsBefore(year) - LeapsBefore(1970)
  }

  function DaysBeforeMonth(year: int, month: nat): (n: nat)
    requires 1 <= month <= 12
  {
    if month == 1 then 0 else DaysBeforeMonth(year, month - 1) + MonthLength(year, month - 1)
  }

  /** Days from 1970-01-01. */
  function DayNumber(d: Date): (n: int)
    requires IsDate(d)
  {
    DaysBeforeYear(d.year) + DaysBeforeMonth(d.year, d.month) + d.day - 1
  }

  lemma MultiplesStep(n: int, k: nat)
    requires k in {4, 100, 400}
    ensures n / k - (n - 1) / k == if n % k == 0 then 1 else 0
  {
    if k == 4 {
    } else if k == 100 {
    } else {
    }
  }

  lemma Hundreds(m: int)
    ensures (100 * m) % 100 == 0
  {
  }

  lemma Fours(m: int)
    ensures (4 * m) % 4 == 0
  {
  }

  lemma DividesDown(n: int)
    ensures n % 400 == 0 ==> n % 100 == 0
    ensures n % 100 == 0 ==> n % 4 == 0
  {
    Hundreds(4 * (n / 400));
    Fours(25 * (n / 100));
  }

  lemma LeapsStep(year: int)
    ensures LeapsBefore(year + 1) == LeapsBefore(year) + if IsLeap(year) then 1 else 0
  {
    MultiplesStep(year, 4);
    MultiplesStep(year, 100);
    MultiplesStep(year, 400);
    DividesDown(year);
  }

  lemma YearStep(year: int)
    ensures DaysBeforeYear(year + 1) == DaysBeforeYear(year) + YearLength(year)
  {
    LeapsStep(year);
  }

  lemma MonthsFillTheYear(year: int)
    ensures DaysBeforeMonth(year, 12) + 31 == YearLength(year)
  {
    assert DaysBeforeMonth(year, 1) == 0;
    assert DaysBeforeMonth(year, 2) == 31;
    assert DaysBeforeMonth(year, 3) == 31 + MonthLength(year, 2);
    assert DaysBeforeMonth(year, 5) == DaysBeforeMonth(year, 3) + 61;
    assert DaysBeforeMonth(year, 7) == DaysBeforeMonth(year, 5) + 61;
    assert DaysBeforeMonth(year, 9) == DaysBeforeMonth(year, 7) + 62;
    assert DaysBeforeMonth(year, 11) == DaysBeforeMonth(year, 9) + 61;
    assert DaysBeforeMonth(year, 12) == DaysBeforeMonth(year, 11) + 30;
  }

  /** The day number counts days: the day after has the next one. */
  lemma NextDayIsNextNumber(d: Date)
    requires IsDate(d)
    ensures DayNumber(NextDay(d)) == DayNumber(d) + 1
  {
    MonthsFillTheYear(d.year);
    YearStep(d.year);
  }

  lemma {:induction false} MonthsGrow(year: int, a: nat, b: nat)
    requires 1 <= a < b <= 12
    ensures DaysBeforeMonth(year, a) + MonthLength(year, a) <= DaysBeforeMonth(year, b)
    decreases b
  {
    if a < b - 1 {
      MonthsGrow(year, a, b - 1);
    }
  }

  lemma {:induction false} YearsGrow(a: int, b: int)
    requires a < b
    ensures DaysBeforeYear(a) + YearLength(a) <= DaysBeforeYear(b)
    decreases b - a
  {
    YearStep(b - 1);
    if a < b - 1 {
      YearsGrow(a, b - 1);
    }
  }

  lemma WithinTheYear(d: Date)
    requires IsDate(d)
    ensures DaysBeforeYear(d.year) <= DayNumber(d) < DaysBeforeYear(d.year) + YearLength(d.year)
  {
    MonthsFillTheYear(d.year);
    if d.month < 12 {
      MonthsGrow(d.year, d.month, 12);
    }
  }

  lemma EarlierIsSmaller(a: Date, b: Date)
    requires IsDate(a) && IsDate(b) && Before(a, b)
    ensures DayNumber(a) < DayNumber(b)
  {
    if a.year < b.year {
      WithinTheYear(a);
      WithinTheYear(b);
      YearsGrow(a.year, b.year);
    } else if a.month < b.month {
      MonthsGrow(a.year, a.month, b.month);
    }
  }

  /** The day number orders all dates as the calendar does. */
  lemma DayNumberOrders(a: Date, b: Date)
    requires IsDate(a) && IsDate(b)
    ensures Before(a, b) <==> DayNumber(a) < DayNumber(b)
  {
    if Before(a, b) {
      EarlierIsSmaller(a, b);
    } else if Before(b, a) {
      EarlierIsSmaller(b, a);
    }
  }

  // ------------------------------------------------------------------
  // PostgreSQL's range
  // ------------------------------------------------------------------

  const POSTGRES_MIN_MICROS: int := -210_866_803_200_000_000
  const POSTGRES_END_MICROS: int := 9_224_318_016_000_000_000
  const NANOS_PER_DAY: int := 86_400_000_000_000

  /** Whole seconds and the nanoseconds past them; a leap second runs past a thousand million. */
  datatype Instant = Instant(seconds: int, nanos: nat)

  function UnixNanos(at: Instant): (n: int) {
    at.seconds * 1_000_000_000 + at.nanos
  }

  predicate NanosWithinPostgresRange(nanos: int) {
    POSTGRES_MIN_MICROS * 1_000 <= nanos < POSTGRES_END_MICROS * 1_000
  }

  predicate WithinPostgresRange(at: Instant) {
    NanosWithinPostgresRange(UnixNanos(at))
  }

  const FIRST_DATE := Date(-4713, 11, 24)

  predicate DateWithinPostgresRange(d: Date) {
    !Before(d, FIRST_DATE)
  }

  function Midnight(d: Date): (instant: Instant)
    requires IsDate(d)
  {
    Instant(DayNumber(d) * 86_400, 0)
  }

  lemma TheBoundsAreTheseDays()
    ensures IsDate(FIRST_DATE) && DayNumber(FIRST_DATE) * NANOS_PER_DAY == POSTGRES_MIN_MICROS * 1_000
    ensures DayNumber(Date(294277, 1, 1)) * NANOS_PER_DAY == POSTGRES_END_MICROS * 1_000
    ensures DayNumber(Date(1970, 1, 1)) == 0
  {
    assert DaysBeforeMonth(-4713, 4) == 90;
    assert DaysBeforeMonth(-4713, 7) == 181;
    assert DaysBeforeMonth(-4713, 10) == 273;
    assert DaysBeforeMonth(-4713, 11) == 304;
  }

  /** The check on a date and the check on an instant are one rule: over all years a midnight is in
      range exactly when its date is and its year is one a `timestamptz` reaches. */
  lemma DateCheckMatchesInstantCheck(d: Date)
    requires IsDate(d)
    ensures WithinPostgresRange(Midnight(d)) <==> DateWithinPostgresRange(d) && d.year <= 294276
  {
    TheBoundsAreTheseDays();
    DayNumberOrders(d, FIRST_DATE);
    DayNumberOrders(d, Date(294277, 1, 1));
  }

  function FloorMicros(nanos: int): (n: int) {
    nanos / 1_000
  }

  function TruncatedMicros(nanos: int): (n: int) {
    if nanos < 0 then -((-nanos) / 1_000) else nanos / 1_000
  }

  predicate MicrosInRange(micros: int) {
    POSTGRES_MIN_MICROS <= micros < POSTGRES_END_MICROS
  }

  /** An accepted instant is still in range once cut to microseconds, by floor or toward zero. By
      floor the range accepts nothing else; toward zero it would also take in exactly the 999
      nanoseconds before the minimum, which the check refuses. */
  lemma AcceptedInstantsStayInRange(at: Instant)
    ensures WithinPostgresRange(at) <==> MicrosInRange(FloorMicros(UnixNanos(at)))
    ensures MicrosInRange(TruncatedMicros(UnixNanos(at)))
            <==> || WithinPostgresRange(at)
                 || POSTGRES_MIN_MICROS * 1_000 - 1_000 < UnixNanos(at) < POSTGRES_MIN_MICROS * 1_000
  {
  }

  // ------------------------------------------------------------------
  // Refusing bounds
  // ------------------------------------------------------------------

  type Bound = (string, Option<Instant>)

  predicate Refusable(bound: Bound) {
    bound.1.Some? && !WithinPostgresRange(bound.1.value)
  }

  function Refused(bound: Bound): (fields: seq<string>) {
    if Refusable(bound) then [bound.0] else []
  }

  function RefusedFields(bounds: seq<Bound>): (r: seq<string>) {
    if bounds == [] then []
    else Refused(bounds[0]) + RefusedFields(bounds[1..])
  }

  function RefuseOutOfRange(bounds: seq<Bound>): (r: Result<(), seq<string>>) {
    if RefusedFields(bounds) == [] then Ok(()) else Err(RefusedFields(bounds))
  }

  lemma {:induction false} RefusedFieldsJoin(a: seq<Bound>, b: seq<Bound>)
    ensures RefusedFields(a + b) == RefusedFields(a) + RefusedFields(b)
  {
    if a == [] {
      assert a + b == b;
    } else {
      assert (a + b)[1..] == a[1..] + b;
      RefusedFieldsJoin(a[1..], b);
      assert Refused(a[0]) + (RefusedFields(a[1..]) + RefusedFields(b))
          == Refused(a[0]) + RefusedFields(a[1..]) + RefusedFields(b);
    }
  }

  /** The refusal names every bound PostgreSQL cannot hold, in the place the bounds before it give
      it, and no bound it can hold. */
  lemma EveryBadBoundIsNamed(bounds: seq<Bound>, i: nat)
    requires i < |bounds|
    ensures RefusedFields(bounds)
            == RefusedFields(bounds[..i]) + (if Refusable(bounds[i]) then [bounds[i].0] else []) + RefusedFields(bounds[i + 1..])
  {
    var before, after := bounds[..i], bounds[i..];
    assert bounds == before + after;
    RefusedFieldsJoin(before, after);
    assert after[0] == bounds[i] && after[1..] == bounds[i + 1..];
  }

  lemma {:induction false} NoBadBoundNoRefusal(bounds: seq<Bound>)
    ensures RefuseOutOfRange(bounds).Ok? <==> forall i :: 0 <= i < |bounds| ==> !Refusable(bounds[i])
  {
    if bounds == [] {
    } else {
      NoBadBoundNoRefusal(bounds[1..]);
      assert forall i :: 1 <= i < |bounds| ==> bounds[i] == bounds[1..][i - 1];
      if forall i :: 0 <= i < |bounds[1..]| ==> !Refusable(bounds[1..][i]) {
      } else {
        var i :| 0 <= i < |bounds[1..]| && Refusable(bounds[1..][i]);
        assert Refusable(bounds[i + 1]);
      }
    }
  }
}
