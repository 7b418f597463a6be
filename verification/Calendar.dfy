/** Recurrence over the proleptic Gregorian calendar. */
module Calendar {
  import opened Options

  datatype Date = Date(year: int, month: int, day: int)

  /** A moment at a fixed offset: a date and the microseconds since its midnight. */
  datatype Moment = Moment(date: Date, time: nat)

  const MICROSECONDS_A_DAY: nat := 86_400_000_000
  const MAX_YEAR := 9999

  predicate IsLeap(year: int) {
    year % 4 == 0 && (year % 100 != 0 || year % 400 == 0)
  }

  function MonthLength(year: int, month: int): (n: int)
    ensures 28 <= n <= 31
  {
    if month == 2 then (if IsLeap(year) then 29 else 28)
    else if month == 4 || month == 6 || month == 9 || month == 11 then 30
    else 31
  }

  predicate ValidDate(d: Date) {
    1 <= d.year <= MAX_YEAR && 1 <= d.month <= 12 && 1 <= d.day <= MonthLength(d.year, d.month)
  }

  predicate ValidMoment(m: Moment) {
    ValidDate(m.date) && m.time < MICROSECONDS_A_DAY
  }

  // ----- counting days -----

  function DaysBeforeYear(year: int): int {
    var y := year - 1;
    y * 365 + y / 4 - y / 100 + y / 400
  }

  function DaysBeforeMonth(year: int, month: int): int
    requires 1 <= month <= 13
  {
    if month == 1 then 0 else DaysBeforeMonth(year, month - 1) + MonthLength(year, month - 1)
  }

  /** The day number of a date; 0001-01-01 is day 1. */
  function Ordinal(d: Date): int
    requires 1 <= d.month <= 12
  {
    DaysBeforeYear(d.year) + DaysBeforeMonth(d.year, d.month) + d.day
  }

  function FirstOfNextMonth(d: Date): Date {
    if d.month == 12 then Date(d.year + 1, 1, 1) else Date(d.year, d.month + 1, 1)
  }

  lemma MonthsOfYear(year: int)
    ensures DaysBeforeMonth(year, 13) == if IsLeap(year) then 366 else 365
  {
    assert DaysBeforeMonth(year, 2) == 31 + DaysBeforeMonth(year, 1);
    assert DaysBeforeMonth(year, 4) == DaysBeforeMonth(year, 3) + 31;
    assert DaysBeforeMonth(year, 6) == DaysBeforeMonth(year, 5) + 31;
    assert DaysBeforeMonth(year, 8) == DaysBeforeMonth(year, 7) + 31;
    assert DaysBeforeMonth(year, 10) == DaysBeforeMonth(year, 9) + 30;
    assert DaysBeforeMonth(year, 12) == DaysBeforeMonth(year, 11) + 30;
  }

  /** Years follow one another without a gap: the closed form agrees with the months. */
  lemma YearLength(year: int)
    ensures DaysBeforeYear(year + 1) == DaysBeforeYear(year) + DaysBeforeMonth(year, 13)
  {
    MonthsOfYear(year);
    CenturyRules(year);
    hide DaysBeforeMonth;
    EveryNth(year, 4);
    EveryNth(year, 100);
    EveryNth(year, 400);
  }

  /** Counting to n, one more multiple of k has gone by exactly when n is one. */
  lemma EveryNth(n: int, k: int)
    requires k > 1
    ensures n / k == (n - 1) / k + if n % k == 0 then 1 else 0
  {
    var q, r := (n - 1) / k, (n - 1) % k;
    assert n - 1 == k * q + r;
    if r + 1 < k {
      DividesAs(n, k, q, r + 1);
    } else {
      assert n == k * (q + 1);
      DividesAs(n, k, q + 1, 0);
    }
  }

  lemma DividesAs(n: int, k: int, q: int, r: int)
    requires n == k * q + r && 0 <= r < k
    ensures n / k == q && n % k == r
  {
    var p := n / k;
    assert n == k * p + n % k;
    Scaling(k, p + 1, q);
    Scaling(k, q + 1, p);
    assert p == q;
  }

  lemma Scaling(k: int, a: int, b: int)
    requires k > 0
    ensures a <= b ==> k * a <= k * b
  {
  }

  lemma CenturyRules(year: int)
    ensures year % 400 == 0 ==> year % 100 == 0
    ensures year % 100 == 0 ==> year % 4 == 0
  {
  }

  /** The day after the last of a month is the first of the next: ordinals have no gaps. */
  lemma OrdinalsAreContiguous(d: Date)
    requires 1 <= d.month <= 12
    ensures Ordinal(FirstOfNextMonth(d)) == Ordinal(d) + MonthLength(d.year, d.month) - d.day + 1
  {
    if d.month == 12 { YearLength(d.year); }
  }

  /** The days before a month in a year without a leap day, by one division. */
  lemma DaysBeforeMonthClosed(year: int, month: int)
    requires 1 <= month <= 12
    ensures DaysBeforeMonth(year, month) ==
            (367 * month - 362) / 12 - (if month <= 2 then 0 else if IsLeap(year) then 1 else 2)
  {
    assert DaysBeforeMonth(year, 2) == 31 + DaysBeforeMonth(year, 1);
    assert DaysBeforeMonth(year, 4) == DaysBeforeMonth(year, 3) + 31;
    assert DaysBeforeMonth(year, 6) == DaysBeforeMonth(year, 5) + 31;
    assert DaysBeforeMonth(year, 8) == DaysBeforeMonth(year, 7) + 31;
    assert DaysBeforeMonth(year, 10) == DaysBeforeMonth(year, 9) + 30;
    assert DaysBeforeMonth(year, 12) == DaysBeforeMonth(year, 11) + 30;
  }

  /** The numbering by months and years agrees with the closed formula of the Gregorian calendar. */
  lemma OrdinalIsClosed(d: Date)
    requires 1 <= d.month <= 12
    ensures var y, leap := d.year - 1, d.year % 400 == 0 || (d.year % 4 == 0 && d.year % 100 != 0);
            Ordinal(d) == 365 * y + y / 4 - y / 100 + y / 400
                          + (367 * d.month - 362) / 12 - (if d.month <= 2 then 0 else if leap then 1 else 2)
                          + d.day
  {
    DaysBeforeMonthClosed(d.year, d.month);
    LeapYears(d.year);
  }

  lemma LeapYears(year: int)
    ensures IsLeap(year) <==> year % 400 == 0 || (year % 4 == 0 && year % 100 != 0)
  {
  }

  lemma MonthLengths(year: int, month: int)
    requires 1 <= month <= 12
    ensures MonthLength(year, month) ==
            [31, if year % 400 == 0 || (year % 4 == 0 && year % 100 != 0) then 29 else 28,
             31, 30, 31, 30, 31, 31, 30, 31, 30, 31][month - 1]
  {
    LeapYears(year);
  }

  function MonthIndex(d: Date): int {
    d.year * 12 + d.month - 1
  }

  /** A date in a month n later has an ordinal at least 28 days a month higher, less the days already past. */
  lemma {:induction false} LaterMonths(d: Date, e: Date)
    requires ValidDate(d) && ValidDate(e) && MonthIndex(d) < MonthIndex(e)
    ensures Ordinal(e) >= Ordinal(d) + MonthLength(d.year, d.month) - d.day + e.day
            + 28 * (MonthIndex(e) - MonthIndex(d) - 1)
    decreases MonthIndex(e) - MonthIndex(d)
  {
    var next := FirstOfNextMonth(d);
    OrdinalsAreContiguous(d);
    if MonthIndex(next) < MonthIndex(e) {
      LaterMonths(next, e);
    } else {
      assert next.year == e.year && next.month == e.month;
    }
  }

  const LAST_DAY: Date := Date(9999, 12, 31)

  lemma LastDayIsLast(d: Date)
    requires ValidDate(d)
    ensures Ordinal(d) <= Ordinal(LAST_DAY)
  {
    if MonthIndex(d) < MonthIndex(LAST_DAY) {
      LaterMonths(d, LAST_DAY);
    } else {
      assert d.year == 9999 && d.month == 12;
    }
  }

  /** `date + timedelta(days=n)`; None when the result would be past the last representable day. */
  function PlusDays(d: Date, n: nat): (r: Option<Date>)
    requires ValidDate(d)
    ensures r.Some? ==> ValidDate(r.value) && Ordinal(r.value) == Ordinal(d) + n
    ensures r.None? <==> Ordinal(d) + n > Ordinal(LAST_DAY)
    decreases n
  {
    OrdinalsAreContiguous(d);
    LastDayIsLast(d);
    var length := MonthLength(d.year, d.month);
    if d.day + n <= length then
      LastDayIsLast(d.(day := d.day + n));
      Some(d.(day := d.day + n))
    else if d.year == MAX_YEAR && d.month == 12 then None
    else PlusDays(FirstOfNextMonth(d), n - (length - d.day + 1))
  }

  // ----- recurrence rules -----

  datatype Frequency = Daily | Weekly | Monthly | Unsupported

  datatype Rule = Rule(frequency: Frequency, interval: int)

  /** The date interval months on, on the same day or the last day of a shorter month. */
  function PlusMonths(d: Date, n: nat): Option<Date> {
    var index := MonthIndex(d) + n;
    var year, month := index / 12, index % 12 + 1;
    var length := MonthLength(year, month);
    if year > MAX_YEAR then None
    else Some(Date(year, month, if d.day <= length then d.day else length))
  }

  function NextDate(d: Date, rule: Rule): Option<Date>
    requires ValidDate(d)
  {
    if rule.interval < 1 || rule.interval > 365 then None
    else match rule.frequency
      case Daily => PlusDays(d, rule.interval)
      case Weekly => PlusDays(d, 7 * rule.interval)
      case Monthly => PlusMonths(d, rule.interval)
      case Unsupported => None
  }

  /** The next occurrence, or None where the source raises. */
  function NextRecurrence(value: Moment, rule: Rule): Option<Moment>
    requires ValidMoment(value)
  {
    var next := NextDate(value.date, rule);
    if next.Some? then Some(Moment(next.value, value.time)) else None
  }

  function Instant(m: Moment): int
    requires ValidMoment(m)
  {
    Ordinal(m.date) * MICROSECONDS_A_DAY + m.time
  }

  /** A recurrence is a valid date at the same time of day, strictly later; a month is at least 28 days. */
  lemma RecurrenceIsLater(value: Moment, rule: Rule)
    requires ValidMoment(value) && NextRecurrence(value, rule).Some?
    ensures var next := NextRecurrence(value, rule).value;
            && ValidMoment(next) && next.time == value.time
            && Instant(value) + MICROSECONDS_A_DAY <= Instant(next)
            && Ordinal(next.date) - Ordinal(value.date) >= (match rule.frequency
                 case Weekly => 7 * rule.interval
                 case Monthly => 28 * rule.interval
                 case _ => rule.interval)
            && (rule.frequency != Monthly ==>
                  Ordinal(next.date) - Ordinal(value.date) ==
                    if rule.frequency == Weekly then 7 * rule.interval else rule.interval)
  {
    var next := NextRecurrence(value, rule).value;
    if rule.frequency == Monthly {
      assert MonthIndex(next.date) == MonthIndex(value.date) + rule.interval;
      LaterMonths(value.date, next.date);
    }
  }

  /** The moment n occurrences after value. */
  function Occurrence(value: Moment, rule: Rule, n: nat): (r: Option<Moment>)
    requires ValidMoment(value)
    ensures r.Some? ==> ValidMoment(r.value)
  {
    if n == 0 then Some(value)
    else
      var before := Occurrence(value, rule, n - 1);
      if before.None? || NextRecurrence(before.value, rule).None? then None
      else
        RecurrenceIsLater(before.value, rule);
        NextRecurrence(before.value, rule)
  }

  /** The last day of the calendar is day 3652059. */
  lemma LastOrdinal()
    ensures Ordinal(LAST_DAY) == 3_652_059
  {
    OrdinalIsClosed(LAST_DAY);
  }

  /**
   * A rule has a next occurrence exactly when its interval is in range, its frequency is supported and
   * the calendar goes that far; days and weeks are then counted out exactly.
   */
  lemma RecurrenceExistsExactlyWhen(value: Moment, rule: Rule)
    requires ValidMoment(value)
    ensures var r, day := NextRecurrence(value, rule), Ordinal(value.date);
            && (r.Some? <==>
                  && 1 <= rule.interval <= 365
                  && match rule.frequency
                     case Daily => day + rule.interval <= 3_652_059
                     case Weekly => day + 7 * rule.interval <= 3_652_059
                     case Monthly => value.date.year * 12 + value.date.month - 1 + rule.interval < 120_000
                     case Unsupported => false)
            && (r.Some? && rule.frequency == Daily ==>
                  Instant(r.value) == Instant(value) + rule.interval * (24 * 60 * 60 * 1_000_000))
            && (r.Some? && rule.frequency == Weekly ==>
                  Instant(r.value) == Instant(value) + 7 * rule.interval * (24 * 60 * 60 * 1_000_000))
  {
    LastOrdinal();
    hide Ordinal;
  }

  function LengthAt(index: int): int {
    MonthLength(index / 12, index % 12 + 1)
  }

  /** The length of the month the k-th monthly occurrence falls in. */
  function VisitedLength(start: Date, interval: nat, k: nat): int {
    LengthAt(MonthIndex(start) + k * interval)
  }

  lemma MonthlyStep(value: Moment, interval: nat)
    requires ValidMoment(value) && 1 <= interval <= 365
    ensures var r := NextRecurrence(value, Rule(Monthly, interval));
            var index := MonthIndex(value.date) + interval;
            && (r.Some? <==> index < (MAX_YEAR + 1) * 12)
            && (r.Some? ==>
                  && MonthIndex(r.value.date) == index && r.value.time == value.time
                  && r.value.date.day == if value.date.day <= LengthAt(index) then value.date.day else LengthAt(index))
  {
  }

  /**
   * n monthly steps land exactly n intervals of months on, on the least of the starting day and the
   * lengths of all months visited, and fail exactly when that month is past the last year.
   */
  lemma {:induction false} MonthlyOccurrences(value: Moment, interval: nat, n: nat)
    requires ValidMoment(value) && 1 <= interval <= 365
    ensures var r := Occurrence(value, Rule(Monthly, interval), n);
            && (r.Some? <==> MonthIndex(value.date) + n * interval < (MAX_YEAR + 1) * 12)
            && (r.Some? ==>
                  var d := r.value.date;
                  && r.value.time == value.time
                  && MonthIndex(d) == MonthIndex(value.date) + n * interval
                  && d.day <= value.date.day
                  && (forall k :: 1 <= k <= n ==> d.day <= VisitedLength(value.date, interval, k))
                  && (d.day == value.date.day ||
                      exists k :: 1 <= k <= n && d.day == VisitedLength(value.date, interval, k)))
  {
    hide NextRecurrence, LengthAt, VisitedLength, ValidMoment;
    if n > 0 {
      MonthlyOccurrences(value, interval, n - 1);
      assert n * interval == (n - 1) * interval + interval;
      var before := Occurrence(value, Rule(Monthly, interval), n - 1);
      if before.Some? {
        MonthlyStep(before.value, interval);
        VisitedAt(value.date, interval, n);
      }
    } else {
      assert MonthIndex(value.date) < (MAX_YEAR + 1) * 12 by { StartsInRange(value); }
    }
  }

  lemma VisitedAt(start: Date, interval: nat, n: nat)
    ensures VisitedLength(start, interval, n) == LengthAt(MonthIndex(start) + n * interval)
  {
  }

  lemma StartsInRange(value: Moment)
    requires ValidMoment(value)
    ensures MonthIndex(value.date) < (MAX_YEAR + 1) * 12
  {
  }

  /** The first occurrence due after now; None where stepping there raises. */
  function CaughtUp(due: Moment, rule: Rule, now: int): (r: Option<Moment>)
    requires ValidMoment(due)
    ensures r.Some? ==> ValidMoment(r.value) && Instant(r.value) > now
    decreases Ordinal(LAST_DAY) - Ordinal(due.date)
  {
    LastDayIsLast(due.date);
    var following := NextRecurrence(due, rule);
    if Instant(due) > now then Some(due)
    else if following.None? then None
    else
      RecurrenceIsLater(due, rule);
      LastDayIsLast(following.value.date);
      CaughtUp(following.value, rule, now)
  }

  /** `next` is the first occurrence of the rule, counted from `due`, that is after now. */
  ghost predicate FirstAfter(due: Moment, rule: Rule, now: int, next: Moment)
    requires ValidMoment(due)
  {
    exists steps: nat ::
      && Occurrence(due, rule, steps) == Some(next) && Instant(next) > now
      && NoneAfter(due, rule, now, steps)
  }

  ghost predicate NoneAfter(due: Moment, rule: Rule, now: int, steps: nat)
    requires ValidMoment(due)
  {
    forall k: nat :: k < steps ==> Occurrence(due, rule, k).Some? && Instant(Occurrence(due, rule, k).value) <= now
  }

  /** Occurrences that are not after now are stepped over. */
  lemma {:induction false} CaughtUpSkips(due: Moment, rule: Rule, now: int, n: nat)
    requires ValidMoment(due) && Occurrence(due, rule, n).Some? && NoneAfter(due, rule, now, n)
    ensures CaughtUp(Occurrence(due, rule, n).value, rule, now) == CaughtUp(due, rule, now)
  {
    hide NextRecurrence, Instant;
    if n > 0 { CaughtUpSkips(due, rule, now, n - 1); }
  }

  lemma LaterIsCloser(m: Moment, rule: Rule)
    requires ValidMoment(m) && NextRecurrence(m, rule).Some?
    ensures ValidMoment(NextRecurrence(m, rule).value)
    ensures Ordinal(m.date) < Ordinal(NextRecurrence(m, rule).value.date) <= Ordinal(LAST_DAY)
  {
    RecurrenceIsLater(m, rule);
    LastDayIsLast(NextRecurrence(m, rule).value.date);
  }

  lemma {:induction false} CaughtUpIsAhead(due: Moment, rule: Rule, now: int, n: nat)
    requires ValidMoment(due) && Occurrence(due, rule, n).Some? && NoneAfter(due, rule, now, n)
    requires CaughtUp(due, rule, now).Some?
    ensures FirstAfter(due, rule, now, CaughtUp(due, rule, now).value)
    decreases Ordinal(LAST_DAY) - Ordinal(Occurrence(due, rule, n).value.date)
  {
    hide NextRecurrence, Ordinal, Instant, ValidMoment;
    var current := Occurrence(due, rule, n).value;
    CaughtUpSkips(due, rule, now, n);
    if Instant(current) <= now {
      LaterIsCloser(current, rule);
      assert Occurrence(due, rule, n + 1) == NextRecurrence(current, rule);
      CaughtUpIsAhead(due, rule, now, n + 1);
    }
  }

  /** Catching up finds exactly the first occurrence after now. */
  lemma CaughtUpIsFirst(due: Moment, rule: Rule, now: int, next: Moment)
    requires ValidMoment(due)
    ensures CaughtUp(due, rule, now) == Some(next) <==> FirstAfter(due, rule, now, next)
  {
    hide NextRecurrence;
    if CaughtUp(due, rule, now) == Some(next) { CaughtUpIsAhead(due, rule, now, 0); }
    if FirstAfter(due, rule, now, next) {
      var steps: nat :| Occurrence(due, rule, steps) == Some(next) && Instant(next) > now
                        && NoneAfter(due, rule, now, steps);
      CaughtUpSkips(due, rule, now, steps);
    }
  }

  /** Steps a missed recurrence forward, one occurrence at a time, until it is due after now. */
  method CatchUp(due: Moment, rule: Rule, now: int) returns (next: Option<Moment>, steps: nat)
    requires ValidMoment(due)
    ensures next == CaughtUp(due, rule, now) == Occurrence(due, rule, steps)
    ensures next.Some? ==> Instant(next.value) > now
    ensures forall k :: 0 <= k < steps ==>
              Occurrence(due, rule, k).Some? && Instant(Occurrence(due, rule, k).value) <= now
  {
    hide NextRecurrence, Ordinal;
    var current := due;
    steps := 0;
    while Instant(current) <= now
      invariant ValidMoment(current) && Occurrence(due, rule, steps) == Some(current)
      invariant CaughtUp(current, rule, now) == CaughtUp(due, rule, now)
      invariant forall k :: 0 <= k < steps ==>
                  Occurrence(due, rule, k).Some? && Instant(Occurrence(due, rule, k).value) <= now
      decreases Ordinal(LAST_DAY) - Ordinal(current.date)
    {
      LastDayIsLast(current.date);
      steps := steps + 1;
      var following := NextRecurrence(current, rule);
      if following.None? {
        return None, steps;
      }
      RecurrenceIsLater(current, rule);
      LastDayIsLast(following.value.date);
      current := following.value;
    }
    next := Some(current);
  }
}
