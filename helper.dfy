/** The date rules of src/utils/helper.js: the urgency tier of a due date, whether a
    date is past, and whether a string is a canonical `YYYY-MM-DD` date.

    A date is a day number (days since 1970-01-01) and an instant is a timestamp in
    milliseconds since 1970-01-01T00:00:00Z; the reading of the clock (`new Date()`)
    is the `today` or `now` parameter. */
module Helper {
  import opened Api
  import opened Js

  type Day = int

  /** 1000 * 60 * 60 * 24 */
  const MsPerDay: int := 86_400_000

  /** The instant a stored due date denotes: midnight at the start of its day. */
  function StartOfDay(d: Day): int {
    d * MsPerDay
  }

  /** The day an instant falls on. */
  function DayOf(now: int): Day {
    now / MsPerDay
  }

  /** A stored due date has passed at `now` exactly when its day is today or earlier. */
  lemma DueInstantReached(d: Day, now: int)
    ensures StartOfDay(d) <= now <==> d <= DayOf(now)
  {
  }

  /** The instant `setHours(23, 59, 59, 999)` moves a date on day `d` to. */
  function EndOfDay(d: Day): int {
    d * MsPerDay + MsPerDay - 1
  }

  /** Math.ceil(ms / (1000 * 60 * 60 * 24)) */
  function CeilDays(ms: int): (n: int)
    ensures (n - 1) * MsPerDay < ms <= n * MsPerDay
  {
    -((-ms) / MsPerDay)
  }

  /** `diffDays` of calculateTaskPriority: both dates are pinned to the same time of
      day, so it is the difference of the two day numbers whatever the hour. */
  function DiffDays(due: Day, today: Day): (n: int)
    ensures n == due - today
  {
    CeilDays(EndOfDay(due) - EndOfDay(today))
  }

  /** calculateTaskPriority: the urgency tier of a task due on `due` when the clock
      reads a moment of day `today`. */
  function CalculateTaskPriority(due: Day, today: Day): (tier: int)
    ensures 0 <= tier <= 3
    ensures tier == 0 <==> due == today
    ensures due < today ==> tier == 1
  {
    var diffDays := DiffDays(due, today);
    if diffDays == 0 then 0
    else if diffDays <= 2 then 1
    else if diffDays <= 4 then 2
    else 3
  }

  /** The tiers of the days ahead: tomorrow and the day after are 1, the next two
      days 2, anything later 3. */
  lemma PriorityBands(due: Day, today: Day)
    ensures 1 <= due - today <= 2 ==> CalculateTaskPriority(due, today) == 1
    ensures 3 <= due - today <= 4 ==> CalculateTaskPriority(due, today) == 2
    ensures due - today >= 5 ==> CalculateTaskPriority(due, today) == 3
  {
  }

  /** Among dates that are not past, a later due date never gets a lower tier. */
  lemma PriorityMonotone(due1: Day, due2: Day, today: Day)
    requires today <= due1 <= due2
    ensures CalculateTaskPriority(due1, today) <= CalculateTaskPriority(due2, today)
  {
  }

  /** isNotPastDate: both dates pinned to the end of their day and compared. */
  function IsNotPastDate(due: Day, today: Day): (r: bool)
    ensures r <==> due >= today
    ensures r <==> DiffDays(due, today) >= 0
  {
    EndOfDay(due) >= EndOfDay(today)
  }

  /** A past date always lands in tier 1, never in 0 or 3. */
  lemma PastDateTier(due: Day, today: Day)
    ensures !IsNotPastDate(due, today) ==> CalculateTaskPriority(due, today) == 1
  {
  }

  // ---------------------------------------------------------------- the calendar

  datatype CalendarDate = CalendarDate(year: int, month: int, day: int)

  predicate IsLeapYear(y: int) {
    y % 4 == 0 && (y % 100 != 0 || y % 400 == 0)
  }

  function DaysInMonth(y: int, m: int): (n: int)
    requires 1 <= m <= 12
    ensures 28 <= n <= 31
  {
    if m == 2 then (if IsLeapYear(y) then 29 else 28)
    else if m == 4 || m == 6 || m == 9 || m == 11 then 30
    else 31
  }

  /** A real date of the proleptic Gregorian calendar with a four-digit year. */
  predicate IsCalendarDate(d: CalendarDate) {
    && 0 <= d.year <= 9999
    && 1 <= d.month <= 12
    && 1 <= d.day <= DaysInMonth(d.year, d.month)
  }

  /** Days from 0000-01-01 to the first day of year `y`. */
  function DaysBeforeYear(y: nat): nat {
    365 * y + (y + 3) / 4 - (y + 99) / 100 + (y + 399) / 400
  }

  /** Days from the first day of year `y` to the first day of month `m`. */
  function DaysBeforeMonth(y: int, m: int): nat
    requires 1 <= m <= 12
  {
    if m == 1 then 0 else DaysBeforeMonth(y, m - 1) + DaysInMonth(y, m - 1)
  }

  /** The day number of a date, counting from 1970-01-01. Days past the end of the
      month continue into the next one, as JavaScript's MakeDay counts them. */
  function DayNumber(d: CalendarDate): Day
    requires 0 <= d.year && 1 <= d.month <= 12
  {
    DaysBeforeYear(d.year) + DaysBeforeMonth(d.year, d.month) + d.day - 1 - DaysBeforeYear(1970)
  }

  function NextDate(d: CalendarDate): CalendarDate
    requires IsCalendarDate(d)
  {
    if d.day < DaysInMonth(d.year, d.month) then d.(day := d.day + 1)
    else if d.month < 12 then CalendarDate(d.year, d.month + 1, 1)
    else CalendarDate(d.year + 1, 1, 1)
  }

  /** Euclidean division is unique: a quotient and remainder in range are the ones `/` gives. */
  lemma DivUnique(x: int, k: int, a: int, b: int)
    requires k > 0 && x == a * k + b && 0 <= b < k
    ensures x / k == a
  {
    var d := x / k - a;
    assert d * k == b - x % k;
    MulBounds(d, k);
  }

  lemma MulBounds(d: int, k: int)
    requires k > 0
    ensures d >= 1 ==> d * k >= k
    ensures d <= -1 ==> d * k <= -k
  {
    assert (d - 1) * k == d * k - k;
    assert (d + 1) * k == d * k + k;
  }

  /** Multiples of `k` counted up to `y + k` exceed those counted up to `y + k - 1` by one
      exactly when `y` is a multiple of `k`. */
  lemma StepDiv(y: nat, k: nat)
    requires k > 0
    ensures (y + k) / k - (y + k - 1) / k == if y % k == 0 then 1 else 0
  {
    var q, r := y / k, y % k;
    DivUnique(y + k, k, q + 1, r);
    if r == 0 {
      DivUnique(y + k - 1, k, q, k - 1);
    } else {
      DivUnique(y + k - 1, k, q + 1, r - 1);
    }
  }

  /** Leap days counted by DaysBeforeYear: one more by the next year exactly when
      the year is divisible by the step. */
  lemma LeapStep(y: nat)
    ensures (y + 4) / 4 - (y + 3) / 4 == if y % 4 == 0 then 1 else 0
    ensures (y + 100) / 100 - (y + 99) / 100 == if y % 100 == 0 then 1 else 0
    ensures (y + 400) / 400 - (y + 399) / 400 == if y % 400 == 0 then 1 else 0
    ensures y % 100 == 0 ==> y % 4 == 0
    ensures y % 400 == 0 ==> y % 100 == 0
  {
    StepDiv(y, 4);
    StepDiv(y, 100);
    StepDiv(y, 400);
    if y % 100 == 0 {
      DivUnique(y, 4, 25 * (y / 100), 0);
    }
    if y % 400 == 0 {
      DivUnique(y, 100, 4 * (y / 400), 0);
    }
  }

  lemma DaysInYear(y: nat)
    ensures DaysBeforeYear(y + 1) - DaysBeforeYear(y) == if IsLeapYear(y) then 366 else 365
  {
    LeapStep(y);
  }

  lemma DaysBeforeDecember(y: int)
    ensures DaysBeforeMonth(y, 12) + 31 == if IsLeapYear(y) then 366 else 365
  {
    var leap := if IsLeapYear(y) then 1 else 0;
    assert DaysBeforeMonth(y, 2) == 31;
    assert DaysBeforeMonth(y, 3) == 59 + leap;
    assert DaysBeforeMonth(y, 4) == 90 + leap;
    assert DaysBeforeMonth(y, 5) == 120 + leap;
    assert DaysBeforeMonth(y, 6) == 151 + leap;
    assert DaysBeforeMonth(y, 7) == 181 + leap;
    assert DaysBeforeMonth(y, 8) == 212 + leap;
    assert DaysBeforeMonth(y, 9) == 243 + leap;
    assert DaysBeforeMonth(y, 10) == 273 + leap;
    assert DaysBeforeMonth(y, 11) == 304 + leap;
  }

  /** Day numbers count days: 1970-01-01 is day 0 and the next calendar date is the
      next day number. */
  lemma DayNumberCountsDays(d: CalendarDate)
    requires IsCalendarDate(d)
    ensures DayNumber(CalendarDate(1970, 1, 1)) == 0
    ensures DayNumber(NextDate(d)) == DayNumber(d) + 1
  {
    if d.day == DaysInMonth(d.year, d.month) && d.month == 12 {
      DaysInYear(d.year);
      DaysBeforeDecember(d.year);
    }
  }

  // ---------------------------------------------------------------- date strings

  /** Four digits, a dash, two digits, a dash, two digits. */
  predicate HasDateShape(s: string) {
    && |s| == 10
    && s[4] == '-' && s[7] == '-'
    && AllDigits(s[0..4]) && AllDigits(s[5..7]) && AllDigits(s[8..10])
  }

  /** The year, month and day fields of a string of date shape, as written. */
  function DateFields(s: string): CalendarDate
    requires HasDateShape(s)
  {
    CalendarDate(DigitsValue(s[0..4]), DigitsValue(s[5..7]), DigitsValue(s[8..10]))
  }

  /** A day of 1 to 31 past the end of its month moves into the next month. */
  function RollOver(y: int, m: int, d: int): (r: CalendarDate)
    requires 0 <= y <= 9999 && 1 <= m <= 12 && 1 <= d <= 31
    ensures IsCalendarDate(r)
    ensures DayNumber(r) == DayNumber(CalendarDate(y, m, d))
  {
    if d <= DaysInMonth(y, m) then CalendarDate(y, m, d)
    else CalendarDate(y, m + 1, d - DaysInMonth(y, m))
  }

  /** `new Date(s)` for the date-only ISO form: a month of 1 to 12 and a day of 1 to
      31 are accepted, and a day past the end of its month rolls over; None stands
      for an Invalid Date. */
  function ParseDate(s: string): (r: Option<CalendarDate>)
    ensures r.Some? <==> HasDateShape(s) && 1 <= DateFields(s).month <= 12 && 1 <= DateFields(s).day <= 31
    ensures r.Some? ==> IsCalendarDate(r.value) && DayNumber(r.value) == DayNumber(DateFields(s))
  {
    if !HasDateShape(s) then None
    else
      var f := DateFields(s);
      if 1 <= f.month <= 12 && 1 <= f.day <= 31 then Some(RollOver(f.year, f.month, f.day))
      else None
  }

  /** `toISOString().slice(0, 10)`: the date as `YYYY-MM-DD`. */
  function Render(d: CalendarDate): (s: string)
    requires IsCalendarDate(d)
    ensures HasDateShape(s) && DateFields(s) == d
  {
    var y, m, dd := PadDigits(d.year, 4), PadDigits(d.month, 2), PadDigits(d.day, 2);
    JoinDateParts(y, m, dd);
    y + "-" + m + "-" + dd
  }

  /** The fields of a joined `YYYY-MM-DD` string sit at fixed positions. */
  lemma JoinDateParts(y: string, m: string, d: string)
    requires |y| == 4 && |m| == 2 && |d| == 2
    ensures var s := y + "-" + m + "-" + d;
            |s| == 10 && s[4] == '-' && s[7] == '-' && s[0..4] == y && s[5..7] == m && s[8..10] == d
  {
  }

  /** isValidDate: the string parses to a date whose canonical rendering is the
      string itself, which is then read field for field. */
  predicate IsValidDate(s: string): (b: bool)
    ensures b ==> HasDateShape(s) && ParseDate(s) == Some(DateFields(s))
  {
    match ParseDate(s)
    case None => false
    case Some(d) => Render(d) == s
  }

  /** A string of date shape is the rendering of its own fields. */
  lemma RenderFields(s: string)
    requires HasDateShape(s) && IsCalendarDate(DateFields(s))
    ensures Render(DateFields(s)) == s
  {
    PadDigitsOfValue(s[0..4]);
    PadDigitsOfValue(s[5..7]);
    PadDigitsOfValue(s[8..10]);
    SplitDateString(s);
  }

  lemma SplitDateString(s: string)
    requires |s| == 10 && s[4] == '-' && s[7] == '-'
    ensures s == s[0..4] + "-" + s[5..7] + "-" + s[8..10]
  {
  }

  /** isValidDate accepts exactly the strings of date shape whose fields form a real
      calendar date: overflowing days, month 0 or 13 and unpadded fields are refused. */
  lemma ValidDateIsCalendarDate(s: string)
    ensures IsValidDate(s) <==> HasDateShape(s) && IsCalendarDate(DateFields(s))
  {
    if HasDateShape(s) && IsCalendarDate(DateFields(s)) {
      RenderFields(s);
    }
  }

  /** Rendering a calendar date and reading it back gives the same date, and the
      rendering is a valid date string. */
  lemma RenderParseRoundTrip(d: CalendarDate)
    requires IsCalendarDate(d)
    ensures ParseDate(Render(d)) == Some(d)
    ensures IsValidDate(Render(d))
  {
  }

  /** A string naming a day past the end of its month, such as February 30, is
      refused, although `new Date` reads it as a date of the next month. */
  lemma OverflowingDayRefused(s: string)
    requires HasDateShape(s)
    requires 1 <= DateFields(s).month <= 12 && DaysInMonth(DateFields(s).year, DateFields(s).month) < DateFields(s).day <= 31
    ensures ParseDate(s).Some? && ParseDate(s).value.month != DateFields(s).month
    ensures !IsValidDate(s)
  {
  }

  /** A month outside 1 to 12 is refused. */
  lemma BadMonthRefused(s: string)
    requires HasDateShape(s) && !(1 <= DateFields(s).month <= 12)
    ensures ParseDate(s).None? && !IsValidDate(s)
  {
  }

  /** Only ten-character strings can be valid: unpadded months or days are refused. */
  lemma ValidDateLength(s: string)
    ensures IsValidDate(s) ==> |s| == 10
  {
  }
}
